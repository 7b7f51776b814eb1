/** The record shapes of a chord progression as the encoder and the
    transposition utilities receive them. */
module Types {

  datatype Option<T> = None | Some(value: T)

  /** Free-text analysis attached to a progression; carried along untouched. */
  datatype TheoryAnalysis = TheoryAnalysis(summary: string, voiceLeading: string, hyperMeter: string)

  /** One chord step. `melodyNotes` is optional because both consumers test it
      for presence before use. `duration` is in whole beats (quarter notes). */
  datatype ChordData = ChordData(
    name: string,
    roman: string,
    notes: seq<string>,
    melodyNotes: Option<seq<string>>,
    duration: nat,
    description: string)

  datatype Progression = Progression(
    title: string,
    description: string,
    theoryAnalysis: Option<TheoryAnalysis>,
    bpm: int,
    key: string,
    chords: seq<ChordData>)

  /** The melody line of a chord, an absent one read as empty. */
  function MelodyOf(c: ChordData): seq<string>
  {
    match c.melodyNotes
    case None => []
    case Some(ms) => ms
  }
}
