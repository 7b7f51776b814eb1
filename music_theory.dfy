/** Pitch-class arithmetic on note and chord names: transposing notes,
    chord roots and whole progressions by a number of semitones. */
module MusicTheory {
  import opened Types
  import opened Decimal
  import opened PitchName

  /** The natural note at or just below pitch class `m`. */
  function NaturalAtOrBelow(m: int): (l: char)
    requires 0 <= m < 12
    ensures 'A' <= l <= 'G'
  {
    if m < 2 then 'C'
    else if m < 4 then 'D'
    else if m < 5 then 'E'
    else if m < 7 then 'F'
    else if m < 9 then 'G'
    else if m < 11 then 'A'
    else 'B'
  }

  /** Pitch class `m` spelled with a natural or a sharp, in a given octave. */
  function SpelledPitch(m: int, octave: int): (p: Pitch)
    requires 0 <= m < 12
    ensures 'A' <= p.letter <= 'G' && p.accidental != Flat
  {
    var l := NaturalAtOrBelow(m);
    Pitch(l, if LetterOffset(l) == m then Natural else Sharp, octave)
  }

  /** The twelve pitch classes, spelled with sharps, from C. */
  const Notes: seq<string> := ["C", "C#", "D", "D#", "E", "F", "F#", "G", "G#", "A", "A#", "B"]

  /** The name of pitch class `m` spelled by rule: its letter, then `#` when
      the letter alone is a semitone short. NotesEntry shows this is entry
      `m` of the table. */
  function SpelledNote(m: int): string
    requires 0 <= m < 12
  {
    NoteText(SpelledPitch(m, 0))
  }

  /** Entry `m` of the table is pitch class `m` spelled by rule. */
  lemma NotesEntry(m: int)
    requires 0 <= m < 12
    ensures Notes[m] == SpelledNote(m)
  {
  }

  /** Table entry `m` spells pitch class `m`: its letter offset plus its
      accidental is `m`, in every octave. */
  lemma SpelledPitchClass(m: int, octave: int)
    requires 0 <= m < 12
    ensures NoteText(SpelledPitch(m, octave)) == Notes[m]
    ensures LetterOffset(SpelledPitch(m, octave).letter) + AccidentalShift(SpelledPitch(m, octave).accidental) == m
  {
    NotesEntry(m);
  }

  lemma NotesDistinct()
    ensures |Notes| == 12
    ensures forall i, j :: 0 <= i < j < |Notes| ==> Notes[i] != Notes[j]
  {
    forall i, j | 0 <= i < j < 12
      ensures Notes[i] != Notes[j]
    {
      SpelledPitchClass(i, 0);
      SpelledPitchClass(j, 0);
      assert |Notes[i]| != |Notes[j]| || Notes[i][0] != Notes[j][0];
    }
  }

  /** `Array.prototype.indexOf`: the first position holding `x`, or -1. */
  function IndexOf(xs: seq<string>, x: string): (r: int)
    ensures -1 <= r < |xs|
  {
    if |xs| == 0 then -1
    else if xs[0] == x then 0
    else
      var r := IndexOf(xs[1..], x);
      if r == -1 then -1 else r + 1
  }

  /** indexOf finds the first occurrence, and -1 exactly when there is none. */
  lemma {:induction false} IndexOfFirst(xs: seq<string>, x: string)
    ensures IndexOf(xs, x) == -1 <==> x !in xs
    ensures IndexOf(xs, x) >= 0 ==> xs[IndexOf(xs, x)] == x
    ensures forall j :: 0 <= j < IndexOf(xs, x) ==> xs[j] != x
  {
    if |xs| > 0 && xs[0] != x {
      IndexOfFirst(xs[1..], x);
      assert xs == [xs[0]] + xs[1..];
    }
  }

  /** The flats-to-sharps table applied to an upper-cased name; names not in
      the table are left as they are. */
  function SharpSpelling(n: string): string
  {
    if n == "DB" then "C#"
    else if n == "EB" then "D#"
    else if n == "GB" then "F#"
    else if n == "AB" then "G#"
    else if n == "BB" then "A#"
    else n
  }

  /** getNoteIndex exactly as written: upper-case the name, respell it through
      the flats table, then look it up in the table of twelve names. */
  function TableIndex(note: string): (i: int)
    ensures -1 <= i < 12
    ensures i == -1 <==> SharpSpelling(UpperString(note)) !in Notes
    ensures i >= 0 ==> Notes[i] == SharpSpelling(UpperString(note))
  {
    IndexOfFirst(Notes, SharpSpelling(UpperString(note)));
    IndexOf(Notes, SharpSpelling(UpperString(note)))
  }

  /** The pitch class of a letter and accidental as the letter offsets of
      noteNameToMidi give it, except for the four spellings the flats table
      does not know (Cb, Fb, E#, B#), which have none. */
  function PitchClass(l: char, a: Accidental): (c: int)
    requires 'A' <= l <= 'G'
    ensures -1 <= c < 12
  {
    if (a == Flat && (l == 'C' || l == 'F')) || (a == Sharp && (l == 'E' || l == 'B')) then -1
    else LetterOffset(l) + AccidentalShift(a)
  }

  /** getNoteIndex by cases on the upper-cased name: a letter, optionally
      followed by `#` or by `B` (an upper-cased flat), has the pitch class of
      that spelling; anything else has none (-1). NoteIndexIsTableLookup
      shows this is the table lookup above for every string. */
  function NoteIndex(note: string): (i: int)
    ensures -1 <= i < 12
  {
    if |note| == 0 || |note| > 2 || !('A' <= Upper(note[0]) <= 'G') then -1
    else if |note| == 1 then PitchClass(Upper(note[0]), Natural)
    else if note[1] == '#' then PitchClass(Upper(note[0]), Sharp)
    else if Upper(note[1]) == 'B' then PitchClass(Upper(note[0]), Flat)
    else -1
  }

  function UpperAccidentalText(a: Accidental): string
  {
    match a
    case Natural => ""
    case Sharp => "#"
    case Flat => "B"
  }

  lemma UpperNoteText(p: Pitch)
    ensures UpperString(NoteText(p)) == [Upper(p.letter)] + UpperAccidentalText(p.accidental)
  {
  }

  /** Every table entry is a letter, possibly followed by `#`. */
  lemma NotesShape(m: int)
    requires 0 <= m < 12
    ensures |Notes[m]| == 1 || (|Notes[m]| == 2 && Notes[m][1] == '#')
    ensures 'A' <= Notes[m][0] <= 'G'
  {
    SpelledPitchClass(m, 0);
  }

  /** The upper-cased spelling of a known letter and accidental, flats read as
      sharps, is the table entry of its pitch class; the four others are not
      in the table. */
  lemma SharpSpellingOf(l: char, a: Accidental)
    requires 'A' <= l <= 'G'
    ensures PitchClass(l, a) >= 0 ==> SharpSpelling([l] + UpperAccidentalText(a)) == Notes[PitchClass(l, a)]
    ensures PitchClass(l, a) == -1 ==> SharpSpelling([l] + UpperAccidentalText(a)) !in Notes
  {
    var c := PitchClass(l, a);
    var u := [l] + UpperAccidentalText(a);
    if c >= 0 {
      SpelledPitchClass(c, 0);
      if a == Flat {
        if l == 'D' { assert u == "DB"; }
        else if l == 'E' { assert u == "EB"; }
        else if l == 'G' { assert u == "GB"; }
        else if l == 'A' { assert u == "AB"; }
        else { assert u == "BB"; }
      }
    } else {
      assert SharpSpelling(u) == u by {
        assert u[0] == 'C' || u[0] == 'F' || u[1] == '#';
      }
      forall m | 0 <= m < 12
        ensures Notes[m] != u
      {
        SpelledPitchClass(m, 0);
        NotesShape(m);
        assert |Notes[m]| != |u| || Notes[m][0] != u[0] || Notes[m][1] != u[1];
      }
    }
  }

  /** Each table entry is found at its own position. */
  lemma NotesIndexOf(j: int)
    requires 0 <= j < 12
    ensures IndexOf(Notes, Notes[j]) == j
  {
    NotesDistinct();
    IndexOfFirst(Notes, Notes[j]);
  }

  /** A name outside the table's shapes (a letter, then optionally `#` or
      `B`) is not found, even after respelling. */
  lemma LookupOther(n: string)
    requires |n| == 0 || |n| > 2 || !('A' <= n[0] <= 'G') || (|n| == 2 && n[1] != '#' && n[1] != 'B')
    ensures IndexOf(Notes, SharpSpelling(n)) == -1
  {
    assert SharpSpelling(n) == n;
    forall m | 0 <= m < 12
      ensures Notes[m] != n
    {
      NotesShape(m);
    }
    IndexOfFirst(Notes, n);
  }

  /** A letter and accidental, upper-cased, is found at its pitch class, or
      not at all for the four spellings the flats table does not know. */
  lemma LookupSpelling(l: char, a: Accidental)
    requires 'A' <= l <= 'G'
    ensures IndexOf(Notes, SharpSpelling([l] + UpperAccidentalText(a))) == PitchClass(l, a)
  {
    var n := [l] + UpperAccidentalText(a);
    SharpSpellingOf(l, a);
    var c := PitchClass(l, a);
    if c >= 0 {
      NotesIndexOf(c);
    } else {
      IndexOfFirst(Notes, SharpSpelling(n));
    }
  }

  /** Only a one- or two-character name starting with a note letter, in
      either case, has a pitch class. */
  lemma NoteIndexDomain(note: string)
    ensures NoteIndex(note) >= 0 ==> 1 <= |note| <= 2 && IsNoteLetter(note[0])
  {
  }

  /** The case analysis agrees with the source's table lookup on every string. */
  lemma NoteIndexIsTableLookup(note: string)
    ensures NoteIndex(note) == TableIndex(note)
  {
    var n := UpperString(note);
    assert |n| == |note|;
    if |n| == 0 || |n| > 2 || !('A' <= n[0] <= 'G') || (|n| == 2 && n[1] != '#' && n[1] != 'B') {
      LookupOther(n);
    } else {
      var a := if |n| == 1 then Natural else if n[1] == '#' then Sharp else Flat;
      assert NoteIndex(note) == PitchClass(n[0], a);
      assert n == [n[0]] + UpperAccidentalText(a);
      LookupSpelling(n[0], a);
    }
  }

  /** getNoteIndex on the note part of a pitch name is the pitch class above. */
  lemma NoteIndexOfPitch(p: Pitch)
    requires IsNoteLetter(p.letter)
    ensures NoteIndex(NoteText(p)) == PitchClass(Upper(p.letter), p.accidental)
  {
  }

  /** A rule-spelled name is a capital letter, possibly followed by `#`, and
      getNoteIndex reads it back as its own pitch class. */
  lemma SpelledNoteShape(m: int)
    requires 0 <= m < 12
    ensures |SpelledNote(m)| == 1 || (|SpelledNote(m)| == 2 && SpelledNote(m)[1] == '#')
    ensures 'A' <= SpelledNote(m)[0] <= 'G'
    ensures NoteIndex(SpelledNote(m)) == m
  {
    SpelledPitchClass(m, 0);
    NoteIndexOfPitch(SpelledPitch(m, 0));
  }

  /** Each spelling in the table names its own position. */
  lemma NoteIndexOfNotes(j: int)
    requires 0 <= j < 12
    ensures NoteIndex(Notes[j]) == j
  {
    SpelledPitchClass(j, 0);
    NoteIndexOfPitch(SpelledPitch(j, 0));
  }

  /** The five flats the table knows, and the four spellings it does not. */
  lemma NoteIndexFlats()
    ensures NoteIndex("Db") == 1 && NoteIndex("Eb") == 3 && NoteIndex("Gb") == 6
    ensures NoteIndex("Ab") == 8 && NoteIndex("Bb") == 10 && NoteIndex("bb") == 10
    ensures NoteIndex("Cb") == -1 && NoteIndex("Fb") == -1
    ensures NoteIndex("E#") == -1 && NoteIndex("B#") == -1
  {
    NoteIndexOfPitch(Pitch('D', Flat, 0));
    NoteIndexOfPitch(Pitch('E', Flat, 0));
    NoteIndexOfPitch(Pitch('G', Flat, 0));
    NoteIndexOfPitch(Pitch('A', Flat, 0));
    NoteIndexOfPitch(Pitch('B', Flat, 0));
    NoteIndexOfPitch(Pitch('b', Flat, 0));
    NoteIndexOfPitch(Pitch('C', Flat, 0));
    NoteIndexOfPitch(Pitch('F', Flat, 0));
    NoteIndexOfPitch(Pitch('E', Sharp, 0));
    NoteIndexOfPitch(Pitch('B', Sharp, 0));
  }

  /** A spelled pitch is written as its table entry followed by its octave. */
  lemma {:induction false} SpelledPitchText(m: int, octave: int)
    requires 0 <= m < 12
    ensures FormatPitch(SpelledPitch(m, octave)) == Notes[m] + IntText(octave)
  {
    SpelledPitchClass(m, octave);
  }

  /** The pitch class of a parsed note: getNoteIndex of its note text
      (NoteIndexOfPitch), or -1 when the table does not know it. */
  function PitchIndex(p: Pitch): (c: int)
    requires IsNoteLetter(p.letter)
    ensures -1 <= c < 12
  {
    PitchClass(Upper(p.letter), p.accidental)
  }

  /** Semitones of a known pitch above C0: twelve per octave plus its pitch class. */
  function PitchSemitones(p: Pitch): int
    requires IsNoteLetter(p.letter) && PitchIndex(p) != -1
  {
    p.octave * 12 + PitchIndex(p)
  }

  /** The pitch `t` semitones above C0, spelled from the table. */
  function SpelledAt(t: int): (p: Pitch)
    ensures IsNoteLetter(p.letter)
  {
    SpelledPitch(t % 12, t / 12)
  }

  /** transposeNote on a parsed pitch: a known note moves to its pitch class
      plus `k`, with whole octaves carried into the octave number, and is
      spelled from the table; an unknown note has nowhere to go. */
  function MovePitch(p: Pitch, k: int): Option<Pitch>
    requires IsNoteLetter(p.letter)
  {
    var idx := PitchIndex(p);
    if idx == -1 then None
    else Some(SpelledPitch((idx + k) % 12, p.octave + (idx + k) / 12))
  }

  /** Whole octaves move between the octave number and the index unchanged. */
  lemma ShiftOctaves(o: int, r: int)
    ensures (o * 12 + r) % 12 == r % 12
    ensures (o * 12 + r) / 12 == o + r / 12
  {
    var q := r / 12;
    assert r == 12 * q + r % 12;
    assert o * 12 + r == 12 * (o + q) + r % 12;
  }

  /** A spelled pitch has its own pitch class and lies `t` semitones above C0. */
  lemma SpelledAtSemitones(t: int)
    ensures PitchIndex(SpelledAt(t)) == t % 12
    ensures PitchSemitones(SpelledAt(t)) == t
  {
    SpelledPitchClass(t % 12, t / 12);
  }

  /** A known pitch moves to the pitch `k` semitones above it. */
  lemma MovePitchIsSpelledAt(p: Pitch, k: int)
    requires IsNoteLetter(p.letter) && PitchIndex(p) != -1
    ensures MovePitch(p, k) == Some(SpelledAt(PitchSemitones(p) + k))
  {
    ShiftOctaves(p.octave, PitchIndex(p) + k);
  }

  /** Two moves compose into one. */
  lemma MovePitchCompose(p: Pitch, a: int, b: int)
    requires IsNoteLetter(p.letter) && PitchIndex(p) != -1
    ensures MovePitch(p, a).Some?
    ensures MovePitch(MovePitch(p, a).value, b) == MovePitch(p, a + b)
  {
    var t := PitchSemitones(p) + a;
    MovePitchIsSpelledAt(p, a);
    SpelledAtSemitones(t);
    MovePitchIsSpelledAt(SpelledAt(t), b);
    MovePitchIsSpelledAt(p, a + b);
  }

  /** noteNameToMidi counts twelve semitones more than PitchSemitones: C-1 is 0. */
  lemma PitchNumberSemitones(p: Pitch)
    requires IsNoteLetter(p.letter) && PitchIndex(p) != -1
    ensures PitchNumber(p) == PitchSemitones(p) + 12
  {
  }

  /** transposeNote as a value: a pitch name whose note the table knows is
      moved by `k` semitones and written back (SpelledPitchText); anything
      else comes back unchanged. */
  function TransposedNote(s: string, k: int): string
  {
    match ParsePitch(s)
    case None => s
    case Some(p) =>
      match MovePitch(p, k)
      case None => s
      case Some(q) => FormatPitch(q)
  }

  /** A note transposeNote can move: a pitch name whose note is in the table. */
  predicate Transposable(s: string)
  {
    ParsePitch(s).Some? && PitchIndex(ParsePitch(s).value) != -1
  }

  /** Semitone count of a transposable note. */
  function Semitones(s: string): int
    requires Transposable(s)
  {
    PitchSemitones(ParsePitch(s).value)
  }

  /** Text that is not a pitch name, or whose note the table does not know,
      comes back unchanged. */
  lemma {:induction false} TransposedNoteUnchanged(s: string, k: int)
    requires !Transposable(s)
    ensures TransposedNote(s, k) == s
  {
  }

  /** A transposable note moved by `k` is the spelled pitch `k` semitones up. */
  lemma {:induction false} TransposedNoteSpelled(s: string, k: int, t: int)
    requires Transposable(s) && t == Semitones(s) + k
    ensures TransposedNote(s, k) == FormatPitch(SpelledAt(t))
  {
    MovePitchIsSpelledAt(ParsePitch(s).value, k);
  }

  /** A spelled pitch, read back and moved by `k`, is the spelled pitch `k`
      semitones up. */
  lemma {:induction false} TransposedSpelledAt(t: int, k: int, u: int)
    requires u == t + k
    ensures TransposedNote(FormatPitch(SpelledAt(t)), k) == FormatPitch(SpelledAt(u))
  {
    ParseFormatPitch(SpelledAt(t));
    SpelledAtSemitones(t);
    MovePitchIsSpelledAt(SpelledAt(t), k);
  }

  /** The result of transposing is itself transposable, spelled from the
      table, and lies exactly `k` semitones away. */
  lemma {:induction false} TransposedNoteSemitones(s: string, k: int)
    requires Transposable(s)
    ensures Transposable(TransposedNote(s, k))
    ensures Semitones(TransposedNote(s, k)) == Semitones(s) + k
    ensures NoteText(ParsePitch(TransposedNote(s, k)).value) in Notes
  {
    var t := Semitones(s) + k;
    TransposedNoteSpelled(s, k, t);
    ParseFormatPitch(SpelledAt(t));
    SpelledAtSemitones(t);
    SpelledPitchClass(t % 12, t / 12);
  }

  /** Two transpositions compose into one. */
  lemma {:induction false} TransposedNoteCompose(s: string, a: int, b: int)
    requires Transposable(s)
    ensures TransposedNote(TransposedNote(s, a), b) == TransposedNote(s, a + b)
  {
    var t := Semitones(s) + a;
    TransposedNoteSpelled(s, a, t);
    TransposedSpelledAt(t, b, t + b);
    TransposedNoteSpelled(s, a + b, t + b);
  }

  /** Transposing back gives the note as transposing by nothing writes it:
      the original with flats turned into sharps and the letter upper-cased. */
  lemma {:induction false} TransposedNoteRoundTrip(s: string, k: int)
    requires Transposable(s)
    ensures TransposedNote(TransposedNote(s, k), -k) == TransposedNote(s, 0)
  {
    var t := Semitones(s) + k;
    TransposedNoteSpelled(s, k, t);
    TransposedSpelledAt(t, -k, Semitones(s));
    TransposedNoteSpelled(s, 0, Semitones(s));
  }

  /** Transposing a note by `k` moves the encoder's MIDI number by `k`. */
  lemma {:induction false} TransposedNoteMidi(s: string, k: int)
    requires Transposable(s)
    ensures NoteNameToMidi(TransposedNote(s, k)) == NoteNameToMidi(s) + k
  {
    var t := Semitones(s) + k;
    TransposedNoteSpelled(s, k, t);
    MidiOfFormatPitch(SpelledAt(t));
    SpelledAtSemitones(t);
    PitchNumberSemitones(SpelledAt(t));
    PitchNumberSemitones(ParsePitch(s).value);
  }

  /** Once the index is back in 0 .. 11, the table entry at the index and the
      octave number write the transposed note. */
  lemma NormalisedIndex(s: string, k: int, newIndex: int, octave: int)
    requires Transposable(s) && 0 <= newIndex < 12
    requires octave * 12 + newIndex == Semitones(s) + k
    ensures Notes[newIndex] + IntText(octave) == TransposedNote(s, k)
  {
    SpelledPitchText(newIndex, octave);
    ShiftOctaves(octave, newIndex);
    TransposedNoteSpelled(s, k, octave * 12 + newIndex);
  }

  /** transposeNote: the same steps as the source, with the two normalising
      loops moving whole octaves between the index and the octave number. */
  method TransposeNote(noteObj: string, semitones: int) returns (r: string)
    ensures r == TransposedNote(noteObj, semitones)
  {
    var m := ParsePitch(noteObj);
    if m.None? {
      return noteObj;
    }
    var note := NoteText(m.value);
    var octave := m.value.octave;
    var noteIdx := NoteIndex(note);
    NoteIndexOfPitch(m.value);
    if noteIdx == -1 {
      return noteObj;
    }
    var newIndex := noteIdx + semitones;
    while newIndex >= 12
      invariant octave * 12 + newIndex == m.value.octave * 12 + noteIdx + semitones
    {
      newIndex := newIndex - 12;
      octave := octave + 1;
    }
    while newIndex < 0
      invariant octave * 12 + newIndex == m.value.octave * 12 + noteIdx + semitones
      invariant newIndex < 12
    {
      newIndex := newIndex + 12;
      octave := octave - 1;
    }
    r := Notes[newIndex] + IntText(octave);
    NormalisedIndex(noteObj, semitones, newIndex, octave);
  }

  /** Worked values: the octave carries both ways. */
  lemma TransposedNoteCarryExamples()
    ensures TransposedNote("B3", 1) == "C4"
    ensures TransposedNote("C4", -1) == "B3"
  {
    assert FormatPitch(Pitch('B', Natural, 3)) == "B3";
    ParseFormatPitch(Pitch('B', Natural, 3));
    TransposedNoteSpelled("B3", 1, 48);
    assert SpelledAt(48) == Pitch('C', Natural, 4);
    assert FormatPitch(Pitch('C', Natural, 4)) == "C4";
    ParseFormatPitch(Pitch('C', Natural, 4));
    TransposedNoteSpelled("C4", -1, 47);
    assert SpelledAt(47) == Pitch('B', Natural, 3);
  }

  /** Worked values: a flat is respelled as a sharp, and notes the table does
      not know, or text that is no note, are left alone. */
  lemma TransposedNoteSpellingExamples()
    ensures TransposedNote("Db3", 0) == "C#3"
    ensures TransposedNote("Cb3", 2) == "Cb3"
    ensures TransposedNote("x", 2) == "x"
  {
    assert FormatPitch(Pitch('D', Flat, 3)) == "Db3";
    ParseFormatPitch(Pitch('D', Flat, 3));
    TransposedNoteSpelled("Db3", 0, 37);
    assert SpelledAt(37) == Pitch('C', Sharp, 3);
    assert FormatPitch(Pitch('C', Sharp, 3)) == "C#3";
    assert FormatPitch(Pitch('C', Flat, 3)) == "Cb3";
    ParseFormatPitch(Pitch('C', Flat, 3));
  }
}
