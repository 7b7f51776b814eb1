/** Scientific pitch notation ("C4", "c#3", "Db-1") and its MIDI note number,
    where middle C (C4) is 60 and C-1 is 0. */
module PitchName {
  import opened Types
  import opened Decimal

  datatype Accidental = Natural | Sharp | Flat

  /** A parsed pitch name: the letter exactly as written (either case), the
      optional `#` or `b`, and the signed octave number. */
  datatype Pitch = Pitch(letter: char, accidental: Accidental, octave: int)

  predicate IsNoteLetter(c: char)
  {
    'a' <= c <= 'g' || 'A' <= c <= 'G'
  }

  /** ASCII `toUpperCase` on one character: the result is never a
      lower-case letter, a lower-case letter becomes the capital of the same
      position in the alphabet (so a note letter stays a note letter), and
      capitals, digits, `#` and `-` are kept. */
  function Upper(c: char): (u: char)
    ensures !('a' <= u <= 'z')
    ensures 'a' <= c <= 'z' ==> 'A' <= u <= 'Z' && u as int - 'A' as int == c as int - 'a' as int
    ensures IsNoteLetter(c) ==> 'A' <= u <= 'G'
    ensures 'A' <= c <= 'Z' || '0' <= c <= '9' || c == '#' || c == '-' ==> u == c
  {
    if 'a' <= c <= 'z' then (c as int - 32) as char else c
  }

  function UpperString(s: string): string
  {
    seq(|s|, i requires 0 <= i < |s| => Upper(s[i]))
  }

  function AccidentalText(a: Accidental): string
  {
    match a
    case Natural => ""
    case Sharp => "#"
    case Flat => "b"
  }

  /** The note part of a pitch name: letter and accidental. */
  function NoteText(p: Pitch): string
  {
    [p.letter] + AccidentalText(p.accidental)
  }

  function FormatPitch(p: Pitch): string
  {
    NoteText(p) + IntText(p.octave)
  }

  /** The language of `^([a-gA-G])(#|b)?(-?\d+)$`, which is also the language
      of `^([a-gA-G][#b]?)(-?\d+)$`: a note letter, at most one `#` or `b`,
      then an optionally negative run of ASCII digits, and nothing else. */
  predicate SignedDigits(t: string)
  {
    IsDigits(t) || (|t| > 1 && t[0] == '-' && IsDigits(t[1..]))
  }

  predicate IsPitchName(s: string)
  {
    && |s| >= 2
    && IsNoteLetter(s[0])
    && (SignedDigits(s[1..]) || ((s[1] == '#' || s[1] == 'b') && SignedDigits(s[2..])))
  }

  /** Matches a pitch name and splits it into its three groups. */
  function ParsePitch(s: string): (r: Option<Pitch>)
    ensures r.Some? ==> IsNoteLetter(r.value.letter)
  {
    if |s| < 2 || !IsNoteLetter(s[0]) then None
    else
      var acc := if s[1] == '#' then Sharp else if s[1] == 'b' then Flat else Natural;
      var rest := if acc == Natural then s[1..] else s[2..];
      match ParseSignedDigits(rest)
      case None => None
      case Some(octave) => Some(Pitch(s[0], acc, octave))
  }

  /** The match succeeds exactly on pitch names, and its groups are the
      note text followed by the octave text. */
  lemma ParsePitchMatches(s: string)
    ensures ParsePitch(s).Some? <==> IsPitchName(s)
    ensures ParsePitch(s).Some? ==>
      var p := ParsePitch(s).value;
      && |NoteText(p)| < |s|
      && s[..|NoteText(p)|] == NoteText(p)
      && ParseSignedDigits(s[|NoteText(p)|..]) == Some(p.octave)
  {
    if |s| >= 2 {
      ParseSignedDigitsMatches(s[1..]);
      ParseSignedDigitsMatches(s[2..]);
      if IsDigits(s[1..]) {
        AllDigitsIndex(s[1..], 0);
      }
    }
  }

  /** Writing a pitch and matching it again gives back the same pitch. */
  lemma ParseFormatPitch(p: Pitch)
    requires IsNoteLetter(p.letter)
    ensures ParsePitch(FormatPitch(p)) == Some(p)
  {
    var s, digits := FormatPitch(p), IntText(p.octave);
    ParseIntText(p.octave);
    IntTextStart(p.octave);
    if p.accidental == Natural {
      assert s == [p.letter] + digits;
      assert s[1..] == digits;
    } else {
      assert s == [p.letter] + AccidentalText(p.accidental) + digits;
      assert s[2..] == digits;
    }
  }

  /** Semitones of a natural note above C. */
  function LetterOffset(c: char): (o: int)
    requires 'A' <= c <= 'G'
    ensures 0 <= o <= 11
  {
    match c
    case 'C' => 0
    case 'D' => 2
    case 'E' => 4
    case 'F' => 5
    case 'G' => 7
    case 'A' => 9
    case 'B' => 11
  }

  function AccidentalShift(a: Accidental): (d: int)
    ensures -1 <= d <= 1
  {
    match a
    case Natural => 0
    case Sharp => 1
    case Flat => -1
  }

  /** MIDI number of a parsed pitch: twelve per octave from C-1 = 0, not
      clamped to 0..127. */
  function PitchNumber(p: Pitch): int
    requires IsNoteLetter(p.letter)
  {
    (p.octave + 1) * 12 + LetterOffset(Upper(p.letter)) + AccidentalShift(p.accidental)
  }

  /** noteNameToMidi: the MIDI number of a pitch name, 60 (middle C) for any
      text that is not one. */
  function NoteNameToMidi(s: string): (r: int)
    ensures !IsPitchName(s) ==> r == 60
    ensures IsPitchName(s) ==> ParsePitch(s).Some?
    ensures IsPitchName(s) ==>
      (ParsePitch(s).value.octave + 1) * 12 - 1 <= r <= (ParsePitch(s).value.octave + 1) * 12 + 12
  {
    ParsePitchMatches(s);
    match ParsePitch(s)
    case None => 60
    case Some(p) => PitchNumber(p)
  }

  /** A pitch name, read off its characters, gives twelve semitones per
      octave from C-1 = 0, plus the offset of its upper-cased first letter,
      plus one for a `#` or minus one for a `b` in second place. */
  lemma NoteNameToMidiMeaning(s: string)
    ensures IsPitchName(s) ==>
      var n := if s[1] == '#' || s[1] == 'b' then 2 else 1;
      && ParseSignedDigits(s[n..]).Some?
      && NoteNameToMidi(s) == (ParseSignedDigits(s[n..]).value + 1) * 12
           + LetterOffset(Upper(s[0])) + (if n == 1 then 0 else if s[1] == '#' then 1 else -1)
  {
    ParsePitchMatches(s);
  }

  /** A written pitch reads as its own MIDI number. */
  lemma MidiOfFormatPitch(p: Pitch)
    requires IsNoteLetter(p.letter)
    ensures NoteNameToMidi(FormatPitch(p)) == PitchNumber(p)
  {
    ParseFormatPitch(p);
  }

  /** Within one letter and accidental, each octave is twelve semitones higher. */
  lemma OctaveStep(p: Pitch)
    requires IsNoteLetter(p.letter)
    ensures NoteNameToMidi(FormatPitch(p.(octave := p.octave + 1))) == NoteNameToMidi(FormatPitch(p)) + 12
  {
    ParseFormatPitch(p);
    ParseFormatPitch(p.(octave := p.octave + 1));
  }

  /** A sharp is one semitone above the natural and a flat one below. */
  lemma AccidentalStep(p: Pitch)
    requires IsNoteLetter(p.letter) && p.accidental == Natural
    ensures NoteNameToMidi(FormatPitch(p.(accidental := Sharp))) == NoteNameToMidi(FormatPitch(p)) + 1
    ensures NoteNameToMidi(FormatPitch(p.(accidental := Flat))) == NoteNameToMidi(FormatPitch(p)) - 1
  {
    ParseFormatPitch(p);
    ParseFormatPitch(p.(accidental := Sharp));
    ParseFormatPitch(p.(accidental := Flat));
  }

  /** The letter may be written in either case. */
  lemma LetterCase(p: Pitch)
    requires 'a' <= p.letter <= 'g'
    ensures NoteNameToMidi(FormatPitch(p.(letter := Upper(p.letter)))) == NoteNameToMidi(FormatPitch(p))
  {
    ParseFormatPitch(p);
    ParseFormatPitch(p.(letter := Upper(p.letter)));
  }

  /** Every natural note of an octave lies in C .. B of that octave: from
      12 * (octave + 1) to 12 * (octave + 1) + 11. */
  lemma NaturalInOctave(p: Pitch)
    requires IsNoteLetter(p.letter) && p.accidental == Natural
    ensures 12 * (p.octave + 1) <= NoteNameToMidi(FormatPitch(p)) <= 12 * (p.octave + 1) + 11
  {
    ParseFormatPitch(p);
  }

  /** Worked values: the anchors C4 = 60 and C-1 = 0, and A0 = 21. */
  lemma NoteNameExamples()
    ensures NoteNameToMidi("C4") == 60
    ensures NoteNameToMidi("C-1") == 0
    ensures NoteNameToMidi("A0") == 21
  {
    assert FormatPitch(Pitch('C', Natural, 4)) == "C4";
    ParseFormatPitch(Pitch('C', Natural, 4));
    assert FormatPitch(Pitch('C', Natural, -1)) == "C-1";
    ParseFormatPitch(Pitch('C', Natural, -1));
    assert FormatPitch(Pitch('A', Natural, 0)) == "A0";
    ParseFormatPitch(Pitch('A', Natural, 0));
  }

  /** Worked values with accidentals: an enharmonic pair and the unclamped
      Cb-1. */
  lemma AccidentalExamples()
    ensures NoteNameToMidi("C#3") == 49 && NoteNameToMidi("Db3") == 49
    ensures NoteNameToMidi("Cb-1") == -1
  {
    assert FormatPitch(Pitch('C', Sharp, 3)) == "C#3";
    ParseFormatPitch(Pitch('C', Sharp, 3));
    assert FormatPitch(Pitch('D', Flat, 3)) == "Db3";
    ParseFormatPitch(Pitch('D', Flat, 3));
    assert FormatPitch(Pitch('C', Flat, -1)) == "Cb-1";
    ParseFormatPitch(Pitch('C', Flat, -1));
  }

  /** Text that is not a pitch name falls back to middle C: an unknown letter,
      a missing octave, trailing text or a doubled accidental. */
  lemma NoteNameFallbackExamples()
    ensures NoteNameToMidi("H3") == 60 && NoteNameToMidi("C") == 60 && NoteNameToMidi("C#") == 60
    ensures NoteNameToMidi("C4 ") == 60 && NoteNameToMidi("C##4") == 60 && NoteNameToMidi("") == 60
  {
    assert !IsDigit("4 "[1]);
    assert !IsDigit("#4"[0]);
    assert !IsDigit("##4"[0]);
  }
}
