/** Transposing chord names, key labels and whole progressions by a number
    of semitones. */
module ChordTransposition {
  import opened Types
  import opened Decimal
  import opened PitchName
  import opened MusicTheory
  import opened Seqs

  /** The characters JavaScript's `.` does not match. */
  predicate IsLineTerminator(c: char)
  {
    c == '\n' || c == '\r' || c == '\U{2028}' || c == '\U{2029}'
  }

  /** `.*` matches all of `t`: it holds no line terminator. */
  predicate OneLine(t: string)
  {
    t == [] || (!IsLineTerminator(t[|t| - 1]) && OneLine(t[..|t| - 1]))
  }

  /** The match of `^([A-G][#b]?)(.*)$`: the root (a capital letter, with the
      next character when that is `#` or `b`) and the quality after it, which
      must be free of line terminators. */
  function SplitChordName(name: string): Option<(string, string)>
  {
    if |name| == 0 || !('A' <= name[0] <= 'G') then None
    else
      var n := if |name| >= 2 && (name[1] == '#' || name[1] == 'b') then 2 else 1;
      if OneLine(name[n..]) then Some((name[..n], name[n..])) else None
  }

  /** The match covers the whole name: a root of one or two characters
      starting with a capital letter, then the quality. */
  lemma SplitChordNameParts(name: string)
    ensures var r := SplitChordName(name);
      r.Some? ==> r.value.0 + r.value.1 == name && 1 <= |r.value.0| <= 2 && 'A' <= r.value.0[0] <= 'G'
    ensures var r := SplitChordName(name);
      r.Some? && |r.value.0| == 2 ==> r.value.0[1] == '#' || r.value.0[1] == 'b'
    ensures var r := SplitChordName(name);
      r.Some? ==> (|r.value.0| == 2 <==> |name| >= 2 && (name[1] == '#' || name[1] == 'b'))
    ensures SplitChordName(name).None? <==>
      |name| == 0 || !('A' <= name[0] <= 'G') || !OneLine(name[if |name| >= 2 && (name[1] == '#' || name[1] == 'b') then 2 else 1..])
  {
    if SplitChordName(name).Some? {
      var (root, quality) := SplitChordName(name).value;
      assert root + quality == name;
    }
  }

  /** A chord name transposeChordName moves: it matches and its root is in
      the table. */
  predicate Movable(name: string)
  {
    SplitChordName(name).Some? && NoteIndex(SplitChordName(name).value.0) != -1
  }

  /** transposeChordName as a value: the root moves by `k` semitones modulo
      the octave and is written as the table writes that pitch class
      (SpelledNote, NotesEntry); the quality is kept. A name that does not
      match, or whose root the table does not know, comes back unchanged. */
  function TransposedChordName(name: string, k: int): string
  {
    match SplitChordName(name)
    case None => name
    case Some((root, quality)) =>
      var idx := NoteIndex(root);
      if idx == -1 then name else SpelledNote((idx + k) % 12) + quality
  }

  /** A movable name moves to the rule spelling of pitch class `m` followed
      by its quality. */
  lemma TransposedChordNameIs(name: string, k: int, m: int)
    requires Movable(name) && m == (NoteIndex(SplitChordName(name).value.0) + k) % 12
    ensures TransposedChordName(name, k) == SpelledNote(m) + SplitChordName(name).value.1
  {
  }

  /** Once the index is back in 0 .. 11, the table entry at the index and the
      quality write the transposed chord name. */
  lemma NormalisedRoot(name: string, k: int, newIndex: int, octaves: int)
    requires Movable(name) && 0 <= newIndex < 12
    requires octaves * 12 + newIndex == NoteIndex(SplitChordName(name).value.0) + k
    ensures Notes[newIndex] + SplitChordName(name).value.1 == TransposedChordName(name, k)
  {
    ShiftOctaves(octaves, newIndex);
    TransposedChordNameIs(name, k, newIndex);
    NotesEntry(newIndex);
  }

  /** transposeChordName: the same steps as the source, with the two
      normalising loops bringing the index back into 0 .. 11. */
  method TransposeChordName(name: string, semitones: int) returns (r: string)
    ensures r == TransposedChordName(name, semitones)
  {
    var m := SplitChordName(name);
    if m.None? {
      return name;
    }
    var root, quality := m.value.0, m.value.1;
    var noteIdx := NoteIndex(root);
    if noteIdx == -1 {
      return name;
    }
    var newIndex := noteIdx + semitones;
    ghost var octaves := 0;
    while newIndex >= 12
      invariant octaves * 12 + newIndex == noteIdx + semitones
    {
      newIndex := newIndex - 12;
      octaves := octaves + 1;
    }
    while newIndex < 0
      invariant octaves * 12 + newIndex == noteIdx + semitones
      invariant newIndex < 12
    {
      newIndex := newIndex + 12;
      octaves := octaves - 1;
    }
    r := Notes[newIndex] + quality;
    NormalisedRoot(name, semitones, newIndex, octaves);
  }

  /** Names that do not match, or whose root is not in the table, come back
      unchanged. */
  lemma TransposedChordNameUnchanged(name: string, k: int)
    requires !Movable(name)
    ensures TransposedChordName(name, k) == name
  {
  }

  /** The two parts of a concatenation. */
  lemma ConcatParts(a: string, q: string, r: string)
    requires r == a + q
    ensures |r| - |q| == |a| && r[|r| - |q|..] == q && r[..|r| - |q|] == a
  {
  }

  /** The quality is kept verbatim at the end, and what precedes it is a
      root whose pitch class is the old one moved by `k` modulo 12. */
  lemma TransposedChordNameMeaning(name: string, k: int)
    requires Movable(name)
    ensures var (root, quality) := SplitChordName(name).value;
      var r := TransposedChordName(name, k);
      && |quality| < |r|
      && r[|r| - |quality|..] == quality
      && NoteIndex(r[..|r| - |quality|]) == (NoteIndex(root) + k) % 12
  {
    var (root, quality) := SplitChordName(name).value;
    var m := (NoteIndex(root) + k) % 12;
    SpelledNoteShape(m);
    ConcatParts(SpelledNote(m), quality, TransposedChordName(name, k));
  }

  /** A quality the root cannot swallow: it does not start with `#` or `b`. */
  predicate SeparateQuality(q: string)
  {
    |q| == 0 || (q[0] != '#' && q[0] != 'b')
  }

  /** A spelled root followed by a separate, one-line quality splits back
      into the two. */
  lemma SplitSpelledChord(m: int, q: string, name: string)
    requires 0 <= m < 12 && OneLine(q) && SeparateQuality(q)
    requires name == SpelledNote(m) + q
    ensures SplitChordName(name) == Some((SpelledNote(m), q))
  {
    SpelledNoteShape(m);
    assert name[..|SpelledNote(m)|] == SpelledNote(m);
    assert name[|SpelledNote(m)|..] == q;
  }

  lemma ModAdd(x: int, b: int)
    ensures (x % 12 + b) % 12 == (x + b) % 12
  {
    ShiftOctaves(-(x / 12), x + b);
    assert -(x / 12) * 12 + (x + b) == x % 12 + b;
  }

  /** Two transpositions of a chord name compose into one, as long as the
      quality does not start with an accidental the new root could absorb
      (ChordNameComposeCounterexample). */
  lemma TransposedChordNameCompose(name: string, a: int, b: int)
    requires Movable(name) && SeparateQuality(SplitChordName(name).value.1)
    ensures TransposedChordName(TransposedChordName(name, a), b) == TransposedChordName(name, a + b)
  {
    var (root, quality) := SplitChordName(name).value;
    var idx := NoteIndex(root);
    var m := (idx + a) % 12;
    assert OneLine(quality);
    SplitSpelledChord(m, quality, TransposedChordName(name, a));
    SpelledNoteShape(m);
    ModAdd(idx + a, b);
  }

  /** A root followed by `b` or `#` can take it as its accidental once
      respelled as a natural: "Bbb" moved by 2 is "Cb", which is not moved
      further, while "Bbb" moved by 3 is "C#b". */
  lemma ChordNameComposeCounterexample()
    ensures TransposedChordName(TransposedChordName("Bbb", 2), 1) == "Cb"
    ensures TransposedChordName("Bbb", 3) == "C#b"
  {
    assert "Bbb"[2..] == "b" && "b"[..0] == [];
    assert "Bbb"[..2] == "Bb";
    assert SplitChordName("Bbb") == Some(("Bb", "b"));
    NoteIndexOfPitch(Pitch('B', Flat, 0));
    assert TransposedChordName("Bbb", 2) == "Cb";
    assert "Cb"[2..] == [];
    assert "Cb"[..2] == "Cb";
    assert SplitChordName("Cb") == Some(("Cb", ""));
    NoteIndexOfPitch(Pitch('C', Flat, 0));
  }

  /** The note part of a pitch name, read as a chord name, moves to the
      rule spelling of its pitch class moved by `k`. */
  lemma ChordNameOfNote(p: Pitch, k: int, m: int)
    requires 'A' <= p.letter <= 'G' && PitchIndex(p) != -1
    requires m == (PitchIndex(p) + k) % 12
    ensures TransposedChordName(NoteText(p), k) == SpelledNote(m)
  {
    NoteIndexOfPitch(p);
    var t := NoteText(p);
    assert t[..|t|] == t && t[|t|..] == [];
    assert SplitChordName(t) == Some((t, ""));
  }

  /** A written pitch whose note moves to `q` is transposed to `q` written. */
  lemma TransposedFormatPitch(p: Pitch, k: int, q: Pitch)
    requires IsNoteLetter(p.letter) && MovePitch(p, k) == Some(q)
    ensures TransposedNote(FormatPitch(p), k) == FormatPitch(q)
  {
    ParseFormatPitch(p);
  }

  /** A chord root moves to the note part of the pitch with that note moved
      by the same amount, and the octave the note carries into is written
      after it. */
  lemma ChordRootMovesLikeNote(p: Pitch, k: int)
    requires 'A' <= p.letter <= 'G' && PitchIndex(p) != -1
    ensures TransposedNote(FormatPitch(p), k)
      == TransposedChordName(NoteText(p), k) + IntText(p.octave + (PitchIndex(p) + k) / 12)
  {
    var m := (PitchIndex(p) + k) % 12;
    var o := p.octave + (PitchIndex(p) + k) / 12;
    TransposedFormatPitch(p, k, SpelledPitch(m, o));
    assert NoteText(SpelledPitch(m, o)) == SpelledNote(m);
    ChordNameOfNote(p, k, m);
  }

  /** Worked values: a quality kept, and a wrap below C. */
  lemma TransposedChordNameExamples()
    ensures TransposedChordName("Am7", 2) == "Bm7"
    ensures TransposedChordName("C", -1) == "B"
  {
    assert "Am7"[1..] == "m7" && "m7"[..1] == "m" && "m"[..0] == [];
    assert "Am7"[..1] == "A";
    assert SplitChordName("Am7") == Some(("A", "m7"));
    NoteIndexOfPitch(Pitch('A', Natural, 0));
    assert "C"[1..] == [];
    assert "C"[..1] == "C";
    assert SplitChordName("C") == Some(("C", ""));
    NoteIndexOfPitch(Pitch('C', Natural, 0));
  }

  /** Worked value: a flat root is respelled from the table. */
  lemma FlatChordNameExample()
    ensures TransposedChordName("Bbmaj7", 2) == "Cmaj7"
  {
    assert "Bbmaj7"[2..] == "maj7" && "maj7"[..3] == "maj" && "maj"[..2] == "ma";
    assert "ma"[..1] == "m" && "m"[..0] == [];
    assert "Bbmaj7"[..2] == "Bb";
    assert SplitChordName("Bbmaj7") == Some(("Bb", "maj7"));
    NoteIndexOfPitch(Pitch('B', Flat, 0));
  }

  /** Worked values: names left alone, for an unknown root, a lower-case
      letter and a quality running over two lines. */
  lemma ChordNameUnchangedExamples()
    ensures TransposedChordName("Cbm", 1) == "Cbm"
    ensures TransposedChordName("am", 1) == "am"
    ensures TransposedChordName("C\nm", 1) == "C\nm"
  {
    assert "Cbm"[2..] == "m" && "m"[..0] == [];
    assert "Cbm"[..2] == "Cb";
    assert SplitChordName("Cbm") == Some(("Cb", "m"));
    NoteIndexOfPitch(Pitch('C', Flat, 0));
    assert !OneLine("\nm");
  }

  /** `s.split(sep)`: the pieces between separators; always at least one,
      so the source's test for a non-empty result always passes, and text
      without the separator is a single piece. */
  function Split(s: string, sep: char): (parts: seq<string>)
    ensures |parts| >= 1
    ensures sep !in s ==> parts == [s]
  {
    if |s| == 0 then [""]
    else
      assert s == [s[0]] + s[1..];
      var rest := Split(s[1..], sep);
      if s[0] == sep then [""] + rest else [[s[0]] + rest[0]] + rest[1..]
  }

  /** `parts.join(sep)`. */
  function Join(parts: seq<string>, sep: char): (s: string)
  {
    if |parts| == 0 then ""
    else if |parts| == 1 then parts[0]
    else parts[0] + [sep] + Join(parts[1..], sep)
  }

  /** No piece holds the separator. */
  lemma {:induction false} SplitPieces(s: string, sep: char)
    ensures forall i :: 0 <= i < |Split(s, sep)| ==> sep !in Split(s, sep)[i]
  {
    if |s| > 0 {
      var rest := Split(s[1..], sep);
      var parts := Split(s, sep);
      SplitPieces(s[1..], sep);
      forall i | 0 <= i < |parts|
        ensures sep !in parts[i]
      {
        if s[0] == sep {
          assert parts[i] == ([""] + rest)[i];
        } else if i == 0 {
          assert parts[0] == [s[0]] + rest[0];
        } else {
          assert parts[i] == rest[i];
        }
      }
    }
  }

  /** Joining a first piece with further pieces puts a separator between. */
  lemma JoinFront(p: string, ps: seq<string>, sep: char)
    requires |ps| >= 1
    ensures Join([p] + ps, sep) == p + [sep] + Join(ps, sep)
  {
    assert ([p] + ps)[1..] == ps;
  }

  /** Prefixing the first piece with a character prefixes the joined text. */
  lemma JoinHead(c: char, ps: seq<string>, sep: char)
    requires |ps| >= 1
    ensures Join([[c] + ps[0]] + ps[1..], sep) == [c] + Join(ps, sep)
  {
    if |ps| > 1 {
      JoinFront([c] + ps[0], ps[1..], sep);
      Regroup([c], ps[0], [sep]);
      Regroup([c], ps[0] + [sep], Join(ps[1..], sep));
    }
  }

  /** Joining the pieces again gives back the text, and no piece holds the
      separator. */
  lemma {:induction false} JoinSplit(s: string, sep: char)
    ensures Join(Split(s, sep), sep) == s
    ensures forall i :: 0 <= i < |Split(s, sep)| ==> sep !in Split(s, sep)[i]
  {
    SplitPieces(s, sep);
    if |s| > 0 {
      var rest := Split(s[1..], sep);
      JoinSplit(s[1..], sep);
      assert s == [s[0]] + s[1..];
      if s[0] == sep {
        assert Split(s, sep) == [""] + rest;
        JoinFront("", rest, sep);
      } else {
        assert Split(s, sep) == [[s[0]] + rest[0]] + rest[1..];
        JoinHead(s[0], rest, sep);
      }
    }
  }

  /** The first piece is the text before the first separator, and the other
      pieces join to the text after it. */
  lemma {:induction false} SplitFirst(w: string, r: string, sep: char)
    requires sep !in w
    ensures Split(w + [sep] + r, sep)[0] == w
    ensures Join(Split(w + [sep] + r, sep)[1..], sep) == r
  {
    var s := w + [sep] + r;
    if |w| == 0 {
      assert s[1..] == r;
      JoinSplit(r, sep);
    } else {
      assert s[1..] == w[1..] + [sep] + r;
      SplitFirst(w[1..], r, sep);
      assert w == [w[0]] + w[1..];
    }
  }

  /** There is one piece more than there are separators. */
  lemma {:induction false} SplitCount(s: string, sep: char)
    ensures |Split(s, sep)| == multiset(s)[sep] + 1
  {
    if |s| > 0 {
      SplitCount(s[1..], sep);
      assert s == [s[0]] + s[1..];
    }
  }

  /** Splitting after a first piece without the separator gives that piece
      and then the pieces of the rest. */
  lemma {:induction false} SplitAfter(w: string, r: string, sep: char)
    requires sep !in w
    ensures Split(w + [sep] + r, sep) == [w] + Split(r, sep)
  {
    var s := w + [sep] + r;
    if |w| == 0 {
      assert s[1..] == r;
    } else {
      assert s[0] == w[0] != sep;
      assert s[1..] == w[1..] + [sep] + r;
      SplitAfter(w[1..], r, sep);
      var rest := Split(s[1..], sep);
      assert rest[0] == w[1..] && rest[1..] == Split(r, sep);
      assert [s[0]] + rest[0] == w;
    }
  }

  /** Splitting joined pieces that hold no separator gives the pieces back:
      with JoinSplit, split and join are inverse. */
  lemma {:induction false} SplitJoin(parts: seq<string>, sep: char)
    requires |parts| >= 1
    requires forall i :: 0 <= i < |parts| ==> sep !in parts[i]
    ensures Split(Join(parts, sep), sep) == parts
  {
    if |parts| > 1 {
      SplitJoin(parts[1..], sep);
      SplitAfter(parts[0], Join(parts[1..], sep), sep);
      assert parts == [parts[0]] + parts[1..];
    }
  }

  /** The key label transposeProgression writes: the first space-separated
      word transposed as a chord name, a space, then the other words. */
  function TransposedKey(key: string, k: int): (r: string)
    ensures ' ' !in key ==> r == TransposedChordName(key, k) + " "
  {
    var parts := Split(key, ' ');
    TransposedChordName(parts[0], k) + " " + Join(parts[1..], ' ')
  }

  /** The first word is transposed and the rest of the label is kept. */
  lemma TransposedKeyWords(w: string, r: string, k: int)
    requires ' ' !in w
    ensures TransposedKey(w + " " + r, k) == TransposedChordName(w, k) + " " + r
  {
    SplitFirst(w, r, ' ');
  }

  /** Worked value: a one-word key, "C" moved by 2, is "D ". */
  lemma TransposedKeyOneWordExample()
    ensures TransposedKey("C", 2) == "D "
  {
    assert "C"[..1] == "C" && "C"[1..] == [];
    assert SplitChordName("C") == Some(("C", ""));
    NoteIndexOfPitch(Pitch('C', Natural, 0));
    assert TransposedChordName("C", 2) == "D";
  }

  /** `notes.map(n => transposeNote(n, k))`. */
  function TransposedNotes(ns: seq<string>, k: int): (r: seq<string>)
    ensures |r| == |ns|
  {
    seq(|ns|, i requires 0 <= i < |ns| => TransposedNote(ns[i], k))
  }

  /** One chord of transposeProgression: name and notes transposed, and the
      melody transposed too, an absent one becoming an empty list. */
  function TransposedChord(c: ChordData, k: int): ChordData
  {
    c.(name := TransposedChordName(c.name, k),
       notes := TransposedNotes(c.notes, k),
       melodyNotes := Some(TransposedNotes(MelodyOf(c), k)))
  }

  /** transposeProgression: the progression itself for 0 semitones, otherwise
      a copy with the key and every chord transposed. */
  function TransposedProgression(p: Progression, k: int): (q: Progression)
    ensures q.bpm == p.bpm && |q.chords| == |p.chords|
    ensures forall i :: 0 <= i < |p.chords| ==> q.chords[i].duration == p.chords[i].duration
  {
    if k == 0 then p
    else
      p.(key := TransposedKey(p.key, k),
         chords := seq(|p.chords|, i requires 0 <= i < |p.chords| => TransposedChord(p.chords[i], k)))
  }

  /** Nothing but the key, the chord names and the notes changes: the other
      fields, the number and order of chords, and the length of every note
      list stay as they were, and every chord ends up with a melody. */
  lemma TransposedProgressionShape(p: Progression, k: int)
    ensures k == 0 ==> TransposedProgression(p, k) == p
    ensures var q := TransposedProgression(p, k);
      && q.title == p.title && q.description == p.description
      && q.theoryAnalysis == p.theoryAnalysis
    ensures var q := TransposedProgression(p, k);
      forall i :: 0 <= i < |p.chords| ==>
        && q.chords[i].roman == p.chords[i].roman
        && q.chords[i].description == p.chords[i].description
        && |q.chords[i].notes| == |p.chords[i].notes|
        && |MelodyOf(q.chords[i])| == |MelodyOf(p.chords[i])|
    ensures k != 0 ==> forall i :: 0 <= i < |p.chords| ==>
      TransposedProgression(p, k).chords[i].melodyNotes.Some?
  {
  }

  /** Every note moves by `k` on the encoder's MIDI scale, harmony and melody
      alike; a note transposeNote cannot read is left as it was. */
  lemma TransposedProgressionMidi(p: Progression, k: int, i: int, j: int)
    requires 0 <= i < |p.chords|
    ensures 0 <= j < |p.chords[i].notes| && Transposable(p.chords[i].notes[j]) ==>
      NoteNameToMidi(TransposedProgression(p, k).chords[i].notes[j]) == NoteNameToMidi(p.chords[i].notes[j]) + k
    ensures 0 <= j < |MelodyOf(p.chords[i])| && Transposable(MelodyOf(p.chords[i])[j]) ==>
      NoteNameToMidi(MelodyOf(TransposedProgression(p, k).chords[i])[j]) == NoteNameToMidi(MelodyOf(p.chords[i])[j]) + k
    ensures 0 <= j < |p.chords[i].notes| && !Transposable(p.chords[i].notes[j]) ==>
      TransposedProgression(p, k).chords[i].notes[j] == p.chords[i].notes[j]
    ensures 0 <= j < |MelodyOf(p.chords[i])| && !Transposable(MelodyOf(p.chords[i])[j]) ==>
      MelodyOf(TransposedProgression(p, k).chords[i])[j] == MelodyOf(p.chords[i])[j]
  {
    if k != 0 {
      if 0 <= j < |p.chords[i].notes| {
        if Transposable(p.chords[i].notes[j]) {
          TransposedNoteMidi(p.chords[i].notes[j], k);
        } else {
          TransposedNoteUnchanged(p.chords[i].notes[j], k);
        }
      }
      if 0 <= j < |MelodyOf(p.chords[i])| {
        if Transposable(MelodyOf(p.chords[i])[j]) {
          TransposedNoteMidi(MelodyOf(p.chords[i])[j], k);
        } else {
          TransposedNoteUnchanged(MelodyOf(p.chords[i])[j], k);
        }
      }
    }
  }
}
