/** The event scheduler of the MIDI encoder: absolute-tick note-on and
    note-off records for every chord of a progression, then a stable sort
    by tick. */
module Scheduler {
  import opened Types
  import opened PitchName

  const TicksPerBeat := 480
  const NoteOn := 0x90
  const NoteOff := 0x80
  const HarmonyVelocity := 0x45
  const MelodyVelocity := 0x64

  /** One record of the event list; `status` is the source's `type` field. */
  datatype MidiEvent = MidiEvent(ticks: int, status: int, note: int, velocity: int)

  /** Length of a chord in ticks: whole beats times 480. */
  function DurationTicks(c: ChordData): nat
  {
    c.duration * TicksPerBeat
  }

  /** Sum of the chords' lengths: where the chord after them starts. */
  function TotalTicks(chords: seq<ChordData>): nat
  {
    if chords == [] then 0
    else TotalTicks(chords[..|chords| - 1]) + DurationTicks(chords[|chords| - 1])
  }

  /** The two records of one note: on at `on`, off at `off`. */
  function NotePair(n: string, on: int, off: int, velocity: int): seq<MidiEvent>
  {
    [MidiEvent(on, NoteOn, NoteNameToMidi(n), velocity), MidiEvent(off, NoteOff, NoteNameToMidi(n), 0)]
  }

  /** The block of harmony notes: all on at `start`, all off `dur` later, in
      the order of the notes. */
  function HarmonyEvents(notes: seq<string>, start: int, dur: int): (r: seq<MidiEvent>)
    ensures |r| == 2 * |notes|
  {
    if notes == [] then []
    else HarmonyEvents(notes[..|notes| - 1], start, dur) + NotePair(notes[|notes| - 1], start, start + dur, HarmonyVelocity)
  }

  /** The first `n` melody notes, note `i` sounding from `start + i * seg`
      for `seg` ticks. */
  function MelodyEvents(melody: seq<string>, n: nat, start: int, seg: int): (r: seq<MidiEvent>)
    requires n <= |melody|
    ensures |r| == 2 * n
  {
    if n == 0 then []
    else
      MelodyEvents(melody, n - 1, start, seg)
        + NotePair(melody[n - 1], start + (n - 1) * seg, start + (n - 1) * seg + seg, MelodyVelocity)
  }

  /** Every note's segment of a melody: the chord's length divided by the
      number of notes, rounded down. */
  function Segment(c: ChordData): int
    requires |MelodyOf(c)| > 0
  {
    DurationTicks(c) / |MelodyOf(c)|
  }

  /** The records of one chord starting at `start`: the harmony block, then
      the melody, if there is one. */
  function ChordEvents(c: ChordData, start: int): seq<MidiEvent>
  {
    HarmonyEvents(c.notes, start, DurationTicks(c))
      + if |MelodyOf(c)| > 0 then MelodyEvents(MelodyOf(c), |MelodyOf(c)|, start, Segment(c)) else []
  }

  /** The unsorted event list: each chord's records in turn, each chord
      starting where the chords before it end. */
  function Schedule(chords: seq<ChordData>): seq<MidiEvent>
  {
    if chords == [] then []
    else
      var init := chords[..|chords| - 1];
      Schedule(init) + ChordEvents(chords[|chords| - 1], TotalTicks(init))
  }

  /** Number of notes, harmony and melody, over all chords. */
  function NoteCount(chords: seq<ChordData>): nat
  {
    if chords == [] then 0
    else NoteCount(chords[..|chords| - 1]) + |chords[|chords| - 1].notes| + |MelodyOf(chords[|chords| - 1])|
  }

  /** The first loop of generateMidiBlob: walks the chords with a running
      tick, pushing each note's pair of records. */
  method CollectEvents(chords: seq<ChordData>) returns (events: seq<MidiEvent>)
    ensures events == Schedule(chords)
  {
    events := [];
    var currentTick := 0;
    for ci := 0 to |chords|
      invariant events == Schedule(chords[..ci])
      invariant currentTick == TotalTicks(chords[..ci])
    {
      var chord := chords[ci];
      var durationTicks := chord.duration * TicksPerBeat;
      ghost var before := events;
      events := PushHarmony(events, chord.notes, currentTick, durationTicks);
      ghost var harmony := events;
      if chord.melodyNotes.Some? && |chord.melodyNotes.value| > 0 {
        var melody := chord.melodyNotes.value;
        var segmentTicks := durationTicks / |melody|;
        events := PushMelody(events, melody, currentTick, segmentTicks);
      }
      ScheduleStep(chords, ci, chord, durationTicks, before, harmony, events);
      currentTick := currentTick + durationTicks;
    }
    assert chords[..|chords|] == chords;
  }

  /** The `chord.notes.forEach` closure: a note-on at the chord's start and a
      note-off at its end for every harmony note. */
  method PushHarmony(events: seq<MidiEvent>, notes: seq<string>, currentTick: int, durationTicks: int)
    returns (pushed: seq<MidiEvent>)
    ensures pushed == events + HarmonyEvents(notes, currentTick, durationTicks)
  {
    pushed := events;
    for j := 0 to |notes|
      invariant pushed == events + HarmonyEvents(notes[..j], currentTick, durationTicks)
    {
      var midiNote := NoteNameToMidi(notes[j]);
      pushed := pushed + [MidiEvent(currentTick, NoteOn, midiNote, HarmonyVelocity)];
      pushed := pushed + [MidiEvent(currentTick + durationTicks, NoteOff, midiNote, 0)];
      HarmonyStep(notes, j, currentTick, durationTicks);
    }
    assert notes[..|notes|] == notes;
  }

  /** The `chord.melodyNotes.forEach` closure: note `i` from
      `currentTick + i * segmentTicks` for `segmentTicks` ticks. */
  method PushMelody(events: seq<MidiEvent>, melody: seq<string>, currentTick: int, segmentTicks: int)
    returns (pushed: seq<MidiEvent>)
    ensures pushed == events + MelodyEvents(melody, |melody|, currentTick, segmentTicks)
  {
    pushed := events;
    for i := 0 to |melody|
      invariant pushed == events + MelodyEvents(melody, i, currentTick, segmentTicks)
    {
      var midiNote := NoteNameToMidi(melody[i]);
      var startTick := currentTick + i * segmentTicks;
      var endTick := startTick + segmentTicks;
      pushed := pushed + [MidiEvent(startTick, NoteOn, midiNote, MelodyVelocity)];
      pushed := pushed + [MidiEvent(endTick, NoteOff, midiNote, 0)];
    }
  }

  /** One more harmony note appends its pair of records. */
  lemma HarmonyStep(notes: seq<string>, j: int, start: int, dur: int)
    requires 0 <= j < |notes|
    ensures HarmonyEvents(notes[..j + 1], start, dur)
      == HarmonyEvents(notes[..j], start, dur) + NotePair(notes[j], start, start + dur, HarmonyVelocity)
  {
    assert notes[..j + 1][..j] == notes[..j];
  }

  /** One turn of the chord loop appends the chord's records. */
  lemma ScheduleStep(chords: seq<ChordData>, ci: int, chord: ChordData, dur: int,
                     before: seq<MidiEvent>, harmony: seq<MidiEvent>, after: seq<MidiEvent>)
    requires 0 <= ci < |chords| && chord == chords[ci] && dur == chord.duration * TicksPerBeat
    requires before == Schedule(chords[..ci])
    requires harmony == before + HarmonyEvents(chord.notes, TotalTicks(chords[..ci]), dur)
    requires chord.melodyNotes.Some? && |chord.melodyNotes.value| > 0 ==>
      var m := chord.melodyNotes.value;
      after == harmony + MelodyEvents(m, |m|, TotalTicks(chords[..ci]), dur / |m|)
    requires !(chord.melodyNotes.Some? && |chord.melodyNotes.value| > 0) ==> after == harmony
    ensures after == Schedule(chords[..ci + 1])
    ensures TotalTicks(chords[..ci + 1]) == TotalTicks(chords[..ci]) + dur
  {
    ChordPushed(chord, TotalTicks(chords[..ci]), dur, before, harmony, after);
    ScheduleUnfold(chords, ci);
  }

  /** The two closures together push the chord's records. */
  lemma ChordPushed(chord: ChordData, start: int, dur: int,
                    before: seq<MidiEvent>, harmony: seq<MidiEvent>, after: seq<MidiEvent>)
    requires dur == chord.duration * TicksPerBeat
    requires harmony == before + HarmonyEvents(chord.notes, start, dur)
    requires chord.melodyNotes.Some? && |chord.melodyNotes.value| > 0 ==>
      var m := chord.melodyNotes.value;
      after == harmony + MelodyEvents(m, |m|, start, dur / |m|)
    requires !(chord.melodyNotes.Some? && |chord.melodyNotes.value| > 0) ==> after == harmony
    ensures after == before + ChordEvents(chord, start)
  {
    var h := HarmonyEvents(chord.notes, start, dur);
    var m := MelodyOf(chord);
    var tail := if |m| > 0 then MelodyEvents(m, |m|, start, Segment(chord)) else [];
    assert ChordEvents(chord, start) == h + tail;
    assert after == before + h + tail;
  }

  /** The schedule of one more chord appends that chord's records. */
  lemma ScheduleUnfold(chords: seq<ChordData>, i: int)
    requires 0 <= i < |chords|
    ensures Schedule(chords[..i + 1]) == Schedule(chords[..i]) + ChordEvents(chords[i], TotalTicks(chords[..i]))
    ensures TotalTicks(chords[..i + 1]) == TotalTicks(chords[..i]) + DurationTicks(chords[i])
    ensures NoteCount(chords[..i + 1]) == NoteCount(chords[..i]) + |chords[i].notes| + |MelodyOf(chords[i])|
  {
    var pre := chords[..i + 1];
    assert pre[..|pre| - 1] == chords[..i];
    assert pre[|pre| - 1] == chords[i];
  }

  /** The schedule of the first chords is the start of the whole schedule. */
  lemma {:induction false} SchedulePrefix(chords: seq<ChordData>, i: int)
    requires 0 <= i <= |chords|
    ensures Schedule(chords[..i]) <= Schedule(chords)
    decreases |chords| - i
  {
    if i < |chords| {
      ScheduleUnfold(chords, i);
      SchedulePrefix(chords, i + 1);
    } else {
      assert chords[..i] == chords;
    }
  }

  /** Two records per note: the event list has twice as many entries as the
      progression has harmony and melody notes. */
  lemma {:induction false} ScheduleCount(chords: seq<ChordData>)
    ensures |Schedule(chords)| == 2 * NoteCount(chords)
  {
    if chords != [] {
      ScheduleCount(chords[..|chords| - 1]);
    }
  }

  /** Harmony note `j` is switched on at the chord's start with velocity
      0x45 and off, with velocity 0, `dur` ticks later. */
  lemma {:induction false} HarmonyEventsAt(notes: seq<string>, start: int, dur: int, j: int)
    requires 0 <= j < |notes|
    ensures HarmonyEvents(notes, start, dur)[2 * j] == MidiEvent(start, NoteOn, NoteNameToMidi(notes[j]), HarmonyVelocity)
    ensures HarmonyEvents(notes, start, dur)[2 * j + 1] == MidiEvent(start + dur, NoteOff, NoteNameToMidi(notes[j]), 0)
  {
    var init := notes[..|notes| - 1];
    if j < |notes| - 1 {
      HarmonyEventsAt(init, start, dur, j);
      assert init[j] == notes[j];
    }
  }

  /** Melody note `i` is switched on at `start + i * seg` with velocity 0x64
      and off, with velocity 0, where the next one starts. */
  lemma {:induction false} MelodyEventsAt(melody: seq<string>, n: nat, start: int, seg: int, i: int)
    requires n <= |melody| && 0 <= i < n
    ensures MelodyEvents(melody, n, start, seg)[2 * i] == MidiEvent(start + i * seg, NoteOn, NoteNameToMidi(melody[i]), MelodyVelocity)
    ensures MelodyEvents(melody, n, start, seg)[2 * i + 1] == MidiEvent(start + (i + 1) * seg, NoteOff, NoteNameToMidi(melody[i]), 0)
  {
    if i < n - 1 {
      MelodyEventsAt(melody, n - 1, start, seg, i);
    }
  }

  /** The melody's segments fit inside the chord: the last note ends no later
      than the chord does, and fewer ticks are left over than there are notes. */
  lemma SegmentsFit(c: ChordData)
    requires |MelodyOf(c)| > 0
    ensures 0 <= Segment(c) && |MelodyOf(c)| * Segment(c) <= DurationTicks(c)
    ensures DurationTicks(c) - |MelodyOf(c)| * Segment(c) < |MelodyOf(c)|
  {
  }

  /** Every harmony record lies between the chord's start and its end. */
  lemma HarmonyWithin(notes: seq<string>, start: int, dur: int, k: int)
    requires 0 <= dur && 0 <= k < 2 * |notes|
    ensures start <= HarmonyEvents(notes, start, dur)[k].ticks <= start + dur
    ensures HarmonyEvents(notes, start, dur)[k].status in {NoteOn, NoteOff}
  {
    HarmonyEventsAt(notes, start, dur, k / 2);
  }

  /** Every melody record lies between the chord's start and the end of the
      last segment. */
  lemma MelodyWithin(melody: seq<string>, start: int, seg: int, k: int)
    requires 0 <= seg && 0 <= k < 2 * |melody|
    ensures start <= MelodyEvents(melody, |melody|, start, seg)[k].ticks <= start + |melody| * seg
    ensures MelodyEvents(melody, |melody|, start, seg)[k].status in {NoteOn, NoteOff}
  {
    var i := k / 2;
    MelodyEventsAt(melody, |melody|, start, seg, i);
    assert 0 <= i * seg <= (i + 1) * seg <= |melody| * seg;
  }

  /** Every record of a chord lies between the chord's start and its end. */
  lemma ChordEventsWithin(c: ChordData, start: int, k: int)
    requires 0 <= k < |ChordEvents(c, start)|
    ensures start <= ChordEvents(c, start)[k].ticks <= start + DurationTicks(c)
    ensures ChordEvents(c, start)[k].status in {NoteOn, NoteOff}
  {
    var h := HarmonyEvents(c.notes, start, DurationTicks(c));
    var m := MelodyOf(c);
    var tail := if |m| > 0 then MelodyEvents(m, |m|, start, Segment(c)) else [];
    assert ChordEvents(c, start) == h + tail;
    if k < |h| {
      HarmonyWithin(c.notes, start, DurationTicks(c), k);
    } else {
      SegmentsFit(c);
      MelodyWithin(m, start, Segment(c), k - |h|);
    }
  }

  /** Chord `i`'s records sit, as one block, right after the records of the
      chords before it, and start where those chords' durations add up to. */
  lemma ScheduleBlock(chords: seq<ChordData>, i: int)
    requires 0 <= i < |chords|
    ensures Schedule(chords[..i]) + ChordEvents(chords[i], TotalTicks(chords[..i])) <= Schedule(chords)
  {
    ScheduleUnfold(chords, i);
    SchedulePrefix(chords, i + 1);
  }

  /** Every record of the schedule lies between tick 0 and the end of the
      last chord, and is a note-on or a note-off. */
  lemma {:induction false} ScheduleWithin(chords: seq<ChordData>, k: int)
    requires 0 <= k < |Schedule(chords)|
    ensures 0 <= Schedule(chords)[k].ticks <= TotalTicks(chords)
    ensures Schedule(chords)[k].status in {NoteOn, NoteOff}
  {
    var init := chords[..|chords| - 1];
    if k < |Schedule(init)| {
      ScheduleWithin(init, k);
    } else {
      ChordEventsWithin(chords[|chords| - 1], TotalTicks(init), k - |Schedule(init)|);
    }
  }

  /** When the last chord has a harmony note, that note's note-off falls on
      the end of the last chord, the sum of all chord lengths. */
  lemma LastChordCloses(chords: seq<ChordData>) returns (m: int)
    requires chords != [] && chords[|chords| - 1].notes != []
    ensures 0 <= m < |Schedule(chords)| && Schedule(chords)[m].ticks == TotalTicks(chords)
  {
    var init, c := chords[..|chords| - 1], chords[|chords| - 1];
    var start := TotalTicks(init);
    var h := HarmonyEvents(c.notes, start, DurationTicks(c));
    HarmonyEventsAt(c.notes, start, DurationTicks(c), 0);
    assert ChordEvents(c, start)[1] == h[1];
    m := |Schedule(init)| + 1;
    assert Schedule(chords)[m] == ChordEvents(c, start)[1];
  }

  // ---------------------------------------------------------------------
  // Sorting by tick

  /** Ticks never decrease along the list. */
  predicate TickSorted(s: seq<MidiEvent>)
  {
    forall i, j :: 0 <= i < j < |s| ==> s[i].ticks <= s[j].ticks
  }

  /** The records of `s` that fall on tick `t`, in their order in `s`. */
  function AtTick(s: seq<MidiEvent>, t: int): seq<MidiEvent>
  {
    if s == [] then []
    else AtTick(s[..|s| - 1], t) + if s[|s| - 1].ticks == t then [s[|s| - 1]] else []
  }

  /** Places `x` after every record of `s` whose tick is not later than its
      own. */
  function InsertByTicks(s: seq<MidiEvent>, x: MidiEvent): seq<MidiEvent>
  {
    if s == [] || s[|s| - 1].ticks <= x.ticks then s + [x]
    else InsertByTicks(s[..|s| - 1], x) + [s[|s| - 1]]
  }

  /** The list ordered by tick, records on the same tick kept in their
      original order: what `events.sort((a, b) => a.ticks - b.ticks)` yields,
      `Array.prototype.sort` being stable. */
  function SortByTicks(s: seq<MidiEvent>): seq<MidiEvent>
  {
    if s == [] then []
    else InsertByTicks(SortByTicks(s[..|s| - 1]), s[|s| - 1])
  }

  lemma AtTickAppend(s: seq<MidiEvent>, u: seq<MidiEvent>, t: int)
    ensures AtTick(s + u, t) == AtTick(s, t) + AtTick(u, t)
  {
    if u != [] {
      assert (s + u)[..|s + u| - 1] == s + u[..|u| - 1];
      AtTickAppend(s, u[..|u| - 1], t);
    } else {
      assert s + u == s;
    }
  }

  lemma {:induction false} InsertByTicksPermutes(s: seq<MidiEvent>, x: MidiEvent)
    ensures multiset(InsertByTicks(s, x)) == multiset(s) + multiset{x}
  {
    if s != [] && s[|s| - 1].ticks > x.ticks {
      InsertByTicksPermutes(s[..|s| - 1], x);
      assert s == s[..|s| - 1] + [s[|s| - 1]];
    }
  }

  lemma {:induction false} InsertByTicksSorted(s: seq<MidiEvent>, x: MidiEvent)
    requires TickSorted(s)
    ensures TickSorted(InsertByTicks(s, x))
  {
    if s != [] && s[|s| - 1].ticks > x.ticks {
      var init, last := s[..|s| - 1], s[|s| - 1];
      InsertByTicksSorted(init, x);
      InsertByTicksPermutes(init, x);
      var r := InsertByTicks(init, x);
      forall k | 0 <= k < |r| ensures r[k].ticks <= last.ticks {
        assert r[k] in multiset(r);
        if r[k] != x {
          assert r[k] in multiset(init);
          var m :| 0 <= m < |init| && init[m] == r[k];
          assert s[m] == init[m];
        }
      }
    }
  }

  lemma {:induction false} InsertByTicksAtTick(s: seq<MidiEvent>, x: MidiEvent, t: int)
    ensures AtTick(InsertByTicks(s, x), t) == AtTick(s, t) + AtTick([x], t)
  {
    if s == [] || s[|s| - 1].ticks <= x.ticks {
      AtTickAppend(s, [x], t);
    } else {
      var init, last := s[..|s| - 1], s[|s| - 1];
      assert s == init + [last];
      InsertByTicksAtTick(init, x, t);
      AtTickAppend(InsertByTicks(init, x), [last], t);
      AtTickAppend(init, [last], t);
      assert AtTick([x], t) == [] || AtTick([last], t) == [] by {
        assert [x][..0] == [] && [last][..0] == [];
      }
    }
  }

  /** The sort yields a tick-ordered permutation of its input in which the
      records of each tick keep their original order. */
  lemma {:induction false} SortByTicksProperties(s: seq<MidiEvent>)
    ensures TickSorted(SortByTicks(s))
    ensures multiset(SortByTicks(s)) == multiset(s)
    ensures forall t :: AtTick(SortByTicks(s), t) == AtTick(s, t)
  {
    if s != [] {
      var init := s[..|s| - 1];
      SortByTicksProperties(init);
      InsertByTicksSorted(SortByTicks(init), s[|s| - 1]);
      InsertByTicksPermutes(SortByTicks(init), s[|s| - 1]);
      assert s == init + [s[|s| - 1]];
      forall t ensures AtTick(SortByTicks(s), t) == AtTick(s, t) {
        InsertByTicksAtTick(SortByTicks(init), s[|s| - 1], t);
        AtTickAppend(init, [s[|s| - 1]], t);
      }
    }
  }

  /** A tick that has records in `s` is the tick of some record of `s`. */
  lemma {:induction false} AtTickOccurs(s: seq<MidiEvent>, t: int) returns (k: int)
    requires AtTick(s, t) != []
    ensures 0 <= k < |s| && s[k].ticks == t
  {
    if s[|s| - 1].ticks == t {
      k := |s| - 1;
    } else {
      k := AtTickOccurs(s[..|s| - 1], t);
    }
  }

  /** The last record of a list is among the records on its tick. */
  lemma AtTickLast(s: seq<MidiEvent>)
    ensures s != [] ==> AtTick(s, s[|s| - 1].ticks) != []
  {
  }

  /** Two tick-ordered lists whose records on each tick agree, in order, are
      the same list. */
  lemma {:induction false} TickSortedUnique(r1: seq<MidiEvent>, r2: seq<MidiEvent>)
    requires TickSorted(r1) && TickSorted(r2)
    requires forall t :: AtTick(r1, t) == AtTick(r2, t)
    ensures r1 == r2
    decreases |r1| + |r2|
  {
    AtTickLast(r1);
    AtTickLast(r2);
    if r1 != [] && r2 != [] {
      var i1, i2 := r1[..|r1| - 1], r2[..|r2| - 1];
      SameLast(r1, i1, r2, i2);
      SortedInit(r1);
      SortedInit(r2);
      TickSortedUnique(i1, i2);
      assert r1 == i1 + [r1[|r1| - 1]] && r2 == i2 + [r2[|r2| - 1]];
    }
  }

  lemma SortedInit(r: seq<MidiEvent>)
    requires TickSorted(r) && r != []
    ensures TickSorted(r[..|r| - 1])
  {
  }

  /** Two tick-ordered lists with the same records on each tick end with the
      same record, and agree on each tick without it. */
  lemma SameLast(r1: seq<MidiEvent>, i1: seq<MidiEvent>, r2: seq<MidiEvent>, i2: seq<MidiEvent>)
    requires TickSorted(r1) && TickSorted(r2) && r1 != [] && r2 != []
    requires i1 == r1[..|r1| - 1] && i2 == r2[..|r2| - 1]
    requires forall t :: AtTick(r1, t) == AtTick(r2, t)
    ensures r1[|r1| - 1] == r2[|r2| - 1]
    ensures forall t :: AtTick(i1, t) == AtTick(i2, t)
  {
    var l1, l2 := r1[|r1| - 1], r2[|r2| - 1];
    var t1 := l1.ticks;
    assert t1 == l2.ticks by {
      var k2 := AtTickOccurs(r2, l1.ticks);
      var k1 := AtTickOccurs(r1, l2.ticks);
      assert r2[k2].ticks <= l2.ticks && r1[k1].ticks <= l1.ticks;
    }
    var a1, a2 := AtTick(i1, t1) + [l1], AtTick(i2, t1) + [l2];
    assert a1 == a2 by {
      assert AtTick(r1, t1) == a1;
      assert AtTick(r2, t1) == a2;
    }
    assert l1 == l2 by {
      assert a1[|a1| - 1] == l1 && a2[|a2| - 1] == l2;
    }
    assert AtTick(i1, t1) == AtTick(i2, t1) by {
      assert a1[..|a1| - 1] == AtTick(i1, t1) && a2[..|a2| - 1] == AtTick(i2, t1);
    }
    forall t | t != t1
      ensures AtTick(i1, t) == AtTick(i2, t)
    {
      assert AtTick(r1, t) == AtTick(i1, t) && AtTick(r2, t) == AtTick(i2, t);
    }
  }

  /** The stable sort is the only tick-ordered arrangement of its input that
      keeps each tick's records in their original order. */
  lemma SortByTicksUnique(s: seq<MidiEvent>, r: seq<MidiEvent>)
    requires TickSorted(r)
    requires forall t :: AtTick(r, t) == AtTick(s, t)
    ensures r == SortByTicks(s)
  {
    SortByTicksProperties(s);
    TickSortedUnique(r, SortByTicks(s));
  }

  /** `events.sort((a, b) => a.ticks - b.ticks)`, in place: an insertion sort
      that moves each record left past the records on later ticks. */
  method SortEvents(a: array<MidiEvent>)
    modifies a
    ensures a[..] == SortByTicks(old(a[..]))
  {
    ghost var input := a[..];
    for i := 0 to a.Length
      invariant a[..i] == SortByTicks(input[..i])
      invariant a[i..] == input[i..]
    {
      SortStep(input, i);
      InsertLast(a, i);
    }
    assert a[..] == a[..a.Length] && input == input[..a.Length];
  }

  /** Sorting one more record inserts it into the sorted prefix. */
  lemma SortStep(input: seq<MidiEvent>, i: int)
    requires 0 <= i < |input|
    ensures SortByTicks(input[..i + 1]) == InsertByTicks(SortByTicks(input[..i]), input[i])
  {
    assert input[..i + 1][..i] == input[..i];
  }

  /** Moves `a[i]` left past the records of `a[..i]` on later ticks,
      shifting those one place right. */
  method InsertLast(a: array<MidiEvent>, i: int)
    requires 0 <= i < a.Length
    modifies a
    ensures a[..i + 1] == InsertByTicks(old(a[..i]), old(a[i]))
    ensures a[i + 1..] == old(a[i + 1..])
  {
    ghost var sorted := a[..i];
    var x := a[i];
    var j := i;
    while j > 0 && a[j - 1].ticks > x.ticks
      invariant 0 <= j <= i
      invariant forall k :: 0 <= k < j ==> a[k] == sorted[k]
      invariant forall k :: j < k <= i ==> a[k] == sorted[k - 1]
      invariant forall k :: i < k < a.Length ==> a[k] == old(a[k])
      invariant forall k :: j <= k < i ==> sorted[k].ticks > x.ticks
    {
      a[j] := a[j - 1];
      j := j - 1;
    }
    a[j] := x;
    ghost var inserted := sorted[..j] + [x] + sorted[j..];
    forall k | 0 <= k <= i ensures a[k] == inserted[k] {
    }
    assert a[..i + 1] == inserted;
    InsertionPoint(sorted, j, x);
  }

  /** Where the shifting stops, the record goes in: after the records on
      ticks not later than its own, before those shifted past it. */
  lemma {:induction false} InsertionPoint(sorted: seq<MidiEvent>, j: int, x: MidiEvent)
    requires 0 <= j <= |sorted|
    requires j == 0 || sorted[j - 1].ticks <= x.ticks
    requires forall k :: j <= k < |sorted| ==> sorted[k].ticks > x.ticks
    ensures InsertByTicks(sorted, x) == sorted[..j] + [x] + sorted[j..]
    decreases |sorted|
  {
    if j == |sorted| {
      assert sorted[..j] == sorted && sorted[j..] == [];
    } else {
      var init := sorted[..|sorted| - 1];
      InsertionPoint(init, j, x);
      assert init[..j] == sorted[..j];
      assert sorted[j..] == init[j..] + [sorted[|sorted| - 1]];
    }
  }

  /** Without a harmony note in the last chord the equality fails: "C4" for
      one beat, then a silent beat, ends at tick 480 of 960. */
  lemma LastTickBeforeTotal()
    ensures var chords := [ChordData("C", "I", ["C4"], None, 1, ""), ChordData("N.C.", "", [], None, 1, "")];
      var r := SortByTicks(Schedule(chords));
      |r| == 2 && r[1].ticks == 480 && TotalTicks(chords) == 960
  {
    var c0, c1 := ChordData("C", "I", ["C4"], None, 1, ""), ChordData("N.C.", "", [], None, 1, "");
    var chords := [c0, c1];
    assert chords[..1] == [c0] && [c0][..0] == [];
    var on, off := MidiEvent(0, NoteOn, NoteNameToMidi("C4"), HarmonyVelocity), MidiEvent(480, NoteOff, NoteNameToMidi("C4"), 0);
    assert HarmonyEvents(["C4"], 0, 480) == [on, off] by {
      assert ["C4"][..0] == [];
    }
    assert TotalTicks([c0]) == 480;
    assert ChordEvents(c0, 0) == [on, off];
    assert ChordEvents(c1, 480) == [];
    assert Schedule([c0]) == [on, off];
    assert Schedule(chords) == Schedule([c0]) + ChordEvents(c1, 480);
    assert [on, off][..1] == [on];
    assert SortByTicks([on]) == [on];
  }
}
