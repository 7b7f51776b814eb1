/** The Standard MIDI File the encoder writes for a progression: one
    format-0 file with 480 ticks per quarter note, a tempo event, the sorted
    note records as delta-timed channel messages and an end-of-track event. */
module MidiEncoder {
  import opened Types
  import opened FixedWidth
  import opened VarInt
  import opened Scheduler
  import opened Seqs

  /** stringToBytes: the code of every character, one number per character. */
  function StringToBytes(s: string): (r: seq<int>)
    ensures |r| == |s|
    ensures forall i :: 0 <= i < |s| ==> r[i] == s[i] as int
  {
    seq(|s|, i requires 0 <= i < |s| => s[i] as int)
  }

  /** `Math.round(60000000 / bpm)` for a positive whole bpm: the quotient
      rounded to the nearest integer, halves upward. */
  function MicrosecondsPerBeat(bpm: int): (r: int)
    requires bpm > 0
    ensures 2 * bpm * r <= 120000000 + bpm < 2 * bpm * (r + 1)
    ensures r >= 0
  {
    (120000000 + bpm) / (2 * bpm)
  }

  /** The set-tempo meta event at delta time 0. */
  function TempoEvent(bpm: int): seq<int>
    requires bpm > 0
  {
    [0x00, 0xFF, 0x51, 0x03] + BigEndian(MicrosecondsPerBeat(bpm), 3)
  }

  const EndOfTrack: seq<int> := [0x00, 0xFF, 0x2F, 0x00]

  /** Tick of the last record of `s`, or `last` when there is none. */
  function PrevTick(s: seq<MidiEvent>, last: int): int
  {
    if s == [] then last else s[|s| - 1].ticks
  }

  /** One record as the track stores it: its delta time from `lastTick`,
      then status, note and velocity. */
  function EventBytes(e: MidiEvent, lastTick: int): seq<int>
  {
    VarIntBytes(e.ticks - lastTick) + [e.status, e.note, e.velocity]
  }

  /** The records in turn, each delta measured from the record before it,
      the first from `last`. */
  function DeltaBytes(s: seq<MidiEvent>, last: int): seq<int>
  {
    if s == [] then []
    else
      var init := s[..|s| - 1];
      DeltaBytes(init, last) + EventBytes(s[|s| - 1], PrevTick(init, last))
  }

  /** The delta times the encoder writes, one per record, in the order of
      the records. */
  function DeltaTimes(s: seq<MidiEvent>, last: int): (r: seq<int>)
    ensures |r| == |s|
  {
    if s == [] then []
    else
      var init := s[..|s| - 1];
      DeltaTimes(init, last) + [s[|s| - 1].ticks - PrevTick(init, last)]
  }

  /** Records written with the given delta times: each delta as a
      variable-length quantity, then the record's status, note and velocity. */
  function Records(deltas: seq<int>, s: seq<MidiEvent>): seq<int>
    requires |deltas| == |s|
  {
    if s == [] then []
    else
      var e := s[|s| - 1];
      Records(deltas[..|s| - 1], s[..|s| - 1]) + VarIntBytes(deltas[|s| - 1]) + [e.status, e.note, e.velocity]
  }

  function Sum(xs: seq<int>): int
  {
    if xs == [] then 0 else Sum(xs[..|xs| - 1]) + xs[|xs| - 1]
  }

  /** The body of the track chunk. */
  function TrackData(bpm: int, events: seq<MidiEvent>): seq<int>
    requires bpm > 0
  {
    TempoEvent(bpm) + DeltaBytes(events, 0) + EndOfTrack
  }

  /** The header chunk: length 6, format 0, one track, 480 ticks per beat. */
  function HeaderChunk(): seq<int>
  {
    StringToBytes("MThd") + BigEndian(6, 4) + BigEndian(0, 2) + BigEndian(1, 2) + BigEndian(TicksPerBeat, 2)
  }

  /** The track chunk's type and length. */
  function TrackHeader(length: int): seq<int>
  {
    StringToBytes("MTrk") + BigEndian(length, 4)
  }

  /** The sorted records of a progression. */
  function SortedEvents(p: Progression): seq<MidiEvent>
  {
    SortByTicks(Schedule(p.chords))
  }

  /** The numbers the encoder collects before making bytes of them. */
  function FileNumbers(bpm: int, events: seq<MidiEvent>): seq<int>
    requires bpm > 0
  {
    var data := TrackData(bpm, events);
    HeaderChunk() + TrackHeader(|data|) + data
  }

  /** `new Uint8Array(numbers)`: every number modulo 256. */
  function ToUint8(s: seq<int>): (r: seq<int>)
    ensures |r| == |s|
  {
    if s == [] then [] else ToUint8(s[..|s| - 1]) + [s[|s| - 1] % 0x100]
  }

  /** The bytes of the file generateMidiBlob wraps in its Blob. */
  function MidiFile(p: Progression): seq<int>
    requires p.bpm > 0
  {
    ToUint8(FileNumbers(p.bpm, SortedEvents(p)))
  }

  /** The `events.forEach` closure of the delta pass: pushes each record's
      delta time and its three bytes, then moves `lastTick` to it. */
  method EncodeEvents(events: seq<MidiEvent>) returns (trackEvents: seq<int>)
    requires forall k :: 0 <= k < |events| ==> 0 <= events[k].ticks < 0x8000_0000
    ensures trackEvents == DeltaBytes(events, 0)
  {
    trackEvents := [];
    var lastTick := 0;
    for i := 0 to |events|
      invariant trackEvents == DeltaBytes(events[..i], 0)
      invariant lastTick == PrevTick(events[..i], 0)
      invariant 0 <= lastTick
    {
      var e := events[i];
      var delta := e.ticks - lastTick;
      var bytes := WriteVarInt(delta);
      trackEvents := trackEvents + bytes;
      trackEvents := trackEvents + [e.status, e.note, e.velocity];
      lastTick := e.ticks;
      DeltaBytesStep(events, i);
    }
    assert events[..|events|] == events;
  }

  lemma DeltaBytesStep(events: seq<MidiEvent>, i: int)
    requires 0 <= i < |events|
    ensures DeltaBytes(events[..i + 1], 0) == DeltaBytes(events[..i], 0) + EventBytes(events[i], PrevTick(events[..i], 0))
    ensures PrevTick(events[..i + 1], 0) == events[i].ticks
  {
    assert events[..i + 1][..i] == events[..i];
  }

  /** generateMidiBlob up to the bytes of the file: schedule the notes,
      sort the records by tick in place, then write the file. */
  method GenerateMidi(p: Progression) returns (fileData: seq<int>)
    requires p.bpm > 0
    requires TotalTicks(p.chords) < 0x8000_0000
    ensures fileData == MidiFile(p)
  {
    var collected := CollectEvents(p.chords);
    var events := new MidiEvent[|collected|](i requires 0 <= i < |collected| => collected[i]);
    assert events[..] == collected;
    SortEvents(events);
    var sorted := events[..];
    assert sorted == SortedEvents(p);
    assert forall k :: 0 <= k < |sorted| ==> 0 <= sorted[k].ticks < 0x8000_0000 by {
      SortedWithin(p.chords);
    }
    fileData := WriteFile(p.bpm, sorted);
  }

  /** The rest of generateMidiBlob, once the records are sorted: the tempo
      event, the delta-timed records and the end of the track, both chunk
      headers, and every number truncated to a byte. */
  method WriteFile(bpm: int, sorted: seq<MidiEvent>) returns (fileData: seq<int>)
    requires bpm > 0
    requires forall k :: 0 <= k < |sorted| ==> 0 <= sorted[k].ticks < 0x8000_0000
    ensures fileData == ToUint8(FileNumbers(bpm, sorted))
  {
    var microsecondsPerBeat := MicrosecondsPerBeat(bpm);
    var tempo := NumToBytes(microsecondsPerBeat, 3);
    var trackEvents := [0x00, 0xFF, 0x51, 0x03] + tempo;
    var deltas := EncodeEvents(sorted);
    trackEvents := trackEvents + deltas;
    trackEvents := trackEvents + [0x00, 0xFF, 0x2F, 0x00];
    var length := NumToBytes(6, 4);
    var format := NumToBytes(0, 2);
    var tracks := NumToBytes(1, 2);
    var division := NumToBytes(TicksPerBeat, 2);
    var header := StringToBytes("MThd") + length + format + tracks + division;
    var trackLength := NumToBytes(|trackEvents|, 4);
    var trackHeader := StringToBytes("MTrk") + trackLength;
    var numbers := header + trackHeader + trackEvents;
    assert numbers == FileNumbers(bpm, sorted);
    fileData := seq(|numbers|, i requires 0 <= i < |numbers| => numbers[i] % 0x100);
    assert fileData == ToUint8(numbers) by {
      ToUint8At(numbers);
    }
  }

  /** The sorted records lie between tick 0 and the end of the last chord. */
  lemma SortedWithin(chords: seq<ChordData>)
    ensures forall k :: 0 <= k < |SortByTicks(Schedule(chords))| ==>
      0 <= SortByTicks(Schedule(chords))[k].ticks <= TotalTicks(chords)
  {
    var s := Schedule(chords);
    var r := SortByTicks(s);
    assert multiset(r) == multiset(s) by {
      SortByTicksProperties(s);
    }
    forall k | 0 <= k < |r| ensures 0 <= r[k].ticks <= TotalTicks(chords) {
      var m := Origin(s, r, k);
      ScheduleWithin(chords, m);
    }
  }

  /** Tick accounting: when the last chord has a harmony note, the final
      sorted record falls exactly at the sum of the chord lengths. */
  lemma LastTickIsTotal(chords: seq<ChordData>)
    requires chords != [] && chords[|chords| - 1].notes != []
    ensures var r := SortByTicks(Schedule(chords));
      r != [] && r[|r| - 1].ticks == TotalTicks(chords)
  {
    var s := Schedule(chords);
    var r := SortByTicks(s);
    var m := LastChordCloses(chords);
    assert multiset(r) == multiset(s) && TickSorted(r) by {
      SortByTicksProperties(s);
    }
    assert |r| == |s| by {
      assert |multiset(r)| == |multiset(s)|;
    }
    var k := Origin(r, s, m);
    assert r[k].ticks <= r[|r| - 1].ticks;
    SortedWithin(chords);
  }

  /** Where a record of a permutation came from. */
  lemma Origin(s: seq<MidiEvent>, r: seq<MidiEvent>, k: int) returns (m: int)
    requires multiset(r) == multiset(s) && 0 <= k < |r|
    ensures 0 <= m < |s| && s[m] == r[k]
  {
    assert r[k] in multiset(r);
    assert r[k] in multiset(s);
    m :| 0 <= m < |s| && s[m] == r[k];
  }

  /** The chunk types as the encoder writes them. */
  lemma ChunkTypes()
    ensures StringToBytes("MThd") == [0x4D, 0x54, 0x68, 0x64]
    ensures StringToBytes("MTrk") == [0x4D, 0x54, 0x72, 0x6B]
  {
  }

  /** The delta pass writes exactly the delta times `DeltaTimes` gives, one
      before each record's three bytes. */
  lemma {:induction false} DeltaBytesWritesDeltaTimes(s: seq<MidiEvent>, last: int)
    ensures DeltaBytes(s, last) == Records(DeltaTimes(s, last), s)
  {
    if s != [] {
      var init, e := s[..|s| - 1], s[|s| - 1];
      var d := DeltaTimes(s, last);
      DeltaBytesWritesDeltaTimes(init, last);
      assert d[..|s| - 1] == DeltaTimes(init, last);
      assert d[|s| - 1] == e.ticks - PrevTick(init, last);
      assert Records(d, s) == Records(d[..|s| - 1], init) + VarIntBytes(d[|s| - 1]) + [e.status, e.note, e.velocity];
      Regroup(DeltaBytes(init, last), VarIntBytes(d[|s| - 1]), [e.status, e.note, e.velocity]);
    }
  }

  /** Distinct strings give distinct byte lists. */
  lemma StringToBytesInjective(s: string, t: string)
    ensures StringToBytes(s) == StringToBytes(t) ==> s == t
  {
    if StringToBytes(s) == StringToBytes(t) {
      forall i | 0 <= i < |s|
        ensures s[i] == t[i]
      {
        assert StringToBytes(s)[i] == StringToBytes(t)[i];
      }
    }
  }

  /** A string of one-byte characters is stored unchanged by the Uint8Array,
      and its bytes decode back to it. */
  lemma StringToBytesStored(s: string)
    requires forall i :: 0 <= i < |s| ==> s[i] as int < 0x100
    ensures ToUint8(StringToBytes(s)) == StringToBytes(s)
    ensures forall i :: 0 <= i < |s| ==> ToUint8(StringToBytes(s))[i] as char == s[i]
  {
    ToUint8Bytes(StringToBytes(s));
  }

  /** Record `i` is written `s[i].ticks` minus the tick of the record before
      it, the first one measured from `last`. */
  lemma {:induction false} DeltaTimesAt(s: seq<MidiEvent>, last: int, i: int)
    requires 0 <= i < |s|
    ensures DeltaTimes(s, last)[i] == s[i].ticks - (if i == 0 then last else s[i - 1].ticks)
  {
    var init := s[..|s| - 1];
    if i < |s| - 1 {
      DeltaTimesAt(init, last, i);
    }
  }

  /** Tick accounting: the delta times add up to the tick of the last record
      (measured from `last`), so from 0 they sum to the final record's tick,
      or to 0 when there are no records. */
  lemma {:induction false} DeltaTimesSum(s: seq<MidiEvent>, last: int)
    ensures Sum(DeltaTimes(s, last)) == PrevTick(s, last) - last
  {
    if s != [] {
      var init := s[..|s| - 1];
      var d := DeltaTimes(s, last);
      DeltaTimesSum(init, last);
      assert d[..|d| - 1] == DeltaTimes(init, last);
    }
  }

  /** The header chunk's fourteen bytes: "MThd", length 6, format 0, one
      track, division 0x01E0 = 480. */
  lemma HeaderChunkBytes()
    ensures HeaderChunk() == [0x4D, 0x54, 0x68, 0x64, 0, 0, 0, 6, 0, 0, 0, 1, 0x01, 0xE0]
  {
    ChunkTypes();
    assert BigEndian(6, 4) == [0, 0, 0, 6];
    assert BigEndian(0, 2) == [0, 0];
    assert BigEndian(1, 2) == [0, 1];
    assert BigEndian(480, 2) == [0x01, 0xE0];
  }

  /** The track header: "MTrk", then the length of the track data in four
      bytes, exact below 2^32. */
  lemma TrackHeaderBytes(length: int)
    ensures |TrackHeader(length)| == 8
    ensures TrackHeader(length)[..4] == [0x4D, 0x54, 0x72, 0x6B]
    ensures 0 <= length < Pow256(4) ==> BigEndianValue(TrackHeader(length)[4..]) == length
  {
    ChunkTypes();
    PrefixSuffix(StringToBytes("MTrk"), BigEndian(length, 4));
    BigEndianRoundTrip(length, 4);
  }

  /** The tempo event carries the microseconds per beat in three bytes,
      exact for every tempo of at least 4 beats per minute. */
  lemma TempoEventBytes(bpm: int)
    requires bpm > 0
    ensures |TempoEvent(bpm)| == 7 && TempoEvent(bpm)[..4] == [0x00, 0xFF, 0x51, 0x03]
    ensures BigEndianValue(TempoEvent(bpm)[4..]) == MicrosecondsPerBeat(bpm) % Pow256(3)
    ensures bpm >= 4 ==> BigEndianValue(TempoEvent(bpm)[4..]) == MicrosecondsPerBeat(bpm)
  {
    var mpb := MicrosecondsPerBeat(bpm);
    PrefixSuffix([0x00, 0xFF, 0x51, 0x03], BigEndian(mpb, 3));
    BigEndianRoundTrip(mpb, 3);
    if bpm >= 4 {
      TempoFits(bpm);
      assert Pow256(3) == 0x100_0000;
    }
  }

  /** From 4 beats per minute up, a beat lasts at most 15 seconds. */
  lemma TempoFits(bpm: int)
    requires bpm >= 4
    ensures MicrosecondsPerBeat(bpm) <= 15000000
  {
  }

  /** Worked value: 120 beats per minute is 500000 microseconds per beat,
      written 07 A1 20. */
  lemma TempoExample()
    ensures MicrosecondsPerBeat(120) == 500000
    ensures TempoEvent(120) == [0x00, 0xFF, 0x51, 0x03, 0x07, 0xA1, 0x20]
  {
    assert BigEndian(500000, 3) == [0x07, 0xA1, 0x20];
  }

  /** Byte `i` of the array is number `i` modulo 256. */
  lemma {:induction false} ToUint8At(s: seq<int>)
    ensures forall i :: 0 <= i < |s| ==> ToUint8(s)[i] == s[i] % 0x100
  {
    if s != [] {
      ToUint8At(s[..|s| - 1]);
    }
  }

  lemma {:induction false} ToUint8Append(a: seq<int>, b: seq<int>)
    ensures ToUint8(a + b) == ToUint8(a) + ToUint8(b)
  {
    if b != [] {
      var b0 := b[..|b| - 1];
      assert (a + b)[..|a + b| - 1] == a + b0;
      ToUint8Append(a, b0);
    } else {
      assert a + b == a;
    }
  }

  /** Numbers that already are bytes pass through unchanged. */
  lemma {:induction false} ToUint8Bytes(s: seq<int>)
    requires forall i :: 0 <= i < |s| ==> 0 <= s[i] < 0x100
    ensures ToUint8(s) == s
  {
    if s != [] {
      ToUint8Bytes(s[..|s| - 1]);
    }
  }
}
