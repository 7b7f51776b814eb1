/** A reader for the files the encoder writes: it checks the header chunk,
    finds the track by its length field and turns delta times back into
    absolute ticks. It is the inverse the encoder is proved against. */
module MidiReader {
  import opened Types
  import opened FixedWidth
  import opened VarInt
  import opened Scheduler
  import opened MidiEncoder
  import opened Seqs

  /** What a file says: the microseconds per beat and the records, ticks
      absolute. */
  datatype Song = Song(microsecondsPerBeat: int, events: seq<MidiEvent>)

  /** Reads delta-timed three-byte records up to the end-of-track event. */
  function ReadEvents(data: seq<int>, last: int): Option<seq<MidiEvent>>
    decreases |data|
  {
    if data == EndOfTrack then Some([])
    else
      match ReadVarInt(data)
      case None => None
      case Some((delta, n)) =>
        if |data| < n + 3 then None
        else
          var e := MidiEvent(last + delta, data[n], data[n + 1], data[n + 2]);
          match ReadEvents(data[n + 3..], e.ticks)
          case None => None
          case Some(rest) => Some([e] + rest)
  }

  /** Reads a format-0 file with one track: header chunk, track chunk whose
      length field covers the rest of the file, tempo event, records. */
  function ReadMidi(f: seq<int>): Option<Song>
  {
    if |f| < 22 || f[..14] != HeaderChunk() || f[14..18] != [0x4D, 0x54, 0x72, 0x6B] then None
    else if |f| != 22 + BigEndianValue(f[18..22]) then None
    else
      var data := f[22..];
      if |data| < 7 || data[..4] != [0x00, 0xFF, 0x51, 0x03] then None
      else
        match ReadEvents(data[7..], 0)
        case None => None
        case Some(events) => Some(Song(BigEndianValue(data[4..7]), events))
  }

  /** Ticks never fall below `last` and never decrease. */
  predicate TicksFrom(s: seq<MidiEvent>, last: int)
  {
    TickSorted(s) && (s == [] || last <= s[0].ticks)
  }

  /** The track data of the records, read from the front: the first record
      measured from `last`, the rest from the first. */
  lemma {:induction false} DeltaBytesFront(s: seq<MidiEvent>, last: int)
    requires s != []
    ensures DeltaBytes(s, last) == EventBytes(s[0], last) + DeltaBytes(s[1..], s[0].ticks)
  {
    if |s| == 1 {
      assert s[..0] == [] && s[1..] == [];
    } else {
      var init, x, tail := s[..|s| - 1], s[|s| - 1], s[1..];
      var e0, p := s[0], PrevTick(init, last);
      DeltaBytesFront(init, last);
      assert init[0] == e0;
      assert tail[..|tail| - 1] == init[1..];
      assert PrevTick(init[1..], e0.ticks) == p;
      assert DeltaBytes(tail, e0.ticks) == DeltaBytes(init[1..], e0.ticks) + EventBytes(x, p);
      Regroup(EventBytes(e0, last), DeltaBytes(init[1..], e0.ticks), EventBytes(x, p));
    }
  }

  /** Reading one record back: first its delta time, ... */
  lemma ReadDelta(e: MidiEvent, last: int, rest: seq<int>)
    requires last <= e.ticks
    ensures ReadVarInt(EventBytes(e, last) + rest) == Some((e.ticks - last, |Vlq(e.ticks - last)|))
  {
    EventBytesSplit(e, last, rest);
    ReadVlqAt(EventBytes(e, last) + rest, e.ticks - last, [e.status, e.note, e.velocity] + rest);
  }

  /** ... then, after the delta time, its three numbers. */
  lemma AfterDelta(e: MidiEvent, last: int, rest: seq<int>)
    requires last <= e.ticks
    ensures var data, n := EventBytes(e, last) + rest, |Vlq(e.ticks - last)|;
      && |data| == n + 3 + |rest|
      && data[n] == e.status && data[n + 1] == e.note && data[n + 2] == e.velocity
      && data[n + 3..] == rest
  {
    var v, three := Vlq(e.ticks - last), [e.status, e.note, e.velocity];
    var data, tail := EventBytes(e, last) + rest, three + rest;
    assert data == v + tail by { EventBytesSplit(e, last, rest); }
    assert data[|v|..] == tail by { PrefixSuffix(v, tail); }
    assert tail[3..] == rest by { PrefixSuffix(three, rest); }
    assert data[|v| + 3..] == data[|v|..][3..];
  }

  lemma EventBytesSplit(e: MidiEvent, last: int, rest: seq<int>)
    requires last <= e.ticks
    ensures EventBytes(e, last) + rest == Vlq(e.ticks - last) + ([e.status, e.note, e.velocity] + rest)
  {
    Regroup(Vlq(e.ticks - last), [e.status, e.note, e.velocity], rest);
  }

  /** One step of the reader: an encoded record followed by at least the
      end-of-track event reads as that record, then whatever the rest reads
      as. */
  lemma ReadEventBytes(e: MidiEvent, last: int, restBytes: seq<int>, restEvents: seq<MidiEvent>)
    requires last <= e.ticks && |restBytes| >= 4
    requires ReadEvents(restBytes, e.ticks) == Some(restEvents)
    ensures ReadEvents(EventBytes(e, last) + restBytes, last) == Some([e] + restEvents)
  {
    ReadDelta(e, last, restBytes);
    AfterDelta(e, last, restBytes);
    ReadEventsStep(EventBytes(e, last) + restBytes, last, e, |Vlq(e.ticks - last)|, restBytes, restEvents);
  }

  /** One unfolding of the reader on a stream that is longer than the
      end-of-track event and starts with the delta time and the three
      numbers of `e`. */
  lemma ReadEventsStep(data: seq<int>, last: int, e: MidiEvent, n: nat, restBytes: seq<int>, restEvents: seq<MidiEvent>)
    requires |data| == n + 3 + |restBytes| && |restBytes| >= 4
    requires ReadVarInt(data) == Some((e.ticks - last, n))
    requires data[n] == e.status && data[n + 1] == e.note && data[n + 2] == e.velocity
    requires data[n + 3..] == restBytes
    requires ReadEvents(restBytes, e.ticks) == Some(restEvents)
    ensures ReadEvents(data, last) == Some([e] + restEvents)
  {
    assert data != EndOfTrack;
  }

  lemma TicksFromTail(s: seq<MidiEvent>, last: int)
    requires s != [] && TicksFrom(s, last)
    ensures TicksFrom(s[1..], s[0].ticks) && last <= s[0].ticks
  {
  }

  /** Round trip of the records: reading the encoded records back yields
      exactly the records, whenever their ticks do not decrease. */
  lemma {:induction false} ReadDeltaBytes(s: seq<MidiEvent>, last: int)
    requires TicksFrom(s, last)
    ensures ReadEvents(DeltaBytes(s, last) + EndOfTrack, last) == Some(s)
    decreases |s|
  {
    if s == [] {
      assert DeltaBytes(s, last) + EndOfTrack == EndOfTrack;
    } else {
      var e, rest := s[0], s[1..];
      TicksFromTail(s, last);
      ReadDeltaBytes(rest, e.ticks);
      var restBytes := DeltaBytes(rest, e.ticks) + EndOfTrack;
      ReadEventBytes(e, last, restBytes, rest);
      DeltaBytesFront(s, last);
      Regroup(EventBytes(e, last), DeltaBytes(rest, e.ticks), EndOfTrack);
      HeadTail(s);
    }
  }


  /** A record as its bytes read back: status, note and velocity modulo 256,
      the tick kept. */
  function Wrap(e: MidiEvent): MidiEvent
  {
    MidiEvent(e.ticks, e.status % 0x100, e.note % 0x100, e.velocity % 0x100)
  }

  function WrapEvents(s: seq<MidiEvent>): (r: seq<MidiEvent>)
    ensures |r| == |s|
    ensures forall k :: 0 <= k < |s| ==> r[k].ticks == s[k].ticks && 0 <= r[k].note < 0x100
  {
    seq(|s|, k requires 0 <= k < |s| => Wrap(s[k]))
  }

  /** Delta times are bytes already. */
  lemma ToUint8VarInt(v: int)
    ensures ToUint8(VarIntBytes(v)) == VarIntBytes(v)
  {
    var b := VarIntBytes(v);
    assert forall j :: 0 <= j < |b| ==> 0 <= b[j] < 0x100;
    ToUint8Bytes(b);
  }

  lemma ToUint8EventBytes(e: MidiEvent, prev: int)
    ensures ToUint8(EventBytes(e, prev)) == EventBytes(Wrap(e), prev)
  {
    ToUint8VarInt(e.ticks - prev);
    ToUint8Record(VarIntBytes(e.ticks - prev), e.status, e.note, e.velocity);
  }

  /** Bytes followed by three numbers: the numbers are truncated. */
  lemma ToUint8Record(v: seq<int>, a: int, b: int, c: int)
    requires ToUint8(v) == v
    ensures ToUint8(v + [a, b, c]) == v + [a % 0x100, b % 0x100, c % 0x100]
  {
    ToUint8Append(v, [a, b, c]);
    ToUint8At([a, b, c]);
    assert ToUint8([a, b, c]) == [a % 0x100, b % 0x100, c % 0x100];
  }

  /** Truncating the encoded records to bytes is encoding the truncated
      records: delta times are bytes already. */
  lemma {:induction false} ToUint8DeltaBytes(s: seq<MidiEvent>, last: int)
    ensures ToUint8(DeltaBytes(s, last)) == DeltaBytes(WrapEvents(s), last)
  {
    if s != [] {
      var init, e := s[..|s| - 1], s[|s| - 1];
      var w, wi := WrapEvents(s), WrapEvents(init);
      assert w[..|s| - 1] == wi;
      assert w[|s| - 1] == Wrap(e);
      ToUint8DeltaBytes(init, last);
      var prev := PrevTick(init, last);
      assert PrevTick(wi, last) == prev;
      assert DeltaBytes(w, last) == DeltaBytes(wi, last) + EventBytes(Wrap(e), prev);
      ToUint8EventBytes(e, prev);
      ToUint8Append(DeltaBytes(init, last), EventBytes(e, prev));
    }
  }

  lemma HeaderIsBytes(length: int)
    ensures ToUint8(HeaderChunk() + TrackHeader(length)) == HeaderChunk() + TrackHeader(length)
  {
    HeaderChunkBytes();
    ToUint8Bytes(HeaderChunk());
    TrackHeaderBytes(length);
    var h := TrackHeader(length);
    forall i | 0 <= i < |h| ensures 0 <= h[i] < 0x100 {
      if i < 4 {
        assert h[i] == h[..4][i];
      } else {
        assert h[i] == BigEndian(length, 4)[i - 4];
      }
    }
    ToUint8Bytes(h);
    ToUint8Append(HeaderChunk(), h);
  }

  lemma TempoIsBytes(bpm: int)
    requires bpm > 0
    ensures ToUint8(TempoEvent(bpm)) == TempoEvent(bpm)
  {
    var t := TempoEvent(bpm);
    forall i | 0 <= i < |t| ensures 0 <= t[i] < 0x100 {
      if i >= 4 {
        assert t[i] == BigEndian(MicrosecondsPerBeat(bpm), 3)[i - 4];
      }
    }
    ToUint8Bytes(t);
  }

  /** The file of a progression, byte by byte: the header chunk, the track
      header with the length of the track data, then the track data with
      every record truncated to bytes. */
  lemma MidiFileParts(p: Progression)
    requires p.bpm > 0
    ensures var body := TempoEvent(p.bpm) + (DeltaBytes(WrapEvents(SortedEvents(p)), 0) + EndOfTrack);
      && |body| == |TrackData(p.bpm, SortedEvents(p))|
      && MidiFile(p) == HeaderChunk() + TrackHeader(|body|) + body
  {
    var data := TrackData(p.bpm, SortedEvents(p));
    var head := HeaderChunk() + TrackHeader(|data|);
    HeaderIsBytes(|data|);
    TempoIsBytes(p.bpm);
    ToUint8Bytes(EndOfTrack);
    ToUint8DeltaBytes(SortedEvents(p), 0);
    ToUint8Append(head, data);
    ToUint8Append(TempoEvent(p.bpm) + DeltaBytes(SortedEvents(p), 0), EndOfTrack);
    ToUint8Append(TempoEvent(p.bpm), DeltaBytes(SortedEvents(p), 0));
    Regroup(TempoEvent(p.bpm), DeltaBytes(WrapEvents(SortedEvents(p)), 0), EndOfTrack);
  }

  /** The sorted records start at tick 0 or later and never go back. */
  lemma SortedTicksFrom(p: Progression)
    ensures TicksFrom(WrapEvents(SortedEvents(p)), 0)
  {
    SortByTicksProperties(Schedule(p.chords));
    SortedWithin(p.chords);
  }

  /** Reading a file laid out as the encoder lays it out: header chunk,
      track header, a seven-byte tempo event and the records. */
  lemma ReadLayout(tempo: seq<int>, records: seq<int>)
    requires |tempo| == 7 && tempo[..4] == [0x00, 0xFF, 0x51, 0x03]
    requires |tempo + records| < Pow256(4)
    ensures ReadMidi(HeaderChunk() + TrackHeader(|tempo + records|) + (tempo + records))
      == match ReadEvents(records, 0)
         case None => None
         case Some(events) => Some(Song(BigEndianValue(tempo[4..]), events))
  {
    var body := tempo + records;
    var h, t := HeaderChunk(), TrackHeader(|body|);
    var f := h + t + body;
    HeaderChunkBytes();
    TrackHeaderBytes(|body|);
    PrefixSuffix(h + t, body);
    PrefixSuffix(h, t);
    assert f[..14] == h by { assert f[..14] == (h + t)[..14]; }
    assert f[14..18] == t[..4] by { assert f[14..18] == (h + t)[14..18]; }
    assert f[18..22] == t[4..] by { assert f[18..22] == (h + t)[18..22]; }
    PrefixSuffix(tempo, records);
    assert body[..4] == tempo[..4];
    assert body[4..7] == tempo[4..];
  }

  /** Round trip of the whole file: reading it back gives the tempo (modulo
      2^24, the width of its field) and the sorted records with status, note
      and velocity truncated to bytes, provided the track's length fits its
      four-byte field. */
  lemma MidiRoundTrip(p: Progression)
    requires p.bpm > 0
    requires |TrackData(p.bpm, SortedEvents(p))| < Pow256(4)
    ensures ReadMidi(MidiFile(p))
      == Some(Song(MicrosecondsPerBeat(p.bpm) % Pow256(3), WrapEvents(SortedEvents(p))))
  {
    var w := WrapEvents(SortedEvents(p));
    var tempo := TempoEvent(p.bpm);
    MidiFileParts(p);
    TempoEventBytes(p.bpm);
    ReadLayout(tempo, DeltaBytes(w, 0) + EndOfTrack);
    SortedTicksFrom(p);
    ReadDeltaBytes(w, 0);
  }
}
