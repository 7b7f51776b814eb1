/** Variable-length quantities: the delta-time encoding of a Standard MIDI
    File (Standard MIDI Files 1.0, "Variable-length quantity"). */
module VarInt {
  import opened Types

  /** The 7-bit groups of `v`, least significant first: what the push loop of
      the encoder collects before it reverses them. */
  ghost function Groups(v: int): seq<int>
    decreases if v > 0 then v else 0
  {
    if v <= 0 then [] else [v % 0x80] + Groups(v / 0x80)
  }

  /** Big-endian value of a run of 7-bit groups; continuation bits are ignored. */
  function GroupsValue(s: seq<int>): int
  {
    if s == [] then 0 else GroupsValue(s[..|s| - 1]) * 0x80 + s[|s| - 1] % 0x80
  }

  /** The leading bytes of the quantity for `w * 0x80 + low`: the groups of `w`,
      most significant first, each with its continuation bit set. */
  function ContinuationGroups(w: nat): (r: seq<int>)
    ensures forall j :: 0 <= j < |r| ==> 0x80 <= r[j] < 0x100
    ensures GroupsValue(r) == w
    ensures w == 0 <==> r == []
    ensures w > 0 ==> r[0] != 0x80
  {
    if w == 0 then []
    else
      var c := ContinuationGroups(w / 0x80);
      var r := c + [0x80 + w % 0x80];
      assert r[..|r| - 1] == c;
      assert (0x80 + w % 0x80) % 0x80 == w % 0x80;
      assert GroupsValue(r) == (w / 0x80) * 0x80 + w % 0x80;
      r
  }

  /** A well-formed quantity: every byte but the last has bit 0x80 set, the
      last has it clear, and there is no leading empty group. */
  predicate IsVlq(s: seq<int>)
  {
    && |s| >= 1
    && 0 <= s[|s| - 1] < 0x80
    && (forall j :: 0 <= j < |s| - 1 ==> 0x80 <= s[j] < 0x100)
    && (|s| == 1 || s[0] != 0x80)
  }

  /** The variable-length quantity of a non-negative integer. */
  function Vlq(v: nat): (r: seq<int>)
    ensures IsVlq(r)
    ensures GroupsValue(r) == v
  {
    var r := ContinuationGroups(v / 0x80) + [v % 0x80];
    assert r[..|r| - 1] == ContinuationGroups(v / 0x80);
    r
  }

  /** What the encoder's `writeVarInt` returns for an argument below 2^31:
      a negative argument never enters its loop and yields no bytes. */
  function VarIntBytes(value: int): seq<int>
  {
    if value < 0 then [] else Vlq(value)
  }

  function Reverse(s: seq<int>): (r: seq<int>)
    ensures |r| == |s|
    ensures forall j {:trigger r[j]} :: 0 <= j < |s| ==> r[j] == s[|s| - 1 - j]
  {
    seq(|s|, j requires 0 <= j < |s| => s[|s| - 1 - j])
  }

  /** `b | 0x80` on a byte: bit 7 is set exactly when `b` is 0x80 or more. */
  function SetContinuationBit(b: int): (r: int)
    requires 0 <= b < 0x100
    ensures b < 0x80 ==> r == b + 0x80
  {
    if b < 0x80 then b + 0x80 else b
  }

  /** writeVarInt: collects 7-bit groups low first while shifting the value
      right, reverses them, then sets the continuation bit on all but the
      last. The argument stays below 2^31 because `>>=` works on signed
      32-bit integers. */
  method WriteVarInt(value: int) returns (bytes: seq<int>)
    requires value < 0x8000_0000
    ensures bytes == VarIntBytes(value)
  {
    if value == 0 {
      assert Vlq(0) == ContinuationGroups(0) + [0];
      return [0];
    }
    var groups := [];
    var v := value;
    while v > 0
      invariant Groups(value) == groups + Groups(v)
      decreases if v > 0 then v else 0
    {
      assert Groups(v) == [v % 0x80] + Groups(v / 0x80);
      groups := groups + [v % 0x80];
      v := v / 0x80;
    }
    bytes := Reverse(groups);
    ghost var rev := bytes;
    assert groups == Groups(value);
    ReversedGroupsAreDigits(value, rev);
    var i := 0;
    while i < |bytes| - 1
      invariant 0 <= i <= |rev|
      invariant |rev| > 0 ==> i < |rev|
      invariant forall j :: 0 <= j < |rev| ==> 0 <= rev[j] < 0x80
      invariant |bytes| == |rev|
      invariant forall j :: 0 <= j < i ==> bytes[j] == rev[j] + 0x80
      invariant forall j :: i <= j < |rev| ==> bytes[j] == rev[j]
    {
      bytes := bytes[i := SetContinuationBit(bytes[i])];
      i := i + 1;
    }
    MarkedReversedGroups(value, rev, bytes);
  }

  lemma {:induction false} GroupsAreDigits(v: int)
    ensures forall j :: 0 <= j < |Groups(v)| ==> 0 <= Groups(v)[j] < 0x80
  {
    if v > 0 {
      GroupsAreDigits(v / 0x80);
    }
  }

  lemma ReversedGroupsAreDigits(v: int, rev: seq<int>)
    requires rev == Reverse(Groups(v))
    ensures forall j :: 0 <= j < |rev| ==> 0 <= rev[j] < 0x80
  {
    GroupsAreDigits(v);
    forall j | 0 <= j < |rev|
      ensures 0 <= rev[j] < 0x80
    {
      assert rev[j] == Groups(v)[|rev| - 1 - j];
    }
  }

  lemma {:induction false} ContinuationGroupsReversed(w: nat)
    ensures |ContinuationGroups(w)| == |Groups(w)|
    ensures forall j :: 0 <= j < |Groups(w)| ==>
      ContinuationGroups(w)[j] == Groups(w)[|Groups(w)| - 1 - j] + 0x80
  {
    if w > 0 {
      var g, c := Groups(w), ContinuationGroups(w);
      var g', c' := Groups(w / 0x80), ContinuationGroups(w / 0x80);
      ContinuationGroupsReversed(w / 0x80);
      assert g == [w % 0x80] + g';
      assert c == c' + [0x80 + w % 0x80];
      forall j | 0 <= j < |g|
        ensures c[j] == g[|g| - 1 - j] + 0x80
      {
        if j < |g| - 1 {
          assert c[j] == c'[j];
          assert g[|g| - 1 - j] == g'[|g'| - 1 - j];
        }
      }
    }
  }

  /** Reversed, the groups of `v` are the groups of `v / 0x80`, reversed,
      followed by the lowest group. */
  lemma ReversedGroupsSplit(v: nat, rev: seq<int>)
    requires v > 0 && rev == Reverse(Groups(v))
    ensures |rev| == |Groups(v / 0x80)| + 1
    ensures rev[|rev| - 1] == v % 0x80
    ensures forall j :: 0 <= j < |rev| - 1 ==> rev[j] == Groups(v / 0x80)[|rev| - 2 - j]
  {
    var g, n := Groups(v), |rev|;
    assert g == [v % 0x80] + Groups(v / 0x80);
    forall j | 0 <= j < n - 1
      ensures rev[j] == Groups(v / 0x80)[n - 2 - j]
    {
      assert rev[j] == g[n - 1 - j];
    }
  }

  /** The quantity is the reversed list of 7-bit groups with the continuation
      bit set on all but the last byte. */
  lemma VlqIsMarkedReversedGroups(v: nat, rev: seq<int>, bytes: seq<int>)
    requires v > 0
    requires rev == Reverse(Groups(v))
    requires |bytes| == |rev|
    requires forall j :: 0 <= j < |bytes| - 1 ==> bytes[j] == rev[j] + 0x80
    requires bytes[|bytes| - 1] == rev[|rev| - 1]
    ensures bytes == Vlq(v)
  {
    var w, n := v / 0x80, |bytes|;
    var cg := ContinuationGroups(w);
    ReversedGroupsSplit(v, rev);
    ContinuationGroupsReversed(w);
    assert bytes[..n - 1] == cg;
    assert bytes == bytes[..n - 1] + [v % 0x80];
    VlqOfSplit(v, w, v % 0x80);
  }

  lemma MarkedReversedGroups(value: int, rev: seq<int>, bytes: seq<int>)
    requires value != 0
    requires rev == Reverse(Groups(value))
    requires |bytes| == |rev|
    requires forall j :: 0 <= j < |bytes| - 1 ==> bytes[j] == rev[j] + 0x80
    requires |bytes| > 0 ==> bytes[|bytes| - 1] == rev[|rev| - 1]
    ensures bytes == VarIntBytes(value)
  {
    if value > 0 {
      VlqIsMarkedReversedGroups(value, rev, bytes);
    }
  }

  lemma {:induction false} ContinuationGroupsUnique(p: seq<int>)
    requires forall j :: 0 <= j < |p| ==> 0x80 <= p[j] < 0x100
    requires p == [] || p[0] != 0x80
    ensures GroupsValue(p) >= 0
    ensures p == ContinuationGroups(GroupsValue(p))
  {
    if p != [] {
      var q := p[..|p| - 1];
      ContinuationGroupsUnique(q);
      var w := GroupsValue(p);
      var low := p[|p| - 1] - 0x80;
      assert w == GroupsValue(q) * 0x80 + low;
      assert w > 0 by {
        if q == [] { assert w == p[0] - 0x80; } else { assert GroupsValue(q) > 0; }
      }
      assert w / 0x80 == GroupsValue(q) && w % 0x80 == low;
      assert p == q + [0x80 + low];
    }
  }

  /** The quantity of `v = w * 0x80 + d` is the groups of `w` followed by `d`. */
  lemma VlqOfSplit(v: nat, w: nat, d: int)
    requires 0 <= d < 0x80 && v == w * 0x80 + d
    ensures Vlq(v) == ContinuationGroups(w) + [d]
  {
    SplitGroup(w, d);
  }

  /** Appending a group shifts the value up by seven bits. */
  lemma GroupsValueSnoc(s: seq<int>, p: seq<int>, d: int)
    requires 0 <= d < 0x80 && s == p + [d]
    ensures GroupsValue(s) == GroupsValue(p) * 0x80 + d
  {
    assert s[..|s| - 1] == p;
  }

  /** Decoding is injective on well-formed quantities: a well-formed
      quantity is the encoding of its own value. */
  lemma VlqUnique(s: seq<int>)
    requires IsVlq(s)
    ensures GroupsValue(s) >= 0
    ensures s == Vlq(GroupsValue(s))
  {
    var p, last := s[..|s| - 1], s[|s| - 1];
    assert s == p + [last];
    ContinuationGroupsUnique(p);
    GroupsValueSnoc(s, p, last);
    VlqOfSplit(GroupsValue(s), GroupsValue(p), last);
  }

  lemma SplitGroup(w: int, d: int)
    requires 0 <= d < 0x80
    ensures (w * 0x80 + d) / 0x80 == w
    ensures (w * 0x80 + d) % 0x80 == d
  {
  }

  /** Number of bytes of the quantity at the front of `data`: up to and
      including the first byte below 0x80. */
  function VlqLength(data: seq<int>): (r: Option<nat>)
    ensures r.Some? ==> 1 <= r.value <= |data|
  {
    if |data| == 0 then None
    else if data[0] < 0x80 then Some(1)
    else
      match VlqLength(data[1..])
      case None => None
      case Some(n) => Some(n + 1)
  }

  /** Reads a quantity from the front of a byte stream: its value and length. */
  function ReadVarInt(data: seq<int>): (r: Option<(int, nat)>)
    ensures r.Some? ==> 1 <= r.value.1 <= |data|
  {
    match VlqLength(data)
    case None => None
    case Some(n) => Some((GroupsValue(data[..n]), n))
  }

  lemma {:induction false} VlqLengthOf(s: seq<int>, rest: seq<int>)
    requires |s| >= 1 && s[|s| - 1] < 0x80
    requires forall j :: 0 <= j < |s| - 1 ==> s[j] >= 0x80
    ensures VlqLength(s + rest) == Some(|s|)
  {
    if |s| > 1 {
      assert (s + rest)[1..] == s[1..] + rest;
      VlqLengthOf(s[1..], rest);
    }
  }

  /** Round trip: reading the quantity of `v` from the front of any stream
      gives back `v` and consumes exactly its bytes. */
  lemma ReadVlq(v: nat, rest: seq<int>)
    ensures ReadVarInt(Vlq(v) + rest) == Some((v, |Vlq(v)|))
  {
    VlqLengthOf(Vlq(v), rest);
    assert (Vlq(v) + rest)[..|Vlq(v)|] == Vlq(v);
  }

  /** The same, for a stream already known to start with the quantity. */
  lemma ReadVlqAt(data: seq<int>, v: nat, rest: seq<int>)
    requires data == Vlq(v) + rest
    ensures ReadVarInt(data) == Some((v, |Vlq(v)|))
  {
    ReadVlq(v, rest);
  }

  /** Worked values: one byte for 0 and 127, two for 128 and 1920 (four
      beats), three for 16384. */
  lemma VlqExamples()
    ensures Vlq(0) == [0x00]
    ensures Vlq(127) == [0x7F]
    ensures Vlq(128) == [0x81, 0x00]
    ensures Vlq(1920) == [0x8F, 0x00]
    ensures Vlq(16384) == [0x81, 0x80, 0x00]
  {
    VlqOfSplit(0, 0, 0);
    VlqOfSplit(127, 0, 127);
    assert ContinuationGroups(1) == [0x81];
    VlqOfSplit(128, 1, 0);
    assert ContinuationGroups(15) == [0x8F];
    VlqOfSplit(1920, 15, 0);
    assert ContinuationGroups(128) == ContinuationGroups(1) + [0x80];
    VlqOfSplit(16384, 128, 0);
  }
}
