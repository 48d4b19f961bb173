/** Names: folding, truncation, the segmentation rule and the initials lane built from it. */
module Names {
  import opened Bytes
  import opened Utf8

  /** What the index asks of Unicode; every theorem holds whatever the answers are. */
  datatype Unicode = Unicode(
    nfc: string -> string,
    lower: char -> string,
    isLower: char -> bool,
    isUpper: char -> bool)

  /** Bytes of one slot's initials lane. */
  const INITIALS_STRIDE: nat := 8

  /** Longest name a 16-bit length field can describe. */
  const NAME_MAX: nat := 0xFFFF

  function LowerAll(uni: Unicode, s: string): string {
    if s == [] then [] else uni.lower(s[0]) + LowerAll(uni, s[1..])
  }

  /** The one case fold, applied alike to names and to queries. */
  function Fold(uni: Unicode, s: string): string {
    LowerAll(uni, uni.nfc(s))
  }

  /** The longest prefix of whole characters that fits in `max` bytes. */
  function Truncate(s: string, max: nat): (r: string)
    ensures |Encode(r)| <= max
    ensures |r| <= |s| && r == s[..|r|]
    ensures |r| < |s| ==> |Encode(r)| + |EncodeChar(s[|r|])| > max
  {
    if s == [] || |EncodeChar(s[0])| > max then []
    else
      var rest := Truncate(s[1..], max - |EncodeChar(s[0])|);
      assert ([s[0]] + rest)[1..] == rest;
      [s[0]] + rest
  }

  /** The original-case form of `raw` the name arena stores. */
  function StoredName(uni: Unicode, raw: string): string {
    Truncate(uni.nfc(raw), NAME_MAX)
  }

  /** The folded record of a stored name. */
  function FoldedRecord(uni: Unicode, name: string): (r: seq<byte>)
    ensures |r| <= NAME_MAX
  {
    Encode(Truncate(Fold(uni, name), NAME_MAX))
  }

  // ---- segments ------------------------------------------------------------

  predicate IsSepByte(b: byte) {
    b == 0x2D || b == 0x5F || b == 0x2E || b == 0x20
  }

  predicate IsSepChar(c: char) {
    c == '-' || c == '_' || c == '.' || c == ' '
  }

  /** A segment starts at `i`: after a separator, at the front, or at a lower-to-upper turn. */
  predicate IsSegmentStart(uni: Unicode, name: string, i: nat)
    requires i < |name|
  {
    && !IsSepChar(name[i])
    && (i == 0 || IsSepChar(name[i - 1]) || (uni.isLower(name[i - 1]) && uni.isUpper(name[i])))
  }

  function SegmentStarts(uni: Unicode, name: string, n: nat): seq<nat>
    requires n <= |name|
  {
    if n == 0 then []
    else if IsSegmentStart(uni, name, n - 1) then SegmentStarts(uni, name, n - 1) + [n - 1]
    else SegmentStarts(uni, name, n - 1)
  }

  /** A segment starts at every character that is no dash, underscore, dot or space and stands first, after one of
      those, or as an upper-case letter after a lower-case one. */
  lemma {:induction false} SegmentStartsAre(uni: Unicode, name: string, n: nat, i: nat)
    requires n <= |name|
    ensures i in SegmentStarts(uni, name, n) <==>
              && i < n && name[i] !in {'-', '_', '.', ' '}
              && (i == 0 || name[i - 1] in {'-', '_', '.', ' '} || (uni.isLower(name[i - 1]) && uni.isUpper(name[i])))
    ensures forall a, b :: 0 <= a < b < |SegmentStarts(uni, name, n)| ==>
              SegmentStarts(uni, name, n)[a] < SegmentStarts(uni, name, n)[b] < n
  {
    StartsBelow(uni, name, n);
    if n > 0 {
      StartsBelow(uni, name, n - 1);
      SegmentStartsAre(uni, name, n - 1, i);
    }
  }

  lemma {:induction false} StartsBelow(uni: Unicode, name: string, n: nat)
    requires n <= |name|
    ensures forall k :: 0 <= k < |SegmentStarts(uni, name, n)| ==> SegmentStarts(uni, name, n)[k] < n
  {
    if n > 0 {
      StartsBelow(uni, name, n - 1);
    }
  }

  /** The walk over a name's characters that reports each segment when it ends. */
  method FindSegments(uni: Unicode, name: string) returns (starts: seq<nat>)
    ensures starts == SegmentStarts(uni, name, |name|)
  {
    starts := [];
    var start: Option<nat> := None;
    var prev: Option<char> := None;
    for i := 0 to |name|
      invariant prev == if i == 0 then None else Some(name[i - 1])
      invariant start.Some? <==> i > 0 && !IsSepChar(name[i - 1])
      invariant starts + (if start.Some? then [start.value] else []) == SegmentStarts(uni, name, i)
    {
      var c := name[i];
      if IsSepChar(c) {
        if start.Some? {
          starts := starts + [start.value];
          start := None;
        }
      } else {
        var camel := prev.Some? && uni.isLower(prev.value) && uni.isUpper(c);
        if camel {
          if start.Some? {
            starts := starts + [start.value];
          }
          start := Some(i);
        } else if start.None? {
          start := Some(i);
        }
      }
      prev := Some(c);
    }
    if start.Some? {
      starts := starts + [start.value];
    }
  }

  // ---- the initials lane ---------------------------------------------------

  function Initial(uni: Unicode, c: char): seq<byte> {
    Encode(uni.lower(c))
  }

  function Initials(uni: Unicode, name: string, starts: seq<nat>): (r: seq<seq<byte>>)
    requires forall k :: 0 <= k < |starts| ==> starts[k] < |name|
    ensures |r| == |starts|
    ensures forall k :: 0 <= k < |starts| ==> r[k] == Initial(uni, name[starts[k]])
  {
    seq(|starts|, k requires 0 <= k < |starts| => Initial(uni, name[starts[k]]))
  }

  function Flatten(parts: seq<seq<byte>>): seq<byte> {
    if parts == [] then [] else parts[0] + Flatten(parts[1..])
  }

  /** Whole initials, in order, while they still fit in `room`; the first that does not ends the walk. */
  function Pack(parts: seq<seq<byte>>, room: nat): (r: seq<byte>)
    ensures |r| <= room
  {
    if parts == [] || |parts[0]| > room then []
    else parts[0] + Pack(parts[1..], room - |parts[0]|)
  }

  function Padded(p: seq<byte>): (r: seq<byte>)
    requires |p| <= INITIALS_STRIDE
    ensures |r| == INITIALS_STRIDE
  {
    p + Repeat(0 as byte, INITIALS_STRIDE - |p|)
  }

  lemma {:induction false} StartsInRange(uni: Unicode, name: string, n: nat)
    requires n <= |name|
    ensures forall k :: 0 <= k < |SegmentStarts(uni, name, n)| ==> SegmentStarts(uni, name, n)[k] < |name|
  {
    if n > 0 {
      StartsInRange(uni, name, n - 1);
    }
  }

  function NameInitials(uni: Unicode, name: string): seq<seq<byte>> {
    StartsInRange(uni, name, |name|);
    Initials(uni, name, SegmentStarts(uni, name, |name|))
  }

  /** One slot's lane. */
  function LaneOf(uni: Unicode, name: string): (lane: seq<byte>)
    ensures |lane| == INITIALS_STRIDE
  {
    Padded(Pack(NameInitials(uni, name), INITIALS_STRIDE))
  }

  /** The lane holds the longest run of whole initials that fits in it: `k` of them, and not one more. */
  lemma {:induction false} PackIsLongest(parts: seq<seq<byte>>, room: nat) returns (k: nat)
    ensures k <= |parts| && Pack(parts, room) == Flatten(parts[..k])
    ensures k < |parts| ==> |Flatten(parts[..k + 1])| > room
  {
    if parts == [] {
      k := 0;
    } else if |parts[0]| > room {
      k := 0;
      assert parts[..1] == [parts[0]] && Flatten(parts[..1]) == parts[0] + Flatten([]);
    } else {
      var j := PackIsLongest(parts[1..], room - |parts[0]|);
      k := j + 1;
      assert parts[..k][1..] == parts[1..][..j];
      if k < |parts| {
        assert parts[..k + 1][1..] == parts[1..][..j + 1];
      }
    }
  }

  lemma {:induction false} PackAppend(parts: seq<seq<byte>>, room: nat, done: nat)
    requires done <= |parts| && |Flatten(parts[..done])| <= room
    ensures Pack(parts, room) == Flatten(parts[..done]) + Pack(parts[done..], room - |Flatten(parts[..done])|)
  {
    if done == 0 {
      assert parts[0..] == parts;
    } else {
      assert parts[..done][1..] == parts[1..][..done - 1];
      assert parts[1..][done - 1..] == parts[done..];
      PackAppend(parts[1..], room - |parts[0]|, done - 1);
    }
  }

  lemma {:induction false} FlattenSnoc(parts: seq<seq<byte>>, n: nat)
    requires n < |parts|
    ensures Flatten(parts[..n + 1]) == Flatten(parts[..n]) + parts[n]
  {
    if n == 0 {
      assert parts[..1][1..] == [];
    } else {
      assert parts[..n + 1][1..] == parts[1..][..n];
      assert parts[..n][1..] == parts[1..][..n - 1];
      FlattenSnoc(parts[1..], n - 1);
    }
  }

  lemma PaddedSplice(p: seq<byte>, more: seq<byte>)
    requires |p| + |more| <= INITIALS_STRIDE
    ensures Splice(Padded(p), |p|, more) == Padded(p + more)
  {
  }

  lemma NothingPacked(parts: seq<seq<byte>>)
    ensures Flatten(parts[..0]) == [] && Padded([]) == Repeat(0 as byte, INITIALS_STRIDE)
  {
  }

  lemma AllPacked(parts: seq<seq<byte>>, room: nat)
    requires |Flatten(parts)| <= room
    ensures Pack(parts, room) == Flatten(parts)
  {
    assert parts[..|parts|] == parts;
    PackAppend(parts, room, |parts|);
  }

  lemma NextTooLong(parts: seq<seq<byte>>, room: nat, k: nat)
    requires k < |parts| && |Flatten(parts[..k])| <= room < |Flatten(parts[..k])| + |parts[k]|
    ensures Pack(parts, room) == Flatten(parts[..k])
  {
    PackAppend(parts, room, k);
  }

  /** Stages each initial whole, commits it if it fits, and stops at the first that does not. */
  method InitialsLane(uni: Unicode, name: string) returns (lane: seq<byte>)
    ensures lane == LaneOf(uni, name)
  {
    hide Flatten, Pack, Padded, Splice, Initial, SegmentStarts;
    var starts := FindSegments(uni, name);
    ghost var parts := NameInitials(uni, name);
    StartsInRange(uni, name, |name|);
    NothingPacked(parts);
    lane := Repeat(0 as byte, INITIALS_STRIDE);
    var len := 0;
    for k := 0 to |starts|
      invariant len == |Flatten(parts[..k])| <= INITIALS_STRIDE
      invariant lane == Padded(Flatten(parts[..k]))
    {
      var initial := Initial(uni, name[starts[k]]);
      FlattenSnoc(parts, k);
      assert initial == parts[k];
      if len + |initial| > INITIALS_STRIDE {
        NextTooLong(parts, INITIALS_STRIDE, k);
        return;
      }
      PaddedSplice(Flatten(parts[..k]), initial);
      lane := Splice(lane, len, initial);
      len := len + |initial|;
    }
    assert parts[..|parts|] == parts;
    AllPacked(parts, INITIALS_STRIDE);
  }
}
