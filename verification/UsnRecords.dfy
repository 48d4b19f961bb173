/** The packed change-journal records: the walk over a buffer, the decoder of one record, and the
    encoder they invert. */
module UsnRecords {
  import opened Bytes

  const HEADER: nat := 60

  type unit = x: int | 0 <= x < 65536

  datatype Record = Record(frn: nat, parent: nat, reason: nat, attributes: nat, name: seq<unit>)

  // ---- little-endian fields --------------------------------------------------------------

  function Le(s: seq<byte>): (v: nat) {
    if s == [] then 0 else s[0] + 256 * Le(s[1..])
  }

  function LeBytes(v: nat, width: nat): (s: seq<byte>)
    ensures |s| == width
  {
    if width == 0 then [] else [v % 256] + LeBytes(v / 256, width - 1)
  }

  function Capacity(width: nat): nat {
    if width == 0 then 1 else 256 * Capacity(width - 1)
  }

  lemma {:induction false} LeOfBytes(v: nat, width: nat)
    requires v < Capacity(width)
    ensures Le(LeBytes(v, width)) == v
  {
    if width > 0 {
      LeOfBytes(v / 256, width - 1);
      assert LeBytes(v, width)[1..] == LeBytes(v / 256, width - 1);
    }
  }

  function ReadField(buf: seq<byte>, off: nat, width: nat): nat
    requires off + width <= |buf|
  {
    Le(buf[off..off + width])
  }

  function Unit(lo: byte, hi: byte): unit {
    (lo as int) + 256 * (hi as int)
  }

  function Units(s: seq<byte>): seq<unit>
    requires |s| % 2 == 0
  {
    if s == [] then []
    else
      [Unit(s[0], s[1])] + Units(s[2..])
  }

  function UnitBytes(u: seq<unit>): (s: seq<byte>)
    ensures |s| == 2 * |u|
  {
    if u == [] then [] else [u[0] % 256, u[0] / 256] + UnitBytes(u[1..])
  }

  lemma {:induction false} UnitsOfBytes(u: seq<unit>)
    ensures Units(UnitBytes(u)) == u
  {
    if u != [] {
      UnitsOfBytes(u[1..]);
      assert UnitBytes(u)[2..] == UnitBytes(u[1..]);
    }
  }

  /** `(n + 7) & !7`. */
  function Align8(n: nat): (r: nat)
    ensures n <= r < n + 8 && r % 8 == 0
  {
    (n + 7) / 8 * 8
  }

  // ---- the layout, byte by byte -----------------------------------------------------------

  function U16(buf: seq<byte>, at: nat): nat
    requires at + 2 <= |buf|
  {
    buf[at] as int + 0x100 * buf[at + 1] as int
  }

  function U32(buf: seq<byte>, at: nat): nat
    requires at + 4 <= |buf|
  {
    U16(buf, at) + 0x1_0000 * U16(buf, at + 2)
  }

  function U64(buf: seq<byte>, at: nat): nat
    requires at + 8 <= |buf|
  {
    U32(buf, at) + 0x1_0000_0000 * U32(buf, at + 4)
  }

  lemma {:induction false} LeSplit(a: seq<byte>, b: seq<byte>)
    ensures Le(a + b) == Le(a) + Capacity(|a|) * Le(b)
  {
    if a == [] {
      assert a + b == b;
    } else {
      LeSplit(a[1..], b);
      assert (a + b)[1..] == a[1..] + b;
      Widened(Capacity(|a| - 1), Le(b));
    }
  }

  lemma Widened(c: nat, x: nat)
    ensures 256 * (c * x) == (256 * c) * x
  {
  }

  lemma FieldsAreLittleEndian(buf: seq<byte>, at: nat)
    ensures at + 2 <= |buf| ==> ReadField(buf, at, 2) == U16(buf, at)
    ensures at + 4 <= |buf| ==> ReadField(buf, at, 4) == U32(buf, at)
    ensures at + 8 <= |buf| ==> ReadField(buf, at, 8) == U64(buf, at)
  {
    if at + 2 <= |buf| {
      TwoBytes(buf, at);
    }
    if at + 4 <= |buf| {
      FourBytes(buf, at);
    }
    if at + 8 <= |buf| {
      FourBytes(buf, at);
      FourBytes(buf, at + 4);
      LeSplit(buf[at..at + 4], buf[at + 4..at + 8]);
      assert buf[at..at + 4] + buf[at + 4..at + 8] == buf[at..at + 8];
      Widths();
    }
  }

  lemma TwoBytes(buf: seq<byte>, at: nat)
    requires at + 2 <= |buf|
    ensures ReadField(buf, at, 2) == U16(buf, at)
  {
    var s := buf[at..at + 2];
    assert s[1..] == [buf[at + 1]] && s[1..][1..] == [];
    assert Le(s[1..]) == buf[at + 1] as int + 256 * Le([]);
  }

  lemma FourBytes(buf: seq<byte>, at: nat)
    requires at + 4 <= |buf|
    ensures ReadField(buf, at, 4) == U32(buf, at)
  {
    TwoBytes(buf, at);
    TwoBytes(buf, at + 2);
    LeSplit(buf[at..at + 2], buf[at + 2..at + 4]);
    assert buf[at..at + 2] + buf[at + 2..at + 4] == buf[at..at + 4];
    Widths();
  }

  lemma Widths()
    ensures Capacity(2) == 65536 && Capacity(4) == 4294967296
  {
    assert Capacity(1) == 256 && Capacity(3) == 16777216;
  }

  lemma {:induction false} UnitAt(s: seq<byte>, i: nat)
    requires |s| % 2 == 0 && 2 * i < |s|
    ensures |Units(s)| == |s| / 2 && Units(s)[i] == s[2 * i] as int + 256 * s[2 * i + 1] as int
    decreases |s|
  {
    if |s| > 2 {
      UnitAt(s[2..], if i == 0 then 0 else i - 1);
    }
  }

  // ---- the walk ------------------------------------------------------------------------------

  /** The record at `off`, validated to span `len` bytes; None when its name does not lie inside it. */
  function Parse(buf: seq<byte>, off: nat, len: nat): (r: Option<Record>)
    requires HEADER <= len && off + len <= |buf|
  {
    var nameLen := ReadField(buf, off + 56, 2);
    var nameOff := ReadField(buf, off + 58, 2);
    if nameOff < HEADER || nameLen % 2 != 0 || nameOff + nameLen > len then None
    else
      var start := off + nameOff;
      Some(Record(ReadField(buf, off + 8, 8), ReadField(buf, off + 16, 8), ReadField(buf, off + 40, 4),
                  ReadField(buf, off + 52, 4), Units(buf[start..start + nameLen])))
  }

  /** The record length at `off`, when the walk goes on there. */
  function FrameAt(buf: seq<byte>, off: nat): (len: Option<nat>)
    ensures len.Some? ==> HEADER <= len.value && off + len.value <= |buf|
  {
    if off + HEADER > |buf| then None
    else
      var len := ReadField(buf, off, 4);
      if len == 0 || len < HEADER || len > |buf| - off then None else Some(len)
  }

  /** What one frame reports: its record, if it is a well-formed version 2 record. */
  function Reported(buf: seq<byte>, off: nat, len: nat): seq<Record>
    requires HEADER <= len && off + len <= |buf|
  {
    if ReadField(buf, off + 4, 2) == 2 && Parse(buf, off, len).Some? then [Parse(buf, off, len).value] else []
  }

  /** Where everything stands in a USN_RECORD_V2, as little-endian bytes counted from its start: the length first, the
      version at 4, the FRN at 8, the parent's at 16, the reason at 40, the attributes at 52, the name's length in
      bytes at 56 and its place at 58. A frame reports its record exactly when the version is 2 and the name, of whole
      units, stands behind the header and inside the frame. */
  lemma FieldsStandAt(buf: seq<byte>, off: nat)
    requires FrameAt(buf, off).Some?
    ensures off + HEADER <= |buf| && FrameAt(buf, off) == Some(U32(buf, off))
    ensures var len, rs := FrameAt(buf, off).value, Reported(buf, off, FrameAt(buf, off).value);
            var nameLen, nameOff := U16(buf, off + 56), U16(buf, off + 58);
            && |rs| <= 1
            && (rs != [] <==>
                  U16(buf, off + 4) == 2 && nameOff >= 60 && nameLen % 2 == 0 && nameOff + nameLen <= len)
            && (rs != [] ==>
                  && rs[0].frn == U64(buf, off + 8) && rs[0].parent == U64(buf, off + 16)
                  && rs[0].reason == U32(buf, off + 40) && rs[0].attributes == U32(buf, off + 52)
                  && 2 * |rs[0].name| == nameLen && nameOff + nameLen <= len <= |buf| - off
                  && forall i :: 0 <= i < |rs[0].name| ==> rs[0].name[i] == U16(buf, off + nameOff + 2 * i))
  {
    hide Le, Units, U16, U32, U64, ReadField;
    FieldsAreLittleEndian(buf, off);
    FieldsAreLittleEndian(buf, off + 4);
    FieldsAreLittleEndian(buf, off + 8);
    FieldsAreLittleEndian(buf, off + 16);
    FieldsAreLittleEndian(buf, off + 40);
    FieldsAreLittleEndian(buf, off + 52);
    FieldsAreLittleEndian(buf, off + 56);
    FieldsAreLittleEndian(buf, off + 58);
    var rs := Reported(buf, off, FrameAt(buf, off).value);
    if rs != [] {
      UnitsStandAt(buf, off + ReadField(buf, off + 58, 2), ReadField(buf, off + 56, 2));
    }
  }

  lemma UnitsStandAt(buf: seq<byte>, at: nat, n: nat)
    requires n % 2 == 0 && at + n <= |buf|
    ensures 2 * |Units(buf[at..at + n])| == n
    ensures forall i :: 0 <= i < |Units(buf[at..at + n])| ==> Units(buf[at..at + n])[i] == U16(buf, at + 2 * i)
  {
    hide Units;
    var s := buf[at..at + n];
    if n > 0 {
      UnitAt(s, 0);
    } else {
      NoUnits(s);
    }
    forall i | 0 <= i < |Units(s)| ensures Units(s)[i] == U16(buf, at + 2 * i) {
      UnitAt(s, i);
    }
  }

  lemma NoUnits(s: seq<byte>)
    requires s == []
    ensures Units(s) == []
  {
  }

  function Walk(buf: seq<byte>, off: nat): seq<Record>
    decreases |buf| - off
  {
    match FrameAt(buf, off)
    case None => []
    case Some(len) => Reported(buf, off, len) + Walk(buf, Align8(off + len))
  }

  lemma WalkStep(buf: seq<byte>, off: nat, before: seq<Record>)
    ensures match FrameAt(buf, off)
            case None => before + Walk(buf, off) == before
            case Some(len) => before + Walk(buf, off) == (before + Reported(buf, off, len)) + Walk(buf, Align8(off + len))
  {
    hide FrameAt, Reported;
    var len := FrameAt(buf, off);
    if len.Some? {
      var here, next := Reported(buf, off, len.value), Walk(buf, Align8(off + len.value));
      assert before + (here + next) == (before + here) + next;
    }
  }

  method ForEachRecord(buf: seq<byte>) returns (out: seq<Record>)
    ensures out == Walk(buf, 0)
  {
    hide Parse, ReadField, Walk;
    var off: nat := 0;
    out := [];
    while off + HEADER <= |buf|
      invariant [] + Walk(buf, 0) == out + Walk(buf, off)
      decreases |buf| - off
    {
      WalkStep(buf, off, out);
      var recLen := ReadField(buf, off, 4);
      if recLen == 0 {
        break;
      }
      if recLen < HEADER || recLen > |buf| - off {
        break;
      }
      ghost var reported := Reported(buf, off, recLen);
      var major := ReadField(buf, off + 4, 2);
      if major == 2 {
        var rec := Parse(buf, off, recLen);
        if rec.Some? {
          out := out + [rec.value];
        }
      }
      off := off + recLen;
      off := Align8(off);
    }
    WalkStep(buf, off, out);
    assert [] + Walk(buf, 0) == Walk(buf, 0);
  }

  /** The offset and length of every frame the walk visits. */
  function Frames(buf: seq<byte>, off: nat): (fs: seq<(nat, nat)>)
    decreases |buf| - off
  {
    match FrameAt(buf, off)
    case None => []
    case Some(len) => [(off, len)] + Frames(buf, Align8(off + len))
  }

  /** Frames lie inside the buffer on 8-byte boundaries, each at least a header long and after the one before. */
  ghost predicate FramesApart(buf: seq<byte>, fs: seq<(nat, nat)>, from: nat) {
    fs != [] ==>
      && from <= fs[0].0 && fs[0].0 % 8 == 0 && HEADER <= fs[0].1 && fs[0].0 + fs[0].1 <= |buf|
      && FramesApart(buf, fs[1..], fs[0].0 + fs[0].1)
  }

  function ReportedIn(buf: seq<byte>, fs: seq<(nat, nat)>, from: nat): seq<Record>
    requires FramesApart(buf, fs, from)
  {
    if fs == [] then [] else Reported(buf, fs[0].0, fs[0].1) + ReportedIn(buf, fs[1..], fs[0].0 + fs[0].1)
  }

  /** Any bytes at all: the frames visited never overlap or leave the buffer, and the records are theirs, in order. */
  lemma {:induction false} WalkStaysInFrames(buf: seq<byte>, off: nat, from: nat)
    requires off % 8 == 0 && from <= off
    ensures FramesApart(buf, Frames(buf, off), from)
    ensures Walk(buf, off) == ReportedIn(buf, Frames(buf, off), from)
    decreases |buf| - off
  {
    hide FrameAt, Reported;
    var len := FrameAt(buf, off);
    if len.Some? {
      var next := Align8(off + len.value);
      WalkStaysInFrames(buf, next, off + len.value);
      assert Frames(buf, off)[1..] == Frames(buf, next);
    }
  }

  // ---- bytes outside a frame do not matter ---------------------------------------------

  lemma ReadInside(a: seq<byte>, b: seq<byte>, c: seq<byte>, off: nat, width: nat)
    requires off + width <= |b|
    ensures ReadField(a + b + c, |a| + off, width) == ReadField(b, off, width)
  {
    assert (a + b + c)[|a| + off..|a| + off + width] == b[off..off + width];
  }

  lemma ReportedInside(a: seq<byte>, b: seq<byte>, c: seq<byte>, off: nat, len: nat)
    requires HEADER <= len && off + len <= |b|
    ensures Reported(a + b + c, |a| + off, len) == Reported(b, off, len)
  {
    hide ReadField, Units;
    ReadInside(a, b, c, off + 4, 2);
    ReadInside(a, b, c, off + 8, 8);
    ReadInside(a, b, c, off + 16, 8);
    ReadInside(a, b, c, off + 40, 4);
    ReadInside(a, b, c, off + 52, 4);
    ReadInside(a, b, c, off + 56, 2);
    ReadInside(a, b, c, off + 58, 2);
    var from, n := off + ReadField(b, off + 58, 2), ReadField(b, off + 56, 2);
    if from + n <= |b| {
      assert (a + b + c)[|a| + from..|a| + from + n] == b[from..from + n];
    }
  }

  /** A walk that starts on a record boundary sees only what follows it. */
  lemma {:induction false} WalkInside(a: seq<byte>, b: seq<byte>, off: nat)
    requires |a| % 8 == 0
    ensures Walk(a + b, |a| + off) == Walk(b, off)
    decreases |b| - off
  {
    hide ReadField, Reported;
    if off + HEADER <= |b| {
      assert a + b + [] == a + b;
      ReadInside(a, b, [], off, 4);
      var len := FrameAt(b, off);
      if len.Some? {
        ReportedInside(a, b, [], off, len.value);
        assert Align8(|a| + off + len.value) == |a| + Align8(off + len.value);
        WalkInside(a, b, Align8(off + len.value));
      }
    }
  }

  /** A buffer cut short reports the records of a prefix of the walk, and nothing else. */
  lemma {:induction false} CutIsPrefix(buf: seq<byte>, n: nat, off: nat)
    requires n <= |buf|
    ensures Walk(buf[..n], off) <= Walk(buf, off)
    decreases |buf| - off
  {
    hide ReadField, Reported;
    var len := FrameAt(buf[..n], off);
    if len.Some? {
      assert [] + buf[..n] + buf[n..] == buf;
      ReadInside([], buf[..n], buf[n..], off, 4);
      ReportedInside([], buf[..n], buf[n..], off, len.value);
      CutIsPrefix(buf, n, Align8(off + len.value));
    }
  }

  // ---- the encoder -----------------------------------------------------------------------------

  /** A record whose fields fit their widths; a name's byte length is a 16-bit field. */
  predicate Encodable(r: Record) {
    && r.frn < Capacity(8) && r.parent < Capacity(8) && r.reason < Capacity(4) && r.attributes < Capacity(4)
    && 2 * |r.name| < Capacity(2)
  }

  function BareLength(r: Record): nat {
    HEADER + 2 * |r.name|
  }

  /** The fixed fields. */
  function Head(r: Record, recLen: nat): (s: seq<byte>)
    ensures |s| == HEADER
  {
    LeBytes(recLen, 4) + LeBytes(2, 2) + Zeros(2) + LeBytes(r.frn, 8) + LeBytes(r.parent, 8) + Zeros(16)
    + LeBytes(r.reason, 4) + Zeros(8) + LeBytes(r.attributes, 4) + LeBytes(2 * |r.name|, 2) + LeBytes(HEADER, 2)
  }

  /** The record's bytes, padded to 8; RecordLength counts the padding or not. */
  function Encode(r: Record, padded: bool): (s: seq<byte>)
    ensures |s| == Align8(BareLength(r))
  {
    Head(r, FrameLength(r, padded)) + UnitBytes(r.name) + Zeros(Align8(BareLength(r)) - BareLength(r))
  }

  function FrameLength(r: Record, padded: bool): nat {
    if padded then Align8(BareLength(r)) else BareLength(r)
  }

  function Zeros(n: nat): (s: seq<byte>)
    ensures |s| == n
  {
    Repeat(0 as byte, n)
  }

  function EncodeAll(rs: seq<(Record, bool)>): seq<byte> {
    if rs == [] then [] else Encode(rs[0].0, rs[0].1) + EncodeAll(rs[1..])
  }

  function Records(rs: seq<(Record, bool)>): seq<Record> {
    if rs == [] then [] else [rs[0].0] + Records(rs[1..])
  }

  lemma HeadFields(r: Record, recLen: nat, rest: seq<byte>)
    ensures var s := Head(r, recLen) + rest;
            && s[0..4] == LeBytes(recLen, 4) && s[4..6] == LeBytes(2, 2)
            && s[8..16] == LeBytes(r.frn, 8) && s[16..24] == LeBytes(r.parent, 8)
            && s[40..44] == LeBytes(r.reason, 4) && s[52..56] == LeBytes(r.attributes, 4)
            && s[56..58] == LeBytes(2 * |r.name|, 2) && s[58..60] == LeBytes(HEADER, 2)
  {
    hide LeBytes, Zeros;
  }

  lemma EncodedFields(r: Record, recLen: nat, rest: seq<byte>)
    requires Encodable(r) && recLen < Capacity(4)
    ensures var s := Head(r, recLen) + rest;
            && ReadField(s, 0, 4) == recLen && ReadField(s, 4, 2) == 2
            && ReadField(s, 8, 8) == r.frn && ReadField(s, 16, 8) == r.parent
            && ReadField(s, 40, 4) == r.reason && ReadField(s, 52, 4) == r.attributes
            && ReadField(s, 56, 2) == 2 * |r.name| && ReadField(s, 58, 2) == HEADER
  {
    hide Le, LeBytes, Head, Capacity;
    HeadFields(r, recLen, rest);
    Widths();
    LeOfBytes(recLen, 4);
    LeOfBytes(2, 2);
    LeOfBytes(r.frn, 8);
    LeOfBytes(r.parent, 8);
    LeOfBytes(r.reason, 4);
    LeOfBytes(r.attributes, 4);
    LeOfBytes(2 * |r.name|, 2);
    LeOfBytes(HEADER, 2);
  }

  lemma EncodedName(r: Record, padded: bool, rest: seq<byte>)
    ensures (Encode(r, padded) + rest)[HEADER..BareLength(r)] == UnitBytes(r.name)
    ensures Encode(r, padded) + rest == Head(r, FrameLength(r, padded)) + (Encode(r, padded) + rest)[HEADER..]
  {
    hide Head, UnitBytes, Zeros, Align8;
    var s := Encode(r, padded) + rest;
    assert s[..HEADER] == Head(r, FrameLength(r, padded));
  }

  lemma EncodedReported(r: Record, padded: bool, rest: seq<byte>)
    requires Encodable(r)
    ensures FrameAt(Encode(r, padded) + rest, 0) == Some(FrameLength(r, padded))
    ensures Reported(Encode(r, padded) + rest, 0, FrameLength(r, padded)) == [r]
  {
    hide ReadField, Head, Units, UnitBytes, Encode, Capacity, Align8;
    var s, len := Encode(r, padded) + rest, FrameLength(r, padded);
    Widths();
    EncodedName(r, padded, rest);
    EncodedFields(r, len, s[HEADER..]);
    UnitsOfBytes(r.name);
  }

  /** One encoded record is read back, and the walk goes on right after it. */
  lemma WalkEncoded(r: Record, padded: bool, rest: seq<byte>)
    requires Encodable(r)
    ensures Walk(Encode(r, padded) + rest, 0) == [r] + Walk(rest, 0)
  {
    hide FrameAt, Reported, Encode;
    EncodedReported(r, padded, rest);
    WalkInside(Encode(r, padded), rest, 0);
    AlignTwice(BareLength(r));
  }

  lemma AlignTwice(n: nat)
    ensures Align8(Align8(n)) == Align8(n)
  {
  }

  lemma NoRecords(rest: seq<byte>)
    ensures EncodeAll([]) + rest == rest && Records([]) + Walk(rest, 0) == Walk(rest, 0)
  {
    hide Walk;
  }

  lemma OneMoreRecord(rs: seq<(Record, bool)>, rest: seq<byte>, after: seq<Record>)
    requires rs != []
    ensures EncodeAll(rs) + rest == Encode(rs[0].0, rs[0].1) + (EncodeAll(rs[1..]) + rest)
    ensures Records(rs) + after == [rs[0].0] + (Records(rs[1..]) + after)
  {
    hide Encode, Align8;
    Assoc(Encode(rs[0].0, rs[0].1), EncodeAll(rs[1..]), rest);
    Assoc([rs[0].0], Records(rs[1..]), after);
  }

  lemma Assoc<T>(a: seq<T>, b: seq<T>, c: seq<T>)
    ensures (a + b) + c == a + (b + c)
  {
  }

  /** Any list of encoded records, each padded its own way, is read back as exactly that list, whatever follows. */
  lemma {:induction false} WalkEncodedAll(rs: seq<(Record, bool)>, rest: seq<byte>)
    requires forall i :: 0 <= i < |rs| ==> Encodable(rs[i].0)
    ensures Walk(EncodeAll(rs) + rest, 0) == Records(rs) + Walk(rest, 0)
  {
    hide Encodable, Encode, Walk, EncodeAll, Records;
    if rs == [] {
      NoRecords(rest);
    } else {
      WalkEncodedAll(rs[1..], rest);
      WalkEncoded(rs[0].0, rs[0].1, EncodeAll(rs[1..]) + rest);
      OneMoreRecord(rs, rest, Walk(rest, 0));
    }
  }

  /** Nothing follows the last record, or a zero length does: the list itself. */
  lemma ReadsBack(rs: seq<(Record, bool)>, rest: seq<byte>)
    requires forall i :: 0 <= i < |rs| ==> Encodable(rs[i].0)
    requires |rest| < HEADER || ReadField(rest, 0, 4) == 0
    ensures Walk(EncodeAll(rs) + rest, 0) == Records(rs)
  {
    WalkEncodedAll(rs, rest);
    assert Walk(rest, 0) == [];
  }
}
