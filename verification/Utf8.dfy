/** UTF-8, as Rust's `str` lays it out: the arenas hold bytes, the matcher reads characters. */
module Utf8 {
  import opened Bytes

  /** The encoding of one character, one to four bytes. */
  function EncodeChar(c: char): (b: seq<byte>)
    ensures 1 <= |b| <= 4
  {
    var n := c as int;
    if n < 0x80 then [n]
    else if n < 0x800 then [0xC0 + n / 64, 0x80 + n % 64]
    else if n < 0x10000 then [0xE0 + n / 4096, 0x80 + n / 64 % 64, 0x80 + n % 64]
    else [0xF0 + n / 262144, 0x80 + n / 4096 % 64, 0x80 + n / 64 % 64, 0x80 + n % 64]
  }

  function Encode(s: string): (b: seq<byte>)
    ensures |s| <= |b|
  {
    if s == [] then [] else EncodeChar(s[0]) + Encode(s[1..])
  }

  /** Length of the sequence a lead byte opens. */
  function SeqLen(lead: byte): (n: nat)
    ensures 1 <= n <= 4
  {
    if lead < 0x80 then 1 else if lead < 0xE0 then 2 else if lead < 0xF0 then 3 else 4
  }

  function Scalar(b: seq<byte>): int
    requires 1 <= |b| <= 4
  {
    var x: int := b[0];
    if |b| == 1 then x
    else
      var y: int := b[1];
      if |b| == 2 then (x - 0xC0) * 64 + (y - 0x80)
      else
        var z: int := b[2];
        if |b| == 3 then (x - 0xE0) * 4096 + (y - 0x80) * 64 + (z - 0x80)
        else
          var w: int := b[3];
          (x - 0xF0) * 262144 + (y - 0x80) * 4096 + (z - 0x80) * 64 + (w - 0x80)
  }

  function ToChar(n: int): char {
    if 0 <= n < 0xD800 || 0xE000 <= n < 0x110000 then n as char else 0xFFFD as char
  }

  function Decode(b: seq<byte>): string
    decreases |b|
  {
    if b == [] then []
    else
      var n := if SeqLen(b[0]) <= |b| then SeqLen(b[0]) else |b|;
      [ToChar(Scalar(b[..n]))] + Decode(b[n..])
  }

  /** Six bits at a time: the digits of `n` in base 64 give `n` back. */
  lemma Digits(n: nat)
    ensures n == n / 64 * 64 + n % 64
    ensures n == n / 4096 * 4096 + n / 64 % 64 * 64 + n % 64
    ensures n == n / 262144 * 262144 + n / 4096 % 64 * 4096 + n / 64 % 64 * 64 + n % 64
  {
    var a, r := n / 64, n % 64;
    var b, s := a / 64, a % 64;
    var c, t := b / 64, b % 64;
    assert n / 4096 == b by { assert n == b * 4096 + (s * 64 + r); }
    assert n / 262144 == c by { assert n == c * 262144 + (t * 4096 + s * 64 + r); }
  }

  lemma CharRoundTrip(c: char)
    ensures SeqLen(EncodeChar(c)[0]) == |EncodeChar(c)|
    ensures ToChar(Scalar(EncodeChar(c))) == c
  {
    var n := c as int;
    Digits(n);
    assert Scalar(EncodeChar(c)) == n;
  }

  /** Decoding what was encoded gives the string back. */
  lemma {:induction false} RoundTrip(s: string)
    ensures Decode(Encode(s)) == s
  {
    if s != [] {
      var b, rest := EncodeChar(s[0]), Encode(s[1..]);
      CharRoundTrip(s[0]);
      assert (b + rest)[0] == b[0];
      assert (b + rest)[..|b|] == b && (b + rest)[|b|..] == rest;
      RoundTrip(s[1..]);
    }
  }

  /** The table of section 3 of RFC 3629: how many bytes, which lead and continuation bytes, and whose six bits are
      whose, always in the shortest form. */
  lemma Layout(c: char)
    ensures var n, b := c as int, EncodeChar(c);
            && (n <= 0x7F ==> |b| == 1 && b[0] as int == n)
            && (0x80 <= n <= 0x7FF ==>
                  |b| == 2 && 0xC2 <= b[0] <= 0xDF && n == (b[0] as int - 0xC0) * 64 + (b[1] as int - 0x80))
            && (0x800 <= n <= 0xFFFF ==>
                  |b| == 3 && 0xE0 <= b[0] <= 0xEF
                  && n == (b[0] as int - 0xE0) * 4096 + (b[1] as int - 0x80) * 64 + (b[2] as int - 0x80))
            && (0x10000 <= n ==>
                  |b| == 4 && 0xF0 <= b[0] <= 0xF4
                  && n == (b[0] as int - 0xF0) * 262144 + (b[1] as int - 0x80) * 4096
                          + (b[2] as int - 0x80) * 64 + (b[3] as int - 0x80))
            && forall k :: 1 <= k < |b| ==> 0x80 <= b[k] <= 0xBF
  {
    Digits(c as int);
  }

  /** A string is encoded without bytes under 0x20 exactly when it has no character under the space. */
  lemma {:induction false} ControlFree(s: string)
    ensures NoControl(Encode(s)) <==> forall i :: 0 <= i < |s| ==> s[i] >= ' '
  {
    if s != [] {
      var b, rest := EncodeChar(s[0]), Encode(s[1..]);
      Layout(s[0]);
      ControlFree(s[1..]);
      ControlOfBoth(b, rest);
      hide EncodeChar, Encode;
      assert forall i :: 0 < i < |s| ==> s[i] == s[1..][i - 1];
    }
  }

  lemma ControlOfBoth(a: seq<byte>, b: seq<byte>)
    ensures NoControl(a + b) <==> NoControl(a) && NoControl(b)
  {
    assert forall k :: 0 <= k < |b| ==> (a + b)[|a| + k] == b[k];
    assert forall k :: 0 <= k < |a| ==> (a + b)[k] == a[k];
  }

  /** Every byte of an encoding comes from the encoding of one of its characters. */
  lemma {:induction false} EncodeBytes(s: string, x: byte)
    ensures x in Encode(s) <==> exists k :: 0 <= k < |s| && x in EncodeChar(s[k])
  {
    if s != [] {
      EncodeBytes(s[1..], x);
      if x in EncodeChar(s[0]) {
        assert x in EncodeChar(s[0]);
      }
      if k :| 0 <= k < |s[1..]| && x in EncodeChar(s[1..][k]) {
        assert s[1..][k] == s[k + 1];
      }
      if k :| 0 <= k < |s| && x in EncodeChar(s[k]) {
        assert k > 0 ==> s[k] == s[1..][k - 1];
      }
    }
  }
}
