/** The bit-sliced character-class index: 64 slices of words laid end to end. */
module ClassBits {
  import opened Bytes
  import opened Utf8
  import opened Table

  const BSI_CLASSES: nat := 64
  const BSI_CHUNK_WORDS: nat := 512

  /** One 64-bit word, as the set of its one bits. */
  type Word = set<nat>

  /** Character class of a folded byte. */
  function ClassOf(b: byte): (c: nat)
    ensures c < BSI_CLASSES
  {
    if 0x61 <= b <= 0x7A then b - 0x61
    else if 0x30 <= b <= 0x39 then 26 + (b - 0x30)
    else if b == 0x2D then 36
    else if b == 0x5F then 37
    else if b == 0x2E then 38
    else if b == 0x20 then 39
    else if b <= 0x7F then 40 + b % 8
    else 48 + b % 16
  }

  /** Each small letter, each digit and each separator has a class to itself; everything else shares. */
  lemma OwnClasses(a: byte, b: byte)
    requires var c := a as int as char; 'a' <= c <= 'z' || '0' <= c <= '9' || c in {'-', '_', '.', ' '}
    ensures ClassOf(a) == ClassOf(b) ==> a == b
  {
  }

  /** The classes present in a text. */
  function ClassMask(t: seq<byte>): Word {
    set b | b in t :: ClassOf(b)
  }

  /** Slot `s` has class `c`'s bit. */
  predicate Bit(bsi: seq<Word>, words: nat, c: nat, s: nat) {
    var w := c * words + s / 64;
    w < |bsi| && s % 64 in bsi[w]
  }

  predicate SliceShape(bsi: seq<Word>, words: nat) {
    && words % BSI_CHUNK_WORDS == 0
    && |bsi| == BSI_CLASSES * words
    && forall w, x :: 0 <= w < |bsi| && x in bsi[w] ==> x < 64
  }

  /** The mask a slot must carry: its folded name's classes, or nothing. */
  function MaskFor(rows: seq<Row>, s: nat): Word {
    if s < |rows| && rows[s].Live? then ClassMask(rows[s].folded) else {}
  }

  /** The slices hold exactly each live slot's classes, and nothing anywhere else. */
  predicate BsiOk(rows: seq<Row>, bsi: seq<Word>, words: nat) {
    && SliceShape(bsi, words) && |rows| <= 64 * words
    && forall c, s {:trigger Bit(bsi, words, c, s)} :: 0 <= c < BSI_CLASSES && 0 <= s < 64 * words ==>
      (Bit(bsi, words, c, s) <==> c in MaskFor(rows, s))
  }

  // ---- the layout's arithmetic ----------------------------------------------------

  lemma Mul(a: nat, b: nat, n: nat)
    requires a <= b
    ensures a * n <= b * n
    ensures (a + 1) * n == a * n + n
  {
  }

  /** Word `w` of slice `c` lies inside the slice. */
  lemma WordInSlice(c: nat, words: nat, w: nat)
    requires c < BSI_CLASSES && w < words
    ensures 0 <= c * words + w < BSI_CLASSES * words
  {
    Mul(c + 1, BSI_CLASSES, words);
    Mul(c, c, words);
  }

  /** Different slices never share a word, nor different words of one slice. */
  lemma WordUnique(words: nat, c: nat, w: nat, c': nat, w': nat)
    requires w < words && w' < words && c * words + w == c' * words + w'
    ensures c == c' && w == w'
  {
    if c < c' {
      Mul(c + 1, c', words);
      Mul(c, c, words);
    } else if c' < c {
      Mul(c' + 1, c, words);
      Mul(c', c', words);
    }
  }

  // ---- setting and clearing one slot's bits --------------------------------------------

  function TrailingZeros(m: Word): (c: nat)
    requires m != {} && forall x :: x in m ==> x < 64
    ensures c in m && c < 64 && forall x :: x in m ==> c <= x
  {
    LeastFrom(m, 0)
  }

  function LeastFrom(m: Word, i: nat): (c: nat)
    requires i <= 64 && m != {} && (forall x :: x in m ==> i <= x < 64)
    ensures c in m && c < 64 && forall x :: x in m ==> c <= x
    decreases 64 - i
  {
    if i in m then i
    else
      assert i < 64 by {
        var x :| x in m;
      }
      LeastFrom(m, i + 1)
  }

  /** Set or clear `slot`'s bit in every slice `mask` names, lowest class first. */
  method Apply(bsi: seq<Word>, words: nat, slot: nat, mask: Word, on: bool) returns (r: seq<Word>)
    requires SliceShape(bsi, words) && slot < 64 * words && forall x :: x in mask ==> x < 64
    ensures SliceShape(r, words)
    ensures forall c, s :: 0 <= c < BSI_CLASSES && 0 <= s < 64 * words ==>
              (Bit(r, words, c, s) <==> if s == slot && c in mask then on else Bit(bsi, words, c, s))
  {
    r := bsi;
    var w, bit := slot / 64, slot % 64;
    var m := mask;
    while m != {}
      invariant m <= mask && SliceShape(r, words)
      invariant forall c, s :: 0 <= c < BSI_CLASSES && 0 <= s < 64 * words ==>
                  (Bit(r, words, c, s) <==> if s == slot && c in mask - m then on else Bit(bsi, words, c, s))
      decreases m
    {
      var c := TrailingZeros(m);
      WordInSlice(c, words, w);
      var r' := r[c * words + w := if on then r[c * words + w] + {bit} else r[c * words + w] - {bit}];
      OneBit(r, r', words, c, slot, on);
      r := r';
      m := m - {c};
    }
  }

  lemma OneBit(r: seq<Word>, r': seq<Word>, words: nat, c: nat, slot: nat, on: bool)
    requires SliceShape(r, words) && c < BSI_CLASSES && slot < 64 * words
    requires c * words + slot / 64 < |r|
    requires r' ==
               var at := c * words + slot / 64;
               r[at := if on then r[at] + {slot % 64} else r[at] - {slot % 64}]
    ensures SliceShape(r', words)
    ensures forall c', s :: 0 <= c' < BSI_CLASSES && 0 <= s < 64 * words ==>
              (Bit(r', words, c', s) <==> if s == slot && c' == c then on else Bit(r, words, c', s))
  {
    forall c', s | 0 <= c' < BSI_CLASSES && 0 <= s < 64 * words
      ensures Bit(r', words, c', s) <==> if s == slot && c' == c then on else Bit(r, words, c', s)
    {
      WordInSlice(c', words, s / 64);
      if c' * words + s / 64 == c * words + slot / 64 {
        WordUnique(words, c', s / 64, c, slot / 64);
      }
    }
  }

  /** Setting a filled slot's mask, or clearing a vacated one's, keeps the index exact. */
  lemma BsiAfterApply(rows: seq<Row>, rows': seq<Row>, bsi: seq<Word>, bsi': seq<Word>, words: nat, slot: nat,
                      mask: Word, on: bool)
    requires BsiOk(rows, bsi, words) && slot < |rows'| <= 64 * words && SliceShape(bsi', words)
    requires forall s :: 0 <= s && s != slot ==> MaskFor(rows', s) == MaskFor(rows, s)
    requires if on then MaskFor(rows, slot) == {} && MaskFor(rows', slot) == mask
             else MaskFor(rows, slot) == mask && MaskFor(rows', slot) == {}
    requires forall c, s :: 0 <= c < BSI_CLASSES && 0 <= s < 64 * words ==>
              (Bit(bsi', words, c, s) <==> if s == slot && c in mask then on else Bit(bsi, words, c, s))
    ensures BsiOk(rows', bsi', words)
  {
    hide Bit, MaskFor, SliceShape;
    forall c, s | 0 <= c < BSI_CLASSES && 0 <= s < 64 * words ensures Bit(bsi', words, c, s) <==>
      c in MaskFor(rows', s) {
      assert Bit(bsi, words, c, s) <==> c in MaskFor(rows, s);
    }
  }

  // ---- widening every slice in place ------------------------------------------------------

  /** Slices at or above `c` stand at their new base with a cleared tail; those below are still at the old one. */
  predicate Restrided(b: seq<Word>, was: seq<Word>, old_: nat, new_: nat, c: nat)
    requires |was| == BSI_CLASSES * old_ && |b| == BSI_CLASSES * new_
  {
    && (forall d, w :: c <= d < BSI_CLASSES && 0 <= w < new_ ==>
           SliceWord(b, new_, d, w) == if w < old_ then SliceWord(was, old_, d, w) else {})
    && (forall d, w :: 0 <= d < c && d < BSI_CLASSES && 0 <= w < old_ ==>
           SliceWord(b, old_, d, w) == SliceWord(was, old_, d, w))
  }

  function SliceWord(b: seq<Word>, words: nat, d: nat, w: nat): Word {
    if d * words + w < |b| then b[d * words + w] else {}
  }

  /** Words enough for `slots`, in whole chunks. */
  function ChunkedWords(slots: nat): nat {
    ((slots + 63) / 64 + BSI_CHUNK_WORDS - 1) / BSI_CHUNK_WORDS * BSI_CHUNK_WORDS
  }

  /** Widen every slice until the index addresses `slots`, moving slices up from the top down. */
  method Grow(bsi: seq<Word>, words: nat, slots: nat) returns (r: seq<Word>, new_: nat)
    requires SliceShape(bsi, words)
    ensures SliceShape(r, new_) && words <= new_ && slots <= 64 * new_
    ensures forall c, s :: 0 <= c < BSI_CLASSES && 0 <= s < 64 * new_ ==>
              (Bit(r, new_, c, s) <==> s < 64 * words && Bit(bsi, words, c, s))
  {
    if slots <= words * 64 {
      return bsi, words;
    }
    hide Restrided, SliceShape, Bit, Splice, ChunkedWords;
    new_ := ChunkedWords(slots);
    GrownWords(slots);
    ShapeSize(bsi, words);
    r := bsi + Repeat({}, BSI_CLASSES * new_ - |bsi|);
    var c := BSI_CLASSES - 1;
    RestrideStart(bsi, r, words, new_);
    while c >= 1
      invariant 0 <= c < BSI_CLASSES && |r| == BSI_CLASSES * new_
      invariant Restrided(r, bsi, words, new_, c + 1)
    {
      MoveFits(c, words, new_);
      var moved := Splice(r, c * new_, r[c * words..c * words + words]);
      RestrideStep(bsi, r, words, new_, c);
      r := Splice(moved, c * new_ + words, Repeat({}, new_ - words));
      c := c - 1;
    }
    var last := Splice(r, words, Repeat({}, new_ - words));
    RestrideLast(bsi, r, last, words, new_);
    r := last;
    RestrideBits(bsi, r, words, new_);
  }

  lemma GrownWords(slots: nat)
    ensures slots <= 64 * ChunkedWords(slots) && ChunkedWords(slots) % BSI_CHUNK_WORDS == 0
  {
  }

  lemma ShapeSize(bsi: seq<Word>, words: nat)
    requires SliceShape(bsi, words)
    ensures |bsi| == BSI_CLASSES * words && words % BSI_CHUNK_WORDS == 0
  {
  }

  lemma RestrideStart(was: seq<Word>, b: seq<Word>, old_: nat, new_: nat)
    requires |was| == BSI_CLASSES * old_ && old_ <= new_ && |b| == BSI_CLASSES * new_ && was <= b
    ensures Restrided(b, was, old_, new_, BSI_CLASSES)
  {
    forall d, w | 0 <= d < BSI_CLASSES && 0 <= w < old_ ensures SliceWord(b, old_, d, w) == SliceWord(was, old_, d, w) {
      WordInSlice(d, old_, w);
    }
  }

  lemma MoveFits(c: nat, old_: nat, new_: nat)
    requires c < BSI_CLASSES && old_ <= new_
    ensures c * old_ + old_ <= BSI_CLASSES * old_ <= BSI_CLASSES * new_
    ensures c * old_ <= c * new_ && c * new_ + new_ <= BSI_CLASSES * new_
  {
    Mul(c + 1, BSI_CLASSES, old_);
    Mul(c + 1, BSI_CLASSES, new_);
    Mul(c, c, old_);
    Mul(c, c, new_);
    MulRight(c, old_, new_);
  }

  lemma MulRight(c: nat, a: nat, b: nat)
    requires a <= b
    ensures c * a <= c * b
  {
  }

  /** `old_` words moved from one base up to another, the rest of their new room cleared. */
  function Shifted(b: seq<Word>, from: nat, to: nat, old_: nat, new_: nat): (r: seq<Word>)
    requires old_ <= new_ && from + old_ <= |b| && to + new_ <= |b|
    ensures |r| == |b|
  {
    Splice(Splice(b, to, b[from..from + old_]), to + old_, Repeat({}, new_ - old_))
  }

  lemma ShiftedAt(b: seq<Word>, from: nat, to: nat, old_: nat, new_: nat, i: nat)
    requires old_ <= new_ && from + old_ <= |b| && to + new_ <= |b| && i < |b|
    ensures Shifted(b, from, to, old_, new_)[i] ==
            if to <= i < to + old_ then b[i - to + from] else if to + old_ <= i < to + new_ then {} else b[i]
  {
  }

  /** Slice `c` moved to its new base, its tail cleared behind it. */
  function Moved(b: seq<Word>, old_: nat, new_: nat, c: nat): (r: seq<Word>)
    requires old_ <= new_ && c * old_ + old_ <= |b| && c * new_ + new_ <= |b|
    ensures |r| == |b|
  {
    Shifted(b, c * old_, c * new_, old_, new_)
  }

  lemma MovedAbove(was: seq<Word>, b: seq<Word>, old_: nat, new_: nat, c: nat, d: nat, w: nat)
    requires |was| == BSI_CLASSES * old_ && old_ <= new_ && |b| == BSI_CLASSES * new_ && 1 <= c <= d < BSI_CLASSES
    requires w < new_
    requires c * old_ + old_ <= |b| && c * new_ + new_ <= |b|
    requires Restrided(b, was, old_, new_, c + 1)
    ensures SliceWord(Moved(b, old_, new_, c), new_, d, w) == if w < old_ then SliceWord(was, old_, d, w) else {}
  {
    hide Moved, SliceWord;
    if d > c {
      MovedApart(b, old_, new_, c, d, w);
    } else {
      MovedThere(b, old_, new_, c, w);
    }
  }

  lemma MovedApart(b: seq<Word>, old_: nat, new_: nat, c: nat, d: nat, w: nat)
    requires old_ <= new_ && c < d && w < new_ && c * old_ + old_ <= |b| && c * new_ + new_ <= |b|
    ensures SliceWord(Moved(b, old_, new_, c), new_, d, w) == SliceWord(b, new_, d, w)
  {
    hide Shifted;
    Mul(c + 1, d, new_);
    Mul(c, c, new_);
    if d * new_ + w < |b| {
      ShiftedAt(b, c * old_, c * new_, old_, new_, d * new_ + w);
    }
  }

  lemma MovedThere(b: seq<Word>, old_: nat, new_: nat, c: nat, w: nat)
    requires old_ <= new_ && w < new_ && c * old_ + old_ <= |b| && c * new_ + new_ <= |b|
    ensures SliceWord(Moved(b, old_, new_, c), new_, c, w) == if w < old_ then SliceWord(b, old_, c, w) else {}
  {
    hide Shifted;
    ShiftedAt(b, c * old_, c * new_, old_, new_, c * new_ + w);
  }

  lemma MovedBelow(was: seq<Word>, b: seq<Word>, old_: nat, new_: nat, c: nat, d: nat, w: nat)
    requires |was| == BSI_CLASSES * old_ && old_ <= new_ && |b| == BSI_CLASSES * new_ && d < c < BSI_CLASSES && w < old_
    requires c * old_ + old_ <= |b| && c * new_ + new_ <= |b|
    requires Restrided(b, was, old_, new_, c + 1)
    ensures SliceWord(Moved(b, old_, new_, c), old_, d, w) == SliceWord(was, old_, d, w)
  {
    assert SliceWord(b, old_, d, w) == SliceWord(was, old_, d, w);
    hide Shifted, Restrided;
    WordInSlice(d, old_, w);
    Mul(d + 1, c, old_);
    Mul(d, d, old_);
    MulRight(c, old_, new_);
    ShiftedAt(b, c * old_, c * new_, old_, new_, d * old_ + w);
  }

  /** Moving slice `c` disturbs no slice above it, already placed, and none below it, not yet moved. */
  lemma RestrideStep(was: seq<Word>, b: seq<Word>, old_: nat, new_: nat, c: nat)
    requires |was| == BSI_CLASSES * old_ && old_ <= new_ && |b| == BSI_CLASSES * new_ && 1 <= c < BSI_CLASSES
    requires Restrided(b, was, old_, new_, c + 1)
    requires c * old_ + old_ <= |b| && c * new_ + new_ <= |b|
    ensures Restrided(Moved(b, old_, new_, c), was, old_, new_, c)
  {
    forall d, w | c <= d < BSI_CLASSES && 0 <= w < new_
      ensures SliceWord(Moved(b, old_, new_, c), new_, d, w) == if w < old_ then SliceWord(was, old_, d, w) else {}
    {
      MovedAbove(was, b, old_, new_, c, d, w);
    }
    forall d, w | 0 <= d < c && 0 <= w < old_
      ensures SliceWord(Moved(b, old_, new_, c), old_, d, w) == SliceWord(was, old_, d, w)
    {
      MovedBelow(was, b, old_, new_, c, d, w);
    }
  }

  lemma RestrideLast(was: seq<Word>, b: seq<Word>, b': seq<Word>, old_: nat, new_: nat)
    requires |was| == BSI_CLASSES * old_ && old_ <= new_ && |b| == BSI_CLASSES * new_
    requires Restrided(b, was, old_, new_, 1)
    requires b' == Splice(b, old_, Repeat({}, new_ - old_))
    ensures Restrided(b', was, old_, new_, 0)
  {
    forall d, w | 0 <= d < BSI_CLASSES && 0 <= w < new_
      ensures SliceWord(b', new_, d, w) == if w < old_ then SliceWord(was, old_, d, w) else {}
    {
      WordInSlice(d, new_, w);
      if d >= 1 {
        Mul(1, d, new_);
        assert b'[d * new_ + w] == b[d * new_ + w];
        assert SliceWord(b, new_, d, w) == if w < old_ then SliceWord(was, old_, d, w) else {};
      } else if w < old_ {
        assert SliceWord(b, old_, 0, w) == SliceWord(was, old_, 0, w);
      }
    }
  }

  lemma RestrideBits(was: seq<Word>, b: seq<Word>, old_: nat, new_: nat)
    requires SliceShape(was, old_) && |b| == BSI_CLASSES * new_ && old_ <= new_ && new_ % BSI_CHUNK_WORDS == 0
    requires Restrided(b, was, old_, new_, 0)
    ensures SliceShape(b, new_)
    ensures forall c, s :: 0 <= c < BSI_CLASSES && 0 <= s < 64 * new_ ==>
              (Bit(b, new_, c, s) <==> s < 64 * old_ && Bit(was, old_, c, s))
  {
    forall i, x | 0 <= i < |b| && x in b[i] ensures x < 64 {
      var d, w := i / new_, i % new_;
      Locate(i, new_);
      assert SliceWord(b, new_, d, w) == if w < old_ then SliceWord(was, old_, d, w) else {};
      if w < old_ {
        WordInSlice(d, old_, w);
      }
    }
    forall c, s | 0 <= c < BSI_CLASSES && 0 <= s < 64 * new_
      ensures Bit(b, new_, c, s) <==> s < 64 * old_ && Bit(was, old_, c, s)
    {
      var w := s / 64;
      assert SliceWord(b, new_, c, w) == if w < old_ then SliceWord(was, old_, c, w) else {};
      WordInSlice(c, new_, w);
    }
  }

  lemma Locate(i: nat, n: nat)
    requires i < BSI_CLASSES * n
    ensures n > 0 && i / n < BSI_CLASSES && i % n < n && i == i / n * n + i % n
  {
  }

  lemma BsiAfterGrow(rows: seq<Row>, bsi: seq<Word>, words: nat, bsi': seq<Word>, words': nat)
    requires BsiOk(rows, bsi, words) && SliceShape(bsi', words') && words <= words'
    requires forall c, s :: 0 <= c < BSI_CLASSES && 0 <= s < 64 * words' ==>
              (Bit(bsi', words', c, s) <==> s < 64 * words && Bit(bsi, words, c, s))
    ensures BsiOk(rows, bsi', words')
  {
    hide Bit, SliceShape;
    forall c, s | 0 <= c < BSI_CLASSES && 0 <= s < 64 * words' ensures Bit(bsi', words', c, s) <==>
      c in MaskFor(rows, s) {
      if s < 64 * words {
        assert Bit(bsi, words, c, s) <==> c in MaskFor(rows, s);
      }
    }
  }

  // ---- the superset sweep ----------------------------------------------------------------

  /** Slot `s` carries every class of the query. */
  predicate Qualifies(bsi: seq<Word>, words: nat, qmask: Word, s: nat) {
    forall c :: c in qmask ==> Bit(bsi, words, c, s)
  }

  predicate Ascending(s: seq<nat>) {
    forall i, j :: 0 <= i < j < |s| ==> s[i] < s[j]
  }

  lemma AscendingSnoc(s: seq<nat>, x: nat)
    requires Ascending(s) && forall y :: y in s ==> y < x
    ensures Ascending(s + [x])
  {
    assert forall i :: 0 <= i < |s| ==> s[i] in s;
  }

  /** Ascending, and exactly the qualifying slots below `limit`. */
  ghost predicate SweptTo(slots: seq<nat>, bsi: seq<Word>, words: nat, qmask: Word, limit: nat) {
    Ascending(slots) && forall s: nat :: s in slots <==> s < limit && Qualifies(bsi, words, qmask, s)
  }

  /** The set bits of the words the classes name, ANDed together. */
  ghost predicate AndedTo(acc: Word, bsi: seq<Word>, words: nat, qmask: Word, w: nat, left: Word) {
    forall b: nat :: b in acc <==>
      b < 64 && forall c :: c in qmask - left ==> c * words + w < |bsi| && b in bsi[c * words + w]
  }

  function AllOnes(n: nat): (w: Word)
    ensures forall b: nat :: b in w <==> b < n
  {
    if n == 0 then {} else AllOnes(n - 1) + {n - 1}
  }

  /** Visit every slot whose classes are a superset of the query's, in ascending order. */
  method SupersetSlots(bsi: seq<Word>, words: nat, upTo: nat, qmask: Word) returns (slots: seq<nat>)
    requires SliceShape(bsi, words) && upTo <= words && forall c :: c in qmask ==> c < BSI_CLASSES
    ensures SweptTo(slots, bsi, words, qmask, 64 * upTo)
  {
    slots := [];
    assert SweptTo(slots, bsi, words, qmask, 0);
    hide SweptTo, Qualifies;
    for w := 0 to upTo
      invariant SweptTo(slots, bsi, words, qmask, 64 * w)
    {
      var acc := AndWord(bsi, words, qmask, w);
      slots := EmitWord(slots, acc, bsi, words, qmask, w);
    }
  }

  /** AND one word of every slice the query names, stopping once nothing survives. */
  method AndWord(bsi: seq<Word>, words: nat, qmask: Word, w: nat) returns (acc: Word)
    requires SliceShape(bsi, words) && w < words && forall c :: c in qmask ==> c < BSI_CLASSES
    ensures forall b: nat :: b in acc <==> b < 64 && Qualifies(bsi, words, qmask, 64 * w + b)
  {
    acc := AllOnes(64);
    var m := qmask;
    hide Qualifies;
    while m != {} && acc != {}
      invariant m <= qmask && AndedTo(acc, bsi, words, qmask, w, m)
      decreases m
    {
      var c := TrailingZeros(m);
      WordInSlice(c, words, w);
      AndStep(acc, bsi, words, qmask, w, m, c);
      acc := acc * bsi[c * words + w];
      m := m - {c};
    }
    WordDone(acc, bsi, words, qmask, w, m);
  }

  lemma AndStep(acc: Word, bsi: seq<Word>, words: nat, qmask: Word, w: nat, m: Word, c: nat)
    requires AndedTo(acc, bsi, words, qmask, w, m) && c in m && m <= qmask && c * words + w < |bsi|
    ensures AndedTo(acc * bsi[c * words + w], bsi, words, qmask, w, m - {c})
  {
    var acc' := acc * bsi[c * words + w];
    forall b: nat ensures b in acc' <==>
      b < 64 && forall d :: d in qmask - (m - {c}) ==> d * words + w < |bsi| && b in bsi[d * words + w] {
      assert forall d :: d in qmask - (m - {c}) <==> d == c || d in qmask - m;
    }
  }

  /** An accumulator that ran dry early is the same as one that ran to the end. */
  lemma WordDone(acc: Word, bsi: seq<Word>, words: nat, qmask: Word, w: nat, m: Word)
    requires AndedTo(acc, bsi, words, qmask, w, m) && m <= qmask && (m == {} || acc == {})
    ensures forall b: nat :: b in acc <==> b < 64 && Qualifies(bsi, words, qmask, 64 * w + b)
  {
    forall b: nat ensures b in acc <==> b < 64 && Qualifies(bsi, words, qmask, 64 * w + b) {
      if b < 64 {
        assert (64 * w + b) / 64 == w && (64 * w + b) % 64 == b;
        if b in acc {
          assert qmask - m == qmask;
          forall c | c in qmask ensures Bit(bsi, words, c, 64 * w + b) {
          }
        }
        if Qualifies(bsi, words, qmask, 64 * w + b) {
          forall c | c in qmask - m ensures c * words + w < |bsi| && b in bsi[c * words + w] {
            assert Bit(bsi, words, c, 64 * w + b);
          }
        }
      }
    }
  }

  /** `slots` is `before` and then, in order, the bits of `word` no longer in `acc`. */
  ghost predicate Emitted(slots: seq<nat>, before: seq<nat>, word: Word, acc: Word, base: nat) {
    && acc <= word && Ascending(slots)
    && (forall s: nat :: s in slots <==> s in before || (base <= s && s - base in word - acc))
    && (forall b, s: nat :: b in acc && s in slots ==> s < base + b)
  }

  lemma EmitStart(before: seq<nat>, word: Word, bsi: seq<Word>, words: nat, qmask: Word, w: nat)
    requires SweptTo(before, bsi, words, qmask, 64 * w)
    ensures Emitted(before, before, word, word, 64 * w)
  {
  }

  lemma EmitStep(slots: seq<nat>, before: seq<nat>, word: Word, acc: Word, base: nat, b: nat)
    requires Emitted(slots, before, word, acc, base) && b in acc && forall x :: x in acc ==> b <= x
    ensures Emitted(slots + [base + b], before, word, acc - {b}, base)
  {
    AscendingSnoc(slots, base + b);
    hide Ascending;
    var slots' := slots + [base + b];
    forall s: nat ensures s in slots' <==> s in before || (base <= s && s - base in word - (acc - {b})) {
    }
  }

  /** Pull one word's survivors out in bit order. */
  method EmitWord(before: seq<nat>, word: Word, bsi: seq<Word>, words: nat, qmask: Word, w: nat)
    returns (slots: seq<nat>)
    requires SweptTo(before, bsi, words, qmask, 64 * w)
    requires forall b: nat :: b in word <==> b < 64 && Qualifies(bsi, words, qmask, 64 * w + b)
    ensures SweptTo(slots, bsi, words, qmask, 64 * (w + 1))
  {
    slots := before;
    var acc := word;
    hide Qualifies, Emitted, SweptTo;
    EmitStart(before, word, bsi, words, qmask, w);
    while acc != {}
      invariant acc <= word && Emitted(slots, before, word, acc, 64 * w)
      decreases acc
    {
      var b := TrailingZeros(acc);
      EmitStep(slots, before, word, acc, 64 * w, b);
      slots := slots + [64 * w + b];
      acc := acc - {b};
    }
    WordDrained(slots, before, word, bsi, words, qmask, w);
  }

  lemma WordDrained(slots: seq<nat>, before: seq<nat>, word: Word, bsi: seq<Word>, words: nat, qmask: Word, w: nat)
    requires SweptTo(before, bsi, words, qmask, 64 * w) && Emitted(slots, before, word, {}, 64 * w)
    requires forall b: nat :: b in word <==> b < 64 && Qualifies(bsi, words, qmask, 64 * w + b)
    ensures SweptTo(slots, bsi, words, qmask, 64 * (w + 1))
  {
    hide Qualifies, Ascending;
    forall s: nat ensures s in slots <==> s < 64 * (w + 1) && Qualifies(bsi, words, qmask, s) {
      if s < 64 * w {
        assert s in slots <==> s in before;
      } else if s < 64 * (w + 1) {
        var b := s - 64 * w;
        assert b in word <==> Qualifies(bsi, words, qmask, 64 * w + b);
      }
    }
  }

  /** Over an exact index the sweep visits exactly the live slots whose classes include the query's. */
  lemma SweepIsExact(rows: seq<Row>, bsi: seq<Word>, words: nat, qmask: Word, s: nat)
    requires BsiOk(rows, bsi, words) && qmask != {} && s < 64 * words
    requires forall c :: c in qmask ==> c < BSI_CLASSES
    ensures Qualifies(bsi, words, qmask, s) <==> s < |rows| && rows[s].Live? && qmask <= ClassMask(rows[s].folded)
  {
    hide Bit, SliceShape;
    var c0 :| c0 in qmask;
    if Qualifies(bsi, words, qmask, s) {
      assert Bit(bsi, words, c0, s);
      forall c | c in qmask ensures c in MaskFor(rows, s) {
        assert Bit(bsi, words, c, s);
      }
    }
    if s < |rows| && rows[s].Live? && qmask <= ClassMask(rows[s].folded) {
      forall c | c in qmask ensures Bit(bsi, words, c, s) {
        assert c in MaskFor(rows, s);
      }
    }
  }

  // ---- why the prefilter loses nothing ------------------------------------------------------

  /** `q` is a subsequence of `t`. */
  predicate IsSubsequence<T(==)>(q: seq<T>, t: seq<T>) {
    if q == [] then true
    else if t == [] then false
    else if q[0] == t[0] then IsSubsequence(q[1..], t[1..])
    else IsSubsequence(q, t[1..])
  }

  lemma {:induction false} SubsequenceElements<T>(q: seq<T>, t: seq<T>)
    requires IsSubsequence(q, t)
    ensures forall x :: x in q ==> x in t
  {
    if q != [] && t != [] {
      if q[0] == t[0] {
        SubsequenceElements(q[1..], t[1..]);
        assert q == [q[0]] + q[1..];
      } else {
        SubsequenceElements(q, t[1..]);
      }
    }
  }

  /** A character subsequence's bytes all occur in the name, so its classes are a subset: no false negative. */
  lemma PrefilterSound(q: string, t: string)
    requires IsSubsequence(q, t)
    ensures ClassMask(Encode(q)) <= ClassMask(Encode(t))
  {
    SubsequenceElements(q, t);
    forall b | b in Encode(q) ensures b in Encode(t) {
      EncodeBytes(q, b);
      var k :| 0 <= k < |q| && b in EncodeChar(q[k]);
      assert q[k] in t;
      var j :| 0 <= j < |t| && t[j] == q[k];
      EncodeBytes(t, b);
    }
  }
}
