/** What a search answers, told from the file table alone: which names answer a query, how well, and in what order. */
module Relevance {
  import opened Bytes
  import opened Utf8
  import opened Names
  import opened Ranking
  import opened Scanning
  import opened ClassBits
  import opened FuzzyTier
  import opened Table
  import opened Columns
  import opened Ordering
  import opened Selecting
  import opened Reference
  import opened IndexState
  import opened Repair
  import opened TieredSearch

  // ---- how a name answers a query ----------------------------------------------------------

  predicate SepBefore(rec: seq<byte>, h: nat) {
    0 < h <= |rec| && rec[h - 1] as int as char in {'-', '_', '.', ' '}
  }

  /** The leftmost non-overlapping search finds the query right after a dash, underscore, dot or space. */
  predicate AfterSeparator(folded: seq<byte>, q: seq<byte>)
    requires q != []
  {
    exists h :: h in Scan(folded, q, 0) && SepBefore(folded, h)
  }

  ghost predicate OccursIn(a: seq<byte>, q: seq<byte>) {
    exists p: nat :: Occurs(a, q, p)
  }

  /** How a stored name answers a folded query: it is the query, starts with it, has it at a word, has it among its
      initials, has it inside, has its characters in order; or not at all. */
  datatype Match = Whole | Start | Word | Lane | Inside | Spread | Nothing

  ghost function MatchOf(uni: Unicode, name: string, fq: string): Match
    requires fq != ""
  {
    var folded, q := FoldedRecord(uni, name), Encode(fq);
    if folded == q then Whole
    else if q <= folded then Start
    else if AfterSeparator(folded, q) then Word
    else if |q| <= 8 && OccursIn(LaneOf(uni, name), q) then Lane
    else if OccursIn(folded, q) then Inside
    else if |q| >= 3 && IsSubsequence(fq, Decode(folded)) then Spread
    else Nothing
  }

  /** Better ways of answering, first to last. */
  function Standing(m: Match): nat {
    match m
    case Whole => 6
    case Start => 5
    case Word => 4
    case Lane => 3
    case Inside => 2
    case Spread => 1
    case Nothing => 0
  }

  // ---- the tier is the match -------------------------------------------------------------------

  lemma SepIs(b: byte)
    ensures IsSepByte(b) <==> b as int as char in {'-', '_', '.', ' '}
  {
  }

  /** Past the front of a record a hit is a word's or an inner one. */
  lemma InnerHit(rec: seq<byte>, n: nat, h: nat)
    requires NoControl(rec) && 0 < n && 0 < h && h + n <= |rec|
    ensures HitTier(rec, n, h) == if SepBefore(rec, h) then WordBoundary else Substring
  {
    SepIs(rec[h - 1]);
  }

  function Settle(acc: Option<Tier>, word: bool, any: bool): Option<Tier> {
    if acc == Some(Exact) || acc == Some(Prefix) then acc
    else if acc == Some(WordBoundary) || word then Some(WordBoundary)
    else if acc == Some(Substring) || any then Some(Substring)
    else None
  }

  predicate Plain(acc: Option<Tier>) {
    acc.Some? ==> !acc.value.Initials? && !acc.value.Fuzzy?
  }

  lemma {:induction false} ScanSettles(acc: Option<Tier>, rec: seq<byte>, q: seq<byte>, p: nat)
    requires q != [] && NoControl(rec) && Plain(acc) && 0 < p
    ensures ScanTier(acc, rec, q, false, p, 0, |rec|) ==
              Settle(acc, exists h :: h in Scan(rec, q, p) && SepBefore(rec, h), Scan(rec, q, p) != [])
    decreases if p <= |rec| then |rec| - p + 1 else 0
  {
    hide HitTier, FindFrom;
    FindSpec(rec, q, p);
    match FindFrom(rec, q, p)
    case None =>
    case Some(h) =>
      FoundAt(rec, q, p);
      InnerHit(rec, |q|, h);
      ScanSettles(Tally(acc, rec, |q|, false, h, 0, |rec|), rec, q, h + |q|);
      assert Scan(rec, q, p) == [h] + Scan(rec, q, h + |q|);
      assert h in Scan(rec, q, p);
      assert forall x :: x in Scan(rec, q, p) <==> x == h || x in Scan(rec, q, h + |q|);
  }

  lemma FoundAt(rec: seq<byte>, q: seq<byte>, p: nat)
    requires FindFrom(rec, q, p).Some?
    ensures FindFrom(rec, q, p).value >= p && FindFrom(rec, q, p).value + |q| <= |rec|
  {
  }

  /** The tier of a record: by its front, or else by what its search finds. */
  lemma RecordTierIs(rec: seq<byte>, q: seq<byte>)
    requires q != [] && NoControl(rec)
    ensures RecordTier(rec, q, false) ==
              if rec == q then Some(Exact)
              else if q <= rec then Some(Prefix)
              else if AfterSeparator(rec, q) then Some(WordBoundary)
              else if OccursIn(rec, q) then Some(Substring)
              else None
  {
    hide HitTier, FindFrom, Occurs;
    FindSpec(rec, q, 0);
    AtFront(rec, q);
    match FindFrom(rec, q, 0)
    case None => assert Scan(rec, q, 0) == [];
    case Some(h) =>
      FoundAt(rec, q, 0);
      HitIsPlain(rec, |q|, h);
      ScanSettles(Tally(None, rec, |q|, false, h, 0, |rec|), rec, q, h + |q|);
      assert Scan(rec, q, 0) == [h] + Scan(rec, q, h + |q|);
      assert forall x :: x in Scan(rec, q, 0) <==> x == h || x in Scan(rec, q, h + |q|);
      if h > 0 {
        InnerHit(rec, |q|, h);
      }
  }

  lemma HitIsPlain(rec: seq<byte>, n: nat, h: nat)
    ensures !HitTier(rec, n, h).Initials? && !HitTier(rec, n, h).Fuzzy?
  {
  }

  lemma AtFront(rec: seq<byte>, q: seq<byte>)
    requires q != [] && NoControl(rec)
    ensures Occurs(rec, q, 0) <==> q <= rec
    ensures q <= rec ==> HitTier(rec, |q|, 0) == if rec == q then Exact else Prefix
    ensures q <= rec ==> FindFrom(rec, q, 0) == Some(0)
    ensures FindFrom(rec, q, 0) == Some(0) ==> q <= rec
    ensures q == rec ==> q <= rec
  {
    FindSpec(rec, q, 0);
  }

  // ---- words, plainly ----------------------------------------------------------------------------

  predicate NoSeparator(q: seq<byte>) {
    forall i :: 0 <= i < |q| ==> q[i] as int as char !in {'-', '_', '.', ' '}
  }

  lemma {:induction false} InScan(rec: seq<byte>, q: seq<byte>, from: nat, p: nat)
    requires q != [] && NoSeparator(q) && Occurs(rec, q, p) && SepBefore(rec, p) && from <= p
    ensures p in Scan(rec, q, from)
    decreases if from <= |rec| then |rec| - from + 1 else 0
  {
    FindSpec(rec, q, from);
    var h := FindFrom(rec, q, from).value;
    if h < p {
      if p < h + |q| {
        OccursAt(rec, q, h, p - 1 - h);
      }
      InScan(rec, q, h + |q|, p);
    }
  }

  lemma {:induction false} ScanOccurs(rec: seq<byte>, q: seq<byte>, from: nat, p: nat)
    requires q != [] && p in Scan(rec, q, from)
    ensures Occurs(rec, q, p)
    decreases if from <= |rec| then |rec| - from + 1 else 0
  {
    FindSpec(rec, q, from);
    var h := FindFrom(rec, q, from).value;
    if p != h {
      ScanOccurs(rec, q, h + |q|, p);
    }
  }

  /** For a query without separators the search misses no word: any occurrence after one counts. */
  lemma WordIsAnyWord(rec: seq<byte>, q: seq<byte>)
    requires q != [] && NoSeparator(q)
    ensures AfterSeparator(rec, q) <==> exists p: nat :: Occurs(rec, q, p) && SepBefore(rec, p)
  {
    hide Scan, Occurs, SepBefore;
    if h :| h in Scan(rec, q, 0) && SepBefore(rec, h) {
      ScanOccurs(rec, q, 0, h);
    }
    if p: nat :| Occurs(rec, q, p) && SepBefore(rec, p) {
      InScan(rec, q, 0, p);
    }
  }

  /** With one it can: "a-a" stands at a word of "ba-a-a", behind a hit that overlaps it. */
  lemma OverlapHidesWord()
    ensures var rec: seq<byte>, q: seq<byte> := [0x62, 0x61, 0x2D, 0x61, 0x2D, 0x61], [0x61, 0x2D, 0x61];
            Occurs(rec, q, 3) && SepBefore(rec, 3) && !AfterSeparator(rec, q)
  {
    var rec: seq<byte>, q: seq<byte> := [0x62, 0x61, 0x2D, 0x61, 0x2D, 0x61], [0x61, 0x2D, 0x61];
    assert rec[3..6] == q && rec[1..4] == q;
    FirstByte(rec, q, 0);
    FindIs(rec, q, 0, 1);
    assert Scan(rec, q, 4) == [];
    assert Scan(rec, q, 0) == [1] + Scan(rec, q, 4);
  }

  // ---- case ---------------------------------------------------------------------------------------

  /** Lowercasing goes character by character, in order, nothing added or lost. */
  lemma {:induction false} LowerByCharacter(uni: Unicode, s: string, t: string)
    ensures LowerAll(uni, "") == "" && (forall c :: LowerAll(uni, [c]) == uni.lower(c))
    ensures LowerAll(uni, s + t) == LowerAll(uni, s) + LowerAll(uni, t)
    ensures Fold(uni, s) == LowerAll(uni, uni.nfc(s))
  {
    if s == [] {
      assert s + t == t;
    } else {
      LowerByCharacter(uni, s[1..], t);
      assert (s + t)[1..] == s[1..] + t;
    }
  }

  /** Two texts that differ in case alone. */
  predicate LowerAlike(uni: Unicode, a: string, b: string) {
    |a| == |b| && forall i :: 0 <= i < |a| ==> uni.lower(a[i]) == uni.lower(b[i])
  }

  lemma {:induction false} AlikeLower(uni: Unicode, a: string, b: string)
    requires LowerAlike(uni, a, b)
    ensures LowerAll(uni, a) == LowerAll(uni, b)
  {
    if a != [] {
      AlikeLower(uni, a[1..], b[1..]);
    }
  }

  /** Queries whose normal forms differ in case alone are one query to the index. */
  lemma SameFold(uni: Unicode, a: string, b: string)
    requires LowerAlike(uni, uni.nfc(a), uni.nfc(b))
    ensures Fold(uni, a) == Fold(uni, b)
  {
    AlikeLower(uni, uni.nfc(a), uni.nfc(b));
  }

  lemma {:induction false} TruncateFits(s: string, max: nat)
    requires |Encode(s)| <= max
    ensures Truncate(s, max) == s
  {
    if s != [] {
      TruncateFits(s[1..], max - |EncodeChar(s[0])|);
      assert [s[0]] + s[1..] == s;
    }
  }

  /** A query finds the name it is up to case, if the folded name fits its field. */
  lemma FindsItsName(uni: Unicode, name: string, query: string)
    requires LowerAlike(uni, uni.nfc(name), uni.nfc(query)) && |Encode(Fold(uni, query))| <= 65535
    requires Fold(uni, query) != ""
    ensures FoldedRecord(uni, name) == Encode(Fold(uni, query)) && MatchOf(uni, name, Fold(uni, query)).Whole?
  {
    SameFold(uni, name, query);
    TruncateFits(Fold(uni, query), NAME_MAX);
  }

  /** A name is stored in its normal form, cut only if that does not fit its field, and then after the last whole
      character that does. */
  lemma StoredInNormalForm(uni: Unicode, raw: string)
    ensures |Encode(uni.nfc(raw))| <= 65535 ==> StoredName(uni, raw) == uni.nfc(raw)
    ensures var kept := StoredName(uni, raw);
            && kept <= uni.nfc(raw) && |Encode(kept)| <= 65535
            && (|kept| < |uni.nfc(raw)| ==> |Encode(kept)| + |EncodeChar(uni.nfc(raw)[|kept|])| > 65535)
  {
    hide Encode, EncodeChar;
    if |Encode(uni.nfc(raw))| <= 65535 {
      TruncateFits(uni.nfc(raw), NAME_MAX);
    }
  }

  // ---- initials ------------------------------------------------------------------------------------

  /** The characters at the given places. */
  function Letters(name: string, at: seq<nat>): (r: string)
    requires forall k :: 0 <= k < |at| ==> at[k] < |name|
    ensures |r| == |at| && forall k :: 0 <= k < |at| ==> r[k] == name[at[k]]
  {
    seq(|at|, k requires 0 <= k < |at| => name[at[k]])
  }

  lemma {:induction false} EncodeConcat(s: string, t: string)
    ensures Encode(s + t) == Encode(s) + Encode(t)
  {
    hide EncodeChar;
    if s == [] {
      assert s + t == t;
    } else {
      EncodeConcat(s[1..], t);
      assert (s + t)[1..] == s[1..] + t && (s + t)[0] == s[0];
      var b := EncodeChar(s[0]);
      assert b + (Encode(s[1..]) + Encode(t)) == (b + Encode(s[1..])) + Encode(t);
    }
  }

  lemma {:induction false} InitialsSpell(uni: Unicode, letters: string, parts: seq<seq<byte>>)
    requires |parts| == |letters| && forall k :: 0 <= k < |parts| ==> parts[k] == Initial(uni, letters[k])
    ensures Flatten(parts) == Encode(LowerAll(uni, letters))
  {
    if parts != [] {
      InitialsSpell(uni, letters[1..], parts[1..]);
      EncodeConcat(uni.lower(letters[0]), LowerAll(uni, letters[1..]));
    }
  }

  lemma {:induction false} FlattenConcat(a: seq<seq<byte>>, b: seq<seq<byte>>)
    ensures Flatten(a + b) == Flatten(a) + Flatten(b)
  {
    if a == [] {
      assert a + b == b;
    } else {
      FlattenConcat(a[1..], b);
      assert (a + b)[1..] == a[1..] + b && (a + b)[0] == a[0];
      assert a[0] + (Flatten(a[1..]) + Flatten(b)) == (a[0] + Flatten(a[1..])) + Flatten(b);
    }
  }

  lemma {:induction false} PackPrefix(parts: seq<seq<byte>>, room: nat, k: nat)
    requires k <= |parts| && |Flatten(parts[..k])| <= room
    ensures Flatten(parts[..k]) <= Pack(parts, room)
  {
    PackAppend(parts, room, k);
  }

  /** A name answers the letters its segments start with: any run of them, lowercased, that ends within the first
      eight bytes of all of them. */
  lemma AnswersInitials(uni: Unicode, name: string, j: nat, k: nat, fq: string)
    requires j < k <= |SegmentStarts(uni, name, |name|)|
    requires forall i :: 0 <= i < k ==> SegmentStarts(uni, name, |name|)[i] < |name|
    requires fq == LowerAll(uni, Letters(name, SegmentStarts(uni, name, |name|)[j..k])) && fq != ""
    requires |Encode(LowerAll(uni, Letters(name, SegmentStarts(uni, name, |name|)[..k])))| <= 8
    ensures |Encode(fq)| <= 8 && OccursIn(LaneOf(uni, name), Encode(fq))
    ensures Standing(MatchOf(uni, name, fq)) >= Standing(Lane)
  {
    hide SegmentStarts, Encode, Pack, Flatten, FoldedRecord, AfterSeparator;
    var starts, parts := SegmentStarts(uni, name, |name|), NameInitials(uni, name);
    StartsInRange(uni, name, |name|);
    InitialsSpell(uni, Letters(name, starts[j..k]), parts[j..k]);
    InitialsSpell(uni, Letters(name, starts[..k]), parts[..k]);
    PackPrefix(parts, INITIALS_STRIDE, k);
    FlattenConcat(parts[..j], parts[j..k]);
    assert parts[..j] + parts[j..k] == parts[..k];
    var lane, at := LaneOf(uni, name), |Flatten(parts[..j])|;
    assert Flatten(parts[..k]) == Flatten(parts[..j]) + Encode(fq);
    assert lane[..|Flatten(parts[..k])|] == Flatten(parts[..k]);
    assert Occurs(lane, Encode(fq), at);
  }
}
