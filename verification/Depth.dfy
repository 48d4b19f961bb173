/** Path depth: the parent walk that defines it and the memoized sweep that caches it. */
module Depth {
  import opened Bytes
  import opened Table
  import opened Ranking

  /** Cycle guard of a parent walk. */
  const PATH_DEPTH_CAP: nat := 512

  datatype Mark = Unknown | OnStack | Done

  /** Every FRN leads to a live slot. */
  predicate MapLive(entries: seq<Entry>, frnMap: map<nat, nat>) {
    forall f :: f in frnMap ==> frnMap[f] < |entries| && !entries[frnMap[f]].flags.dead
  }

  /** The parent link a walk follows: none at a self-parenting root or where the parent is missing. */
  function Up(entries: seq<Entry>, frnMap: map<nat, nat>, s: nat): (p: Option<nat>)
    requires MapLive(entries, frnMap) && s < |entries|
    ensures p.Some? ==> p.value < |entries| && p.value != s && !entries[p.value].flags.dead
  {
    var e := entries[s];
    if e.parent == e.frn then None
    else if e.parent in frnMap && frnMap[e.parent] != s then Some(frnMap[e.parent])
    else None
  }

  /** Links followed from `s`, at most `n`. */
  function Steps(entries: seq<Entry>, frnMap: map<nat, nat>, s: nat, n: nat): (d: nat)
    requires MapLive(entries, frnMap) && s < |entries|
    ensures d <= n
    decreases n
  {
    if n == 0 || Up(entries, frnMap, s).None? then 0
    else 1 + Steps(entries, frnMap, Up(entries, frnMap, s).value, n - 1)
  }

  function Min(a: nat, b: nat): nat {
    if a <= b then a else b
  }

  /** A tighter cap only clamps. */
  lemma {:induction false} StepsClamp(entries: seq<Entry>, frnMap: map<nat, nat>, s: nat, n: nat, m: nat)
    requires MapLive(entries, frnMap) && s < |entries| && m <= n
    ensures Steps(entries, frnMap, s, m) == Min(Steps(entries, frnMap, s, n), m)
    decreases m
  {
    if m > 0 && Up(entries, frnMap, s).Some? {
      StepsClamp(entries, frnMap, Up(entries, frnMap, s).value, n - 1, m - 1);
    }
  }

  /** The uncached, exact definition: walk up, counting links, to the cap. */
  method DepthOf(entries: seq<Entry>, frnMap: map<nat, nat>, s: nat) returns (depth: nat)
    requires MapLive(entries, frnMap) && s < |entries|
    ensures depth == Steps(entries, frnMap, s, PATH_DEPTH_CAP)
  {
    depth := 0;
    var idx: nat := s;
    while depth < PATH_DEPTH_CAP
      invariant depth <= PATH_DEPTH_CAP && idx < |entries|
      invariant depth + Steps(entries, frnMap, idx, PATH_DEPTH_CAP - depth) == Steps(entries, frnMap, s, PATH_DEPTH_CAP)
    {
      var e := entries[idx];
      if e.parent == e.frn {
        break;
      }
      if e.parent in frnMap && frnMap[e.parent] != idx {
        idx := frnMap[e.parent];
        depth := depth + 1;
      } else {
        break;
      }
    }
  }

  /** The depth a rank key can carry. */
  function RankDepth(entries: seq<Entry>, frnMap: map<nat, nat>, s: nat): (d: nat)
    requires MapLive(entries, frnMap) && s < |entries|
    ensures d <= RANK_DEPTH_MAX
  {
    Steps(entries, frnMap, s, RANK_DEPTH_MAX)
  }

  lemma RankDepthIsClampedDepth(entries: seq<Entry>, frnMap: map<nat, nat>, s: nat)
    requires MapLive(entries, frnMap) && s < |entries|
    ensures RankDepth(entries, frnMap, s) == Min(Steps(entries, frnMap, s, PATH_DEPTH_CAP), RANK_DEPTH_MAX)
  {
    StepsClamp(entries, frnMap, s, PATH_DEPTH_CAP, RANK_DEPTH_MAX);
  }

  /** One level below its parent, up to the clamp. */
  lemma BelowParent(entries: seq<Entry>, frnMap: map<nat, nat>, s: nat)
    requires MapLive(entries, frnMap) && s < |entries|
    ensures match Up(entries, frnMap, s)
            case None => RankDepth(entries, frnMap, s) == 0
            case Some(p) => RankDepth(entries, frnMap, s) == Min(RankDepth(entries, frnMap, p) + 1, RANK_DEPTH_MAX)
  {
    var u := Up(entries, frnMap, s);
    if u.Some? {
      StepsClamp(entries, frnMap, u.value, RANK_DEPTH_MAX, RANK_DEPTH_MAX - 1);
    }
  }

  /** A walk that never leaves a set never ends. */
  lemma {:induction false} EndlessWalk(entries: seq<Entry>, frnMap: map<nat, nat>, closed: seq<nat>, s: nat, n: nat)
    requires MapLive(entries, frnMap) && s in closed
    requires forall x :: x in closed ==>
               x < |entries| && Up(entries, frnMap, x).Some? && Up(entries, frnMap, x).value in closed
    ensures Steps(entries, frnMap, s, n) == n
    decreases n
  {
    if n > 0 {
      EndlessWalk(entries, frnMap, closed, Up(entries, frnMap, s).value, n - 1);
    }
  }

  // ---- the sweep -----------------------------------------------------------------

  /** Slot `s`'s cached depth is right. */
  predicate ExactDepth(entries: seq<Entry>, frnMap: map<nat, nat>, rankKey: seq<byte>, s: nat)
    requires MapLive(entries, frnMap) && s < |entries|
  {
    s < |rankKey| && rankKey[s] % 128 == RankDepth(entries, frnMap, s)
  }

  /** Every live slot a sweep has settled is right. */
  predicate DoneExact(entries: seq<Entry>, frnMap: map<nat, nat>, rankKey: seq<byte>, state: seq<Mark>)
    requires MapLive(entries, frnMap)
  {
    forall s :: 0 <= s < |state| && s < |entries| && state[s].Done? && !entries[s].flags.dead ==>
      ExactDepth(entries, frnMap, rankKey, s)
  }

  predicate AllLiveExact(entries: seq<Entry>, frnMap: map<nat, nat>, rankKey: seq<byte>)
    requires MapLive(entries, frnMap)
  {
    forall s :: 0 <= s < |entries| && !entries[s].flags.dead ==> ExactDepth(entries, frnMap, rankKey, s)
  }

  /** Write a depth, keeping the hidden-or-system bit. */
  function WithDepth(key: byte, depth: nat): (r: byte)
    ensures r >= RANK_PENALIZED <==> key >= RANK_PENALIZED
    ensures r as int % 128 == Min(depth, RANK_DEPTH_MAX)
  {
    (if key >= RANK_PENALIZED then 128 else 0) + Min(depth, RANK_DEPTH_MAX)
  }

  predicate Distinct(s: seq<nat>) {
    forall i, j :: 0 <= i < j < |s| ==> s[i] != s[j]
  }

  /** `stack` is a live upward chain of distinct slots. */
  predicate Chain(entries: seq<Entry>, frnMap: map<nat, nat>, stack: seq<nat>)
    requires MapLive(entries, frnMap)
  {
    && Distinct(stack)
    && (forall i :: 0 <= i < |stack| ==> stack[i] < |entries| && !entries[stack[i]].flags.dead)
    && (forall i :: 0 <= i < |stack| - 1 ==> Up(entries, frnMap, stack[i]) == Some(stack[i + 1]))
  }

  /** Exactly the stacked slots have been marked, and they were unknown before. */
  predicate Stacked(before: seq<Mark>, after: seq<Mark>, stack: seq<nat>) {
    && |after| == |before|
    && (forall s :: 0 <= s < |before| ==> after[s] == if s in stack then OnStack else before[s])
    && (forall s :: s in stack ==> s < |before| && before[s].Unknown?)
  }

  /** Where a walk up from a slot stops: at a memo base, at the top, or on itself. */
  datatype Stop = Memo(first: nat) | Cycle

  method Walk(entries: seq<Entry>, frnMap: map<nat, nat>, rankKey: seq<byte>, state0: seq<Mark>, s: nat)
    returns (stack: seq<nat>, state: seq<Mark>, stop: Stop)
    requires MapLive(entries, frnMap) && |state0| >= |entries| == |rankKey|
    requires s < |entries| && state0[s].Unknown? && !entries[s].flags.dead
    requires forall x :: 0 <= x < |state0| ==> !state0[x].OnStack?
    ensures stack != [] && stack[0] == s && Chain(entries, frnMap, stack) && Stacked(state0, state, stack)
    ensures stop.Cycle? ==>
              Up(entries, frnMap, stack[|stack| - 1]).Some? && Up(entries, frnMap, stack[|stack| - 1]).value in stack
    ensures stop.Memo? && DoneExact(entries, frnMap, rankKey, state0) ==>
              stop.first == RankDepth(entries, frnMap, stack[|stack| - 1])
  {
    hide RankDepth, Steps, Stacked, Chain, Up, DoneExact;
    stack, state := [], state0;
    var cur: nat := s;
    WalkNone(entries, frnMap, state0);
    while true
      invariant Chain(entries, frnMap, stack) && Stacked(state0, state, stack) && |state| == |state0|
      invariant cur < |entries| && !entries[cur].flags.dead
      invariant stack != [] ==> stack[|stack| - 1] < |entries|
      invariant if stack == [] then cur == s else stack[0] == s && Up(entries, frnMap, stack[|stack| - 1]) == Some(cur)
      decreases set x | 0 <= x < |state| && state[x].Unknown?
    {
      WalkFacts(entries, frnMap, rankKey, state0, state, stack, cur);
      match state[cur] {
        case Done =>
          var d := rankKey[cur] % 128;
          stop := Memo(Min(d + 1, RANK_DEPTH_MAX));
          return;
        case OnStack =>
          stop := Cycle;
          return;
        case Unknown =>
      }
      ghost var before := set x | 0 <= x < |state| && state[x].Unknown?;
      PushStep(entries, frnMap, state0, state, stack, cur);
      state := state[cur := OnStack];
      stack := stack + [cur];
      ghost var after := set x | 0 <= x < |state| && state[x].Unknown?;
      assert cur in before && cur !in after && after <= before;
      BelowParent(entries, frnMap, cur);
      UpIs(entries, frnMap, cur);
      var e := entries[cur];
      if e.parent == e.frn {
        stop := Memo(0);
        return;
      }
      if e.parent in frnMap && frnMap[e.parent] != cur {
        cur := frnMap[e.parent];
      } else {
        stop := Memo(0);
        return;
      }
    }
  }

  lemma UpIs(entries: seq<Entry>, frnMap: map<nat, nat>, s: nat)
    requires MapLive(entries, frnMap) && s < |entries|
    ensures Up(entries, frnMap, s) ==
      if entries[s].parent != entries[s].frn && entries[s].parent in frnMap && frnMap[entries[s].parent] != s then
        Some(frnMap[entries[s].parent])
      else None
  {
  }

  lemma WalkNone(entries: seq<Entry>, frnMap: map<nat, nat>, state0: seq<Mark>)
    requires MapLive(entries, frnMap) && forall x :: 0 <= x < |state0| ==> !state0[x].OnStack?
    ensures Chain(entries, frnMap, []) && Stacked(state0, state0, [])
  {
  }

  /** What meeting a marked slot means. */
  lemma WalkFacts(entries: seq<Entry>, frnMap: map<nat, nat>, rankKey: seq<byte>, state0: seq<Mark>, state: seq<Mark>,
                  stack: seq<nat>, cur: nat)
    requires MapLive(entries, frnMap) && Chain(entries, frnMap, stack) && Stacked(state0, state, stack)
    requires |state0| >= |entries| == |rankKey| && cur < |entries| && !entries[cur].flags.dead
    requires stack != [] ==> stack[|stack| - 1] < |entries| && Up(entries, frnMap, stack[|stack| - 1]) == Some(cur)
    requires forall x :: 0 <= x < |state0| ==> !state0[x].OnStack?
    ensures cur < |state| && (state[cur].OnStack? ==> cur in stack) && (state[cur].Done? ==> state0[cur].Done?)
    ensures state[cur].Done? && stack != [] && DoneExact(entries, frnMap, rankKey, state0) ==>
              Min(rankKey[cur] as int % 128 + 1, RANK_DEPTH_MAX) == RankDepth(entries, frnMap, stack[|stack| - 1])
  {
    hide RankDepth, Steps, Up, Chain;
    if stack != [] {
      BelowParent(entries, frnMap, stack[|stack| - 1]);
    }
    if state[cur].Done? && DoneExact(entries, frnMap, rankKey, state0) {
      assert ExactDepth(entries, frnMap, rankKey, cur);
    }
  }

  lemma PushStep(entries: seq<Entry>, frnMap: map<nat, nat>, state0: seq<Mark>, state: seq<Mark>, stack: seq<nat>,
                 cur: nat)
    requires MapLive(entries, frnMap) && Chain(entries, frnMap, stack) && Stacked(state0, state, stack)
    requires cur < |entries| <= |state| && !entries[cur].flags.dead && state[cur].Unknown?
    requires stack != [] ==> Up(entries, frnMap, stack[|stack| - 1]) == Some(cur)
    ensures Chain(entries, frnMap, stack + [cur]) && Stacked(state0, state[cur := OnStack], stack + [cur])
  {
    assert cur !in stack;
    hide Up;
    forall i | 0 <= i < |stack| ensures stack[i] != cur {
      assert stack[i] in stack;
    }
  }

  /** What settling one walk's slots does to the marks and the keys. */
  predicate Settles(entries: seq<Entry>, frnMap: map<nat, nat>, stack: seq<nat>, state0: seq<Mark>, key0: seq<byte>,
                    state: seq<Mark>, key: seq<byte>) {
    && |state| == |state0| && |key| == |key0| && |stack| > 0
    && (forall s :: 0 <= s < |state| ==> state[s] == if s in stack then Done else state0[s])
    && (forall s :: 0 <= s < |key| ==> (key[s] >= RANK_PENALIZED <==> key0[s] >= RANK_PENALIZED))
    && (forall s :: 0 <= s < |key| && s !in stack ==> key[s] == key0[s])
  }

  /** Part of a walk settled so far. */
  predicate Partly(state1: seq<Mark>, key0: seq<byte>, state: seq<Mark>, key: seq<byte>, done: set<nat>) {
    && |state| == |state1| && |key| == |key0|
    && (forall s :: 0 <= s < |state| ==> state[s] == if s in done then Done else state1[s])
    && (forall s :: 0 <= s < |key| ==> (key[s] >= RANK_PENALIZED <==> key0[s] >= RANK_PENALIZED))
    && (forall s :: 0 <= s < |key| && s !in done ==> key[s] == key0[s])
  }

  lemma PartlyStep(state1: seq<Mark>, key0: seq<byte>, state: seq<Mark>, key: seq<byte>, done: set<nat>, x: nat, d: nat)
    requires Partly(state1, key0, state, key, done) && x < |state| && x < |key|
    ensures Partly(state1, key0, state[x := Done], key[x := WithDepth(key[x], d)], done + {x})
  {
  }

  lemma PartlyNone(state1: seq<Mark>, key0: seq<byte>)
    ensures Partly(state1, key0, state1, key0, {})
  {
  }

  lemma ChainShape(entries: seq<Entry>, frnMap: map<nat, nat>, stack: seq<nat>)
    requires MapLive(entries, frnMap) && Chain(entries, frnMap, stack)
    ensures Distinct(stack) && (forall i :: 0 <= i < |stack| ==> stack[i] < |entries|) && forall s :: s in stack ==>
              s < |entries|
  {
  }

  lemma PartlyAll(entries: seq<Entry>, frnMap: map<nat, nat>, stack: seq<nat>, state0: seq<Mark>, state1: seq<Mark>,
                  key0: seq<byte>,
                  state: seq<Mark>, key: seq<byte>, done: set<nat>)
    requires Partly(state1, key0, state, key, done) && Stacked(state0, state1, stack) && stack != []
    requires forall s :: s in done <==> s in stack
    ensures Settles(entries, frnMap, stack, state0, key0, state, key)
  {
  }

  /** A closed walk: everything on it gets the clamp. */
  method SettleCycle(entries: seq<Entry>, frnMap: map<nat, nat>, stack: seq<nat>, state1: seq<Mark>, key0: seq<byte>,
                     ghost state0: seq<Mark>) returns (state: seq<Mark>, key: seq<byte>)
    requires MapLive(entries, frnMap) && |state1| >= |entries| == |key0|
    requires stack != [] && Chain(entries, frnMap, stack) && Stacked(state0, state1, stack)
    requires forall j :: 0 <= j < |stack| ==> RankDepth(entries, frnMap, stack[j]) == RANK_DEPTH_MAX
    ensures Settles(entries, frnMap, stack, state0, key0, state, key)
    ensures forall s :: s in stack ==> ExactDepth(entries, frnMap, key, s)
  {
    hide Up, RankDepth, Steps, Stacked, Partly, WithDepth, Chain, MapLive;
    ChainShape(entries, frnMap, stack);
    state, key := state1, key0;
    PartlyNone(state1, key0);
    ghost var done: set<nat> := {};
    for i := 0 to |stack|
      invariant |state| == |state1| && |key| == |key0| && Partly(state1, key0, state, key, done)
      invariant forall x :: x in done ==> x in stack
      invariant forall j :: 0 <= j < |stack| ==> (stack[j] in done <==> j < i)
      invariant forall j :: 0 <= j < i ==> key[stack[j]] as int % 128 == RANK_DEPTH_MAX
    {
      PartlyStep(state1, key0, state, key, done, stack[i], RANK_DEPTH_MAX);
      key := key[stack[i] := WithDepth(key[stack[i]], RANK_DEPTH_MAX)];
      state := state[stack[i] := Done];
      done := done + {stack[i]};
    }
    PartlyAll(entries, frnMap, stack, state0, state1, key0, state, key, done);
  }

  lemma CycleDepths(entries: seq<Entry>, frnMap: map<nat, nat>, stack: seq<nat>)
    requires MapLive(entries, frnMap) && stack != [] && Chain(entries, frnMap, stack)
    requires Up(entries, frnMap, stack[|stack| - 1]).Some? && Up(entries, frnMap, stack[|stack| - 1]).value in stack
    ensures forall j :: 0 <= j < |stack| ==> RankDepth(entries, frnMap, stack[j]) == RANK_DEPTH_MAX
  {
    ClosedChain(entries, frnMap, stack);
    hide Up;
    forall j | 0 <= j < |stack| ensures RankDepth(entries, frnMap, stack[j]) == RANK_DEPTH_MAX {
      EndlessWalk(entries, frnMap, stack, stack[j], RANK_DEPTH_MAX);
    }
  }

  lemma ClosedChain(entries: seq<Entry>, frnMap: map<nat, nat>, stack: seq<nat>)
    requires MapLive(entries, frnMap) && stack != [] && Chain(entries, frnMap, stack)
    requires Up(entries, frnMap, stack[|stack| - 1]).Some? && Up(entries, frnMap, stack[|stack| - 1]).value in stack
    ensures forall x :: x in stack ==>
              x < |entries| && Up(entries, frnMap, x).Some? && Up(entries, frnMap, x).value in stack
  {
    forall x | x in stack ensures Up(entries, frnMap, x).Some? && Up(entries, frnMap, x).value in stack {
      var i :| 0 <= i < |stack| && stack[i] == x;
      assert i < |stack| - 1 ==> stack[i + 1] in stack;
    }
  }

  /** Along a chain, each slot is one deeper than the one above it. */
  lemma {:induction false} ChainDepths(entries: seq<Entry>, frnMap: map<nat, nat>, stack: seq<nat>, j: nat)
    requires MapLive(entries, frnMap) && j < |stack| && Chain(entries, frnMap, stack)
    ensures RankDepth(entries, frnMap, stack[j])
         == Min(RankDepth(entries, frnMap, stack[|stack| - 1]) + (|stack| - 1 - j), RANK_DEPTH_MAX)
    decreases |stack| - j
  {
    if j < |stack| - 1 {
      BelowParent(entries, frnMap, stack[j]);
      ChainDepths(entries, frnMap, stack, j + 1);
    }
  }

  lemma AllChainDepths(entries: seq<Entry>, frnMap: map<nat, nat>, stack: seq<nat>)
    requires MapLive(entries, frnMap) && stack != [] && Chain(entries, frnMap, stack)
    ensures forall j :: 0 <= j < |stack| ==> stack[j] < |entries|
    ensures forall j :: 0 <= j < |stack| ==>
              RankDepth(entries, frnMap, stack[j]) ==
                Min(RankDepth(entries, frnMap, stack[|stack| - 1]) + (|stack| - 1 - j), RANK_DEPTH_MAX)
  {
    hide Up, RankDepth, Steps;
    forall j | 0 <= j < |stack| {
      ChainDepths(entries, frnMap, stack, j);
    }
  }

  /** Unwind a walk from its last slot back down, one deeper at each step. */
  method SettleChain(entries: seq<Entry>, frnMap: map<nat, nat>, stack: seq<nat>, first: nat, state1: seq<Mark>,
                     key0: seq<byte>,
                     ghost state0: seq<Mark>) returns (state: seq<Mark>, key: seq<byte>)
    requires MapLive(entries, frnMap) && |state1| >= |entries| == |key0| && first <= RANK_DEPTH_MAX
    requires stack != [] && Chain(entries, frnMap, stack) && Stacked(state0, state1, stack)
    ensures Settles(entries, frnMap, stack, state0, key0, state, key)
    ensures first == RankDepth(entries, frnMap, stack[|stack| - 1]) ==> forall s :: s in stack ==>
              ExactDepth(entries, frnMap, key, s)
  {
    hide Up, RankDepth, Steps, Stacked, Partly, WithDepth, Chain, MapLive;
    ChainShape(entries, frnMap, stack);
    AllChainDepths(entries, frnMap, stack);
    state, key := state1, key0;
    PartlyNone(state1, key0);
    var d: nat := first;
    var i := |stack|;
    ghost var done: set<nat> := {};
    while i > 0
      invariant 0 <= i <= |stack|
      invariant d == Min(first + (|stack| - i), RANK_DEPTH_MAX)
      invariant |state| == |state1| && |key| == |key0| && Partly(state1, key0, state, key, done)
      invariant forall x :: x in done ==> x in stack
      invariant forall j :: 0 <= j < |stack| ==> (stack[j] in done <==> i <= j)
      invariant forall j :: i <= j < |stack| ==>
                  key[stack[j]] as int % 128 == Min(first + (|stack| - 1 - j), RANK_DEPTH_MAX)
    {
      i := i - 1;
      PartlyStep(state1, key0, state, key, done, stack[i], d);
      key := key[stack[i] := WithDepth(key[stack[i]], d)];
      state := state[stack[i] := Done];
      done := done + {stack[i]};
      d := Min(d + 1, RANK_DEPTH_MAX);
    }
    PartlyAll(entries, frnMap, stack, state0, state1, key0, state, key, done);
  }

  /** What a sweep over some slots leaves behind. */
  ghost predicate Swept(entries: seq<Entry>, state0: seq<Mark>, key0: seq<byte>, state: seq<Mark>, key: seq<byte>,
                        pushed: seq<nat>) {
    && |state| == |state0| && |key| == |key0| && Distinct(pushed)
    && (forall s :: 0 <= s < |state| ==> !state[s].OnStack?)
    && (forall s :: 0 <= s < |state| && state0[s].Done? ==> state[s].Done?)
    && (forall s: nat :: s in pushed <==> s < |state| && state[s].Done? && !state0[s].Done?)
    && (forall s :: s in pushed ==> s < |entries| && !entries[s].flags.dead)
    && (forall s :: 0 <= s < |key| && s !in pushed ==> key[s] == key0[s])
    && (forall s :: 0 <= s < |key| ==> (key[s] >= RANK_PENALIZED <==> key0[s] >= RANK_PENALIZED))
  }

  lemma SweptMore(entries: seq<Entry>, frnMap: map<nat, nat>, state0: seq<Mark>, key0: seq<byte>, state1: seq<Mark>,
                  key1: seq<byte>,
                  pushed: seq<nat>, stack: seq<nat>, state2: seq<Mark>, key2: seq<byte>)
    requires MapLive(entries, frnMap) && |state0| >= |entries|
    requires Swept(entries, state0, key0, state1, key1, pushed)
    requires Chain(entries, frnMap, stack) && Settles(entries, frnMap, stack, state1, key1, state2, key2)
    requires forall s :: s in stack ==> s < |state1| && state1[s].Unknown?
    ensures Swept(entries, state0, key0, state2, key2, pushed + stack)
  {
    forall i, j | 0 <= i < j < |pushed + stack| ensures (pushed + stack)[i] != (pushed + stack)[j] {
      if i < |pushed| <= j {
        assert pushed[i] in pushed && stack[j - |pushed|] in stack;
      }
    }
    forall s | s in stack ensures s < |entries| && !entries[s].flags.dead {
      var i :| 0 <= i < |stack| && stack[i] == s;
    }
  }

  /** Memoized, cycle-guarded sweep over `[start, end)`: every live slot there ends up settled, each pushed
      at most once. */
  method DepthSweep(entries: seq<Entry>, frnMap: map<nat, nat>, key0: seq<byte>, state0: seq<Mark>, start: nat,
                    end: nat)
    returns (state: seq<Mark>, key: seq<byte>, ghost pushed: seq<nat>)
    requires MapLive(entries, frnMap) && |state0| >= |entries| == |key0| && start <= end <= |entries|
    requires forall s :: 0 <= s < |state0| ==> !state0[s].OnStack?
    ensures Swept(entries, state0, key0, state, key, pushed)
    ensures forall s :: start <= s < end && !entries[s].flags.dead ==> state[s].Done?
    ensures DoneExact(entries, frnMap, key0, state0) ==> DoneExact(entries, frnMap, key, state)
  {
    hide Up, RankDepth, Steps, Chain, Stacked, Settles, Swept, DoneExact, MapLive;
    state, key, pushed := state0, key0, [];
    ghost var right := DoneExact(entries, frnMap, key0, state0);
    SweptNone(entries, state0, key0);
    for s := start to end
      invariant Swept(entries, state0, key0, state, key, pushed) && |state| == |state0| && |key| == |key0|
      invariant forall x :: start <= x < s && !entries[x].flags.dead ==> state[x].Done?
      invariant right ==> DoneExact(entries, frnMap, key, state)
    {
      if !state[s].Unknown? || entries[s].flags.dead {
        if !entries[s].flags.dead {
          SettledAlready(entries, state0, key0, state, key, pushed, s);
        }
        continue;
      }
      SweptMarks(entries, state0, key0, state, key, pushed);
      var stack, state1, stop := Walk(entries, frnMap, key, state, s);
      StackedFacts(state, state1, stack);
      ghost var was, wasKey := state, key;
      state, key := Settle(entries, frnMap, stack, stop, state1, key, state);
      SweptMore(entries, frnMap, state0, key0, was, wasKey, pushed, stack, state, key);
      SettledFacts(entries, frnMap, stack, was, wasKey, state, key);
      pushed := pushed + stack;
    }
  }

  /** Unwind one walk: the clamp throughout a cycle, else one deeper at each step down from where it stopped. */
  method Settle(entries: seq<Entry>, frnMap: map<nat, nat>, stack: seq<nat>, stop: Stop, state1: seq<Mark>,
                key0: seq<byte>, ghost state0: seq<Mark>)
    returns (state: seq<Mark>, key: seq<byte>)
    requires MapLive(entries, frnMap) && |state1| >= |entries| == |key0|
    requires stack != [] && Chain(entries, frnMap, stack) && Stacked(state0, state1, stack) && |state0| == |state1|
    requires stop.Cycle? ==>
               Up(entries, frnMap, stack[|stack| - 1]).Some? && Up(entries, frnMap, stack[|stack| - 1]).value in stack
    requires stop.Memo? && DoneExact(entries, frnMap, key0, state0) ==>
               stop.first == RankDepth(entries, frnMap, stack[|stack| - 1])
    ensures Settles(entries, frnMap, stack, state0, key0, state, key)
    ensures DoneExact(entries, frnMap, key0, state0) ==> DoneExact(entries, frnMap, key, state)
  {
    hide Up, RankDepth, Steps, Chain, Stacked, Settles, DoneExact, MapLive, ExactDepth;
    match stop {
      case Cycle =>
        CycleDepths(entries, frnMap, stack);
        state, key := SettleCycle(entries, frnMap, stack, state1, key0, state0);
      case Memo(first) =>
        state, key := SettleChain(entries, frnMap, stack, Min(first, RANK_DEPTH_MAX), state1, key0, state0);
    }
    ChainShape(entries, frnMap, stack);
    if DoneExact(entries, frnMap, key0, state0) {
      SettledExact(entries, frnMap, stack, state0, key0, state, key);
    }
  }

  /** Settling exact slots on top of exact slots leaves every settled slot exact. */
  lemma SettledExact(entries: seq<Entry>, frnMap: map<nat, nat>, stack: seq<nat>, state0: seq<Mark>, key0: seq<byte>,
                     state: seq<Mark>, key: seq<byte>)
    requires MapLive(entries, frnMap) && Settles(entries, frnMap, stack, state0, key0, state, key)
    requires |key0| == |entries|
    requires DoneExact(entries, frnMap, key0, state0) && forall s :: s in stack ==>
               s < |entries| && ExactDepth(entries, frnMap, key, s)
    ensures DoneExact(entries, frnMap, key, state)
  {
    hide RankDepth;
  }

  lemma SweptNone(entries: seq<Entry>, state0: seq<Mark>, key0: seq<byte>)
    requires forall s :: 0 <= s < |state0| ==> !state0[s].OnStack?
    ensures Swept(entries, state0, key0, state0, key0, [])
  {
  }

  lemma SweptMarks(entries: seq<Entry>, state0: seq<Mark>, key0: seq<byte>, state: seq<Mark>, key: seq<byte>,
                   pushed: seq<nat>)
    requires Swept(entries, state0, key0, state, key, pushed)
    ensures forall s :: 0 <= s < |state| ==> !state[s].OnStack?
  {
  }

  lemma SettledAlready(entries: seq<Entry>, state0: seq<Mark>, key0: seq<byte>, state: seq<Mark>, key: seq<byte>,
                       pushed: seq<nat>, s: nat)
    requires Swept(entries, state0, key0, state, key, pushed) && s < |state| && !state[s].Unknown?
    ensures state[s].Done?
  {
  }

  lemma StackedFacts(state0: seq<Mark>, state1: seq<Mark>, stack: seq<nat>)
    requires Stacked(state0, state1, stack)
    ensures |state1| == |state0| && forall s :: s in stack ==> s < |state0| && state0[s].Unknown?
  {
  }

  lemma SettledFacts(entries: seq<Entry>, frnMap: map<nat, nat>, stack: seq<nat>, state0: seq<Mark>, key0: seq<byte>,
                     state: seq<Mark>, key: seq<byte>)
    requires Settles(entries, frnMap, stack, state0, key0, state, key)
    ensures |state| == |state0| && |key| == |key0|
    ensures forall s :: 0 <= s < |state| && (state0[s].Done? || s in stack) ==> state[s].Done?
  {
  }
}
