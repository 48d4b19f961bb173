/** One connection's generation protocol: a reader thread and a search worker around a one-slot mailbox and a
    watermark. Each step below is one atomic action of one thread; runs interleave them in any order. */
module Session {
  import opened Bytes

  const U64_MAX: nat := 0xFFFF_FFFF_FFFF_FFFF

  /** A batch on the wire. A worker's carries the watermark its final check saw. */
  datatype Batch = FromWorker(gen: nat, seen: nat) | Inline(gen: nat)

  /** Where the connection thread is. */
  datatype Reader =
    | Reading
    | Raised(gen: nat, rejected: bool)
    | Leaving
    | Closing
    | Joined

  /** Where the search thread is; `Cleared` has passed its final staleness check and not yet written. */
  datatype Worker =
    | Waiting
    | Taken(gen: nat)
    | Matching(gen: nat)
    | Matched(gen: nat)
    | Cleared(gen: nat, seen: nat)
    | Exited

  datatype Session = Session(
    reader: Reader, worker: Worker,
    pending: Option<nat>, closed: bool, latest: nat, broken: bool,
    lastGen: int, wire: seq<Batch>)

  function Init(): Session {
    Session(Reading, Waiting, None, false, 0, false, -1, [])
  }

  datatype Step =
    // the connection thread
    | ReadQuery(gen: nat, rejected: bool)
    | AnswerInline(sent: bool)
    | Submit
    | ReadCancel(cancelled: nat)
    | Leave
    | KillRunning
    | CloseMailbox
    | Join
    // the search thread
    | Take
    | Exit
    | SkipOrStart
    | CheckAfterMatch
    | CheckBeforeWrite
    | Write(ok: bool)

  function Max(a: nat, b: nat): nat {
    if a >= b then a else b
  }

  /** `gen.saturating_add(1)`. */
  function Past(gen: nat): nat {
    if gen >= U64_MAX then U64_MAX else gen + 1
  }

  /** Whether the watermark has left a generation behind. */
  predicate Stale(latest: nat, gen: nat) {
    latest > gen
  }

  predicate Enabled(s: Session, step: Step) {
    match step
    case ReadQuery(gen, _) => s.reader.Reading? && s.lastGen < gen <= U64_MAX
    case AnswerInline(_) => s.reader.Raised? && s.reader.rejected
    case Submit => s.reader.Raised? && !s.reader.rejected
    case ReadCancel(gen) => s.reader.Reading? && gen <= U64_MAX
    case Leave => s.reader.Reading?
    case KillRunning => s.reader.Leaving?
    case CloseMailbox => s.reader.Closing? && !s.closed
    case Join => s.reader.Closing? && s.closed && s.worker.Exited?
    case Take => s.worker.Waiting? && !s.closed && s.pending.Some?
    case Exit => s.worker.Waiting? && s.closed
    case SkipOrStart => s.worker.Taken?
    case CheckAfterMatch => s.worker.Matching?
    case CheckBeforeWrite => s.worker.Matched?
    case Write(_) => s.worker.Cleared?
  }

  function Do(s: Session, step: Step): Session
    requires Enabled(s, step)
  {
    match step
    case ReadQuery(gen, rejected) => s.(latest := Max(s.latest, gen), reader := Raised(gen, rejected), lastGen := gen)
    case AnswerInline(sent) =>
      if sent then s.(wire := s.wire + [Inline(s.reader.gen)], reader := Reading)
      else s.(broken := true, reader := Leaving)
    case Submit => s.(pending := Some(s.reader.gen), reader := Reading)
    case ReadCancel(gen) => s.(latest := Max(s.latest, Past(gen)))
    case Leave => s.(reader := Leaving)
    case KillRunning => s.(latest := U64_MAX, reader := Closing)
    case CloseMailbox => s.(closed := true, pending := None)
    case Join => s.(reader := Joined)
    case Take => s.(worker := Taken(s.pending.value), pending := None)
    case Exit => s.(worker := Exited)
    case SkipOrStart => s.(worker := if Stale(s.latest, s.worker.gen) then Waiting else Matching(s.worker.gen))
    case CheckAfterMatch => s.(worker := if Stale(s.latest, s.worker.gen) then Waiting else Matched(s.worker.gen))
    case CheckBeforeWrite =>
      s.(worker := if Stale(s.latest, s.worker.gen) then Waiting else Cleared(s.worker.gen, s.latest))
    case Write(ok) =>
      if ok then s.(wire := s.wire + [FromWorker(s.worker.gen, s.worker.seen)], worker := Waiting)
      else s.(broken := true, worker := Waiting)
  }

  /** A whole run, if every step was enabled when it was taken. */
  function Run(s: Session, steps: seq<Step>): Option<Session> {
    if steps == [] then Some(s)
    else match Run(s, steps[..|steps| - 1])
         case None => None
         case Some(m) => if Enabled(m, steps[|steps| - 1]) then Some(Do(m, steps[|steps| - 1])) else None
  }

  // ---- what holds in every reachable state ---------------------------------------------------

  /** The generation the search thread is working on. */
  function InHand(w: Worker): Option<nat> {
    match w
    case Taken(g) => Some(g)
    case Matching(g) => Some(g)
    case Matched(g) => Some(g)
    case Cleared(g, _) => Some(g)
    case Waiting => None
    case Exited => None
  }

  /** Worker batches are in strictly increasing generation order, each once, and none was stale at its final check. */
  predicate WireOk(wire: seq<Batch>) {
    && (forall i, j :: 0 <= i < j < |wire| && wire[i].FromWorker? && wire[j].FromWorker? ==> wire[i].gen < wire[j].gen)
    && (forall i :: 0 <= i < |wire| && wire[i].FromWorker? ==> !Stale(wire[i].seen, wire[i].gen))
  }

  /** Every worker batch on the wire is below `gen`. */
  predicate WireBelow(wire: seq<Batch>, gen: nat) {
    forall i :: 0 <= i < |wire| && wire[i].FromWorker? ==> wire[i].gen < gen
  }

  predicate Answered(wire: seq<Batch>, gen: nat) {
    exists i :: 0 <= i < |wire| && wire[i].gen == gen
  }

  /** Generations move down the pipeline in order: written, in hand, in the mailbox, with the reader. */
  predicate OrderOk(s: Session) {
    && (InHand(s.worker).Some? ==> WireBelow(s.wire, InHand(s.worker).value) && InHand(s.worker).value <= s.lastGen)
    && (s.pending.Some? ==>
          WireBelow(s.wire, s.pending.value) && s.pending.value <= s.lastGen
          && (InHand(s.worker).Some? ==> InHand(s.worker).value < s.pending.value))
    && (s.reader.Raised? ==>
          && s.reader.gen == s.lastGen && WireBelow(s.wire, s.reader.gen)
          && (InHand(s.worker).Some? ==> InHand(s.worker).value < s.reader.gen)
          && (s.pending.Some? ==> s.pending.value < s.reader.gen))
    && (forall i :: 0 <= i < |s.wire| ==> s.wire[i].gen <= s.lastGen)
  }

  predicate NotOn(wire: seq<Batch>, gen: nat) {
    forall i :: 0 <= i < |wire| ==> wire[i].gen != gen
  }

  /** No generation is answered twice, by either thread, and what is still on its way has not been answered. */
  predicate OnceOk(s: Session) {
    && (forall i, j :: 0 <= i < j < |s.wire| ==> s.wire[i].gen != s.wire[j].gen)
    && (InHand(s.worker).Some? ==> NotOn(s.wire, InHand(s.worker).value))
    && (s.pending.Some? ==> NotOn(s.wire, s.pending.value))
    && (s.reader.Raised? ==> NotOn(s.wire, s.reader.gen))
  }

  predicate ClosingOk(s: Session) {
    && (s.closed ==> (s.reader.Closing? || s.reader.Joined?) && s.pending.None?)
    && (s.worker.Exited? ==> s.closed)
    && (s.reader.Closing? || s.reader.Joined? ==> s.latest == U64_MAX)
    && (s.reader.Joined? ==> s.closed && s.worker.Exited?)
    && s.lastGen <= U64_MAX && s.latest <= U64_MAX
  }

  /** While the connection is open, the query the watermark still names is somewhere: with the reader, in the mailbox,
      in the worker's hands, or answered; unless a write has failed. */
  predicate NotLost(s: Session) {
    (s.reader.Reading? || s.reader.Raised?) && s.lastGen >= 0 && s.latest == s.lastGen && !s.broken ==>
      || (s.reader.Raised? && s.reader.gen == s.lastGen)
      || s.pending == Some(s.lastGen as nat)
      || InHand(s.worker) == Some(s.lastGen as nat)
      || Answered(s.wire, s.lastGen)
  }

  predicate Inv(s: Session) {
    && WireOk(s.wire) && OrderOk(s) && OnceOk(s) && ClosingOk(s) && NotLost(s)
    && s.lastGen <= s.latest
    && (s.worker.Cleared? ==> !Stale(s.worker.seen, s.worker.gen))
  }

  lemma AnsweredMore(wire: seq<Batch>, b: Batch, gen: nat)
    ensures Answered(wire + [b], gen) <==> Answered(wire, gen) || b.gen == gen
  {
    var w := wire + [b];
    if Answered(wire, gen) {
      var i :| 0 <= i < |wire| && wire[i].gen == gen;
      assert w[i].gen == gen;
    }
    if b.gen == gen {
      assert w[|wire|].gen == gen;
    }
  }

  lemma WireMore(wire: seq<Batch>, b: Batch)
    requires WireOk(wire) && (b.FromWorker? ==> WireBelow(wire, b.gen) && !Stale(b.seen, b.gen))
    ensures WireOk(wire + [b])
    ensures forall g: nat :: WireBelow(wire + [b], g) <==> WireBelow(wire, g) && (b.FromWorker? ==> b.gen < g)
  {
    var w := wire + [b];
    forall g: nat ensures WireBelow(w, g) <==> WireBelow(wire, g) && (b.FromWorker? ==> b.gen < g) {
      assert w[|wire|] == b && forall i :: 0 <= i < |wire| ==> w[i] == wire[i];
    }
  }

  lemma StepKeepsWire(s: Session, step: Step)
    requires Inv(s) && Enabled(s, step)
    ensures WireOk(Do(s, step).wire)
  {
    hide NotLost, ClosingOk, WireOk, WireBelow, Stale, OnceOk;
    match step {
      case AnswerInline(sent) => WireMore(s.wire, Inline(s.reader.gen));
      case Write(ok) => WireMore(s.wire, FromWorker(s.worker.gen, s.worker.seen));
      case _ =>
    }
  }

  lemma StepKeepsOrder(s: Session, step: Step)
    requires Inv(s) && Enabled(s, step)
    ensures OrderOk(Do(s, step))
  {
    hide NotLost, ClosingOk, WireOk, Stale, OnceOk;
    match step {
      case AnswerInline(sent) => WireMore(s.wire, Inline(s.reader.gen));
      case Write(ok) => WireMore(s.wire, FromWorker(s.worker.gen, s.worker.seen));
      case ReadQuery(gen, _) => WireUnder(s.wire, s.lastGen, gen);
      case _ =>
    }
  }

  lemma StepKeepsOnce(s: Session, step: Step)
    requires Inv(s) && Enabled(s, step)
    ensures OnceOk(Do(s, step))
  {
    hide NotLost, ClosingOk, WireOk, WireBelow, NotOn, Stale;
    match step {
      case AnswerInline(sent) => OnMore(s.wire, Inline(s.reader.gen));
      case Write(ok) => OnMore(s.wire, FromWorker(s.worker.gen, s.worker.seen));
      case ReadQuery(gen, _) => NewIsNotOn(s.wire, s.lastGen, gen);
      case _ =>
    }
  }

  lemma OnMore(wire: seq<Batch>, b: Batch)
    requires NotOn(wire, b.gen) && forall i, j :: 0 <= i < j < |wire| ==> wire[i].gen != wire[j].gen
    ensures forall i, j :: 0 <= i < j < |wire + [b]| ==> (wire + [b])[i].gen != (wire + [b])[j].gen
    ensures forall g: nat :: NotOn(wire + [b], g) <==> NotOn(wire, g) && g != b.gen
  {
    var w := wire + [b];
    forall g: nat ensures NotOn(w, g) <==> NotOn(wire, g) && g != b.gen {
      assert w[|wire|] == b && forall i :: 0 <= i < |wire| ==> w[i] == wire[i];
    }
  }

  lemma NewIsNotOn(wire: seq<Batch>, last: int, gen: nat)
    requires last < gen && forall i :: 0 <= i < |wire| ==> wire[i].gen <= last
    ensures NotOn(wire, gen)
  {
  }

  lemma WireUnder(wire: seq<Batch>, last: int, gen: nat)
    requires last < gen && forall i :: 0 <= i < |wire| ==> wire[i].gen <= last
    ensures WireBelow(wire, gen)
  {
  }

  lemma StepKeepsClosing(s: Session, step: Step)
    requires Inv(s) && Enabled(s, step)
    ensures ClosingOk(Do(s, step))
  {
    hide NotLost, OrderOk, WireOk, Stale, OnceOk;
  }

  lemma StepKeepsQuery(s: Session, step: Step)
    requires Inv(s) && Enabled(s, step)
    ensures NotLost(Do(s, step))
  {
    hide ClosingOk, WireOk, WireBelow, Answered, OnceOk;
    match step {
      case AnswerInline(sent) =>
        AnsweredMore(s.wire, Inline(s.reader.gen), s.reader.gen);
      case Write(ok) =>
        if s.lastGen >= 0 {
          AnsweredMore(s.wire, FromWorker(s.worker.gen, s.worker.seen), s.lastGen);
        }
      case _ =>
    }
  }

  /** Every step of either thread keeps the invariant, and the watermark never falls. */
  lemma StepKeepsInv(s: Session, step: Step)
    requires Inv(s) && Enabled(s, step)
    ensures Inv(Do(s, step))
    ensures Do(s, step).latest >= s.latest
  {
    StepKeepsWire(s, step);
    StepKeepsOrder(s, step);
    StepKeepsOnce(s, step);
    StepKeepsClosing(s, step);
    StepKeepsQuery(s, step);
    hide NotLost, OrderOk, OnceOk, WireOk;
  }

  /** Safety over every interleaving. */
  lemma {:induction false} RunKeepsInv(steps: seq<Step>)
    ensures Run(Init(), steps).Some? ==> Inv(Run(Init(), steps).value)
  {
    if steps != [] {
      RunKeepsInv(steps[..|steps| - 1]);
      if Run(Init(), steps).Some? {
        StepKeepsInv(Run(Init(), steps[..|steps| - 1]).value, steps[|steps| - 1]);
      }
    }
  }

  // ---- cancelling --------------------------------------------------------------------------------

  /** The watermark has passed `gen`, and no batch for it or anything older is already past its final check. */
  predicate Dead(s: Session, gen: nat) {
    Stale(s.latest, gen) && s.latest <= U64_MAX && (s.worker.Cleared? ==> s.worker.gen > gen)
  }

  /** Batches from the `n`th on that the worker wrote are newer than `gen`. */
  predicate NewerFrom(wire: seq<Batch>, n: nat, gen: nat) {
    forall i :: n <= i < |wire| && wire[i].FromWorker? ==> wire[i].gen > gen
  }

  /** Once dead, a generation and everything older stay silent for the rest of every run. */
  lemma {:induction false} DeadStaysSilent(s: Session, gen: nat, steps: seq<Step>)
    requires Dead(s, gen) && Run(s, steps).Some?
    ensures Dead(Run(s, steps).value, gen)
    ensures s.wire <= Run(s, steps).value.wire && NewerFrom(Run(s, steps).value.wire, |s.wire|, gen)
  {
    if steps != [] {
      DeadStaysSilent(s, gen, steps[..|steps| - 1]);
      StepKeepsDead(Run(s, steps[..|steps| - 1]).value, gen, steps[|steps| - 1]);
    }
  }

  lemma StepKeepsDead(s: Session, gen: nat, step: Step)
    requires Dead(s, gen) && Enabled(s, step)
    ensures Dead(Do(s, step), gen) && s.wire <= Do(s, step).wire && NewerFrom(Do(s, step).wire, |s.wire|, gen)
  {
  }

  /** A cancel raises the watermark past its generation, except that the arithmetic saturates: the very last
      generation cannot be cancelled, nor can the watermark a closing connection leaves behind kill it. */
  lemma CancelKills(s: Session, gen: nat)
    requires Inv(s) && Enabled(s, ReadCancel(gen))
    ensures Stale(Do(s, ReadCancel(gen)).latest, gen) <==> gen < U64_MAX
    ensures forall c: Session :: Enabled(c, KillRunning) ==> (Stale(Do(c, KillRunning).latest, gen) <==> gen < U64_MAX)
  {
    hide WireOk, OrderOk, OnceOk, NotLost;
  }

  /** The run that shows it: the last generation is cancelled before its final check and answered all the same. */
  lemma LastGenerationAnswers() returns (before: seq<Step>, after: seq<Step>)
    ensures Run(Init(), before).Some? && before != [] && before[|before| - 1] == ReadCancel(U64_MAX)
    ensures Run(Init(), before).value.worker == Matching(U64_MAX) && Run(Init(), before).value.wire == []
    ensures Run(Init(), before + after).Some?
    ensures Run(Init(), before + after).value.wire == [FromWorker(U64_MAX, U64_MAX)]
  {
    hide Run;
    RunNone(Init());
    before := [];
    var s := Init();
    s, before := Take1(Init(), before, s, ReadQuery(U64_MAX, false));
    s, before := Take1(Init(), before, s, Submit);
    s, before := Take1(Init(), before, s, Take);
    s, before := Take1(Init(), before, s, SkipOrStart);
    s, before := Take1(Init(), before, s, ReadCancel(U64_MAX));
    var all := before;
    s, all := Take1(Init(), all, s, CheckAfterMatch);
    s, all := Take1(Init(), all, s, CheckBeforeWrite);
    s, all := Take1(Init(), all, s, Write(true));
    after := [CheckAfterMatch, CheckBeforeWrite, Write(true)];
    assert all == before + after;
  }

  lemma Take1(s: Session, steps: seq<Step>, m: Session, step: Step) returns (m': Session, steps': seq<Step>)
    requires Run(s, steps) == Some(m) && Enabled(m, step)
    ensures m' == Do(m, step) && steps' == steps + [step] && Run(s, steps') == Some(m')
  {
    m', steps' := Do(m, step), steps + [step];
    assert steps'[..|steps|] == steps;
  }

  lemma RunNone(s: Session)
    ensures Run(s, []) == Some(s)
  {
  }

  // ---- leaving -------------------------------------------------------------------------------------

  function WorkLeft(w: Worker): nat {
    match w
    case Exited => 0
    case Waiting => 1
    case Cleared(_, _) => 2
    case Matched(_) => 3
    case Matching(_) => 4
    case Taken(_) => 5
  }

  predicate WorkerStep(step: Step) {
    step.Take? || step.Exit? || step.SkipOrStart? || step.CheckAfterMatch? || step.CheckBeforeWrite? || step.Write?
  }

  /** The worker's next step, whatever it is doing. */
  function NextStep(w: Worker): Step {
    match w
    case Taken(_) => SkipOrStart
    case Matching(_) => CheckAfterMatch
    case Matched(_) => CheckBeforeWrite
    case Cleared(_, _) => Write(true)
    case Waiting => Exit
    case Exited => Exit
  }

  /** A closed mailbox winds the worker down: until it exits it can always move, and every move brings it nearer. So
      the join returns. */
  lemma WorkerWindsDown(s: Session, step: Step)
    requires Inv(s) && s.closed
    ensures !s.worker.Exited? ==> Enabled(s, NextStep(s.worker)) && WorkerStep(NextStep(s.worker))
    ensures WorkerStep(step) && Enabled(s, step) ==>
              WorkLeft(Do(s, step).worker) < WorkLeft(s.worker) && Do(s, step).closed
    ensures s.worker.Exited? && s.reader.Closing? ==> Enabled(s, Join)
  {
    hide WireOk, OrderOk, OnceOk, NotLost;
  }

  /** After the join nothing moves and nothing more is written. */
  lemma JoinedIsFinal(s: Session, step: Step)
    requires Inv(s) && s.reader.Joined?
    ensures !Enabled(s, step)
  {
    hide WireOk, OrderOk, OnceOk, NotLost;
  }
}
