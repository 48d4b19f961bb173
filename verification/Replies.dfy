/** Which thread answers which query: over every run of a connection, the reader answers exactly what it rejected, and
    the worker only what was accepted. */
module Replies {
  import opened Bytes
  import opened Session

  // ---- every answer has its question ---------------------------------------------------------

  /** Everything on its way, and everything written, was read off the wire, and how it was judged decides who has it. */
  predicate Traced(s: Session, steps: seq<Step>) {
    && (s.reader.Raised? ==> ReadQuery(s.reader.gen, s.reader.rejected) in steps)
    && (s.pending.Some? ==> ReadQuery(s.pending.value, false) in steps)
    && (InHand(s.worker).Some? ==> ReadQuery(InHand(s.worker).value, false) in steps)
    && (forall i :: 0 <= i < |s.wire| ==> ReadQuery(s.wire[i].gen, s.wire[i].Inline?) in steps)
  }

  /** Generations are read in increasing order, none twice. */
  predicate ReadOnce(s: Session, steps: seq<Step>) {
    && (forall i :: 0 <= i < |steps| && steps[i].ReadQuery? ==> steps[i].gen <= s.lastGen)
    && forall i, j :: 0 <= i < j < |steps| && steps[i].ReadQuery? && steps[j].ReadQuery? ==> steps[i].gen < steps[j].gen
  }

  lemma TracedStep(s: Session, steps: seq<Step>, step: Step)
    requires Traced(s, steps) && ReadOnce(s, steps) && Enabled(s, step)
    ensures Traced(Do(s, step), steps + [step]) && ReadOnce(Do(s, step), steps + [step])
  {
    var more := steps + [step];
    assert forall x :: x in steps ==> x in more;
    assert step in more;
  }

  lemma {:induction false} RunIsTraced(steps: seq<Step>)
    requires Run(Init(), steps).Some?
    ensures Traced(Run(Init(), steps).value, steps) && ReadOnce(Run(Init(), steps).value, steps)
  {
    hide Enabled, Do;
    if steps != [] {
      var n := |steps| - 1;
      RunIsTraced(steps[..n]);
      TracedStep(Run(Init(), steps[..n]).value, steps[..n], steps[n]);
      assert steps[..n] + [steps[n]] == steps;
    }
  }

  /** In every run, an inline batch answers a query the reader rejected and a worker's batch one it accepted; so no
      accepted query is ever answered with the empty inline batch, and no rejected one reaches the worker. */
  lemma AnswersFollowQueries(steps: seq<Step>, b: Batch)
    requires Run(Init(), steps).Some? && b in Run(Init(), steps).value.wire
    ensures ReadQuery(b.gen, b.Inline?) in steps && ReadQuery(b.gen, !b.Inline?) !in steps
  {
    hide Run;
    RunIsTraced(steps);
    var s := Run(Init(), steps).value;
    var k :| 0 <= k < |s.wire| && s.wire[k] == b;
    var i :| 0 <= i < |steps| && steps[i] == ReadQuery(b.gen, b.Inline?);
    if j :| 0 <= j < |steps| && steps[j] == ReadQuery(b.gen, !b.Inline?) {
      assert i != j;
      assert i < j ==> steps[i].gen < steps[j].gen;
      assert j < i ==> steps[j].gen < steps[i].gen;
    }
  }

  // ---- an accepted query can be answered ----------------------------------------------------

  /** What is in hand is stale, or past its final check: one step frees the worker for the next query. */
  lemma FreeWorker(s: Session, gen: nat, steps: seq<Step>, from: Session) returns (s': Session, steps': seq<Step>)
    requires Run(from, steps) == Some(s) && s.pending == Some(gen) && s.latest == gen && !s.worker.Exited? && !s.closed
    requires InHand(s.worker).Some? ==> InHand(s.worker).value < gen
    ensures Run(from, steps') == Some(s') && steps <= steps'
    ensures forall i :: |steps| <= i < |steps'| ==> WorkerStep(steps'[i])
    ensures s'.worker.Waiting? && s'.pending == Some(gen) && s'.latest == gen && !s'.closed
    ensures s.wire <= s'.wire
    ensures forall i :: |s.wire| <= i < |s'.wire| ==> s'.wire[i].FromWorker? && s'.wire[i].gen < gen
  {
    hide Run;
    if s.worker.Waiting? {
      s', steps' := s, steps;
    } else {
      s', steps' := Take1(from, steps, s, NextStep(s.worker));
    }
  }

  /** A free worker brings the query in the mailbox onto the wire by itself. */
  lemma WorkThrough(s: Session, gen: nat, steps: seq<Step>, from: Session) returns (s': Session, steps': seq<Step>)
    requires Run(from, steps) == Some(s) && s.pending == Some(gen) && s.latest == gen && s.worker.Waiting? && !s.closed
    ensures Run(from, steps') == Some(s') && s'.wire == s.wire + [FromWorker(gen, gen)]
    ensures |steps'| == |steps| + 5 && steps'[..|steps|] == steps
    ensures forall i :: |steps| <= i < |steps'| ==> WorkerStep(steps'[i])
  {
    hide Run;
    s', steps' := Take1(from, steps, s, Take);
    s', steps' := Take1(from, steps', s', SkipOrStart);
    s', steps' := Take1(from, steps', s', CheckAfterMatch);
    s', steps' := Take1(from, steps', s', CheckBeforeWrite);
    s', steps' := Take1(from, steps', s', Write(true));
  }

  /** A query the reader accepts is answered by the worker if nothing comes after it: the two steps that hand it over,
      and then the worker alone, bring it onto the wire, after at most what was in the worker's hands. */
  lemma CarriedThrough(s: Session, gen: nat) returns (steps: seq<Step>)
    requires Inv(s) && s.reader.Reading? && s.lastGen < gen <= U64_MAX && s.latest <= gen
    ensures |steps| > 2 && steps[0] == ReadQuery(gen, false) && steps[1] == Submit
    ensures forall i :: 2 <= i < |steps| ==> WorkerStep(steps[i])
    ensures Run(s, steps).Some?
    ensures var wire := Run(s, steps).value.wire;
            && wire != [] && wire[|wire| - 1] == FromWorker(gen, gen) && s.wire <= wire
            && forall i :: |s.wire| <= i < |wire| - 1 ==> wire[i].FromWorker? && wire[i].gen < gen
  {
    hide Run;
    RunNone(s);
    var m;
    m, steps := Take1(s, [], s, ReadQuery(gen, false));
    m, steps := Take1(s, steps, m, Submit);
    m, steps := FreeWorker(m, gen, steps, s);
    m, steps := WorkThrough(m, gen, steps, s);
  }

  /** The same from the start of the connection, for every generation. */
  lemma EveryGenerationCanBeAnswered(gen: nat) returns (steps: seq<Step>)
    requires gen <= U64_MAX
    ensures |steps| > 2 && steps[0] == ReadQuery(gen, false) && steps[1] == Submit
    ensures forall i :: 2 <= i < |steps| ==> WorkerStep(steps[i])
    ensures Run(Init(), steps).Some? && Run(Init(), steps).value.wire == [FromWorker(gen, gen)]
  {
    hide Run;
    RunNone(Init());
    var m;
    m, steps := Take1(Init(), [], Init(), ReadQuery(gen, false));
    m, steps := Take1(Init(), steps, m, Submit);
    m, steps := WorkThrough(m, gen, steps, Init());
  }

  // ---- and only while the watermark has not passed it --------------------------------------

  /** The watermark has left `gen` behind, and the worker has not written it nor is about to. */
  predicate PassedOver(s: Session, gen: nat) {
    && Stale(s.latest, gen) && s.latest <= U64_MAX && !(s.worker.Cleared? && s.worker.gen == gen)
    && forall i :: 0 <= i < |s.wire| ==> !(s.wire[i].FromWorker? && s.wire[i].gen == gen)
  }

  lemma PassedOverStep(s: Session, gen: nat, step: Step)
    requires PassedOver(s, gen) && Enabled(s, step)
    ensures PassedOver(Do(s, step), gen)
  {
  }

  lemma {:induction false} PassedOverRun(s: Session, gen: nat, steps: seq<Step>)
    requires PassedOver(s, gen) && Run(s, steps).Some?
    ensures PassedOver(Run(s, steps).value, gen)
  {
    hide Enabled, Do, PassedOver;
    if steps != [] {
      var n := |steps| - 1;
      PassedOverRun(s, gen, steps[..n]);
      PassedOverStep(Run(s, steps[..n]).value, gen, steps[n]);
    }
  }

  /** A query read when the watermark has already passed it, by a cancel of a later generation, is never answered by
      the worker, whatever the run. */
  lemma NeverAnswered(s: Session, gen: nat, steps: seq<Step>)
    requires Inv(s) && Enabled(s, ReadQuery(gen, false)) && s.latest > gen
    requires Run(Do(s, ReadQuery(gen, false)), steps).Some?
    ensures forall b :: b in Run(Do(s, ReadQuery(gen, false)), steps).value.wire ==> !(b.FromWorker? && b.gen == gen)
  {
    hide Run, WireOk, OnceOk, NotLost, WireBelow;
    PassedOverRun(Do(s, ReadQuery(gen, false)), gen, steps);
  }

  /** A generation the watermark has left behind is dropped at the worker's next check, wherever in its work that is:
      before the search, after it, or before the write. Only a batch already past the last check is still written. */
  lemma StaleIsDropped(s: Session, step: Step)
    requires InHand(s.worker).Some? && Stale(s.latest, InHand(s.worker).value) && !s.worker.Cleared?
    requires WorkerStep(step) && Enabled(s, step)
    ensures Do(s, step).worker.Waiting? && Do(s, step).wire == s.wire
  {
  }

  predicate ReaderStep(step: Step) {
    step.ReadQuery? || step.AnswerInline? || step.Submit? || step.ReadCancel? || step.Leave?
  }

  predicate Gone(s: Session) {
    s.reader.Leaving? || s.reader.Closing? || s.reader.Joined?
  }

  /** A failed inline send makes the reader leave, and a reader that has left reads, answers and hands
      over nothing more. */
  lemma {:induction false} LeavingIsFinal(s: Session, steps: seq<Step>)
    requires Run(s, steps).Some?
    ensures Enabled(s, AnswerInline(false)) ==> Gone(Do(s, AnswerInline(false)))
    ensures Gone(s) ==> Gone(Run(s, steps).value) && forall i :: 0 <= i < |steps| ==> !ReaderStep(steps[i])
  {
    hide ReaderStep;
    FailedSendLeaves(s);
    if steps != [] {
      hide Enabled, Do, Gone;
      var n := |steps| - 1;
      LeavingIsFinal(s, steps[..n]);
      if Gone(s) {
        GoneStep(Run(s, steps[..n]).value, steps[n]);
      }
      assert forall i :: 0 <= i < n ==> steps[i] == steps[..n][i];
    }
  }

  lemma FailedSendLeaves(s: Session)
    ensures Enabled(s, AnswerInline(false)) ==> Gone(Do(s, AnswerInline(false)))
  {
  }

  lemma GoneStep(s: Session, step: Step)
    requires Gone(s) && Enabled(s, step)
    ensures Gone(Do(s, step)) && !ReaderStep(step)
  {
  }

  /** A rejected query is answered inline, at once and without the worker. */
  lemma RejectedIsAnsweredInline(s: Session, gen: nat)
    requires s.reader.Reading? && s.lastGen < gen <= U64_MAX
    ensures Run(s, [ReadQuery(gen, true), AnswerInline(true)]).Some?
    ensures var after := Run(s, [ReadQuery(gen, true), AnswerInline(true)]).value;
            after.wire == s.wire + [Inline(gen)] && after.reader.Reading? && after.worker == s.worker
            && after.pending == s.pending
  {
    hide Run;
    RunNone(s);
    var m, steps := Take1(s, [], s, ReadQuery(gen, true));
    m, steps := Take1(s, steps, m, AnswerInline(true));
    assert steps == [ReadQuery(gen, true), AnswerInline(true)];
  }
}
