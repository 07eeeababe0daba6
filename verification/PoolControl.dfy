/** Cancellation, failures, deadlock freedom and termination of the worker pool. */
module PoolControl {
  import opened Messages
  import opened WorkerPool
  import opened PoolOrder

  // ----- after the first cancellation

  /** A worker that started a handler after the cancellation is not about to start another. */
  ghost predicate LateOnce(s: State) {
    && |s.late| == |s.workers|
    && forall w :: 0 <= w < |s.late| ==>
                     && s.late[w] <= 1
                     && (s.late[w] == 1 ==> s.cause.Some? && !(s.workers[w].Busy? && s.workers[w].stage.Ready?))
  }

  lemma LateStep(b: Batch, s: State, a: Action)
    requires LateOnce(s) && Enabled(b, s, a)
    ensures LateOnce(Step(b, s, a))
  {
    StepFrame(b, s, a);
  }

  // ----- counting the calls in flight

  function InFlight(workers: seq<Worker>): nat {
    if workers == [] then 0
    else
      var p := workers[|workers| - 1];
      InFlight(workers[..|workers| - 1]) + if p.Busy? && p.stage.Running? then 1 else 0
  }

  lemma {:induction false} InFlightUpdate(workers: seq<Worker>, w: nat, p: Worker)
    requires w < |workers|
    ensures InFlight(workers[w := p]) + InFlight([workers[w]]) == InFlight(workers) + InFlight([p])
    decreases |workers|
  {
    var n := |workers| - 1;
    assert forall q: Worker :: [q][..0] == [];
    if w == n {
      assert workers[w := p][..n] == workers[..n];
    } else {
      assert workers[w := p][..n] == workers[..n][w := p];
      InFlightUpdate(workers[..n], w, p);
    }
  }

  lemma {:induction false} InFlightBound(workers: seq<Worker>)
    ensures InFlight(workers) <= |workers|
    decreases |workers|
  {
    if workers != [] {
      InFlightBound(workers[..|workers| - 1]);
    }
  }

  /** Every started call has returned, failed, or is in flight. */
  ghost predicate Accounted(s: State) {
    |s.started| == |s.returned| + |s.failed| + InFlight(s.workers)
  }

  lemma AccountedStep(b: Batch, s: State, a: Action)
    requires Accounted(s) && Enabled(b, s, a)
    ensures Accounted(Step(b, s, a))
  {
    var s' := Step(b, s, a);
    StepFrame(b, s, a);
    if Moved(a).Some? {
      var w := Moved(a).value;
      InFlightUpdate(s.workers, w, s'.workers[w]);
      assert forall q: Worker :: [q][..0] == [];
    }
  }

  // ----- causes

  /** An error a worker or the batch holds has really happened. */
  ghost predicate Justified(s: State, err: Error) {
    match err
    case Cancelled => s.cause.Some?
    case EncodeFailed(m) => m in s.unencoded
    case HandlerFailed(c) => c in s.failed
    case ParentCause => s.parentCancelled
  }

  ghost predicate SomeFailing(workers: seq<Worker>) {
    exists w :: 0 <= w < |workers| && workers[w].Failing? && !workers[w].err.Cancelled?
  }

  ghost predicate Causes(s: State) {
    && (s.cause.Some? ==> Justified(s, s.cause.value))
    && (forall w :: 0 <= w < |s.workers| && s.workers[w].Failing? ==> Justified(s, s.workers[w].err))
    && (s.parentCancelled ==> s.cause.Some?)
    && ((s.failed != [] || s.unencoded != []) ==> s.cause.Some? || SomeFailing(s.workers))
  }

  lemma JustifiedStays(b: Batch, s: State, a: Action, err: Error)
    requires Causes(s) && Enabled(b, s, a) && Justified(s, err)
    ensures Justified(Step(b, s, a), err)
  {}

  lemma FailingStep(b: Batch, s: State, a: Action, w: nat)
    requires Causes(s) && Enabled(b, s, a) && w < |s.workers|
    ensures var s' := Step(b, s, a);
            w < |s'.workers| && (s'.workers[w].Failing? ==> Justified(s', s'.workers[w].err))
  {
    StepFrame(b, s, a);
    if s.workers[w].Failing? {
      JustifiedStays(b, s, a, s.workers[w].err);
    }
  }

  /** A failure is on its way to the cause until it gets there. */
  lemma FailureNoted(b: Batch, s: State, a: Action)
    requires Causes(s) && Enabled(b, s, a)
    ensures var s' := Step(b, s, a);
            s'.failed != [] || s'.unencoded != [] ==> s'.cause.Some? || SomeFailing(s'.workers)
  {
    var s' := Step(b, s, a);
    StepFrame(b, s, a);
    if SomeFailing(s.workers) && s'.cause.None? {
      var v :| 0 <= v < |s.workers| && s.workers[v].Failing? && !s.workers[v].err.Cancelled?;
      assert s'.workers[v] == s.workers[v];
    }
    if a.HandlerReturns? && !a.ok {
      assert s'.workers[a.w].Failing?;
    } else if a.Prepare? && !a.encodes {
      assert s'.workers[a.w].Failing?;
    }
  }

  lemma CauseStep(b: Batch, s: State, a: Action)
    requires Causes(s) && Enabled(b, s, a)
    ensures var s' := Step(b, s, a);
            && (s'.cause.Some? ==> Justified(s', s'.cause.value))
            && (s'.parentCancelled ==> s'.cause.Some?)
  {
    if s.cause.Some? {
      JustifiedStays(b, s, a, s.cause.value);
    } else if a.Cancel? {
      JustifiedStays(b, s, a, s.workers[a.w].err);
    }
  }

  lemma CausesStep(b: Batch, s: State, a: Action)
    requires Causes(s) && Enabled(b, s, a)
    ensures Causes(Step(b, s, a))
  {
    var s' := Step(b, s, a);
    StepFrame(b, s, a);
    CauseStep(b, s, a);
    FailureNoted(b, s, a);
    forall w | 0 <= w < |s'.workers| && s'.workers[w].Failing?
      ensures Justified(s', s'.workers[w].err)
    {
      FailingStep(b, s, a, w);
    }
  }

  // ----- deadlock freedom

  /** The actions of the pool itself, as opposed to those of the application. */
  predicate Scheduled(a: Action) {
    !a.Reply? && !a.Outside? && !a.ParentCancel?
  }

  /** The next action of a worker that holds a group. */
  function NextOf(b: Batch, s: State, w: nat): (a: Action)
    requires s.result.None? && Shape(b, s) && w < |s.workers| && WorkerShape(b, s, s.workers[w])
    requires !s.workers[w].Idle? && !s.workers[w].Exited?
    ensures Scheduled(a) && Enabled(b, s, a)
  {
    var p := s.workers[w];
    if p.Failing? then Cancel(w)
    else
      match p.stage
      case Enter => if p.k < |b.groups[p.g]| then CheckMessage(w) else NextGroup(w)
      case Entered => Prepare(w, true)
      case AtItem(_) => CheckItem(w)
      case Ready(_) => Invoke(w)
      case Running(_) => HandlerReturns(w, true)
  }

  /** Whatever the interleaving so far, the batch can go on until it has returned;
      in particular when every worker has quit and groups remain unsent. */
  lemma DeadlockFree(b: Batch, s: State) returns (a: Action)
    requires WellFormedBatch(b) && Shape(b, s) && s.result.None?
    ensures Scheduled(a) && Enabled(b, s, a)
  {
    if w :| 0 <= w < |s.workers| && !s.workers[w].Idle? && !s.workers[w].Exited? {
      assert WorkerShape(b, s, s.workers[w]);
      a := NextOf(b, s, w);
    } else if !s.closed && s.sent < |b.groups| && s.cause.None? {
      assert |s.workers| > 0 && WorkerShape(b, s, s.workers[0]);
      a := Send(0);
    } else if !s.closed {
      a := CloseJobs;
    } else if w :| 0 <= w < |s.workers| && s.workers[w].Idle? {
      a := Leave(w);
    } else {
      a := Return;
    }
  }

  // ----- termination

  function MessageCost(m: Message): nat {
    3 + 3 * |m.items|
  }

  function GroupCost(group: seq<Message>): nat {
    if group == [] then 0 else MessageCost(group[0]) + GroupCost(group[1..])
  }

  /** Steps left to a worker about to take up message k of its group. */
  function EnterCost(group: seq<Message>, k: nat): nat
    requires k <= |group|
  {
    2 + GroupCost(group[k..])
  }

  lemma EnterCostStep(group: seq<Message>, k: nat)
    requires k < |group|
    ensures EnterCost(group, k) == MessageCost(group[k]) + EnterCost(group, k + 1)
  {
    assert group[k..][1..] == group[k + 1..];
  }

  /** Steps left to a worker. */
  function WorkerCost(b: Batch, p: Worker): nat {
    match p
    case Idle => 1
    case Exited => 0
    case Failing(_, _) => 1
    case Busy(g, k, stage, _) =>
      if g >= |b.groups| || k > |b.groups[g]| then 0
      else if stage.Enter? || k == |b.groups[g]| then EnterCost(b.groups[g], k)
      else
        var next, n := EnterCost(b.groups[g], k + 1), |b.groups[g][k].items|;
        match stage
        case Enter => 0
        case Entered => next + 2 + 3 * n
        case AtItem(j) => if j <= n then next + 1 + 3 * (n - j) else 0
        case Ready(j) => if j < n then next + 3 * (n - j) else 0
        case Running(j) => if j < n then next + 3 * (n - j) - 1 else 0
  }

  function WorkersCost(b: Batch, workers: seq<Worker>): nat {
    if workers == [] then 0
    else WorkersCost(b, workers[..|workers| - 1]) + WorkerCost(b, workers[|workers| - 1])
  }

  /** Steps left to deliver the unsent groups, each to be received and worked off. */
  function UnsentCost(groups: seq<seq<Message>>): nat {
    if groups == [] then 0 else 2 + GroupCost(groups[0]) + UnsentCost(groups[1..])
  }

  function Measure(b: Batch, s: State): nat {
    WorkersCost(b, s.workers)
    + (if s.sent <= |b.groups| then UnsentCost(b.groups[s.sent..]) else 0)
    + (if s.closed then 0 else 1)
    + (if s.result.Some? then 0 else 1)
  }

  lemma {:induction false} WorkersCostUpdate(b: Batch, workers: seq<Worker>, w: nat, p: Worker)
    requires w < |workers|
    ensures WorkersCost(b, workers[w := p]) + WorkerCost(b, workers[w]) == WorkersCost(b, workers) + WorkerCost(b, p)
    decreases |workers|
  {
    var n := |workers| - 1;
    if w == n {
      assert workers[w := p][..n] == workers[..n];
    } else {
      assert workers[w := p][..n] == workers[..n][w := p];
      WorkersCostUpdate(b, workers[..n], w, p);
    }
  }

  ghost predicate Advances(b: Batch, s: State, a: Action)
    requires Enabled(b, s, a) && Moved(a).Some?
  {
    var w := Moved(a).value;
    WorkerCost(b, Step(b, s, a).workers[w]) < WorkerCost(b, s.workers[w])
  }

  lemma CheckAdvances(b: Batch, s: State, w: nat)
    requires Shape(b, s) && Enabled(b, s, CheckMessage(w))
    ensures Advances(b, s, CheckMessage(w))
  {
    EnterCostStep(b.groups[s.workers[w].g], s.workers[w].k);
  }

  lemma PrepareAdvances(b: Batch, s: State, w: nat, encodes: bool)
    requires Shape(b, s) && Enabled(b, s, Prepare(w, encodes))
    ensures Advances(b, s, Prepare(w, encodes))
  {}

  lemma ItemAdvances(b: Batch, s: State, w: nat)
    requires Shape(b, s) && Enabled(b, s, CheckItem(w))
    ensures Advances(b, s, CheckItem(w))
  {
    assert WorkerShape(b, s, s.workers[w]);
  }

  lemma CallAdvances(b: Batch, s: State, a: Action)
    requires Shape(b, s) && Enabled(b, s, a) && (a.Invoke? || a.HandlerReturns?)
    ensures Advances(b, s, a)
  {
    assert WorkerShape(b, s, s.workers[a.w]);
  }

  /** Every action that moves a worker, other than a hand-over, shortens its way. */
  lemma WorkerAdvances(b: Batch, s: State, a: Action)
    requires Shape(b, s) && Enabled(b, s, a) && Moved(a).Some? && !a.Send?
    ensures Advances(b, s, a)
  {
    if a.CheckMessage? {
      CheckAdvances(b, s, a.w);
    } else if a.Prepare? {
      PrepareAdvances(b, s, a.w, a.encodes);
    } else if a.CheckItem? {
      ItemAdvances(b, s, a.w);
    } else if a.Invoke? || a.HandlerReturns? {
      CallAdvances(b, s, a);
    } else {
      assert WorkerShape(b, s, s.workers[a.w]);
    }
  }

  lemma SendAdvances(b: Batch, s: State, w: nat)
    requires Shape(b, s) && Enabled(b, s, Send(w))
    ensures Measure(b, Step(b, s, Send(w))) < Measure(b, s)
  {
    WorkersCostUpdate(b, s.workers, w, Busy(s.sent, 0, Enter, None));
    assert b.groups[s.sent..][1..] == b.groups[s.sent + 1..];
    assert b.groups[s.sent][0..] == b.groups[s.sent];
  }

  lemma MoveTerminates(b: Batch, s: State, a: Action)
    requires Shape(b, s) && Enabled(b, s, a) && Moved(a).Some? && !a.Send?
    ensures Measure(b, Step(b, s, a)) < Measure(b, s)
  {
    var w, s' := Moved(a).value, Step(b, s, a);
    StepFrame(b, s, a);
    MoveFrame(b, s, a);
    WorkersCostUpdate(b, s.workers, w, s'.workers[w]);
    WorkerAdvances(b, s, a);
  }

  lemma MoveFrame(b: Batch, s: State, a: Action)
    requires Enabled(b, s, a) && Moved(a).Some? && !a.Send?
    ensures var s' := Step(b, s, a); s'.sent == s.sent && s'.closed == s.closed && s'.result == s.result
  {}

  /** Every action of the pool decreases the measure; no other action changes it. */
  lemma Terminates(b: Batch, s: State, a: Action)
    requires Shape(b, s) && Enabled(b, s, a)
    ensures Scheduled(a) ==> Measure(b, Step(b, s, a)) < Measure(b, s)
    ensures !Scheduled(a) ==> Measure(b, Step(b, s, a)) == Measure(b, s)
  {
    if a.Send? {
      SendAdvances(b, s, a.w);
    } else if Moved(a).Some? {
      MoveTerminates(b, s, a);
    }
  }
}
