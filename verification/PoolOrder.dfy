/** What every interleaving of the worker pool keeps: who holds which group, and
    how far the handler calls of each user have come. */
module PoolOrder {
  import opened Messages
  import opened WorkerPool

  // ----- shape: workers stand inside the group they hold

  ghost predicate StageFits(m: Message, p: Worker)
    requires p.Busy?
  {
    match p.stage
    case Enter => true
    case Entered => true
    case AtItem(j) => j <= |m.items| && p.conversation == ConversationOf(m)
    case Ready(j) => j < |m.items| && p.conversation == ConversationOf(m)
    case Running(j) => j < |m.items| && p.conversation == ConversationOf(m)
  }

  ghost predicate WorkerShape(b: Batch, s: State, p: Worker) {
    match p
    case Idle => true
    case Exited => s.closed || s.cause.Some?
    case Failing(g, err) => g < s.sent && !err.ParentCause? && (err.Cancelled? ==> s.cause.Some?)
    case Busy(g, k, stage, _) =>
      && g < s.sent <= |b.groups| && k <= |b.groups[g]|
      && (stage.Enter? || (k < |b.groups[g]| && StageFits(b.groups[g][k], p)))
  }

  ghost predicate Shape(b: Batch, s: State) {
    && |s.workers| == |s.late| == WorkerCount(b)
    && s.sent <= |b.groups|
    && (s.closed ==> s.sent == |b.groups| || s.cause.Some?)
    && (forall w :: 0 <= w < |s.workers| ==> WorkerShape(b, s, s.workers[w]))
    && (s.cause.Some? ==> !s.cause.value.Cancelled?)
    && (s.result.Some? ==> s.closed && AllExited(s.workers) && s.result.value == s.cause)
  }

  /** The worker an action moves, if it moves one. */
  function Moved(a: Action): Option<nat> {
    match a
    case CloseJobs => None
    case ParentCancel => None
    case Return => None
    case Reply(_, _) => None
    case Outside(_) => None
    case _ => Some(a.w)
  }

  /** An action moves at most one worker; the rest of the control state only grows. */
  lemma StepFrame(b: Batch, s: State, a: Action)
    requires Enabled(b, s, a)
    ensures var s' := Step(b, s, a);
            && |s'.workers| == |s.workers| && |s'.late| == |s.late|
            && s.sent <= s'.sent <= s.sent + 1
            && (s.closed ==> s'.closed)
            && (s.cause.Some? ==> s'.cause == s.cause)
            && (Moved(a).None? ==> s'.workers == s.workers && s'.sent == s.sent)
            && (Moved(a).Some? ==> Moved(a).value < |s.workers|
                                   && s'.workers == s.workers[Moved(a).value := s'.workers[Moved(a).value]])
  {}

  lemma MovedShape(b: Batch, s: State, a: Action)
    requires Shape(b, s) && Enabled(b, s, a) && Moved(a).Some?
    ensures var s' := Step(b, s, a); Moved(a).value < |s'.workers| && WorkerShape(b, s', s'.workers[Moved(a).value])
  {
    assert WorkerShape(b, s, s.workers[Moved(a).value]);
  }

  lemma ShapeStep(b: Batch, s: State, a: Action)
    requires Shape(b, s) && Enabled(b, s, a)
    ensures Shape(b, Step(b, s, a))
  {
    var s' := Step(b, s, a);
    StepFrame(b, s, a);
    if Moved(a).Some? {
      MovedShape(b, s, a);
    }
    forall w | 0 <= w < |s'.workers| && Moved(a) != Some(w)
      ensures WorkerShape(b, s', s'.workers[w])
    {
      UnmovedShape(b, s, a, w);
    }
    if a.Cancel? {
      assert WorkerShape(b, s, s.workers[a.w]);
    }
  }

  lemma UnmovedShape(b: Batch, s: State, a: Action, w: nat)
    requires Shape(b, s) && Enabled(b, s, a) && w < |s.workers| && Moved(a) != Some(w)
    ensures var s' := Step(b, s, a); w < |s'.workers| && WorkerShape(b, s', s'.workers[w])
  {
    StepFrame(b, s, a);
    assert WorkerShape(b, s, s.workers[w]);
  }

  ghost predicate Unheld(s: State, g: nat) {
    forall w :: 0 <= w < |s.workers| ==> !Holds(s.workers[w], g)
  }

  // ----- exclusion: no two workers hold the same group

  ghost predicate Exclusive(s: State) {
    forall v, w, g :: 0 <= v < w < |s.workers| && Holds(s.workers[v], g) ==> !Holds(s.workers[w], g)
  }

  /** A worker holds no new group, except the next unsent one when it receives it. */
  lemma MovedHolds(b: Batch, s: State, a: Action, g: nat)
    requires Shape(b, s) && Enabled(b, s, a) && Moved(a).Some?
    requires Holds(Step(b, s, a).workers[Moved(a).value], g)
    ensures Holds(s.workers[Moved(a).value], g) || (a.Send? && g == s.sent)
  {}

  lemma UnsentIsUnheld(b: Batch, s: State)
    requires Shape(b, s)
    ensures Unheld(s, s.sent)
  {
    forall w | 0 <= w < |s.workers| ensures !Holds(s.workers[w], s.sent) {
      assert WorkerShape(b, s, s.workers[w]);
    }
  }

  lemma ExclusiveStep(b: Batch, s: State, a: Action)
    requires Shape(b, s) && Exclusive(s) && Enabled(b, s, a)
    ensures Exclusive(Step(b, s, a))
  {
    var s' := Step(b, s, a);
    StepFrame(b, s, a);
    UnsentIsUnheld(b, s);
    if Moved(a).Some? {
      var m := Moved(a).value;
      forall w, g | 0 <= w < |s.workers| && w != m && Holds(s.workers[w], g)
        ensures !Holds(s'.workers[m], g)
      {
        if Holds(s'.workers[m], g) { MovedHolds(b, s, a, g); }
      }
    }
  }

  // ----- order: the calls of each user so far

  /** The calls of its group that a busy worker has started. */
  function StartedBy(b: Batch, p: Worker): seq<Call>
    requires p.Busy? && p.g < |b.groups| && p.k <= |b.groups[p.g]|
  {
    var before := Flat(b.groups[p.g][..p.k]);
    if p.k == |b.groups[p.g]| then before
    else
      var calls := CallsOf(MessageOf(b, p));
      match p.stage
      case Enter => before
      case Entered => before
      case AtItem(j) => if j <= |calls| then before + calls[..j] else before
      case Ready(j) => if j <= |calls| then before + calls[..j] else before
      case Running(j) => if j < |calls| then before + calls[..j + 1] else before
  }

  /** Those of them that have returned nil. */
  function ReturnedBy(b: Batch, p: Worker): seq<Call>
    requires p.Busy? && p.g < |b.groups| && p.k <= |b.groups[p.g]|
  {
    if p.stage.Running? then StartedBy(b, p.(stage := Ready(p.stage.j))) else StartedBy(b, p)
  }

  ghost predicate GroupOrder(b: Batch, s: State, g: nat)
    requires g < |b.groups| && g < |b.users|
  {
    var started, returned := Of(s.started, b.users[g]), Of(s.returned, b.users[g]);
    && (g >= s.sent ==> started == [])
    && returned <= started <= Flat(b.groups[g])
    && |started| <= |returned| + 1
    && (g < s.sent && s.cause.None? && Unheld(s, g) ==> returned == Flat(b.groups[g]))
  }

  ghost predicate WorkerOrder(b: Batch, s: State, p: Worker) {
    p.Busy? && p.g < |b.groups| && p.g < |b.users| && p.k <= |b.groups[p.g]| ==>
      && Of(s.started, b.users[p.g]) == StartedBy(b, p)
      && Of(s.returned, b.users[p.g]) == ReturnedBy(b, p)
  }

  ghost predicate Order(b: Batch, s: State) {
    && |b.users| == |b.groups|
    && (forall g :: 0 <= g < |b.groups| ==> GroupOrder(b, s, g))
    && (forall w :: 0 <= w < |s.workers| ==> WorkerOrder(b, s, s.workers[w]))
    && (forall u :: u !in b.users ==> Of(s.started, u) == [] && Of(s.returned, u) == [])
  }

  /** What a busy worker has started is an initial part of its group's calls. */
  lemma StartedIsPrefix(b: Batch, p: Worker)
    requires p.Busy? && p.g < |b.groups| && p.k <= |b.groups[p.g]|
    ensures StartedBy(b, p) <= Flat(b.groups[p.g])
  {
    var group := b.groups[p.g];
    FlatPrefix(group, p.k);
    if p.k < |group| {
      FlatPrefix(group, p.k + 1);
      assert group[..p.k + 1] == group[..p.k] + [group[p.k]];
      FlatAppend(group[..p.k], group[p.k]);
    }
  }

  /** Changing one worker without handler calls keeps the order, if that worker
      gives up its group only when complete or after a cancellation. */
  lemma QuietOrder(b: Batch, s: State, s': State, w: nat)
    requires Order(b, s) && w < |s.workers| && |s'.workers| == |s.workers|
    requires s'.workers == s.workers[w := s'.workers[w]]
    requires s'.started == s.started && s'.returned == s.returned
    requires s.sent <= s'.sent && (s.cause.Some? ==> s'.cause.Some?)
    requires forall g :: s.sent <= g < s'.sent ==> Holds(s'.workers[w], g)
    requires KeepsAccount(b, s, s', w)
    ensures Order(b, s')
  {
    forall g | 0 <= g < |b.groups|
      ensures GroupOrder(b, s', g)
    {
      assert GroupOrder(b, s, g);
      if g < s'.sent && s'.cause.None? && Unheld(s', g) {
        assert !Holds(s'.workers[w], g);
        forall v | 0 <= v < |s.workers| && v != w
          ensures !Holds(s.workers[v], g)
        {
          assert s'.workers[v] == s.workers[v];
        }
      }
    }
    forall v | 0 <= v < |s'.workers|
      ensures WorkerOrder(b, s', s'.workers[v])
    {
      assert WorkerOrder(b, s, s.workers[v]);
    }
  }

  /** The moved worker's account still fits its calls, and if it lets go of a
      group, then with all calls returned or after a cancellation. */
  ghost predicate KeepsAccount(b: Batch, s: State, s': State, w: nat) {
    && |b.users| == |b.groups| && w < |s.workers| && w < |s'.workers|
    && WorkerOrder(b, s', s'.workers[w])
    && forall g :: 0 <= g < |b.groups| && Holds(s.workers[w], g) && !Holds(s'.workers[w], g) ==>
                     s'.cause.Some? || Of(s.returned, b.users[g]) == Flat(b.groups[g])
  }

  lemma SendMove(b: Batch, s: State, w: nat)
    requires WellFormedBatch(b) && Shape(b, s) && Order(b, s) && Enabled(b, s, Send(w))
    ensures KeepsAccount(b, s, Step(b, s, Send(w)), w)
  {
    assert GroupOrder(b, s, s.sent);
  }

  lemma NextGroupMove(b: Batch, s: State, w: nat)
    requires WellFormedBatch(b) && Shape(b, s) && Order(b, s) && Enabled(b, s, NextGroup(w))
    ensures KeepsAccount(b, s, Step(b, s, NextGroup(w)), w)
  {
    var p := s.workers[w];
    assert WorkerShape(b, s, p) && WorkerOrder(b, s, p);
    assert b.groups[p.g][..p.k] == b.groups[p.g];
  }

  lemma PrepareMove(b: Batch, s: State, w: nat, encodes: bool)
    requires WellFormedBatch(b) && Shape(b, s) && Order(b, s) && Enabled(b, s, Prepare(w, encodes))
    ensures KeepsAccount(b, s, Step(b, s, Prepare(w, encodes)), w)
  {
    var p := s.workers[w];
    assert WorkerOrder(b, s, p);
    assert CallsOf(MessageOf(b, p))[..0] == [];
  }

  /** The check before an item changes no account, nor does its message's end. */
  lemma ItemAccount(b: Batch, p: Worker)
    requires OnMessage(b, p) && p.stage.AtItem? && p.stage.j <= |MessageOf(b, p).items|
    ensures var ready := p.(stage := Ready(p.stage.j));
            StartedBy(b, ready) == StartedBy(b, p) == ReturnedBy(b, p) == ReturnedBy(b, ready)
    ensures p.stage.j == |MessageOf(b, p).items| ==>
              var next := Busy(p.g, p.k + 1, Enter, None);
              StartedBy(b, next) == StartedBy(b, p) == ReturnedBy(b, next)
  {
    MessageDone(b.groups[p.g], p.k);
  }

  lemma CheckItemMove(b: Batch, s: State, w: nat)
    requires WellFormedBatch(b) && Shape(b, s) && Order(b, s) && Enabled(b, s, CheckItem(w))
    ensures KeepsAccount(b, s, Step(b, s, CheckItem(w)), w)
  {
    assert WorkerShape(b, s, s.workers[w]) && WorkerOrder(b, s, s.workers[w]);
    ItemAccount(b, s.workers[w]);
  }

  /** The calls up to the end of a message are those of the messages up to it. */
  lemma MessageDone(group: seq<Message>, k: nat)
    requires k < |group|
    ensures var calls := CallsOf(group[k]);
            Flat(group[..k + 1]) == Flat(group[..k]) + calls == Flat(group[..k]) + calls[..|group[k].items|]
  {
    assert CallsOf(group[k])[..|group[k].items|] == CallsOf(group[k]);
    assert group[..k + 1] == group[..k] + [group[k]];
    FlatAppend(group[..k], group[k]);
  }

  /** Moves that involve no handler call change no worker's account of its calls. */
  lemma QuietMove(b: Batch, s: State, a: Action)
    requires WellFormedBatch(b) && Shape(b, s) && Order(b, s) && Enabled(b, s, a)
    requires Moved(a).Some? && !a.Invoke? && !a.HandlerReturns?
    ensures KeepsAccount(b, s, Step(b, s, a), Moved(a).value)
  {
    match a
    case Send(w) => SendMove(b, s, w);
    case NextGroup(w) => NextGroupMove(b, s, w);
    case Prepare(w, encodes) => PrepareMove(b, s, w, encodes);
    case CheckItem(w) => CheckItemMove(b, s, w);
    case CheckMessage(w) => assert WorkerOrder(b, s, s.workers[w]);
    case _ =>
  }

  ghost predicate OthersUnchanged(s: State, s': State, user: string) {
    forall u :: u != user ==> (Of(s'.started, u) == Of(s.started, u) && Of(s'.returned, u) == Of(s.returned, u))
  }

  /** One worker has moved inside its group, and only its user's log has grown. */
  ghost predicate OneCall(b: Batch, s: State, s': State, w: nat) {
    && w < |s.workers| == |s'.workers| && s'.workers == s.workers[w := s'.workers[w]]
    && s.workers[w].Busy? && s.workers[w].g < |b.groups| && Holds(s'.workers[w], s.workers[w].g)
    && s'.sent == s.sent && s'.cause == s.cause
    && |b.users| == |b.groups| && OthersUnchanged(s, s', b.users[s.workers[w].g])
  }

  lemma OtherGroup(b: Batch, s: State, s': State, w: nat, g: nat)
    requires WellFormedBatch(b) && OneCall(b, s, s', w)
    requires g < |b.groups| && g != s.workers[w].g && GroupOrder(b, s, g)
    ensures GroupOrder(b, s', g)
  {
    assert b.users[g] != b.users[s.workers[w].g];
    if Unheld(s', g) {
      forall v | 0 <= v < |s.workers|
        ensures !Holds(s.workers[v], g)
      {
        assert v != w ==> s'.workers[v] == s.workers[v];
      }
    }
  }

  lemma OtherWorker(b: Batch, s: State, s': State, w: nat, v: nat)
    requires WellFormedBatch(b) && Shape(b, s) && Exclusive(s) && OneCall(b, s, s', w)
    requires v < |s.workers| && v != w && WorkerOrder(b, s, s.workers[v])
    ensures WorkerOrder(b, s', s'.workers[v])
  {
    if s.workers[v].Busy? {
      var mine, other := s.workers[w].g, s.workers[v].g;
      assert Holds(s.workers[v], other) && Holds(s.workers[w], mine);
      assert other != mine;
      assert WorkerShape(b, s, s.workers[v]);
      assert b.users[other] != b.users[mine];
    }
  }

  /** A call of one user leaves the account of every other user as it was. */
  lemma CallOrder(b: Batch, s: State, s': State, w: nat)
    requires WellFormedBatch(b) && Shape(b, s) && Exclusive(s) && Order(b, s) && OneCall(b, s, s', w)
    requires WorkerOrder(b, s', s'.workers[w]) && GroupOrder(b, s', s.workers[w].g)
    ensures Order(b, s')
  {
    var mine := s.workers[w].g;
    forall g | 0 <= g < |b.groups|
      ensures GroupOrder(b, s', g)
    {
      assert GroupOrder(b, s, g);
      if g != mine {
        OtherGroup(b, s, s', w, g);
      }
    }
    forall v | 0 <= v < |s'.workers|
      ensures WorkerOrder(b, s', s'.workers[v])
    {
      assert WorkerOrder(b, s, s.workers[v]);
      if v != w {
        OtherWorker(b, s, s', w, v);
      }
    }
    assert b.users[mine] in b.users;
  }

  /** Starting a handler appends exactly the next call of the worker's group. */
  lemma InvokeAppends(b: Batch, s: State, w: nat)
    requires WellFormedBatch(b) && Shape(b, s) && Order(b, s) && Enabled(b, s, Invoke(w))
    ensures var p, s' := s.workers[w], Step(b, s, Invoke(w));
            && p.g < s.sent <= |b.groups|
            && StartedBy(b, s'.workers[w]) == StartedBy(b, p) + [Call(MessageOf(b, p), p.stage.j)]
            && ReturnedBy(b, s'.workers[w]) == ReturnedBy(b, p) == StartedBy(b, p)
            && StartedBy(b, s'.workers[w]) <= Flat(b.groups[p.g])
            && MessageOf(b, p).fromUser == b.users[p.g]
  {
    var p, s' := s.workers[w], Step(b, s, Invoke(w));
    assert WorkerShape(b, s, p);
    var calls := CallsOf(MessageOf(b, p));
    assert calls[..p.stage.j + 1] == calls[..p.stage.j] + [Call(MessageOf(b, p), p.stage.j)];
    StartedIsPrefix(b, s'.workers[w]);
  }

  lemma InvokeOrder(b: Batch, s: State, w: nat)
    requires WellFormedBatch(b) && Shape(b, s) && Exclusive(s) && Order(b, s) && Enabled(b, s, Invoke(w))
    ensures Order(b, Step(b, s, Invoke(w)))
  {
    var p, s' := s.workers[w], Step(b, s, Invoke(w));
    InvokeAppends(b, s, w);
    assert WorkerOrder(b, s, p);
    var call := Call(MessageOf(b, p), p.stage.j);
    forall u: string
      ensures Of(s'.started, u) == Of(s.started, u) + if u == b.users[p.g] then [call] else []
    {
      OfAppend(s.started, call, u);
    }
    assert GroupOrder(b, s', p.g) by {
      assert Holds(s'.workers[w], p.g);
    }
    CallOrder(b, s, s', w);
  }

  /** A handler that returns nil has its call counted as returned. */
  lemma ReturnAppends(b: Batch, s: State, w: nat)
    requires WellFormedBatch(b) && Shape(b, s) && Order(b, s) && Enabled(b, s, HandlerReturns(w, true))
    ensures var p, s' := s.workers[w], Step(b, s, HandlerReturns(w, true));
            && p.g < s.sent <= |b.groups|
            && ReturnedBy(b, s'.workers[w]) == ReturnedBy(b, p) + [Call(MessageOf(b, p), p.stage.j)]
            && StartedBy(b, s'.workers[w]) == StartedBy(b, p) == ReturnedBy(b, s'.workers[w])
            && MessageOf(b, p).fromUser == b.users[p.g]
  {
    var p := s.workers[w];
    assert WorkerShape(b, s, p);
    var before, calls, j := Flat(b.groups[p.g][..p.k]), CallsOf(MessageOf(b, p)), p.stage.j;
    assert calls[..j + 1] == calls[..j] + [Call(MessageOf(b, p), j)];
    assert ReturnedBy(b, p) == before + calls[..j];
    assert before + calls[..j + 1] == before + calls[..j] + [Call(MessageOf(b, p), j)];
  }

  lemma ReturnOrder(b: Batch, s: State, w: nat)
    requires WellFormedBatch(b) && Shape(b, s) && Exclusive(s) && Order(b, s) && Enabled(b, s, HandlerReturns(w, true))
    ensures Order(b, Step(b, s, HandlerReturns(w, true)))
  {
    var p, s' := s.workers[w], Step(b, s, HandlerReturns(w, true));
    ReturnAppends(b, s, w);
    assert WorkerOrder(b, s, p) && GroupOrder(b, s, p.g);
    var call := Call(MessageOf(b, p), p.stage.j);
    forall u: string
      ensures Of(s'.returned, u) == Of(s.returned, u) + if u == b.users[p.g] then [call] else []
    {
      OfAppend(s.returned, call, u);
    }
    assert GroupOrder(b, s', p.g) by {
      assert Holds(s'.workers[w], p.g);
    }
    CallOrder(b, s, s', w);
  }

  /** A handler that fails leaves the account as it was: its group stays held. */
  lemma FailOrder(b: Batch, s: State, w: nat)
    requires WellFormedBatch(b) && Shape(b, s) && Order(b, s) && Enabled(b, s, HandlerReturns(w, false))
    ensures Order(b, Step(b, s, HandlerReturns(w, false)))
  {
    QuietOrder(b, s, Step(b, s, HandlerReturns(w, false)), w);
  }

  lemma OrderStep(b: Batch, s: State, a: Action)
    requires WellFormedBatch(b) && Shape(b, s) && Exclusive(s) && Order(b, s) && Enabled(b, s, a)
    ensures Order(b, Step(b, s, a))
  {
    if a.Invoke? {
      InvokeOrder(b, s, a.w);
    } else if a.HandlerReturns? {
      if a.ok { ReturnOrder(b, s, a.w); } else { FailOrder(b, s, a.w); }
    } else if Moved(a).Some? {
      StepFrame(b, s, a);
      QuietMove(b, s, a);
      QuietOrder(b, s, Step(b, s, a), Moved(a).value);
    } else {
      UnmovedOrder(b, s, Step(b, s, a));
    }
  }

  lemma UnmovedOrder(b: Batch, s: State, s': State)
    requires Order(b, s)
    requires s'.workers == s.workers && s'.sent == s.sent && (s.cause.Some? ==> s'.cause.Some?)
    requires s'.started == s.started && s'.returned == s.returned
    ensures Order(b, s')
  {
    forall g | 0 <= g < |b.groups| ensures GroupOrder(b, s', g) {
      assert GroupOrder(b, s, g);
    }
    forall w | 0 <= w < |s.workers| ensures WorkerOrder(b, s', s'.workers[w]) {
      assert WorkerOrder(b, s, s.workers[w]);
    }
  }
}
