/** `processBatch` and `Start` as the client runs them (`listener.go`), against an
    environment that answers, fails, cancels and schedules as it likes. Every
    step taken is a step of the machines of `WorkerPool` and `Listener`. */
module StartLoop {
  import opened Messages
  import opened Hex
  import opened Recency
  import opened Listener
  import opened BatchTheorems
  import opened Backoff
  import Theorems = ListenerTheorems
  import opened Pacing
  import Store = CursorStore
  import Pool = WorkerPool
  import Order = PoolOrder
  import Control = PoolControl
  import Serial = SerialBatch

  /** Some enabled action of the pool, for when the scheduler has no wish. */
  method PickAction(b: Pool.Batch, s: Pool.State) returns (a: Pool.Action)
    requires Pool.WellFormedBatch(b) && Order.Shape(b, s) && s.result.None?
    ensures Control.Scheduled(a) && Pool.Enabled(b, s, a)
  {
    for w := 0 to |s.workers|
      invariant forall v :: 0 <= v < w ==> s.workers[v].Idle? || s.workers[v].Exited?
    {
      if !s.workers[w].Idle? && !s.workers[w].Exited? {
        assert Order.WorkerShape(b, s, s.workers[w]);
        return Control.NextOf(b, s, w);
      }
    }
    if !s.closed && s.sent < |b.groups| && s.cause.None? {
      assert |s.workers| > 0 && Order.WorkerShape(b, s, s.workers[0]);
      return Pool.Send(0);
    }
    if !s.closed {
      return Pool.CloseJobs;
    }
    for w := 0 to |s.workers|
      invariant forall v :: 0 <= v < w ==> s.workers[v].Exited?
    {
      if s.workers[w].Idle? {
        return Pool.Leave(w);
      }
    }
    return Pool.Return;
  }

  /** The parallel branch under an arbitrary scheduler, which may interleave any
      finite number of replies, cache operations and a parent cancellation. */
  method RunPool(b: Pool.Batch, cache: seq<Entry>) returns (end: Pool.State, ghost schedule: seq<Pool.Action>)
    requires Pool.WellFormedBatch(b) && WellFormed(b.capacity, cache)
    ensures Pool.Runs(b, cache, schedule) && end == Pool.After(b, cache, schedule) && end.result.Some?
    ensures WellFormed(b.capacity, end.cache)
  {
    end, schedule := Pool.Init(b, cache), [];
    var events :| 0 <= events;
    while end.result.None?
      invariant Pool.Runs(b, cache, schedule) && end == Pool.After(b, cache, schedule) && events >= 0
      decreases Control.Measure(b, end), events
    {
      InvariantHolds(b, cache, schedule);
      var a: Pool.Action := *;
      if !Pool.Enabled(b, end, a) || (!Control.Scheduled(a) && events == 0) {
        a := PickAction(b, end);
      }
      if !Control.Scheduled(a) {
        events := events - 1;
      }
      Control.Terminates(b, end, a);
      assert (schedule + [a])[..|schedule|] == schedule;
      end, schedule := Pool.Step(b, end, a), schedule + [a];
    }
    InvariantHolds(b, cache, schedule);
  }

  /** The write steps of a save, as steps of the listener machine. */
  function Lift(writes: seq<Store.WriteAction>): seq<Action> {
    if writes == [] then [] else Lift(writes[..|writes| - 1]) + [Write(writes[|writes| - 1])]
  }

  /** The listener state once the given write steps of a save have been taken. */
  function Lifted(s: State, dir: Store.Files, write: Store.WritePc): State
    requires s.pc.Saving?
  {
    s.(files := dir,
       pc := if !write.Finished? then s.pc.(write := write)
             else if write.ok then Head(s.pc.buf, 0, 0) else Down(StorageFailed))
  }

  lemma RunMore(c: Setup, files: Store.Files, actions: seq<Action>, a: Action)
    requires Runs(c, files, actions) && Enabled(c, After(c, files, actions), a)
    ensures Runs(c, files, actions + [a])
    ensures After(c, files, actions + [a]) == Step(c, After(c, files, actions), a)
  {
    assert (actions + [a])[..|actions|] == actions;
  }

  lemma LiftStep(
    c: Setup, s: State, dir: Store.Files, write: Store.WritePc, key: string, data: seq<byte>, a: Store.WriteAction)
    requires s.pc.Saving? && key == Store.Key(c.store, c.account) && data == c.store.encode(s.pc.buf)
    requires Store.WriteEnabled(dir, write, data, a)
    ensures Enabled(c, Lifted(s, dir, write), Write(a))
    ensures var (dir', write') := Store.WriteStep(dir, write, key, data, a);
            Step(c, Lifted(s, dir, write), Write(a)) == Lifted(s, dir', write')
  {}

  /** A save of the store moves the listener through the same directory states. */
  lemma {:induction false} LiftWrites(
    c: Setup, files: Store.Files, actions: seq<Action>, key: string, data: seq<byte>, writes: seq<Store.WriteAction>)
    requires Runs(c, files, actions)
    requires var s := After(c, files, actions);
             && s.pc.Saving? && s.pc.write.Opening?
             && key == Store.Key(c.store, c.account) && data == c.store.encode(s.pc.buf)
             && Store.Writes(s.files, key, data, writes)
    ensures Runs(c, files, actions + Lift(writes))
    ensures var s := After(c, files, actions);
            var (dir, write) := Store.Written(s.files, key, data, writes);
            After(c, files, actions + Lift(writes)) == Lifted(s, dir, write)
    decreases |writes|
  {
    if writes == [] {
      assert actions + Lift(writes) == actions;
    } else {
      var before, last := writes[..|writes| - 1], writes[|writes| - 1];
      LiftWrites(c, files, actions, key, data, before);
      assert actions + Lift(writes) == (actions + Lift(before)) + [Write(last)];
      var s := After(c, files, actions);
      var (dir, write) := Store.Written(s.files, key, data, before);
      LiftStep(c, s, dir, write, key, data, last);
      RunMore(c, files, actions + Lift(before), Write(last));
    }
  }

  /** The user of each group. */
  method NameGroups(messages: seq<Message>, groups: seq<seq<Message>>) returns (names: seq<string>)
    requires IsGrouping(messages, groups)
    ensures names == Users(messages)
  {
    ghost var users := Users(messages);
    names := [];
    for g := 0 to |groups|
      invariant names == users[..g]
    {
      HasGroup(messages, users[g]);
      UsersDistinct(messages);
      ForUserMembers(messages, users[g]);
      assert groups[g][0] in groups[g];
      names := names + [groups[g][0].fromUser];
    }
  }

  /** What an error of the store or a panic of the callback adds to a revocation. */
  datatype Joined = ClearFailed | CallbackPanicked

  /** How a run that is not killed can end. The context is blamed only if it is over,
      and the store only if its directory refused something or the context is over. */
  predicate Ends(outcome: Outcome, over: bool, refused: bool) {
    match outcome
    case TokenRevoked => true
    case BatchFailed => true
    case ContextEnded => over
    case StorageFailed => over || refused
    case _ => false
  }

  /** The checks of the context that a batch makes itself when nothing fails; those of
      the parallel branch are made of the batch's own context. */
  function BatchChecks(c: Setup, msgs: seq<Message>): nat {
    if c.concurrency == 1 then Serial.AllChecks(msgs) else 0
  }

  /** The checks of the context between an answer and the next loop head. */
  function ChecksAfter(c: Setup, cursor: string, r: Response): nat {
    match KindOf(cursor, r)
    case PollFailed => 2                // after the error, and in the wait
    case ExpiredCursor => 2             // in the clearing, and in the wait
    case ExpiredEmpty => 1
    case PollRejected => 1
    case PollAccepted(buf) =>
      BatchChecks(c, r.msgs) + 1 + if buf != "" && buf != cursor then Store.SAVE_CHECKS else 0
  }

  /** One more wait, of a length drawn for so many failures. */
  predicate OneMoreWait(c: Setup, before: seq<int64>, waits: seq<int64>, failures: nat) {
    |waits| == |before| + 1 && before <= waits && DelayAfter(c, failures, waits[|before|])
  }

  class Client {
    const c: Setup
    const capacity: nat
    const storage: Store.FileBufStorage
    /** Whether the application has registered a callback for expired sessions. */
    const hasCallback: bool
    var cache: seq<Entry>
    /** The checks that the context still passes; it is over when none are left. */
    var passes: nat
    /** The timers of the current run that have fired. */
    var waits: seq<int64>
    /** The last random draw. */
    var draw: int64
    /** Calls of the callback so far, and what was joined to a revocation. */
    var calls: nat
    var joined: Option<Joined>

    /** The run so far, as a run of the listener machine. */
    ghost const initial: Store.Files
    ghost var actions: seq<Action>
    ghost var now: State
    /** The actions before the last call of `Start`. */
    ghost var earlier: seq<Action>

    constructor (c: Setup, capacity: nat, storage: Store.FileBufStorage, hasCallback: bool)
      requires WellFormedSetup(c) && capacity >= 1
      requires storage.cfg == c.store && Holds(c, storage.disk.files, "")
      ensures Valid() && now == Init(storage.disk.files)
      ensures this.c == c && this.storage == storage && actions == []
    {
      this.c, this.capacity, this.storage, this.hasCallback := c, capacity, storage, hasCallback;
      cache, passes, waits, draw, calls, joined := [], 0, [], 0, 0, None;
      initial, actions, now, earlier := storage.disk.files, [], Init(storage.disk.files), [];
    }

    ghost predicate Tracks()
      reads this
    {
      && WellFormedSetup(c) && capacity >= 1
      && storage.cfg == c.store
      && Holds(c, initial, "")
      && Runs(c, initial, actions) && now == After(c, initial, actions)
      && earlier <= actions
      && WellFormed(capacity, cache)
    }

    ghost predicate Valid()
      reads this, storage.disk
    {
      Tracks() && storage.disk.files == now.files && waits == now.waits
    }

    ghost method Advance(a: Action)
      requires Tracks() && Enabled(c, now, a)
      modifies this`actions, this`now
      ensures Tracks() && actions == old(actions) + [a] && now == Step(c, old(now), a)
    {
      RunMore(c, initial, actions, a);
      actions, now := actions + [a], Step(c, now, a);
    }

    /** `ctx.Err()` */
    method CtxErr() returns (err: bool)
      modifies this`passes
      ensures err <==> old(passes) == 0
      ensures passes == if err then 0 else old(passes) - 1
    {
      err := passes == 0;
      if !err {
        passes := passes - 1;
      }
    }

    /** `rand.Int64N` */
    method Int64N(n: int64)
      requires n > 0
      modifies this`draw
      ensures 0 <= draw < n
    {
      var r: int64 :| 0 <= r < n;
      draw := r;
    }

    /** `waitContext` on the jittered delay: the timer fires, or the context ends. */
    method WaitContext(failures: nat) returns (err: bool)
      requires WellFormedSetup(c)
      modifies this`passes, this`waits, this`draw
      ensures err <==> old(passes) == 0
      ensures passes == if err then 0 else old(passes) - 1
      ensures if err then waits == old(waits) else OneMoreWait(c, old(waits), waits, failures)
      ensures !err ==>
                var d := Delay(c.backoffInitial as int, c.backoffMax as int, failures);
                d > 1 ==> waits[|old(waits)|] as int == d / 2 + draw as int
    {
      var delay := BackoffBase(c.backoffInitial, c.backoffMax, failures);
      DoubledIsDelay(c.backoffInitial as int, c.backoffMax as int, failures);
      if delay > 1 {
        Int64N(delay - delay / 2 + 1);
      }
      delay := EqualJitter(delay, draw);
      err := CtxErr();
      if !err {
        waits := waits + [delay];
      }
    }

    /** A context check between two steps; when it fails, the run ends. */
    method Check() returns (stopped: bool)
      requires Valid() && Enabled(c, now, Abort)
      modifies this`actions, this`now, this`passes
      ensures Valid()
      ensures stopped <==> old(passes) == 0
      ensures passes == if stopped then 0 else old(passes) - 1
      ensures if stopped then now.pc == Down(ContextEnded) else now == old(now)
    {
      stopped := CtxErr();
      if stopped {
        Advance(Abort);
      }
    }

    /** The back-off between two polls. */
    method BackOff(cursor: string, failures: nat, expiredCount: nat) returns (stopped: bool)
      requires Valid() && now.pc == Waiting(cursor, failures, expiredCount)
      modifies this`actions, this`now, this`passes, this`waits, this`draw
      ensures Valid()
      ensures stopped <==> old(passes) == 0
      ensures passes == if stopped then 0 else old(passes) - 1
      ensures if stopped then waits == old(waits) else OneMoreWait(c, old(waits), waits, failures)
      ensures now.pc == if stopped then Down(ContextEnded) else Head(cursor, failures, expiredCount)
    {
      stopped := WaitContext(failures);
      if stopped {
        Advance(Abort);
      } else {
        Advance(Resume(waits[|waits| - 1]));
      }
    }

    /** `LoadBuf` at the beginning of a run. What the runs before have stored always
        decodes, so it fails only if the directory refuses it or the context is over. */
    method LoadCursor() returns (answer: Store.Answer)
      requires Valid() && now.pc.Down?
      modifies this`actions, this`now, this`passes, this`waits, this`draw, storage.disk`refusals
      ensures Valid()
      ensures answer.Loaded? <==> old(passes) > 0 && storage.disk.refusals == old(storage.disk.refusals)
      ensures storage.disk.refusals >= old(storage.disk.refusals)
      ensures passes == if old(passes) == 0 then 0 else old(passes) - 1
      ensures answer.Loaded? ==> waits == []
      ensures now.pc == if answer.Loaded? then Head(answer.cursor, 0, 0) else Down(StorageFailed)
    {
      ghost var stored := Theorems.AtLeastOnce(c, initial, actions);
      answer := storage.LoadBuf(passes, c.account);
      passes := if passes == 0 then 0 else passes - 1;
      if answer.Loaded? {
        waits := [];
      }
      Advance(Launch(answer.Loaded?));
    }

    /** `getUpdates`: any transport error, rejection, or honest delivery. */
    method GetUpdates(cursor: string) returns (r: Response, ghost from: nat)
      requires Valid() && now.pc.Head? && now.pc.cursor == cursor
      modifies this`actions, this`now
      ensures Valid()
      ensures now.pc == AfterPoll(c, old(now).pc, r, from)
    {
      var position :| 0 <= position;
      r := *;
      if !Honest(c, cursor, r, position) {
        r := TransportError;
      }
      from := position;
      Advance(Poll(r, from));
    }

    method ProcessBatch(messages: seq<Message>) returns (ok: bool)
      requires Valid() && now.pc.Handling? && now.pc.msgs == messages
      modifies this`cache, this`actions, this`now, this`passes
      ensures Valid()
      ensures ok ==> old(passes) == passes + BatchChecks(c, messages)
      ensures ok ==> now.pc == Handled(old(now).pc.cursor, old(now).pc.buf)
      ensures !ok ==> now.pc == Down(BatchFailed)
    {
      if c.concurrency == 1 {
        ok := ProcessSerially(messages);
        return;
      }
      var groups: seq<seq<Message>> := GroupByUser(messages);
      var names := NameGroups(messages, groups);
      var b := Pool.Batch(groups, names, c.concurrency, capacity);
      BatchIsWellFormed(b, messages);
      var end;
      ghost var schedule;
      ghost var before := cache;
      end, schedule := RunPool(b, cache);
      ResultIsFirstCause(b, messages, cache, schedule);
      cache := end.cache;
      if end.parentCancelled {
        passes := 0;
      }
      Advance(RunParallel(b, before, schedule, false));
      return end.result == Some(None);
    }

    method ProcessSerially(messages: seq<Message>) returns (ok: bool)
      requires Valid() && now.pc.Handling? && now.pc.msgs == messages && c.concurrency == 1
      modifies this`actions, this`now, this`passes
      ensures Valid()
      ensures ok ==> old(passes) == passes + BatchChecks(c, messages)
      ensures now.pc == if ok then Handled(old(now).pc.cursor, old(now).pc.buf) else Down(BatchFailed)
    {
      var env := new Serial.Surroundings(passes);
      var err;
      ghost var started, returned;
      err, started, returned := Serial.ProcessSerial(env, messages);
      passes := env.passes;
      ok := err.None?;
      Advance(RunSerial(returned, ok, false));
    }

    /** The handled batch goes on to the save, or straight to the next poll. */
    ghost method CommitBatch(cursor: string, buf: string)
      requires Valid() && now.pc == Handled(cursor, buf)
      modifies this`actions, this`now
      ensures Valid()
      ensures now.pc == if buf != "" && buf != cursor
                        then Saving(cursor, buf, storage.disk.files, Store.Opening) else Head(cursor, 0, 0)
    {
      Advance(Commit);
    }

    method SaveBuf(buf: string) returns (ok: bool)
      requires Valid() && now.pc.Saving? && now.pc.write.Opening? && now.pc.buf == buf
      modifies this`actions, this`now, this`passes, storage.disk
      ensures Valid()
      ensures ok <==> old(passes) >= Store.SAVE_CHECKS && storage.disk.refusals == old(storage.disk.refusals)
      ensures storage.disk.refusals >= old(storage.disk.refusals)
      ensures passes == if old(passes) >= Store.SAVE_CHECKS then old(passes) - Store.SAVE_CHECKS else 0
      ensures now.pc == if ok then Head(buf, 0, 0) else Down(StorageFailed)
    {
      var answer;
      ghost var writes;
      answer, writes := storage.SaveBuf(passes, c.account, buf);
      if passes == 0 {
        Advance(Write(Store.Fail));
      } else {
        LiftWrites(c, initial, actions, Store.Key(c.store, c.account), c.store.encode(buf), writes);
        actions := actions + Lift(writes);
        now := After(c, initial, actions);
      }
      passes := if passes >= Store.SAVE_CHECKS then passes - Store.SAVE_CHECKS else 0;
      ok := answer == Store.Done;
    }

    method ClearBuf() returns (ok: bool)
      requires Valid() && (now.pc.Resetting? || now.pc.Revoking?)
      modifies this`actions, this`now, this`passes, storage.disk
      ensures Valid()
      ensures ok <==> old(passes) > 0 && storage.disk.refusals == old(storage.disk.refusals)
      ensures storage.disk.refusals >= old(storage.disk.refusals)
      ensures passes == if old(passes) == 0 then 0 else old(passes) - 1
      ensures actions == old(actions) + [Clear(ok)]
      ensures old(now).pc.Revoking? ==> now.pc == Down(TokenRevoked)
      ensures old(now).pc.Resetting? ==>
                now.pc == if ok then Waiting("", old(now).pc.failures + 1, 0) else Down(StorageFailed)
    {
      var answer := storage.ClearBuf(passes, c.account);
      passes := if passes == 0 then 0 else passes - 1;
      ok := answer == Store.Done;
      Advance(Clear(ok));
    }

    /** The recovery is exhausted: the store is cleared, and the callback is told if
        that went well. */
    method Revoke()
      requires Valid() && now.pc.Revoking?
      modifies this`actions, this`now, this`passes, this`calls, this`joined, storage.disk
      ensures Valid() && now.pc == Down(TokenRevoked)
      ensures storage.disk.refusals >= old(storage.disk.refusals)
      ensures actions == old(actions) + [Clear(joined != Some(ClearFailed))]
      ensures joined == Some(ClearFailed) <==> old(passes) == 0 || storage.disk.refusals > old(storage.disk.refusals)
      ensures calls == old(calls) + if hasCallback && joined != Some(ClearFailed) then 1 else 0
      ensures joined == Some(CallbackPanicked) ==> hasCallback
    {
      var cleared := ClearBuf();
      joined := if cleared then None else Some(ClearFailed);
      if cleared && hasCallback {
        calls := calls + 1;
        var panics: bool := *;
        if panics {
          joined := Some(CallbackPanicked);
        }
      }
    }

    /** The callback was told of the end of a run if and only if it was a revocation
        and the store had been cleared. */
    ghost predicate Told(before: nat, ended: Option<Outcome>)
      reads this
    {
      calls == before + if ended == Some(TokenRevoked) && hasCallback && joined != Some(ClearFailed) then 1 else 0
    }

    /** The branch of `Start` for an expired session: clear a stale cursor, or count
        towards giving up; then back off. */
    method RecoverSession(cursor: string, failures: nat, expiredCount: nat)
      returns (ended: Option<Outcome>, cursor': string, failures': nat, expired': nat)
      requires Valid() && now.pc ==
                          if cursor != "" then Resetting(cursor, failures)
                          else if expiredCount + 1 >= c.threshold then Revoking(expiredCount + 1)
                          else Waiting("", failures + 1, expiredCount + 1)
      modifies this`actions, this`now, this`passes, this`waits, this`draw, this`calls, this`joined, storage.disk
      ensures Valid() && Told(old(calls), ended)
      ensures storage.disk.refusals >= old(storage.disk.refusals)
      ensures ended == Some(TokenRevoked) ==> actions == old(actions) + [Clear(joined != Some(ClearFailed))]
      ensures ended.None? ==> now.pc == Head(cursor', failures', expired')
      ensures ended.None? ==> OneMoreWait(c, old(waits), waits, failures') && failures' == failures + 1
      ensures ended.None? ==> old(passes) == passes + if cursor != "" then 2 else 1
      ensures ended.Some? ==> now.pc == Down(ended.value) && waits == old(waits)
      ensures ended.Some? ==> Ends(ended.value, passes == 0, storage.disk.refusals > old(storage.disk.refusals))
    {
      cursor', failures', expired' := cursor, failures, expiredCount;
      if cursor != "" {
        var cleared := ClearBuf();
        if !cleared {
          ended := Some(StorageFailed);
          return;
        }
        cursor', expired' := "", 0;
      } else {
        expired' := expired' + 1;
        if expired' >= c.threshold {
          Revoke();
          ended := Some(TokenRevoked);
          return;
        }
      }
      failures' := failures' + 1;
      var stopped := BackOff(cursor', failures', expired');
      ended := if stopped then Some(ContextEnded) else None;
    }

    /** The branch of `Start` for an accepted poll: handle the batch, check the context,
        then commit the cursor behind the batch. */
    method Accept(cursor: string, msgs: seq<Message>, buf: string)
      returns (ended: Option<Outcome>, cursor': string)
      requires Valid() && now.pc.Handling? && now.pc == Handling(cursor, msgs, buf, now.pc.from)
      modifies this`cache, this`actions, this`now, this`passes, storage.disk
      ensures Valid()
      ensures storage.disk.refusals >= old(storage.disk.refusals)
      ensures ended.None? ==> now.pc == Head(cursor', 0, 0) && cursor' == if buf != "" then buf else cursor
      ensures ended.None? ==>
                old(passes) == passes + BatchChecks(c, msgs) + 1 + if buf != "" && buf != cursor then Store.SAVE_CHECKS else 0
      ensures ended != Some(TokenRevoked)
      ensures ended.Some? ==> now.pc == Down(ended.value)
      ensures ended.Some? ==> Ends(ended.value, passes == 0, storage.disk.refusals > old(storage.disk.refusals))
    {
      cursor' := cursor;
      var handled := ProcessBatch(msgs);
      if !handled {
        return Some(BatchFailed), cursor';
      }
      var stopped := Check();
      if stopped {
        return Some(ContextEnded), cursor';
      }
      CommitBatch(cursor, buf);
      if buf != "" && buf != cursor {
        var saved := SaveBuf(buf);
        if !saved {
          return Some(StorageFailed), cursor';
        }
        cursor' := buf;
      }
      ended := None;
    }

    /** A poll that failed or was rejected: count it, check the context if the request
        itself failed, and back off. */
    method Retry(cursor: string, failures: nat, expiredCount: nat, checks: bool) returns (ended: Option<Outcome>)
      requires Valid() && now.pc == Waiting(cursor, failures, expiredCount)
      modifies this`actions, this`now, this`passes, this`waits, this`draw
      ensures Valid()
      ensures ended.None? ==> now.pc == Head(cursor, failures, expiredCount)
      ensures ended.None? ==> OneMoreWait(c, old(waits), waits, failures)
      ensures ended.None? ==> old(passes) == passes + if checks then 2 else 1
      ensures ended.Some? ==> ended == Some(ContextEnded) && now.pc == Down(ContextEnded) && passes == 0
      ensures ended.Some? ==> waits == old(waits)
    {
      var stopped := false;
      if checks {
        stopped := Check();
      }
      if !stopped {
        stopped := BackOff(cursor, failures, expiredCount);
      }
      ended := if stopped then Some(ContextEnded) else None;
    }

    /** What one round of the loop makes of the answer to its poll. If the run goes on,
        it has waited exactly once after an unaccepted poll, for as long as the
        failures call for, and not at all after an accepted one; and the context has
        passed exactly the checks that this branch makes. */
    method Respond(cursor: string, failures: nat, expiredCount: nat, resp: Response, ghost from: nat)
      returns (ended: Option<Outcome>, cursor': string, failures': nat, expired': nat)
      requires Valid() && now.pc == AfterPoll(c, Head(cursor, failures, expiredCount), resp, from)
      modifies this`cache, this`actions, this`now, this`passes, this`waits, this`draw, this`calls, this`joined, storage.disk
      ensures Valid() && Told(old(calls), ended)
      ensures storage.disk.refusals >= old(storage.disk.refusals)
      ensures now.pc == if ended.Some? then Down(ended.value) else Head(cursor', failures', expired')
      ensures ended.None? ==>
                if Accepted(resp) then waits == old(waits) && failures' == 0
                else OneMoreWait(c, old(waits), waits, failures') && failures' == failures + 1
      ensures ended.None? ==> old(passes) == passes + ChecksAfter(c, cursor, resp)
      ensures ended.Some? ==> waits == old(waits)
      ensures ended.Some? ==> Ends(ended.value, passes == 0, storage.disk.refusals > old(storage.disk.refusals))
    {
      cursor', failures', expired' := cursor, failures, expiredCount;
      if resp.TransportError? {
        failures' := failures' + 1;
        ended := Retry(cursor', failures', expired', true);
      } else if resp.ret == ERR_CODE_SESSION_EXPIRED || resp.errCode == ERR_CODE_SESSION_EXPIRED {
        ended, cursor', failures', expired' := RecoverSession(cursor, failures, expiredCount);
      } else if resp.ret != 0 || resp.errCode != 0 {
        failures' := failures' + 1;
        ended := Retry(cursor', failures', expired', false);
      } else {
        failures', expired' := 0, 0;
        ended, cursor' := Accept(cursor, resp.msgs, resp.buf);
      }
    }

    /** The beginning of a run: the context is checked and the cursor loaded. */
    method Open() returns (ended: Option<Outcome>, cursor: string)
      requires Valid() && now.pc.Down?
      modifies this`actions, this`now, this`passes, this`waits, this`draw, storage.disk`refusals
      ensures Valid()
      ensures storage.disk.refusals >= old(storage.disk.refusals)
      ensures ended == Some(ContextEnded) <==> old(passes) == 0
      ensures ended.None? ==> old(passes) == passes + 2 && waits == []
      ensures now.pc == if ended.Some? then Down(ended.value) else Head(cursor, 0, 0)
      ensures ended.Some? ==> ended != Some(TokenRevoked)
      ensures ended.Some? ==> Ends(ended.value, passes == 0, storage.disk.refusals > old(storage.disk.refusals))
    {
      cursor := "";
      var stopped := Check();
      if stopped {
        return Some(ContextEnded), cursor;
      }
      var loaded := LoadCursor();
      if !loaded.Loaded? {
        return Some(StorageFailed), cursor;
      }
      return None, loaded.cursor;
    }

    /** The waits of the run: for each poll that was not accepted one, drawn for the
        failures since the last accepted poll; only the last one may be missing. */
    ghost predicate WaitedForFailures()
      reads this
    {
      AlmostWaited(c, Owed(now.polls), waits)
    }

    /** Polls until the context ends, the store or a handler fails, or the session
        recovery is exhausted; then says which. The run it leaves is a run of the
        listener machine, so all theorems about those runs hold of it. */
    method Start(checks: nat) returns (outcome: Outcome)
      requires Valid() && now.pc.Down?
      modifies this, storage.disk
      ensures Valid() && now.pc == Down(outcome) && Told(old(calls), Some(outcome))
      ensures Ends(outcome, passes == 0, storage.disk.refusals > old(storage.disk.refusals))
      ensures WaitedForFailures()
      ensures earlier == old(actions) <= actions
    {
      passes, earlier := checks, actions;
      var ended, cursor := Open();
      if ended.None? {
        outcome := Loop(cursor);
      } else {
        outcome := ended.value;
      }
      PacedHolds(c, initial, actions);
    }

    /** The loop of `Start`. */
    method Loop(start: string) returns (outcome: Outcome)
      requires Valid() && now.pc == Head(start, 0, 0)
      modifies this`cache, this`actions, this`now, this`passes, this`waits, this`draw, this`calls, this`joined, storage.disk
      ensures Valid() && now.pc == Down(outcome) && Told(old(calls), Some(outcome))
      ensures storage.disk.refusals >= old(storage.disk.refusals)
      ensures Ends(outcome, passes == 0, storage.disk.refusals > old(storage.disk.refusals))
    {
      var cursor, failures, expiredCount := start, 0, 0;
      while true
        invariant Valid() && now.pc == Head(cursor, failures, expiredCount)
        invariant calls == old(calls) && storage.disk.refusals >= old(storage.disk.refusals)
        decreases passes
      {
        var stopped := Check();
        if stopped {
          return ContextEnded;
        }
        var resp;
        ghost var from;
        resp, from := GetUpdates(cursor);
        var ended;
        ended, cursor, failures, expiredCount := Respond(cursor, failures, expiredCount, resp, from);
        if ended.Some? {
          return ended.value;
        }
      }
    }
  }
}
