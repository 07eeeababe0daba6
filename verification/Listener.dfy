/** The poll and commit loop (`listener.go`, `Start`) over a durable cursor: every
    poll result, every failure of storage, handlers and context, and a crash
    between any two steps, after which the listener may be started again. */
module Listener {
  import opened Messages
  import opened Hex
  import opened Recency
  import Store = CursorStore
  import Pool = WorkerPool
  import opened BatchTheorems
  import opened Backoff
  import Serial = SerialBatch

  const ERR_CODE_SESSION_EXPIRED := -14

  /** The client's configuration, and the server's log in which every cursor the
      server ever hands out names a position. */
  datatype Setup = Setup(
    store: Store.Config,
    account: seq<byte>,
    threshold: nat,
    concurrency: nat,
    backoffInitial: int64,
    backoffMax: int64,
    log: seq<Message>,
    positions: map<string, nat>)

  ghost predicate WellFormedSetup(c: Setup) {
    && c.threshold >= 1
    && c.concurrency >= 1
    && ValidBounds(c.backoffInitial, c.backoffMax)
    && forall buf <- c.positions :: buf != "" && c.positions[buf] <= |c.log| && Store.Valid(c.store, buf)
  }

  predicate Known(c: Setup, cursor: string) {
    cursor == "" || cursor in c.positions
  }

  /** The empty cursor asks for everything the server still has. */
  function Position(c: Setup, cursor: string): nat {
    if cursor in c.positions then c.positions[cursor] else 0
  }

  datatype Response =
    | TransportError
    | Response(ret: int, errCode: int, msgs: seq<Message>, buf: string)

  predicate Expired(r: Response) {
    r.Response? && (r.ret == ERR_CODE_SESSION_EXPIRED || r.errCode == ERR_CODE_SESSION_EXPIRED)
  }

  predicate Accepted(r: Response) {
    r.Response? && r.ret == 0 && r.errCode == 0
  }

  /** An accepted answer that carries a new cursor delivers exactly the messages
      between two positions; with a cursor it starts where the cursor points,
      without one wherever the server's retention begins. */
  predicate Honest(c: Setup, cursor: string, r: Response, from: nat) {
    Accepted(r) && r.buf != "" ==>
      && r.buf in c.positions
      && from <= c.positions[r.buf] <= |c.log|
      && r.msgs == c.log[from..c.positions[r.buf]]
      && (cursor != "" ==> from == Position(c, cursor))
  }

  datatype PollKind = PollFailed | ExpiredEmpty | ExpiredCursor | PollRejected | PollAccepted(buf: string)

  function KindOf(cursor: string, r: Response): PollKind {
    if r.TransportError? then PollFailed
    else if Expired(r) then (if cursor == "" then ExpiredEmpty else ExpiredCursor)
    else if Accepted(r) then PollAccepted(r.buf)
    else PollRejected
  }

  datatype Outcome = NeverStarted | Crashed | ContextEnded | StorageFailed | BatchFailed | TokenRevoked

  datatype Pc =
    | Down(outcome: Outcome)
    | Head(cursor: string, failures: nat, expired: nat)      // about to poll
    | Handling(cursor: string, msgs: seq<Message>, buf: string, from: nat)
    | Handled(cursor: string, buf: string)                   // the batch returned nil
    | Saving(cursor: string, buf: string, before: Store.Files, write: Store.WritePc)
    | Resetting(cursor: string, failures: nat)               // clearing a stale cursor
    | Revoking(expired: nat)                                 // clearing before giving up
    | Waiting(cursor: string, failures: nat, expired: nat)   // backing off

  datatype State = State(
    files: Store.Files,
    pc: Pc,
    // history
    returned: seq<Call>,   // handler calls that returned nil, over all runs
    floor: nat,            // the server has started at this position on an empty cursor
    done: set<nat>,        // positions of the batches that returned nil
    polls: seq<PollKind>,  // of the current run
    waits: seq<int64>,     // the back-offs the current run has sat out
    firstCursor: string)   // loaded by the current run

  datatype Action =
    | Launch(readable: bool)
    | Abort                                   // a context check fails
    | Poll(r: Response, from: nat)
    | RunParallel(b: Pool.Batch, cache: seq<Entry>, schedule: seq<Pool.Action>, crash: bool)
    | RunSerial(calls: seq<Call>, ok: bool, crash: bool)
    | Commit                                  // context checked, decide whether to save
    | Write(a: Store.WriteAction)
    | Clear(ok: bool)
    | Resume(delay: int64)                    // the back-off is over
    | Crash

  function Init(files: Store.Files): State {
    State(files, Down(NeverStarted), [], 0, {}, [], [], "")
  }

  /** A delay that the client may draw after so many failures. */
  predicate DelayAfter(c: Setup, failures: nat, delay: int64) {
    Jittered(Doubled(c.backoffInitial as int, c.backoffMax as int, failures), delay as int)
  }

  ghost predicate Enabled(c: Setup, s: State, a: Action) {
    match a
    case Launch(_) => s.pc.Down?
    case Abort => s.pc.Down? || s.pc.Head? || s.pc.Waiting? || s.pc.Handled?
    case Poll(r, from) => s.pc.Head? && Honest(c, s.pc.cursor, r, from)
    case RunParallel(b, cache, schedule, crash) =>
      && s.pc.Handling? && c.concurrency != 1
      && BatchFor(b, s.pc.msgs) && b.concurrency == c.concurrency
      && WellFormed(b.capacity, cache) && Pool.Runs(b, cache, schedule)
      && (crash || Pool.After(b, cache, schedule).result.Some?)
    case RunSerial(calls, ok, _) =>
      && s.pc.Handling? && c.concurrency == 1
      && calls <= Serial.WantedBy(s.pc.msgs) && (ok ==> calls == Serial.WantedBy(s.pc.msgs))
    case Commit => s.pc.Handled?
    case Write(wa) => s.pc.Saving? && Store.WriteEnabled(s.files, s.pc.write, c.store.encode(s.pc.buf), wa)
    case Clear(_) => s.pc.Resetting? || s.pc.Revoking?
    case Resume(delay) => s.pc.Waiting? && DelayAfter(c, s.pc.failures, delay)
    case Crash => !s.pc.Down? && !s.pc.Handling?
  }

  /** What a poll's answer makes of the loop head. */
  function AfterPoll(c: Setup, pc: Pc, r: Response, from: nat): Pc
    requires pc.Head?
  {
    match KindOf(pc.cursor, r)
    case PollFailed => Waiting(pc.cursor, pc.failures + 1, pc.expired)
    case ExpiredCursor => Resetting(pc.cursor, pc.failures)
    case ExpiredEmpty =>
      if pc.expired + 1 >= c.threshold then Revoking(pc.expired + 1)
      else Waiting(pc.cursor, pc.failures + 1, pc.expired + 1)
    case PollRejected => Waiting(pc.cursor, pc.failures + 1, pc.expired)
    case PollAccepted(_) => Handling(pc.cursor, r.msgs, r.buf, from)
  }

  /** The positions of a batch that ends where the cursor points. */
  function Range(c: Setup, from: nat, buf: string): set<nat> {
    if buf in c.positions then set i: nat | i < |c.log| && Within(c, i, from, buf) else {}
  }

  predicate Within(c: Setup, i: nat, from: nat, buf: string) {
    from <= i < Position(c, buf)
  }

  function Max(a: nat, b: nat): nat {
    if a < b then b else a
  }

  ghost function Step(c: Setup, s: State, a: Action): State
    requires Enabled(c, s, a)
  {
    match a
    case Launch(readable) =>
      var answer := if readable then Store.Load(c.store, s.files, c.account) else Store.Failed(Store.FileError);
      if answer.Loaded?
      then s.(pc := Head(answer.cursor, 0, 0), polls := [], waits := [], firstCursor := answer.cursor)
      else s.(pc := Down(StorageFailed))
    case Abort => s.(pc := Down(ContextEnded))
    case Poll(r, from) =>
      s.(pc := AfterPoll(c, s.pc, r, from),
         polls := s.polls + [KindOf(s.pc.cursor, r)],
         floor := if Accepted(r) && r.buf != "" && s.pc.cursor == "" then Max(s.floor, from) else s.floor)
    case RunParallel(b, cache, schedule, crash) =>
      var end := Pool.After(b, cache, schedule);
      s.(returned := s.returned + end.returned,
         done := if !crash && end.result == Some(None) then s.done + Range(c, s.pc.from, s.pc.buf) else s.done,
         pc := if crash then Down(Crashed)
               else if end.result == Some(None) then Handled(s.pc.cursor, s.pc.buf)
               else Down(BatchFailed))
    case RunSerial(calls, ok, crash) =>
      s.(returned := s.returned + calls,
         done := if !crash && ok then s.done + Range(c, s.pc.from, s.pc.buf) else s.done,
         pc := if crash then Down(Crashed) else if ok then Handled(s.pc.cursor, s.pc.buf) else Down(BatchFailed))
    case Commit =>
      s.(pc := if s.pc.buf != "" && s.pc.buf != s.pc.cursor
               then Saving(s.pc.cursor, s.pc.buf, s.files, Store.Opening)
               else Head(s.pc.cursor, 0, 0))
    case Write(wa) =>
      var (files, write) :=
        Store.WriteStep(s.files, s.pc.write, Store.Key(c.store, c.account), c.store.encode(s.pc.buf), wa);
      s.(files := files,
         pc := if !write.Finished? then s.pc.(write := write)
               else if write.ok then Head(s.pc.buf, 0, 0) else Down(StorageFailed))
    case Clear(ok) =>
      var cleared := if ok then s.files - {Store.Key(c.store, c.account)} else s.files;
      s.(files := cleared,
         pc := if s.pc.Revoking? then Down(TokenRevoked)
               else if ok then Waiting("", s.pc.failures + 1, 0) else Down(StorageFailed))
    case Resume(delay) => s.(pc := Head(s.pc.cursor, s.pc.failures, s.pc.expired), waits := s.waits + [delay])
    case Crash => s.(pc := Down(Crashed))
  }

  ghost predicate Runs(c: Setup, files: Store.Files, actions: seq<Action>)
    decreases |actions|, 0
  {
    actions == [] ||
    (Runs(c, files, actions[..|actions| - 1]) &&
     Enabled(c, After(c, files, actions[..|actions| - 1]), actions[|actions| - 1]))
  }

  ghost function After(c: Setup, files: Store.Files, actions: seq<Action>): State
    requires Runs(c, files, actions)
    decreases |actions|, 1
  {
    if actions == [] then Init(files)
    else Step(c, After(c, files, actions[..|actions| - 1]), actions[|actions| - 1])
  }

  // ----- delivery

  /** Every eligible item was handled that lies from the floor to `end`, or in a batch
      that returned nil. */
  ghost predicate Covered(c: Setup, s: State, end: nat) {
    forall i, j ::
      (s.floor <= i < end || i in s.done) && 0 <= i < |c.log| && Eligible(c.log[i]) && 0 <= j < |c.log[i].items| ==>
        Call(c.log[i], j) in s.returned
  }

  ghost predicate Holds(c: Setup, files: Store.Files, cursor: string) {
    Known(c, cursor) && Store.Load(c.store, files, c.account) == Store.Loaded(cursor)
  }

  ghost predicate Delivery(c: Setup, s: State) {
    match s.pc
    case Down(_) =>
      exists cursor :: Holds(c, s.files, cursor) && Covered(c, s, Position(c, cursor))
    case Head(cursor, _, _) => Holds(c, s.files, cursor) && Covered(c, s, Position(c, cursor))
    case Waiting(cursor, _, _) => Holds(c, s.files, cursor) && Covered(c, s, Position(c, cursor))
    case Resetting(cursor, _) => Holds(c, s.files, cursor) && Covered(c, s, Position(c, cursor))
    case Revoking(_) => Holds(c, s.files, "") && Covered(c, s, 0)
    case Handling(cursor, msgs, buf, from) =>
      && Holds(c, s.files, cursor) && Covered(c, s, Position(c, cursor))
      && Honest(c, cursor, Response(0, 0, msgs, buf), from)
      && (buf != "" && cursor == "" ==> from <= s.floor)
    case Handled(cursor, buf) =>
      && Holds(c, s.files, cursor) && Covered(c, s, Position(c, cursor))
      && (buf != "" ==> buf in c.positions && Covered(c, s, Position(c, buf)))
    case Saving(cursor, buf, before, write) =>
      && Holds(c, before, cursor) && Covered(c, s, Position(c, cursor))
      && buf in c.positions && Covered(c, s, Position(c, buf))
      && Store.WriteInv(before, s.files, write, Store.Key(c.store, c.account), c.store.encode(buf))
      && !write.Finished?
  }

  /** Handling the messages from a covered position on covers up to the next one. */
  lemma Extends(c: Setup, s: State, s': State, cursor: string, msgs: seq<Message>, buf: string, from: nat)
    requires WellFormedSetup(c) && Covered(c, s, Position(c, cursor))
    requires Honest(c, cursor, Response(0, 0, msgs, buf), from)
    requires buf != "" && cursor == "" ==> from <= s.floor
    requires s'.floor == s.floor && s'.done == s.done + Range(c, from, buf) && s.returned <= s'.returned
    requires forall i, j :: 0 <= i < |msgs| && Eligible(msgs[i]) && 0 <= j < |msgs[i].items| ==>
                              Call(msgs[i], j) in s'.returned
    ensures Covered(c, s', Position(c, cursor)) && (buf != "" ==> Covered(c, s', Position(c, buf)))
  {
    if buf == "" {
      CoveredMore(c, s, s', Position(c, cursor));
    } else {
      forall i, j | (s.floor <= i < c.positions[buf] || s.floor <= i < Position(c, cursor) || i in s'.done) && 0 <= i < |c.log|
                    && Eligible(c.log[i]) && 0 <= j < |c.log[i].items|
        ensures Call(c.log[i], j) in s'.returned
      {
        if from <= i < c.positions[buf] {
          assert msgs[i - from] == c.log[i];
        } else {
          assert Call(c.log[i], j) in s.returned;
        }
      }
    }
  }

  /** More returned calls and a higher floor cover at least as much. */
  lemma CoveredMore(c: Setup, s: State, s': State, end: nat)
    requires Covered(c, s, end) && s.floor <= s'.floor && s'.done == s.done && s.returned <= s'.returned
    ensures Covered(c, s', end)
  {
    forall i, j | (s'.floor <= i < end || i in s'.done) && 0 <= i < |c.log| && Eligible(c.log[i])
                  && 0 <= j < |c.log[i].items|
      ensures Call(c.log[i], j) in s'.returned
    {
      assert Call(c.log[i], j) in s.returned;
    }
  }

  /** At the empty cursor only the batches that returned nil count. */
  lemma CoveredBefore(c: Setup, s: State, s': State, end: nat)
    requires Covered(c, s, end) && s'.done == s.done && s.returned <= s'.returned
    ensures Covered(c, s', 0)
  {
    forall i, j | i in s'.done && 0 <= i < |c.log| && Eligible(c.log[i]) && 0 <= j < |c.log[i].items|
      ensures Call(c.log[i], j) in s'.returned
    {
      assert Call(c.log[i], j) in s.returned;
    }
  }

  lemma DownDelivery(c: Setup, s: State, cursor: string)
    requires s.pc.Down? && Holds(c, s.files, cursor) && Covered(c, s, Position(c, cursor))
    ensures Delivery(c, s)
  {}

  lemma PollDelivery(c: Setup, s: State, r: Response, from: nat)
    requires WellFormedSetup(c) && Delivery(c, s) && Enabled(c, s, Poll(r, from))
    ensures Delivery(c, Step(c, s, Poll(r, from)))
  {
    var s' := Step(c, s, Poll(r, from));
    CoveredMore(c, s, s', Position(c, s.pc.cursor));
  }

  lemma ParallelDelivery(c: Setup, s: State, b: Pool.Batch, cache: seq<Entry>, schedule: seq<Pool.Action>, crash: bool)
    requires WellFormedSetup(c) && Delivery(c, s) && Enabled(c, s, RunParallel(b, cache, schedule, crash))
    ensures Delivery(c, Step(c, s, RunParallel(b, cache, schedule, crash)))
  {
    var s', end := Step(c, s, RunParallel(b, cache, schedule, crash)), Pool.After(b, cache, schedule);
    var (cursor, msgs) := (s.pc.cursor, s.pc.msgs);
    if s'.pc.Handled? {
      forall i, j | 0 <= i < |msgs| && Eligible(msgs[i]) && 0 <= j < |msgs[i].items|
        ensures Call(msgs[i], j) in end.returned
      {
        NilCoversItems(b, msgs, cache, schedule, i, j);
      }
      Extends(c, s, s', cursor, msgs, s.pc.buf, s.pc.from);
    } else {
      CoveredMore(c, s, s', Position(c, cursor));
      DownDelivery(c, s', cursor);
    }
  }

  lemma {:induction false} InEligible(ms: seq<Message>, i: nat)
    requires i < |ms| && Eligible(ms[i])
    ensures ms[i] in EligibleOf(ms)
    decreases |ms|
  {
    if i < |ms| - 1 {
      InEligible(ms[..|ms| - 1], i);
    }
  }

  lemma SerialDelivery(c: Setup, s: State, calls: seq<Call>, ok: bool, crash: bool)
    requires WellFormedSetup(c) && Delivery(c, s) && Enabled(c, s, RunSerial(calls, ok, crash))
    ensures Delivery(c, Step(c, s, RunSerial(calls, ok, crash)))
  {
    var s' := Step(c, s, RunSerial(calls, ok, crash));
    var (cursor, msgs) := (s.pc.cursor, s.pc.msgs);
    if s'.pc.Handled? {
      forall i, j | 0 <= i < |msgs| && Eligible(msgs[i]) && 0 <= j < |msgs[i].items|
        ensures Call(msgs[i], j) in calls
      {
        InEligible(msgs, i);
        var k :| 0 <= k < |EligibleOf(msgs)| && EligibleOf(msgs)[k] == msgs[i];
        InFlat(EligibleOf(msgs), k, j);
      }
      Extends(c, s, s', cursor, msgs, s.pc.buf, s.pc.from);
    } else {
      CoveredMore(c, s, s', Position(c, cursor));
      DownDelivery(c, s', cursor);
    }
  }

  /** What a load finds between two write steps: the old cursor or the new one. */
  lemma SavedOrNot(c: Setup, before: Store.Files, files: Store.Files, write: Store.WritePc, cursor: string, buf: string)
    requires WellFormedSetup(c) && Holds(c, before, cursor) && buf in c.positions
    requires Store.WriteInv(before, files, write, Store.Key(c.store, c.account), c.store.encode(buf))
    ensures Holds(c, files, if Store.Replaced(write) then buf else cursor)
  {
    var key, data := Store.Key(c.store, c.account), c.store.encode(buf);
    Store.KeysDistinct(c.store, c.account, c.account);
    if Store.Replaced(write) {
      var saved := before[key := data];
      assert Store.Lasting(files) == Store.Lasting(saved);
      Store.SameLasting(c.store, saved, files, c.account);
    } else {
      Store.SameLasting(c.store, before, files, c.account);
    }
  }

  lemma WriteDelivery(c: Setup, s: State, wa: Store.WriteAction)
    requires WellFormedSetup(c) && Delivery(c, s) && Enabled(c, s, Write(wa))
    ensures Delivery(c, Step(c, s, Write(wa)))
  {
    var s' := Step(c, s, Write(wa));
    var (key, data, before) := (Store.Key(c.store, c.account), c.store.encode(s.pc.buf), s.pc.before);
    var (files, write) := Store.WriteStep(s.files, s.pc.write, key, data, wa);
    Store.KeysDistinct(c.store, c.account, c.account);
    Store.WriteInvStep(before, s.files, s.pc.write, key, data, wa);
    SavedOrNot(c, before, files, write, s.pc.cursor, s.pc.buf);
    CoveredMore(c, s, s', Position(c, s.pc.cursor));
    CoveredMore(c, s, s', Position(c, s.pc.buf));
    if s'.pc.Down? {
      DownDelivery(c, s', s.pc.cursor);
    }
  }

  lemma StopDelivery(c: Setup, s: State, a: Action)
    requires WellFormedSetup(c) && Delivery(c, s) && Enabled(c, s, a) && (a.Abort? || a.Crash?)
    ensures Delivery(c, Step(c, s, a))
  {
    var s' := Step(c, s, a);
    if s.pc.Saving? {
      SavedOrNot(c, s.pc.before, s.files, s.pc.write, s.pc.cursor, s.pc.buf);
      var cursor := if Store.Replaced(s.pc.write) then s.pc.buf else s.pc.cursor;
      CoveredMore(c, s, s', Position(c, cursor));
      DownDelivery(c, s', cursor);
    } else if s.pc.Down? {
      var cursor :| Holds(c, s.files, cursor) && Covered(c, s, Position(c, cursor));
      CoveredMore(c, s, s', Position(c, cursor));
      DownDelivery(c, s', cursor);
    } else {
      var cursor := if s.pc.Revoking? then "" else s.pc.cursor;
      CoveredMore(c, s, s', Position(c, cursor));
      DownDelivery(c, s', cursor);
    }
  }

  lemma ClearDelivery(c: Setup, s: State, ok: bool)
    requires WellFormedSetup(c) && Delivery(c, s) && Enabled(c, s, Clear(ok))
    ensures Delivery(c, Step(c, s, Clear(ok)))
  {
    var s' := Step(c, s, Clear(ok));
    CoveredBefore(c, s, s', if s.pc.Revoking? then 0 else Position(c, s.pc.cursor));
    if s'.pc.Down? {
      if !ok && s.pc.Resetting? {
        CoveredMore(c, s, s', Position(c, s.pc.cursor));
        DownDelivery(c, s', s.pc.cursor);
      } else {
        DownDelivery(c, s', "");
      }
    }
  }

  lemma LaunchDelivery(c: Setup, s: State, readable: bool)
    requires WellFormedSetup(c) && Delivery(c, s) && Enabled(c, s, Launch(readable))
    ensures Delivery(c, Step(c, s, Launch(readable)))
  {
    var s' := Step(c, s, Launch(readable));
    var cursor :| Holds(c, s.files, cursor) && Covered(c, s, Position(c, cursor));
    CoveredMore(c, s, s', Position(c, cursor));
    if s'.pc.Down? {
      DownDelivery(c, s', cursor);
    }
  }

  lemma CommitDelivery(c: Setup, s: State, a: Action)
    requires WellFormedSetup(c) && Delivery(c, s) && Enabled(c, s, a) && (a.Commit? || a.Resume?)
    ensures Delivery(c, Step(c, s, a))
  {
    var s' := Step(c, s, a);
    CoveredMore(c, s, s', Position(c, s.pc.cursor));
    if s'.pc.Saving? {
      CoveredMore(c, s, s', Position(c, s.pc.buf));
    }
  }

  lemma DeliveryStep(c: Setup, s: State, a: Action)
    requires WellFormedSetup(c) && Delivery(c, s) && Enabled(c, s, a)
    ensures Delivery(c, Step(c, s, a))
  {
    match a
    case Launch(readable) => LaunchDelivery(c, s, readable);
    case Abort => StopDelivery(c, s, a);
    case Crash => StopDelivery(c, s, a);
    case Poll(r, from) => PollDelivery(c, s, r, from);
    case RunParallel(b, cache, schedule, crash) => ParallelDelivery(c, s, b, cache, schedule, crash);
    case RunSerial(calls, ok, crash) => SerialDelivery(c, s, calls, ok, crash);
    case Commit => CommitDelivery(c, s, a);
    case Resume(_) => CommitDelivery(c, s, a);
    case Write(wa) => WriteDelivery(c, s, wa);
    case Clear(ok) => ClearDelivery(c, s, ok);
  }
}
