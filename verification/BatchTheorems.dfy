/** What `processBatch` promises, over every schedule of its parallel branch. */
module BatchTheorems {
  import opened Messages
  import opened Recency
  import opened WorkerPool
  import opened PoolOrder
  import opened PoolControl
  import opened PoolTokens

  ghost predicate Invariant(b: Batch, s: State) {
    && Shape(b, s)
    && Exclusive(s)
    && Order(b, s)
    && LateOnce(s)
    && Accounted(s)
    && Causes(s)
    && Tokens(false, b, s)
  }

  lemma {:induction false} NothingInFlight(n: nat)
    ensures InFlight(seq(n, _ => Idle)) == 0
  {
    if n > 0 {
      assert seq(n, _ => Idle)[..n - 1] == seq(n - 1, _ => Idle);
      NothingInFlight(n - 1);
    }
  }

  lemma InvariantInit(b: Batch, cache: seq<Entry>)
    requires WellFormedBatch(b) && WellFormed(b.capacity, cache)
    ensures Invariant(b, Init(b, cache))
  {
    NothingInFlight(WorkerCount(b));
  }

  lemma InvariantStep(b: Batch, s: State, a: Action)
    requires WellFormedBatch(b) && Invariant(b, s) && Enabled(b, s, a)
    ensures Invariant(b, Step(b, s, a))
  {
    ShapeStep(b, s, a);
    ExclusiveStep(b, s, a);
    OrderStep(b, s, a);
    LateStep(b, s, a);
    AccountedStep(b, s, a);
    CausesStep(b, s, a);
    TokensStep(false, b, s, a);
  }

  lemma {:induction false} InvariantHolds(b: Batch, cache: seq<Entry>, actions: seq<Action>)
    requires WellFormedBatch(b) && WellFormed(b.capacity, cache) && Runs(b, cache, actions)
    ensures Invariant(b, After(b, cache, actions))
    decreases |actions|
  {
    if actions == [] {
      InvariantInit(b, cache);
    } else {
      var before := actions[..|actions| - 1];
      InvariantHolds(b, cache, before);
      InvariantStep(b, After(b, cache, before), actions[|actions| - 1]);
    }
  }

  // ----- the batch of a list of received messages

  ghost predicate BatchFor(b: Batch, messages: seq<Message>) {
    && IsGrouping(messages, b.groups)
    && b.users == Users(messages)
    && b.concurrency >= 1
    && b.capacity >= 1
  }

  lemma BatchIsWellFormed(b: Batch, messages: seq<Message>)
    requires BatchFor(b, messages)
    ensures WellFormedBatch(b)
  {
    UsersDistinct(messages);
    forall g, k | 0 <= g < |b.groups| && 0 <= k < |b.groups[g]|
      ensures b.groups[g][k].fromUser == b.users[g]
    {
      ForUserMembers(messages, b.users[g]);
      assert b.groups[g][k] in b.groups[g];
    }
  }

  /** In every interleaving the handler calls of a user are started in the order
      received, none skipped and none twice; at most one of a user's calls and at
      most `concurrency` calls overall are unfinished. */
  lemma UserOrder(b: Batch, messages: seq<Message>, cache: seq<Entry>, actions: seq<Action>, user: string)
    requires BatchFor(b, messages) && WellFormed(b.capacity, cache) && Runs(b, cache, actions)
    ensures var s := After(b, cache, actions);
            && Of(s.returned, user) <= Of(s.started, user) <= Flat(ForUser(messages, user))
            && |Of(s.started, user)| <= |Of(s.returned, user)| + 1
            && |s.started| <= |s.returned| + |s.failed| + b.concurrency
  {
    BatchIsWellFormed(b, messages);
    InvariantHolds(b, cache, actions);
    var s := After(b, cache, actions);
    InFlightBound(s.workers);
    if user in b.users {
      var g :| 0 <= g < |b.users| && b.users[g] == user;
      assert GroupOrder(b, s, g);
    }
  }

  lemma GroupHandled(b: Batch, s: State, g: nat)
    requires Shape(b, s) && Order(b, s) && s.result == Some(None) && g < |b.groups|
    ensures Of(s.returned, b.users[g]) == Of(s.started, b.users[g]) == Flat(b.groups[g])
  {
    assert GroupOrder(b, s, g) && Unheld(s, g);
  }

  /** `processBatch` returns nil only if, for every user, exactly the calls of the
      serial branch were started and returned nil, each once and in its order. */
  lemma NilMeansComplete(b: Batch, messages: seq<Message>, cache: seq<Entry>, actions: seq<Action>, user: string)
    requires BatchFor(b, messages) && WellFormed(b.capacity, cache) && Runs(b, cache, actions)
    requires After(b, cache, actions).result == Some(None)
    ensures var s := After(b, cache, actions);
            Of(s.returned, user) == Of(s.started, user) == Of(Flat(EligibleOf(messages)), user)
  {
    BatchIsWellFormed(b, messages);
    InvariantHolds(b, cache, actions);
    var s := After(b, cache, actions);
    GroupingMatchesSerial(messages, user);
    if user in b.users {
      var g :| 0 <= g < |b.users| && b.users[g] == user;
      GroupHandled(b, s, g);
    } else {
      HasGroup(messages, user);
    }
  }

  /** Every item of every eligible message has then had its handler return nil. */
  lemma NilCoversItems(b: Batch, messages: seq<Message>, cache: seq<Entry>, actions: seq<Action>, i: nat, j: nat)
    requires BatchFor(b, messages) && WellFormed(b.capacity, cache) && Runs(b, cache, actions)
    requires After(b, cache, actions).result == Some(None)
    requires i < |messages| && Eligible(messages[i]) && j < |messages[i].items|
    ensures Call(messages[i], j) in After(b, cache, actions).returned
  {
    var user, s := messages[i].fromUser, After(b, cache, actions);
    NilMeansComplete(b, messages, cache, actions, user);
    GroupingMatchesSerial(messages, user);
    ForUserMembers(messages, user);
    var k :| 0 <= k < |ForUser(messages, user)| && ForUser(messages, user)[k] == messages[i];
    InFlat(ForUser(messages, user), k, j);
    OfSubset(s.returned, user);
  }

  lemma {:induction false} OfSubset(log: seq<Call>, user: string)
    ensures forall c <- Of(log, user) :: c in log
    decreases |log|
  {
    if log != [] {
      OfSubset(log[..|log| - 1], user);
    }
  }

  /** The batch succeeds exactly when nothing failed and the parent was not
      cancelled; otherwise the returned error is one that happened, never the
      secondary cancellation seen by the other workers. */
  lemma ResultIsFirstCause(b: Batch, messages: seq<Message>, cache: seq<Entry>, actions: seq<Action>)
    requires BatchFor(b, messages) && WellFormed(b.capacity, cache) && Runs(b, cache, actions)
    requires After(b, cache, actions).result.Some?
    ensures var s := After(b, cache, actions);
            && (s.result.value.None? <==> s.failed == [] && s.unencoded == [] && !s.parentCancelled)
            && (s.result.value.Some? ==> !s.result.value.value.Cancelled? && Justified(s, s.result.value.value))
  {
    BatchIsWellFormed(b, messages);
    InvariantHolds(b, cache, actions);
  }

  /** After the first cancellation each worker starts at most one more handler. */
  lemma LateStarts(b: Batch, messages: seq<Message>, cache: seq<Entry>, actions: seq<Action>, w: nat)
    requires BatchFor(b, messages) && WellFormed(b.capacity, cache) && Runs(b, cache, actions)
    requires w < WorkerCount(b)
    ensures w < |After(b, cache, actions).late| && After(b, cache, actions).late[w] <= 1
  {
    BatchIsWellFormed(b, messages);
    InvariantHolds(b, cache, actions);
  }

  /** No schedule gets stuck before the batch has returned. */
  lemma CanContinue(b: Batch, messages: seq<Message>, cache: seq<Entry>, actions: seq<Action>) returns (a: Action)
    requires BatchFor(b, messages) && WellFormed(b.capacity, cache) && Runs(b, cache, actions)
    requires After(b, cache, actions).result.None?
    ensures Scheduled(a) && Runs(b, cache, actions + [a])
  {
    BatchIsWellFormed(b, messages);
    InvariantHolds(b, cache, actions);
    a := DeadlockFree(b, After(b, cache, actions));
    assert (actions + [a])[..|actions|] == actions;
  }

  function ScheduledCount(actions: seq<Action>): nat {
    if actions == [] then 0
    else ScheduledCount(actions[..|actions| - 1]) + if Scheduled(actions[|actions| - 1]) then 1 else 0
  }

  /** Every schedule ends: its length is bounded before it starts, whatever the
      handlers send and whatever the application does to the cache meanwhile. */
  lemma {:induction false} ScheduleBound(b: Batch, cache: seq<Entry>, actions: seq<Action>)
    requires WellFormedBatch(b) && WellFormed(b.capacity, cache) && Runs(b, cache, actions)
    ensures ScheduledCount(actions) + Measure(b, After(b, cache, actions)) <= Measure(b, Init(b, cache))
    decreases |actions|
  {
    if actions != [] {
      var before := actions[..|actions| - 1];
      ScheduleBound(b, cache, before);
      InvariantHolds(b, cache, before);
      Terminates(b, After(b, cache, before), actions[|actions| - 1]);
    }
  }

  /** Every partial schedule can be completed: the batch always can return. */
  lemma Completes(b: Batch, messages: seq<Message>, cache: seq<Entry>, actions: seq<Action>) returns (all: seq<Action>)
    requires BatchFor(b, messages) && WellFormed(b.capacity, cache) && Runs(b, cache, actions)
    ensures actions <= all && Runs(b, cache, all) && After(b, cache, all).result.Some?
    decreases Measure(b, After(b, cache, actions))
  {
    all := actions;
    var s := After(b, cache, actions);
    if s.result.None? {
      var a := CanContinue(b, messages, cache, actions);
      BatchIsWellFormed(b, messages);
      InvariantHolds(b, cache, actions);
      assert (actions + [a])[..|actions|] == actions;
      Terminates(b, s, a);
      all := Completes(b, messages, cache, actions + [a]);
    }
  }

  /** A handler's reply to the sender of its message carries that message's
      token, in every interleaving and whatever has been evicted. */
  lemma ReplyToken(b: Batch, messages: seq<Message>, cache: seq<Entry>, actions: seq<Action>, i: nat)
    requires BatchFor(b, messages) && WellFormed(b.capacity, cache) && Runs(b, cache, actions)
    requires i < |After(b, cache, actions).replies|
    ensures var r := After(b, cache, actions).replies[i];
            r.to == r.origin.fromUser && r.to != "" && r.origin.contextToken != "" ==> r.token == r.origin.contextToken
  {
    BatchIsWellFormed(b, messages);
    InvariantHolds(b, cache, actions);
    assert After(b, cache, actions).replies[i] in After(b, cache, actions).replies;
  }

  /** After a successful batch, and without outside writes, a cached token of a
      user who sent one is the token of that user's last message that had one. */
  lemma FreshAfterBatch(b: Batch, messages: seq<Message>, cache: seq<Entry>, actions: seq<Action>, user: string)
    requires BatchFor(b, messages) && WellFormed(b.capacity, cache) && Runs(b, cache, actions)
    requires After(b, cache, actions).result == Some(None) && !After(b, cache, actions).outside
    requires LastToken(ForUser(messages, user)) != ""
    ensures Lookup(After(b, cache, actions).cache, user) in {"", LastToken(ForUser(messages, user))}
  {
    BatchIsWellFormed(b, messages);
    InvariantHolds(b, cache, actions);
    HasGroup(messages, user);
    var s := After(b, cache, actions);
    var g :| 0 <= g < |b.users| && b.users[g] == user;
    assert GroupCurrent(false, b, s, g) && Unheld(s, g);
  }

  lemma {:induction false} RoomHolds(b: Batch, cache: seq<Entry>, actions: seq<Action>)
    requires WellFormedBatch(b) && WellFormed(b.capacity, cache) && Runs(b, cache, actions) && Spacious(b, cache)
    ensures Tokens(true, b, After(b, cache, actions))
    decreases |actions|
  {
    if actions != [] {
      var before := actions[..|actions| - 1];
      RoomHolds(b, cache, before);
      InvariantHolds(b, cache, before);
      TokensStep(true, b, After(b, cache, before), actions[|actions| - 1]);
    }
  }

  /** If all users fit into the cache, it is certain to hold that token. */
  lemma KeptAfterBatch(b: Batch, messages: seq<Message>, cache: seq<Entry>, actions: seq<Action>, user: string)
    requires BatchFor(b, messages) && WellFormed(b.capacity, cache) && Runs(b, cache, actions)
    requires |UsersOf(cache) + BatchUsers(b)| <= b.capacity
    requires After(b, cache, actions).result == Some(None) && !After(b, cache, actions).outside
    requires user != "" && LastToken(ForUser(messages, user)) != ""
    ensures Lookup(After(b, cache, actions).cache, user) == LastToken(ForUser(messages, user))
  {
    BatchIsWellFormed(b, messages);
    InvariantHolds(b, cache, actions);
    RoomHolds(b, cache, actions);
    HasGroup(messages, user);
    var s := After(b, cache, actions);
    var g :| 0 <= g < |b.users| && b.users[g] == user;
    assert GroupCurrent(true, b, s, g) && Unheld(s, g);
  }
}
