/** What a running handler's message carries, to whomever it is sent, and where every
    token in use comes from (`client.go`, `contextTokenFor`). */
module PoolReplies {
  import opened Messages
  import opened Recency
  import opened WorkerPool
  import opened PoolOrder
  import opened BatchTheorems

  lemma CachedAnswer(c: seq<Entry>, to: string, e: Entry)
    requires Distinct(c) && e in c && e.user == to
    ensures Lookup(c, to) == e.token && Touch(c, to) == [e] + Without(c, to)
  {
    LookupIsMember(c, to);
  }

  lemma MissAnswer(c: seq<Entry>, to: string)
    requires Distinct(c) && forall e <- c :: e.user != to
    ensures Lookup(c, to) == "" && Touch(c, to) == c
  {
    LookupIsMember(c, to);
    CachedMeansPresent(c, to);
    assert forall i :: 0 <= i < |c| ==> c[i] in c;
  }

  lemma StepReplies(b: Batch, s: State, w: nat, to: string)
    requires Shape(b, s) && Enabled(b, s, Reply(w, to))
    ensures var s', m := Step(b, s, Reply(w, to)), MessageOf(b, s.workers[w]);
            var own := to == m.fromUser && m.fromUser != "" && m.contextToken != "";
            && s'.replies == s.replies + [Sent(m, to, if own then m.contextToken else Lookup(s.cache, to))]
            && s'.cache == if own then s.cache else Touch(s.cache, to)
  {
    assert WorkerShape(b, s, s.workers[w]);
  }

  /** A send out of a running handler, seen from outside: to the sender of its message
      it carries that message's token and leaves the cache alone; to anyone else, or
      if the message had no token, it carries what the cache held, and moves that
      entry to the front; if the cache held nothing, it carries nothing. */
  lemma ReplyAnswer(b: Batch, messages: seq<Message>, cache: seq<Entry>, actions: seq<Action>, w: nat, to: string)
    requires BatchFor(b, messages) && WellFormed(b.capacity, cache) && Runs(b, cache, actions)
    requires Enabled(b, After(b, cache, actions), Reply(w, to))
    ensures var s := After(b, cache, actions);
            var s', m := Step(b, s, Reply(w, to)), MessageOf(b, s.workers[w]);
            && |s'.replies| == |s.replies| + 1 && s.replies <= s'.replies
            && var reply := s'.replies[|s.replies|];
            && reply.origin == m && reply.to == to
            && (to == m.fromUser && to != "" && m.contextToken != "" ==>
                  reply.token == m.contextToken && s'.cache == s.cache)
            && (to != m.fromUser || m.contextToken == "" ==>
                  && (forall e <- s.cache :: e.user == to ==>
                        && reply.token == e.token
                        && |s'.cache| > 0 && s'.cache[0] == e && s'.cache[1..] == Without(s.cache, to))
                  && ((forall e <- s.cache :: e.user != to) ==> reply.token == "" && s'.cache == s.cache))
  {
    BatchIsWellFormed(b, messages);
    InvariantHolds(b, cache, actions);
    var s := After(b, cache, actions);
    StepReplies(b, s, w, to);
    if e :| e in s.cache && e.user == to {
      CachedAnswer(s.cache, to, e);
      forall f | f in s.cache && f.user == to ensures f == e {
        CachedAnswer(s.cache, to, f);
      }
    } else {
      MissAnswer(s.cache, to);
    }
  }

  // ----- where tokens come from

  /** The token was written for the user: it was in the cache at the start, the
      application set it, or a message of that user that has been prepared had it. */
  predicate Written(b: Batch, cache: seq<Entry>, actions: seq<Action>, user: string, token: string)
    requires Runs(b, cache, actions)
    decreases |actions|
  {
    if actions == [] then Entry(user, token) in cache
    else
      var before, a := actions[..|actions| - 1], actions[|actions| - 1];
      || Written(b, cache, before, user, token)
      || a == Outside(Set(user, token))
      || (a.Prepare? && Prepares(b, After(b, cache, before), a.w, user, token))
  }

  predicate Prepares(b: Batch, s: State, w: nat, user: string, token: string) {
    && w < |s.workers| && OnMessage(b, s.workers[w])
    && MessageOf(b, s.workers[w]).fromUser == user && MessageOf(b, s.workers[w]).contextToken == token
  }

  predicate EntryWritten(b: Batch, cache: seq<Entry>, actions: seq<Action>, e: Entry)
    requires Runs(b, cache, actions)
  {
    Written(b, cache, actions, e.user, e.token)
  }

  predicate ReplyWritten(b: Batch, cache: seq<Entry>, actions: seq<Action>, r: Sent)
    requires Runs(b, cache, actions)
  {
    r.token == "" || Written(b, cache, actions, r.to, r.token)
  }

  predicate WorkerWritten(b: Batch, cache: seq<Entry>, actions: seq<Action>, p: Worker)
    requires Runs(b, cache, actions)
  {
    p.Busy? && p.conversation.Some? ==>
      Written(b, cache, actions, p.conversation.value.user, p.conversation.value.token)
  }

  ghost predicate AllWritten(b: Batch, cache: seq<Entry>, actions: seq<Action>, s: State)
    requires Runs(b, cache, actions)
  {
    && (forall e <- s.cache :: EntryWritten(b, cache, actions, e))
    && (forall i :: 0 <= i < |s.replies| ==> ReplyWritten(b, cache, actions, s.replies[i]))
    && (forall w :: 0 <= w < |s.workers| ==> WorkerWritten(b, cache, actions, s.workers[w]))
  }

  lemma StaysWritten(b: Batch, cache: seq<Entry>, actions: seq<Action>, a: Action, user: string, token: string)
    requires Runs(b, cache, actions) && Runs(b, cache, actions + [a]) && Written(b, cache, actions, user, token)
    ensures Written(b, cache, actions + [a], user, token)
  {
    assert (actions + [a])[..|actions|] == actions;
  }

  /** What an operation leaves in the cache was there, or is what it sets. */
  lemma EntriesAfter(capacity: nat, c: seq<Entry>, op: Op, e: Entry)
    requires Distinct(c) && e in Apply(capacity, c, op)
    ensures e in c || (op.Set? && e == Entry(op.user, op.token))
  {
    WithoutFacts(c, op.user);
    LookupIsMember(c, op.user);
  }

  /** An action that writes the token for the user. */
  predicate Writes(b: Batch, s: State, a: Action, user: string, token: string) {
    a == Outside(Set(user, token)) || (a.Prepare? && Prepares(b, s, a.w, user, token))
  }

  lemma PreparedEntries(b: Batch, s: State, w: nat, encodes: bool, e: Entry)
    requires Enabled(b, s, Prepare(w, encodes)) && Distinct(s.cache)
    requires e in Step(b, s, Prepare(w, encodes)).cache
    ensures e in s.cache || Prepares(b, s, w, e.user, e.token)
  {
    var m := MessageOf(b, s.workers[w]);
    if m.fromUser != "" && m.contextToken != "" {
      EntriesAfter(b.capacity, s.cache, Set(m.fromUser, m.contextToken), e);
    }
  }

  lemma RepliedEntries(b: Batch, s: State, w: nat, to: string, e: Entry)
    requires Enabled(b, s, Reply(w, to)) && Distinct(s.cache)
    requires e in Step(b, s, Reply(w, to)).cache
    ensures e in s.cache
  {
    if e !in s.cache {
      EntriesAfter(0, s.cache, Get(to), e);
    }
  }

  lemma NewEntries(b: Batch, s: State, a: Action, e: Entry)
    requires Enabled(b, s, a) && Distinct(s.cache) && e in Step(b, s, a).cache
    ensures e in s.cache || Writes(b, s, a, e.user, e.token)
  {
    if a.Prepare? {
      PreparedEntries(b, s, a.w, a.encodes, e);
    } else if a.Reply? {
      RepliedEntries(b, s, a.w, a.to, e);
    } else if a.Outside? {
      EntriesAfter(b.capacity, s.cache, a.op, e);
    }
  }

  lemma EntryStaysWritten(b: Batch, cache: seq<Entry>, actions: seq<Action>, a: Action, e: Entry)
    requires Runs(b, cache, actions) && Runs(b, cache, actions + [a])
    requires AllWritten(b, cache, actions, After(b, cache, actions))
    requires WellFormed(b.capacity, After(b, cache, actions).cache)
    requires e in After(b, cache, actions + [a]).cache
    ensures EntryWritten(b, cache, actions + [a], e)
  {
    var s := After(b, cache, actions);
    assert (actions + [a])[..|actions|] == actions;
    NewEntries(b, s, a, e);
    if e in s.cache {
      assert EntryWritten(b, cache, actions, e);
    }
  }

  /** A worker's conversation is the one it had, or that of the message it prepares. */
  lemma NewConversations(b: Batch, s: State, a: Action, w: nat)
    requires Enabled(b, s, a) && w < |s.workers| && w < |Step(b, s, a).workers|
    ensures var p, p' := s.workers[w], Step(b, s, a).workers[w];
            p'.Busy? && p'.conversation.Some? ==>
              || (p.Busy? && p.conversation == p'.conversation)
              || Writes(b, s, a, p'.conversation.value.user, p'.conversation.value.token)
  {
    StepFrame(b, s, a);
  }

  lemma WorkerStaysWritten(b: Batch, cache: seq<Entry>, actions: seq<Action>, a: Action, w: nat)
    requires Runs(b, cache, actions) && Runs(b, cache, actions + [a])
    requires AllWritten(b, cache, actions, After(b, cache, actions))
    requires w < |After(b, cache, actions + [a]).workers|
    ensures WorkerWritten(b, cache, actions + [a], After(b, cache, actions + [a]).workers[w])
  {
    var s := After(b, cache, actions);
    assert (actions + [a])[..|actions|] == actions;
    StepFrame(b, s, a);
    NewConversations(b, s, a, w);
    assert WorkerWritten(b, cache, actions, s.workers[w]);
  }

  lemma ReplyIsWritten(b: Batch, cache: seq<Entry>, actions: seq<Action>, w: nat, to: string)
    requires Runs(b, cache, actions) && Runs(b, cache, actions + [Reply(w, to)])
    requires AllWritten(b, cache, actions, After(b, cache, actions))
    requires WellFormed(b.capacity, After(b, cache, actions).cache)
    ensures var s := After(b, cache, actions);
            var s' := Step(b, s, Reply(w, to));
            |s'.replies| == |s.replies| + 1 && ReplyWritten(b, cache, actions, s'.replies[|s.replies|])
  {
    var s := After(b, cache, actions);
    assert (actions + [Reply(w, to)])[..|actions|] == actions;
    assert WorkerWritten(b, cache, actions, s.workers[w]);
    LookupIsMember(s.cache, to);
    if Cached(s.cache, to) {
      assert EntryWritten(b, cache, actions, Entry(to, Lookup(s.cache, to)));
    }
  }

  lemma RepliesStay(b: Batch, s: State, a: Action)
    requires Enabled(b, s, a)
    ensures s.replies <= Step(b, s, a).replies
    ensures !a.Reply? ==> Step(b, s, a).replies == s.replies
  {}

  lemma RepliesStayWritten(b: Batch, cache: seq<Entry>, actions: seq<Action>, a: Action, i: nat)
    requires Runs(b, cache, actions) && Runs(b, cache, actions + [a])
    requires AllWritten(b, cache, actions, After(b, cache, actions))
    requires WellFormed(b.capacity, After(b, cache, actions).cache)
    requires i < |After(b, cache, actions + [a]).replies|
    ensures ReplyWritten(b, cache, actions + [a], After(b, cache, actions + [a]).replies[i])
  {
    var s := After(b, cache, actions);
    assert (actions + [a])[..|actions|] == actions;
    RepliesStay(b, s, a);
    if i < |s.replies| {
      assert ReplyWritten(b, cache, actions, s.replies[i]);
    } else {
      ReplyIsWritten(b, cache, actions, a.w, a.to);
    }
  }

  lemma {:induction false} WrittenHolds(b: Batch, cache: seq<Entry>, actions: seq<Action>)
    requires WellFormedBatch(b) && WellFormed(b.capacity, cache) && Runs(b, cache, actions)
    ensures AllWritten(b, cache, actions, After(b, cache, actions))
    decreases |actions|
  {
    if actions != [] {
      var before, a := actions[..|actions| - 1], actions[|actions| - 1];
      assert actions == before + [a];
      WrittenHolds(b, cache, before);
      InvariantHolds(b, cache, before);
      var s' := After(b, cache, actions);
      forall e | e in s'.cache ensures EntryWritten(b, cache, actions, e) {
        EntryStaysWritten(b, cache, before, a, e);
      }
      forall i | 0 <= i < |s'.replies| ensures ReplyWritten(b, cache, actions, s'.replies[i]) {
        RepliesStayWritten(b, cache, before, a, i);
      }
      forall w | 0 <= w < |s'.workers| ensures WorkerWritten(b, cache, actions, s'.workers[w]) {
        WorkerStaysWritten(b, cache, before, a, w);
      }
    }
  }

  /** Over every run, no token is ever sent to, or kept for, anyone but the user it was
      written for. */
  lemma TokensStayWithTheirUser(b: Batch, messages: seq<Message>, cache: seq<Entry>, actions: seq<Action>)
    requires BatchFor(b, messages) && WellFormed(b.capacity, cache) && Runs(b, cache, actions)
    ensures var s := After(b, cache, actions);
            && (forall i :: 0 <= i < |s.replies| ==>
                  s.replies[i].token == "" || Written(b, cache, actions, s.replies[i].to, s.replies[i].token))
            && (forall i :: 0 <= i < |s.cache| ==>
                  Written(b, cache, actions, s.cache[i].user, s.cache[i].token))
  {
    BatchIsWellFormed(b, messages);
    WrittenHolds(b, cache, actions);
    var s := After(b, cache, actions);
    forall i | 0 <= i < |s.replies|
      ensures s.replies[i].token == "" || Written(b, cache, actions, s.replies[i].to, s.replies[i].token)
    {
      assert ReplyWritten(b, cache, actions, s.replies[i]);
    }
    forall i | 0 <= i < |s.cache|
      ensures Written(b, cache, actions, s.cache[i].user, s.cache[i].token)
    {
      assert EntryWritten(b, cache, actions, s.cache[i]);
    }
  }

  // ----- more that a reader would ask of a batch

  /** The first cancellation of a batch is the one that counts: once there is a cause,
      it stays the cause, and is the result. */
  lemma {:induction false} FirstCauseWins(b: Batch, cache: seq<Entry>, actions: seq<Action>, n: nat)
    requires WellFormedBatch(b) && WellFormed(b.capacity, cache) && Runs(b, cache, actions)
    requires n <= |actions| && Runs(b, cache, actions[..n])
    requires After(b, cache, actions[..n]).cause.Some?
    ensures var s := After(b, cache, actions);
            && s.cause == After(b, cache, actions[..n]).cause
            && (s.result.Some? ==> s.result.value == s.cause)
    decreases |actions|
  {
    InvariantHolds(b, cache, actions);
    if n == |actions| {
      assert actions[..n] == actions;
    } else {
      var before := actions[..|actions| - 1];
      assert before[..n] == actions[..n];
      FirstCauseWins(b, cache, before, n);
      StepFrame(b, After(b, cache, before), actions[|actions| - 1]);
    }
  }

  /** There are as many workers as the configuration allows and the users need. */
  lemma WorkersStarted(b: Batch, messages: seq<Message>, cache: seq<Entry>, actions: seq<Action>)
    requires BatchFor(b, messages) && WellFormed(b.capacity, cache) && Runs(b, cache, actions)
    ensures var n := |After(b, cache, actions).workers|;
            && n <= b.concurrency && n <= |Users(messages)|
            && (n == b.concurrency || n == |Users(messages)|)
  {
    BatchIsWellFormed(b, messages);
    InvariantHolds(b, cache, actions);
  }

  /** No handler is ever called for anything but a finished message of a user. */
  lemma OnlyFinishedUserMessages(b: Batch, messages: seq<Message>, cache: seq<Entry>, actions: seq<Action>, c: Call)
    requires BatchFor(b, messages) && WellFormed(b.capacity, cache) && Runs(b, cache, actions)
    requires c in After(b, cache, actions).started
    ensures c.msg in messages && c.msg.msgType == 1 && c.msg.msgState == 2 && c.item < |c.msg.items|
  {
    var s, user := After(b, cache, actions), c.msg.fromUser;
    UserOrder(b, messages, cache, actions, user);
    OfContains(s.started, c);
    FlatMembers(ForUser(messages, user), c);
    ForUserMembers(messages, user);
  }

  lemma {:induction false} OfContains(log: seq<Call>, c: Call)
    requires c in log
    ensures c in Of(log, c.msg.fromUser)
    decreases |log|
  {
    if c != log[|log| - 1] {
      OfContains(log[..|log| - 1], c);
    }
  }

  lemma {:induction false} FlatMembers(ms: seq<Message>, c: Call)
    requires c in Flat(ms)
    ensures c.msg in ms && c.item < |c.msg.items|
    decreases |ms|
  {
    var last := ms[|ms| - 1];
    if c !in CallsOf(last) {
      FlatMembers(ms[..|ms| - 1], c);
    }
  }
}
