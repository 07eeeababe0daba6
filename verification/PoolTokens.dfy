/** Conversation tokens under the worker pool: what replies carry, and what the
    shared cache holds after a batch. */
module PoolTokens {
  import opened Messages
  import opened Recency
  import opened WorkerPool
  import opened PoolOrder

  /** The last non-empty token among the messages, or the empty string. */
  function LastToken(ms: seq<Message>): string {
    if ms == [] then ""
    else if ms[|ms| - 1].contextToken != "" then ms[|ms| - 1].contextToken
    else LastToken(ms[..|ms| - 1])
  }

  /** The cache holds the last token of the messages for the user; if not all users
      fit into it, it may hold nothing instead. */
  ghost predicate Current(room: bool, cache: seq<Entry>, user: string, ms: seq<Message>) {
    LastToken(ms) != "" ==>
      Lookup(cache, user) == LastToken(ms) || (Lookup(cache, user) == "" && !(room && user != ""))
  }

  /** All users, of the cache and of the batch, fit into the cache. */
  ghost predicate Spacious(b: Batch, cache: seq<Entry>) {
    |UsersOf(cache) + BatchUsers(b)| <= b.capacity
  }

  function BatchUsers(b: Batch): set<string> {
    set u | u in b.users
  }

  /** How many messages of its group a busy worker has prepared. */
  function Prepared(p: Worker): nat
    requires p.Busy?
  {
    if p.stage.Enter? || p.stage.Entered? then p.k else p.k + 1
  }

  ghost predicate WorkerCurrent(room: bool, b: Batch, s: State, p: Worker) {
    p.Busy? && p.g < |b.groups| && p.g < |b.users| && Prepared(p) <= |b.groups[p.g]| ==>
      Current(room, s.cache, b.users[p.g], b.groups[p.g][..Prepared(p)])
  }

  ghost predicate GroupCurrent(room: bool, b: Batch, s: State, g: nat)
    requires g < |b.groups| && g < |b.users|
  {
    g < s.sent && s.cause.None? && Unheld(s, g) ==> Current(room, s.cache, b.users[g], b.groups[g])
  }

  /** Replies of a handler to the sender of its message carry that message's token. */
  ghost predicate RepliesCarry(s: State) {
    forall r <- s.replies ::
      r.to == r.origin.fromUser && r.to != "" && r.origin.contextToken != "" ==> r.token == r.origin.contextToken
  }

  ghost predicate Tokens(room: bool, b: Batch, s: State) {
    && |b.users| == |b.groups|
    && WellFormed(b.capacity, s.cache)
    && RepliesCarry(s)
    && (!s.outside ==>
          && (room ==> Spacious(b, s.cache))
          && (forall w :: 0 <= w < |s.workers| ==> WorkerCurrent(room, b, s, s.workers[w]))
          && (forall g :: 0 <= g < |b.groups| ==> GroupCurrent(room, b, s, g)))
  }

  lemma ReplyStep(b: Batch, s: State, a: Action)
    requires Shape(b, s) && RepliesCarry(s) && Enabled(b, s, a)
    ensures RepliesCarry(Step(b, s, a))
  {
    if a.Reply? {
      assert WorkerShape(b, s, s.workers[a.w]);
    }
  }

  lemma CacheStep(b: Batch, s: State, a: Action)
    requires WellFormedBatch(b) && WellFormed(b.capacity, s.cache) && Enabled(b, s, a)
    ensures WellFormed(b.capacity, Step(b, s, a).cache)
  {
    if a.Prepare? {
      var m := MessageOf(b, s.workers[a.w]);
      ApplyWellFormed(b.capacity, s.cache, Set(m.fromUser, m.contextToken));
    } else if a.Reply? {
      ApplyWellFormed(b.capacity, s.cache, Get(a.to));
    } else if a.Outside? {
      ApplyWellFormed(b.capacity, s.cache, a.op);
    }
  }

  /** A read, by a reply or by the application, keeps what every user would read. */
  lemma ReadsKeep(b: Batch, s: State, a: Action, user: string)
    requires Enabled(b, s, a) && (a.Reply? || (a.Outside? && a.op.Get?))
    ensures Lookup(Step(b, s, a).cache, user) == Lookup(s.cache, user)
  {
    LookupTouch(s.cache, if a.Reply? then a.to else a.op.user, user);
  }

  /** Preparing a message makes its user current, and evicts others at worst. */
  lemma PrepareKeeps(room: bool, b: Batch, s: State, w: nat, encodes: bool, user: string, ms: seq<Message>)
    requires WellFormedBatch(b) && WellFormed(b.capacity, s.cache) && Enabled(b, s, Prepare(w, encodes))
    requires Current(room, s.cache, user, ms) && (room ==> Spacious(b, s.cache))
    ensures var m, s' := MessageOf(b, s.workers[w]), Step(b, s, Prepare(w, encodes));
            && (m.fromUser != user ==> Current(room, s'.cache, user, ms))
            && (m.fromUser == user ==> Current(room, s'.cache, user, ms + [m]))
  {
    var m := MessageOf(b, s.workers[w]);
    assert (ms + [m])[..|ms|] == ms;
    if m.fromUser != "" && m.contextToken != "" {
      LookupSet(b.capacity, s.cache, m.fromUser, m.contextToken, user);
      if room {
        PrepareHasRoom(b, s, w, encodes, user);
      }
    } else if user == "" {
      NoEmptyUser(b.capacity, s.cache);
    }
  }

  lemma PrepareHasRoom(b: Batch, s: State, w: nat, encodes: bool, user: string)
    requires WellFormedBatch(b) && WellFormed(b.capacity, s.cache) && Enabled(b, s, Prepare(w, encodes))
    requires Spacious(b, s.cache)
    ensures var m, s' := MessageOf(b, s.workers[w]), Step(b, s, Prepare(w, encodes));
            && Spacious(b, s'.cache)
            && (m.fromUser != "" && m.contextToken != "" && user != m.fromUser ==>
                  Lookup(s'.cache, user) == Lookup(s.cache, user))
  {
    var p, m := s.workers[w], MessageOf(b, s.workers[w]);
    assert m.fromUser == b.users[p.g] && b.users[p.g] in b.users;
    var all := UsersOf(s.cache) + BatchUsers(b);
    if m.fromUser != "" && m.contextToken != "" {
      NoEviction(b.capacity, s.cache, all, m.fromUser, m.contextToken, user);
    }
    AtMost(UsersOf(Step(b, s, Prepare(w, encodes)).cache) + BatchUsers(b), all);
  }

  /** Nothing else takes up room, as long as the application writes nothing. */
  lemma QuietHasRoom(b: Batch, s: State, a: Action)
    requires Enabled(b, s, a) && !Step(b, s, a).outside && !a.Prepare? && Spacious(b, s.cache)
    requires WellFormed(b.capacity, s.cache)
    ensures Spacious(b, Step(b, s, a).cache)
  {
    if a.Reply? || a.Outside? {
      var u := if a.Reply? then a.to else a.op.user;
      WithoutFacts(s.cache, u);
      assert UsersOf(Touch(s.cache, u)) == UsersOf(s.cache);
    }
  }

  lemma NoEmptyUser(capacity: nat, c: seq<Entry>)
    requires WellFormed(capacity, c)
    ensures Lookup(c, "") == ""
  {
    LookupIsMember(c, "");
  }

  /** A step that reads or leaves the cache alone. */
  lemma QuietReads(b: Batch, s: State, a: Action, user: string)
    requires Enabled(b, s, a) && !Step(b, s, a).outside && !a.Prepare?
    ensures Lookup(Step(b, s, a).cache, user) == Lookup(s.cache, user)
  {
    if a.Reply? || a.Outside? { ReadsKeep(b, s, a, user); }
  }

  lemma QuietWorker(room: bool, b: Batch, s: State, a: Action, w: nat)
    requires Shape(b, s) && Enabled(b, s, a) && !Step(b, s, a).outside && !a.Prepare?
    requires w < |s.workers| && WorkerCurrent(room, b, s, s.workers[w])
    ensures w < |Step(b, s, a).workers| && WorkerCurrent(room, b, Step(b, s, a), Step(b, s, a).workers[w])
  {
    StepFrame(b, s, a);
    var p, s' := s.workers[w], Step(b, s, a);
    assert WorkerShape(b, s, p);
    if s'.workers[w].Busy? && s'.workers[w].g < |b.users| {
      QuietReads(b, s, a, b.users[s'.workers[w].g]);
      if a.Send? && a.w == w {
        assert b.groups[s.sent][..0] == [];
      }
    }
  }

  lemma QuietTokens(room: bool, b: Batch, s: State, a: Action)
    requires WellFormedBatch(b) && Shape(b, s) && Tokens(room, b, s) && Enabled(b, s, a) && !Step(b, s, a).outside
    requires !a.Prepare?
    ensures var s' := Step(b, s, a);
            && (forall w :: 0 <= w < |s'.workers| ==> WorkerCurrent(room, b, s', s'.workers[w]))
            && (forall g :: 0 <= g < |b.groups| ==> GroupCurrent(room, b, s', g))
  {
    var s' := Step(b, s, a);
    StepFrame(b, s, a);
    assert !s.outside;
    forall w | 0 <= w < |s'.workers| ensures WorkerCurrent(room, b, s', s'.workers[w]) {
      QuietWorker(room, b, s, a, w);
    }
    forall g | 0 <= g < |b.groups| ensures GroupCurrent(room, b, s', g) {
      assert GroupCurrent(room, b, s, g);
      if g < s'.sent && s'.cause.None? && Unheld(s', g) {
        QuietRelease(room, b, s, a, g);
        QuietReads(b, s, a, b.users[g]);
      }
    }
  }

  /** A group is only let go when all of it has been prepared. */
  lemma QuietRelease(room: bool, b: Batch, s: State, a: Action, g: nat)
    requires WellFormedBatch(b) && Shape(b, s) && Enabled(b, s, a) && g < |b.groups|
    requires var s' := Step(b, s, a); g < s'.sent && s'.cause.None? && Unheld(s', g)
    requires forall w :: 0 <= w < |s.workers| ==> WorkerCurrent(room, b, s, s.workers[w])
    requires GroupCurrent(room, b, s, g)
    ensures Current(room, s.cache, b.users[g], b.groups[g])
  {
    var s' := Step(b, s, a);
    StepFrame(b, s, a);
    if Unheld(s, g) && g < s.sent {
      return;
    }
    if Moved(a).Some? {
      var w := Moved(a).value;
      assert !Holds(s'.workers[w], g);
      assert forall v :: 0 <= v < |s.workers| && v != w ==> s'.workers[v] == s.workers[v];
      assert WorkerShape(b, s, s.workers[w]) && WorkerCurrent(room, b, s, s.workers[w]);
      if Holds(s.workers[w], g) {
        assert b.groups[g][..s.workers[w].k] == b.groups[g];
      }
    }
  }

  lemma PrepareWorker(room: bool, b: Batch, s: State, w: nat, encodes: bool, v: nat)
    requires WellFormedBatch(b) && Shape(b, s) && Exclusive(s) && WellFormed(b.capacity, s.cache)
    requires Enabled(b, s, Prepare(w, encodes)) && (room ==> Spacious(b, s.cache))
    requires v < |s.workers| && WorkerCurrent(room, b, s, s.workers[v])
    ensures var s' := Step(b, s, Prepare(w, encodes));
            v < |s'.workers| && WorkerCurrent(room, b, s', s'.workers[v])
  {
    var p, q := s.workers[w], s.workers[v];
    assert WorkerShape(b, s, p) && WorkerShape(b, s, q);
    if q.Busy? {
      var ms := b.groups[q.g][..Prepared(q)];
      PrepareKeeps(room, b, s, w, encodes, b.users[q.g], ms);
      if v == w {
        assert b.groups[q.g][..q.k + 1] == ms + [MessageOf(b, p)];
      } else {
        assert Holds(p, p.g) && Holds(q, q.g);
        assert q.g != p.g && b.users[q.g] != b.users[p.g];
      }
    }
  }

  lemma PrepareGroup(room: bool, b: Batch, s: State, w: nat, encodes: bool, g: nat)
    requires WellFormedBatch(b) && Shape(b, s) && WellFormed(b.capacity, s.cache)
    requires Enabled(b, s, Prepare(w, encodes)) && (room ==> Spacious(b, s.cache))
    requires g < |b.groups| && GroupCurrent(room, b, s, g)
    ensures GroupCurrent(room, b, Step(b, s, Prepare(w, encodes)), g)
  {
    var p, s' := s.workers[w], Step(b, s, Prepare(w, encodes));
    assert WorkerShape(b, s, p);
    if g < s'.sent && s'.cause.None? && Unheld(s', g) {
      assert Holds(s'.workers[w], p.g);
      assert g != p.g && b.users[g] != b.users[p.g];
      forall v | 0 <= v < |s.workers| ensures !Holds(s.workers[v], g) {
        assert v != w ==> s'.workers[v] == s.workers[v];
      }
      PrepareKeeps(room, b, s, w, encodes, b.users[g], b.groups[g]);
    }
  }

  lemma PrepareTokens(room: bool, b: Batch, s: State, w: nat, encodes: bool)
    requires WellFormedBatch(b) && Shape(b, s) && Exclusive(s) && Tokens(room, b, s)
    requires Enabled(b, s, Prepare(w, encodes)) && !s.outside
    ensures var s' := Step(b, s, Prepare(w, encodes));
            && (forall v :: 0 <= v < |s'.workers| ==> WorkerCurrent(room, b, s', s'.workers[v]))
            && (forall g :: 0 <= g < |b.groups| ==> GroupCurrent(room, b, s', g))
  {
    var s' := Step(b, s, Prepare(w, encodes));
    forall v | 0 <= v < |s'.workers| ensures WorkerCurrent(room, b, s', s'.workers[v]) {
      PrepareWorker(room, b, s, w, encodes, v);
    }
    forall g | 0 <= g < |b.groups| ensures GroupCurrent(room, b, s', g) {
      PrepareGroup(room, b, s, w, encodes, g);
    }
  }

  lemma TokensStep(room: bool, b: Batch, s: State, a: Action)
    requires WellFormedBatch(b) && Shape(b, s) && Exclusive(s) && Tokens(room, b, s) && Enabled(b, s, a)
    ensures Tokens(room, b, Step(b, s, a))
  {
    ReplyStep(b, s, a);
    CacheStep(b, s, a);
    if !Step(b, s, a).outside {
      if a.Prepare? {
        PrepareTokens(room, b, s, a.w, a.encodes);
        if room { PrepareHasRoom(b, s, a.w, a.encodes, ""); }
      } else {
        QuietTokens(room, b, s, a);
        if room { QuietHasRoom(b, s, a); }
      }
    }
  }
}
