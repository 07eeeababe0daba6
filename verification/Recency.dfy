/** The conversation-token cache as a plain most-recent-first sequence
    (`client.go`, `SetContextToken`, `ContextToken`, `ForgetContextToken`), and
    what any sequence of cache operations guarantees. */
module Recency {

  datatype Entry = Entry(user: string, token: string)

  /** No user has two entries. */
  ghost predicate Distinct(c: seq<Entry>) {
    c == [] || (!Cached(c[1..], c[0].user) && Distinct(c[1..]))
  }

  /** What every reachable cache of the given capacity satisfies. */
  ghost predicate WellFormed(capacity: nat, c: seq<Entry>) {
    && Distinct(c)
    && |c| <= capacity
    && forall e <- c :: e.user != "" && e.token != ""
  }

  predicate Cached(c: seq<Entry>, user: string) {
    c != [] && (c[0].user == user || Cached(c[1..], user))
  }

  function Without(c: seq<Entry>, user: string): seq<Entry> {
    if c == [] then []
    else if c[0].user == user then Without(c[1..], user)
    else [c[0]] + Without(c[1..], user)
  }

  /** The cached token, or the empty string on a miss. */
  function Lookup(c: seq<Entry>, user: string): string {
    if c == [] then ""
    else if c[0].user == user then c[0].token
    else Lookup(c[1..], user)
  }

  function SetToken(capacity: nat, c: seq<Entry>, user: string, token: string): seq<Entry> {
    if token == "" then Without(c, user)
    else if user == "" then c
    else
      var front := [Entry(user, token)] + Without(c, user);
      if |front| > capacity then front[..|front| - 1] else front
  }

  /** A hit moves the entry to the front; a miss changes nothing. */
  function Touch(c: seq<Entry>, user: string): seq<Entry> {
    if Cached(c, user) then [Entry(user, Lookup(c, user))] + Without(c, user) else c
  }

  datatype Op = Set(user: string, token: string) | Get(user: string) | Forget(user: string)

  function Apply(capacity: nat, c: seq<Entry>, op: Op): seq<Entry> {
    match op
    case Set(u, t) => SetToken(capacity, c, u, t)
    case Get(u) => Touch(c, u)
    case Forget(u) => Without(c, u)
  }

  function Run(capacity: nat, c: seq<Entry>, ops: seq<Op>): seq<Entry> {
    if ops == [] then c
    else Apply(capacity, Run(capacity, c, ops[..|ops| - 1]), ops[|ops| - 1])
  }

  // ----- the elementary operations

  lemma {:induction false} CachedMeansPresent(c: seq<Entry>, user: string)
    ensures Cached(c, user) <==> exists i :: 0 <= i < |c| && c[i].user == user
  {
    if c != [] {
      CachedMeansPresent(c[1..], user);
      if i :| 0 <= i < |c| && c[i].user == user {
        if i > 0 { assert c[1..][i - 1].user == user; }
      }
    }
  }

  lemma {:induction false} DistinctAt(c: seq<Entry>, i: nat, j: nat)
    requires Distinct(c) && i < j < |c|
    ensures c[i].user != c[j].user
  {
    if i == 0 {
      CachedMeansPresent(c[1..], c[0].user);
      assert c[1..][j - 1] == c[j];
    } else {
      DistinctAt(c[1..], i - 1, j - 1);
    }
  }

  lemma {:induction false} DistinctTake(c: seq<Entry>, n: nat)
    requires Distinct(c) && n <= |c|
    ensures Distinct(c[..n])
    ensures forall u :: Cached(c[..n], u) ==> Cached(c, u)
  {
    if n > 0 {
      assert c[..n][1..] == c[1..][..n - 1];
      DistinctTake(c[1..], n - 1);
    }
  }

  lemma {:induction false} WithoutFacts(c: seq<Entry>, user: string)
    ensures |Without(c, user)| <= |c|
    ensures Cached(c, user) ==> |Without(c, user)| < |c|
    ensures !Cached(c, user) ==> Without(c, user) == c
    ensures forall e :: e in Without(c, user) <==> e in c && e.user != user
    ensures forall u :: Cached(Without(c, user), u) <==> Cached(c, u) && u != user
  {
    if c != [] {
      WithoutFacts(c[1..], user);
      if c[0].user != user {
        assert Without(c, user)[1..] == Without(c[1..], user);
      }
    }
  }

  lemma {:induction false} WithoutDistinct(c: seq<Entry>, user: string)
    requires Distinct(c)
    ensures Distinct(Without(c, user))
  {
    if c != [] {
      WithoutDistinct(c[1..], user);
      WithoutFacts(c[1..], user);
      if c[0].user != user {
        assert Without(c, user)[1..] == Without(c[1..], user);
      }
    }
  }

  lemma {:induction false} LookupWithout(c: seq<Entry>, removed: string, user: string)
    ensures Lookup(Without(c, removed), user) == if user == removed then "" else Lookup(c, user)
  {
    if c != [] {
      LookupWithout(c[1..], removed, user);
    }
  }

  lemma {:induction false} LookupIsMember(c: seq<Entry>, user: string)
    requires Distinct(c)
    ensures Cached(c, user) <==> Entry(user, Lookup(c, user)) in c
    ensures !Cached(c, user) ==> Lookup(c, user) == ""
    ensures forall e <- c :: e.user == user ==> Cached(c, user) && e.token == Lookup(c, user)
  {
    if c != [] {
      LookupIsMember(c[1..], user);
    }
  }

  /** The entry at a known position is the only one of its user. */
  lemma {:induction false} WithoutAt(c: seq<Entry>, k: nat)
    requires Distinct(c) && k < |c|
    ensures Without(c, c[k].user) == c[..k] + c[k + 1..]
    ensures Cached(c, c[k].user) && Lookup(c, c[k].user) == c[k].token
  {
    if k == 0 {
      WithoutFacts(c[1..], c[0].user);
    } else {
      WithoutAt(c[1..], k - 1);
      assert c[..k] + c[k + 1..] == [c[0]] + (c[1..][..k - 1] + c[1..][k..]);
    }
  }

  lemma {:induction false} LookupDropLast(c: seq<Entry>, user: string)
    requires c != [] && Distinct(c)
    ensures Lookup(c[..|c| - 1], user) == if user == c[|c| - 1].user then "" else Lookup(c, user)
  {
    if |c| > 1 {
      DistinctAt(c, 0, |c| - 1);
      assert c[..|c| - 1][1..] == c[1..][..|c| - 2];
      LookupDropLast(c[1..], user);
    }
  }

  /** A read never changes what any user would read next. */
  lemma LookupTouch(c: seq<Entry>, touched: string, user: string)
    ensures Lookup(Touch(c, touched), user) == Lookup(c, user)
  {
    LookupWithout(c, touched, user);
  }

  /** Setting one user's token is read back at once, and can only evict others. */
  lemma LookupSet(capacity: nat, c: seq<Entry>, set_: string, token: string, user: string)
    requires WellFormed(capacity, c) && capacity > 0 && set_ != "" && token != ""
    ensures user == set_ ==> Lookup(SetToken(capacity, c, set_, token), user) == token
    ensures user != set_ ==> Lookup(SetToken(capacity, c, set_, token), user) in {"", Lookup(c, user)}
  {
    var front := [Entry(set_, token)] + Without(c, set_);
    WithoutFacts(c, set_);
    WithoutDistinct(c, set_);
    LookupWithout(c, set_, user);
    LookupDropLast(front, user);
  }

  lemma FrontWellFormed(c: seq<Entry>, user: string, token: string)
    requires Distinct(c)
    ensures Distinct([Entry(user, token)] + Without(c, user))
  {
    WithoutFacts(c, user);
    WithoutDistinct(c, user);
  }

  lemma SetWellFormed(capacity: nat, c: seq<Entry>, user: string, token: string)
    requires WellFormed(capacity, c) && capacity > 0 && user != "" && token != ""
    ensures WellFormed(capacity, SetToken(capacity, c, user, token))
  {
    WithoutFacts(c, user);
    FrontWellFormed(c, user, token);
    var front := [Entry(user, token)] + Without(c, user);
    DistinctTake(front, |front| - 1);
  }

  lemma TouchWellFormed(capacity: nat, c: seq<Entry>, user: string)
    requires WellFormed(capacity, c)
    ensures WellFormed(capacity, Touch(c, user))
  {
    WithoutFacts(c, user);
    LookupIsMember(c, user);
    FrontWellFormed(c, user, Lookup(c, user));
  }

  lemma ApplyWellFormed(capacity: nat, c: seq<Entry>, op: Op)
    requires WellFormed(capacity, c) && capacity > 0
    ensures WellFormed(capacity, Apply(capacity, c, op))
  {
    WithoutFacts(c, op.user);
    WithoutDistinct(c, op.user);
    match op
    case Set(u, t) => if u != "" && t != "" { SetWellFormed(capacity, c, u, t); }
    case Get(u) => TouchWellFormed(capacity, c, u);
    case Forget(_) =>
  }

  /** Setting or reading a user whose entry is known by its position. */
  lemma UseAt(capacity: nat, c: seq<Entry>, k: nat, token: string)
    requires WellFormed(capacity, c) && k < |c| && token != ""
    ensures var rest := c[..k] + c[k + 1..];
            && SetToken(capacity, c, c[k].user, token) == [Entry(c[k].user, token)] + rest
            && Touch(c, c[k].user) == [c[k]] + rest
            && WellFormed(capacity, [Entry(c[k].user, token)] + rest)
            && WellFormed(capacity, [c[k]] + rest)
            && WellFormed(capacity, rest)
  {
    WithoutAt(c, k);
    assert c[k] in c;
    ApplyWellFormed(capacity, c, Set(c[k].user, token));
    ApplyWellFormed(capacity, c, Get(c[k].user));
    ApplyWellFormed(capacity, c, Forget(c[k].user));
  }

  lemma {:induction false} RunWellFormed(capacity: nat, c: seq<Entry>, ops: seq<Op>)
    requires WellFormed(capacity, c) && capacity > 0
    ensures WellFormed(capacity, Run(capacity, c, ops))
    decreases |ops|
  {
    if ops != [] {
      RunWellFormed(capacity, c, ops[..|ops| - 1]);
      ApplyWellFormed(capacity, Run(capacity, c, ops[..|ops| - 1]), ops[|ops| - 1]);
    }
  }

  // ----- freshness

  /** What an unbounded map would hold after the operations. */
  function LastWrite(ops: seq<Op>, user: string): string {
    if ops == [] then ""
    else
      match ops[|ops| - 1]
      case Set(u, t) => if u == user && user != "" then t else LastWrite(ops[..|ops| - 1], user)
      case Get(_) => LastWrite(ops[..|ops| - 1], user)
      case Forget(u) => if u == user then "" else LastWrite(ops[..|ops| - 1], user)
  }

  /** Over every trace a read is either a miss or the last token written. */
  lemma {:induction false} Fresh(capacity: nat, ops: seq<Op>, user: string)
    requires capacity > 0
    ensures Lookup(Run(capacity, [], ops), user) in {"", LastWrite(ops, user)}
    ensures Cached(Run(capacity, [], ops), user) <==> Lookup(Run(capacity, [], ops), user) != ""
    decreases |ops|
  {
    RunWellFormed(capacity, [], ops);
    LookupIsMember(Run(capacity, [], ops), user);
    if ops != [] {
      var before, op := ops[..|ops| - 1], ops[|ops| - 1];
      Fresh(capacity, before, user);
      var c := Run(capacity, [], before);
      RunWellFormed(capacity, [], before);
      LookupWithout(c, op.user, user);
      LookupTouch(c, op.user, user);
      if op.Set? && op.user != "" && op.token != "" {
        LookupSet(capacity, c, op.user, op.token, user);
      }
    }
  }

  // ----- room

  /** The users with an entry. */
  ghost function UsersOf(c: seq<Entry>): (users: set<string>)
    ensures forall u :: u in users <==> Cached(c, u)
  {
    if c == [] then {} else {c[0].user} + UsersOf(c[1..])
  }

  lemma {:induction false} AsManyUsers(c: seq<Entry>)
    requires Distinct(c)
    ensures |UsersOf(c)| == |c|
  {
    if c != [] {
      AsManyUsers(c[1..]);
    }
  }

  lemma {:induction false} AtMost(some: set<string>, all: set<string>)
    requires some <= all
    ensures |some| <= |all|
  {
    if some != {} {
      var u :| u in some;
      AtMost(some - {u}, all - {u});
    }
  }

  /** Where all users that come up fit into the cache, setting a token evicts nobody. */
  lemma NoEviction(capacity: nat, c: seq<Entry>, all: set<string>, set_: string, token: string, user: string)
    requires WellFormed(capacity, c) && set_ != "" && token != ""
    requires UsersOf(c) <= all && set_ in all && |all| <= capacity
    ensures Lookup(SetToken(capacity, c, set_, token), user) == if user == set_ then token else Lookup(c, user)
    ensures UsersOf(SetToken(capacity, c, set_, token)) <= all
  {
    var front := [Entry(set_, token)] + Without(c, set_);
    WithoutFacts(c, set_);
    FrontWellFormed(c, set_, token);
    assert UsersOf(front) <= all;
    AsManyUsers(front);
    AtMost(UsersOf(front), all);
    LookupWithout(c, set_, user);
  }

  // ----- retention

  /** The users ahead of the given one, that is, more recently used. */
  function Ahead(c: seq<Entry>, user: string): set<string> {
    if c == [] || c[0].user == user then {} else {c[0].user} + Ahead(c[1..], user)
  }

  /** What an operation does to the users ahead of an untouched one. */
  function NextRivals(c: seq<Entry>, rivals: set<string>, op: Op): set<string> {
    match op
    case Set(u, t) => if t == "" then rivals - {u} else if u == "" then rivals else rivals + {u}
    case Get(u) => if Cached(c, u) then rivals + {u} else rivals
    case Forget(u) => rivals - {u}
  }

  /** The other users set or hit since, and not forgotten again. */
  function Rivals(capacity: nat, c: seq<Entry>, ops: seq<Op>): set<string> {
    if ops == [] then {}
    else
      var before, op := ops[..|ops| - 1], ops[|ops| - 1];
      NextRivals(Run(capacity, c, before), Rivals(capacity, c, before), op)
  }

  ghost predicate Crowded(capacity: nat, c: seq<Entry>, ops: seq<Op>) {
    exists k :: 0 <= k <= |ops| && |Rivals(capacity, c, ops[..k])| >= capacity
  }

  lemma {:induction false} AheadCached(c: seq<Entry>, user: string, other: string)
    requires Distinct(c) && other in Ahead(c, user)
    ensures other != user && Cached(c, other)
  {
    if other != c[0].user {
      AheadCached(c[1..], user, other);
    }
  }

  lemma {:induction false} CachedBound(c: seq<Entry>, user: string)
    requires Distinct(c) && Cached(c, user)
    ensures |Ahead(c, user)| < |c|
  {
    if c[0].user != user {
      CachedBound(c[1..], user);
    }
  }

  lemma {:induction false} AheadDropLast(c: seq<Entry>, user: string)
    requires Distinct(c) && c != [] && Cached(c, user)
    ensures Cached(c[..|c| - 1], user) <==> |Ahead(c, user)| < |c| - 1
    ensures Cached(c[..|c| - 1], user) ==> Ahead(c[..|c| - 1], user) == Ahead(c, user)
  {
    if c[0].user != user {
      var tail := c[1..];
      AheadDropLast(tail, user);
      assert c[..|c| - 1][1..] == tail[..|tail| - 1];
      if c[0].user in Ahead(tail, user) {
        AheadCached(tail, user, c[0].user);
        assert false;
      }
    }
  }

  lemma {:induction false} AheadWithout(c: seq<Entry>, removed: string, user: string)
    requires Distinct(c) && removed != user
    ensures Ahead(Without(c, removed), user) == Ahead(c, user) - {removed}
    ensures Cached(Without(c, removed), user) <==> Cached(c, user)
  {
    if c != [] {
      AheadWithout(c[1..], removed, user);
      if c[0].user == removed && removed in Ahead(c[1..], user) {
        AheadCached(c[1..], user, removed);
        assert false;
      }
    }
  }

  /** Moving an entry to the front puts one more user ahead. */
  lemma AheadOfFront(c: seq<Entry>, e: Entry, user: string)
    requires Distinct(c) && Cached(c, user) && e.user != user
    ensures var front := [e] + Without(c, e.user);
            && Distinct(front) && Cached(front, user)
            && Ahead(front, user) == Ahead(c, user) + {e.user}
  {
    var front := [e] + Without(c, e.user);
    AheadWithout(c, e.user, user);
    FrontWellFormed(c, e.user, e.token);
    assert front[1..] == Without(c, e.user);
  }

  lemma SetCrowds(capacity: nat, c: seq<Entry>, user: string, other: string, token: string)
    requires WellFormed(capacity, c) && Cached(c, user)
    requires other != user && other != "" && token != ""
    ensures var next, rivals := SetToken(capacity, c, other, token), Ahead(c, user) + {other};
            && (Cached(next, user) <==> |rivals| < capacity)
            && (Cached(next, user) ==> Ahead(next, user) == rivals)
  {
    var front := [Entry(other, token)] + Without(c, other);
    WithoutFacts(c, other);
    AheadOfFront(c, Entry(other, token), user);
    CachedBound(front, user);
    AheadDropLast(front, user);
  }

  lemma HitCrowds(capacity: nat, c: seq<Entry>, user: string, other: string)
    requires WellFormed(capacity, c) && Cached(c, user) && Cached(c, other) && other != user
    ensures var next, rivals := Touch(c, other), Ahead(c, user) + {other};
            Cached(next, user) && |rivals| < capacity && Ahead(next, user) == rivals
  {
    WithoutFacts(c, other);
    AheadOfFront(c, Entry(other, Lookup(c, other)), user);
    CachedBound(Touch(c, other), user);
  }

  lemma RemovalClears(capacity: nat, c: seq<Entry>, user: string, other: string)
    requires WellFormed(capacity, c) && Cached(c, user) && other != user
    ensures var next, rivals := Without(c, other), Ahead(c, user) - {other};
            Cached(next, user) && |rivals| < capacity && Ahead(next, user) == rivals
  {
    WithoutFacts(c, other);
    WithoutDistinct(c, other);
    AheadWithout(c, other, user);
    CachedBound(Without(c, other), user);
  }

  lemma RivalsStayAhead(capacity: nat, c: seq<Entry>, user: string, op: Op)
    requires WellFormed(capacity, c) && capacity > 0 && Cached(c, user) && op.user != user
    ensures var next, rivals := Apply(capacity, c, op), NextRivals(c, Ahead(c, user), op);
            && (Cached(next, user) <==> |rivals| < capacity)
            && (Cached(next, user) ==> Ahead(next, user) == rivals)
  {
    CachedBound(c, user);
    if op.Set? && op.token != "" {
      if op.user != "" {
        SetCrowds(capacity, c, user, op.user, op.token);
      }
    } else if op.Get? {
      if Cached(c, op.user) {
        HitCrowds(capacity, c, user, op.user);
      }
    } else {
      RemovalClears(capacity, c, user, op.user);
    }
  }

  /** A user at the front stays cached exactly until `capacity` distinct other
      users are, at one moment, set or hit since and not forgotten. */
  lemma {:induction false} Retention(capacity: nat, c: seq<Entry>, ops: seq<Op>, user: string)
    requires WellFormed(capacity, c) && capacity > 0 && c != [] && c[0].user == user
    requires forall op <- ops :: op.user != user
    ensures Cached(Run(capacity, c, ops), user) <==> !Crowded(capacity, c, ops)
    ensures Cached(Run(capacity, c, ops), user) ==>
              Ahead(Run(capacity, c, ops), user) == Rivals(capacity, c, ops)
    decreases |ops|
  {
    if ops == [] {
      assert forall k :: 0 <= k <= |ops| ==> ops[..k] == [];
    } else {
      var before, op := ops[..|ops| - 1], ops[|ops| - 1];
      Retention(capacity, c, before, user);
      CrowdedStep(capacity, c, before, op);
      assert ops == before + [op];
      RunWellFormed(capacity, c, before);
      var now := Run(capacity, c, before);
      if Cached(now, user) {
        RivalsStayAhead(capacity, now, user, op);
      } else {
        StaysOut(capacity, now, op, user);
      }
    }
  }

  lemma CrowdedStep(capacity: nat, c: seq<Entry>, before: seq<Op>, op: Op)
    ensures Crowded(capacity, c, before + [op]) <==>
            Crowded(capacity, c, before) || |Rivals(capacity, c, before + [op])| >= capacity
  {
    var ops := before + [op];
    assert ops[..|ops|] == ops;
    assert forall k :: 0 <= k <= |before| ==> ops[..k] == before[..k];
    if k :| 0 <= k <= |before| && |Rivals(capacity, c, before[..k])| >= capacity {
      assert |Rivals(capacity, c, ops[..k])| >= capacity;
    }
    if |Rivals(capacity, c, ops)| >= capacity {
      assert |Rivals(capacity, c, ops[..|ops|])| >= capacity;
    }
    if k :| 0 <= k <= |ops| && |Rivals(capacity, c, ops[..k])| >= capacity {
      if k <= |before| {
        assert |Rivals(capacity, c, before[..k])| >= capacity;
      } else {
        assert ops[..k] == ops;
      }
    }
  }

  /** No operation on other users brings an absent user back. */
  lemma StaysOut(capacity: nat, c: seq<Entry>, op: Op, user: string)
    requires WellFormed(capacity, c) && capacity > 0 && !Cached(c, user) && op.user != user
    ensures !Cached(Apply(capacity, c, op), user)
  {
    var next := Apply(capacity, c, op);
    ApplyWellFormed(capacity, c, op);
    LookupIsMember(next, user);
    WithoutFacts(c, op.user);
    LookupIsMember(c, user);
  }

  // ----- runs that only set

  ghost predicate SetsOnly(ops: seq<Op>) {
    forall op <- ops :: op.Set? && op.user != "" && op.token != ""
  }

  /** Every user ever set, the one set last first, with the last token. */
  function MostRecent(ops: seq<Op>): seq<Entry>
    requires SetsOnly(ops)
  {
    if ops == [] then []
    else
      var op := ops[|ops| - 1];
      [Entry(op.user, op.token)] + Without(MostRecent(ops[..|ops| - 1]), op.user)
  }

  lemma {:induction false} WithoutTake(c: seq<Entry>, n: nat, user: string)
    requires Distinct(c) && n <= |c|
    ensures Without(c[..n], user) <= Without(c, user)
  {
    if n > 0 {
      assert c[..n][1..] == c[1..][..n - 1];
      WithoutTake(c[1..], n - 1, user);
      if c[0].user == user {
        WithoutFacts(c[1..], user);
        DistinctTake(c[1..], n - 1);
        WithoutFacts(c[..n][1..], user);
      }
    }
  }

  lemma {:induction false} WithoutSize(c: seq<Entry>, user: string)
    requires Distinct(c)
    ensures |Without(c, user)| >= |c| - 1
  {
    if c != [] {
      WithoutSize(c[1..], user);
      WithoutFacts(c[1..], user);
    }
  }

  function FirstN(c: seq<Entry>, n: nat): seq<Entry> {
    if |c| <= n then c else c[..n]
  }

  lemma SetOnlyStep(capacity: nat, all: seq<Entry>, user: string, token: string)
    requires Distinct(all) && user != "" && token != "" && capacity > 0
    ensures SetToken(capacity, FirstN(all, capacity), user, token) ==
            FirstN([Entry(user, token)] + Without(all, user), capacity)
  {
    var kept := FirstN(all, capacity);
    var front, next := [Entry(user, token)] + Without(kept, user), [Entry(user, token)] + Without(all, user);
    assert kept == all[..|kept|];
    assert front <= next by { WithoutTake(all, |kept|, user); }
    assert |front| <= |kept| + 1 by { WithoutFacts(kept, user); }
    if |all| > capacity {
      assert capacity <= |front| && capacity < |next| by {
        DistinctTake(all, |kept|);
        WithoutSize(kept, user);
        WithoutSize(all, user);
      }
    }
  }

  /** After a run that only sets, the cache is the `capacity` most recent users. */
  lemma {:induction false} SetOnlyRun(capacity: nat, ops: seq<Op>)
    requires SetsOnly(ops) && capacity > 0
    ensures Run(capacity, [], ops) == FirstN(MostRecent(ops), capacity)
    decreases |ops|
  {
    if ops != [] {
      var before, op := ops[..|ops| - 1], ops[|ops| - 1];
      SetOnlyRun(capacity, before);
      MostRecentFacts(before);
      SetOnlyStep(capacity, MostRecent(before), op.user, op.token);
    }
  }

  lemma {:induction false} MostRecentFacts(ops: seq<Op>)
    requires SetsOnly(ops)
    ensures Distinct(MostRecent(ops))
    decreases |ops|
  {
    if ops != [] {
      var before, op := ops[..|ops| - 1], ops[|ops| - 1];
      MostRecentFacts(before);
      FrontWellFormed(MostRecent(before), op.user, op.token);
    }
  }

  lemma {:induction false} RunConcat(capacity: nat, c: seq<Entry>, a: seq<Op>, b: seq<Op>)
    ensures Run(capacity, c, a + b) == Run(capacity, Run(capacity, c, a), b)
    decreases |b|
  {
    if b == [] {
      assert a + b == a;
    } else {
      assert (a + b)[..|a + b| - 1] == a + b[..|b| - 1];
      RunConcat(capacity, c, a, b[..|b| - 1]);
    }
  }

  /** The operation sets a token or is a read that hits. */
  predicate Uses(c: seq<Entry>, op: Op) {
    if op.Set? then op.user != "" && op.token != "" else op.Get? && Cached(c, op.user)
  }

  /** Over every trace: a user set or hit, and left alone since, is cached exactly
      if at no moment since had `capacity` other users been set or hit and kept. */
  lemma RetainedAfterUse(capacity: nat, before: seq<Op>, op: Op, after: seq<Op>)
    requires capacity > 0
    requires Uses(Run(capacity, [], before), op)
    requires forall later <- after :: later.user != op.user
    ensures Cached(Run(capacity, [], before + [op] + after), op.user) <==>
            !Crowded(capacity, Run(capacity, [], before + [op]), after)
  {
    var c := Run(capacity, [], before);
    assert (before + [op])[..|before|] == before;
    RunWellFormed(capacity, [], before);
    RunWellFormed(capacity, [], before + [op]);
    RunConcat(capacity, [], before + [op], after);
    Retention(capacity, Run(capacity, [], before + [op]), after, op.user);
  }

  function UsersSet(ops: seq<Op>): set<string> {
    set op <- ops :: op.user
  }

  lemma {:induction false} SetOnlyRivals(capacity: nat, c: seq<Entry>, ops: seq<Op>)
    requires SetsOnly(ops)
    ensures Rivals(capacity, c, ops) == UsersSet(ops)
    decreases |ops|
  {
    if ops != [] {
      var before, op := ops[..|ops| - 1], ops[|ops| - 1];
      SetOnlyRivals(capacity, c, before);
      assert forall o :: o in ops <==> o in before || o == op;
    }
  }

  lemma SubsetSize<T>(a: set<T>, b: set<T>)
    requires a <= b
    ensures |a| <= |b|
  {
    assert b == a + (b - a);
  }

  /** In a run that only sets, a user is cached exactly if fewer than `capacity`
      distinct users were set after that user's last set. */
  lemma SetOnlyExact(capacity: nat, before: seq<Op>, last: Op, after: seq<Op>)
    requires capacity > 0 && SetsOnly(before + [last] + after)
    requires last.user !in UsersSet(after)
    ensures Cached(Run(capacity, [], before + [last] + after), last.user) <==> |UsersSet(after)| < capacity
  {
    var ops := before + [last] + after;
    var c := Run(capacity, [], before + [last]);
    assert ops[|before|] == last && after == ops[|before| + 1..];
    assert forall op <- after :: op.user in UsersSet(after);
    RetainedAfterUse(capacity, before, last, after);
    forall k | 0 <= k <= |after|
      ensures |Rivals(capacity, c, after[..k])| <= |UsersSet(after)|
    {
      SetOnlyRivals(capacity, c, after[..k]);
      SubsetSize(UsersSet(after[..k]), UsersSet(after));
    }
    SetOnlyRivals(capacity, c, after);
    assert after[..|after|] == after;
  }
}
