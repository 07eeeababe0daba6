/** Inbound messages, the handler calls they give rise to, and the grouping of a
    batch by conversation (`listener.go`, `types.go`, `wire.go`). */
module Messages {

  datatype Option<+T> = None | Some(value: T)

  const MSG_TYPE_USER := 1
  const MSG_STATE_FINISH := 2

  datatype Item = Item(kind: int, payload: string)

  datatype Message = Message(
    id: nat,
    fromUser: string,
    msgType: int,
    msgState: int,
    items: seq<Item>,
    contextToken: string,
    hasRaw: bool)

  /** Only finished messages written by users reach a handler. */
  predicate Eligible(m: Message) {
    m.msgType == MSG_TYPE_USER && m.msgState == MSG_STATE_FINISH
  }

  /** One handler invocation: the given item of the given message. */
  datatype Call = Call(msg: Message, item: nat)

  function CallsOf(m: Message): seq<Call> {
    seq(|m.items|, (j: nat) => Call(m, j))
  }

  /** The calls of a list of messages, message by message and item by item. */
  function Flat(ms: seq<Message>): seq<Call> {
    if ms == [] then [] else Flat(ms[..|ms| - 1]) + CallsOf(ms[|ms| - 1])
  }

  /** The eligible messages of one user, in the order received. */
  function ForUser(ms: seq<Message>, user: string): seq<Message> {
    if ms == [] then []
    else
      var m := ms[|ms| - 1];
      ForUser(ms[..|ms| - 1], user) + if Eligible(m) && m.fromUser == user then [m] else []
  }

  /** All eligible messages, in the order received. */
  function EligibleOf(ms: seq<Message>): seq<Message> {
    if ms == [] then []
    else
      var m := ms[|ms| - 1];
      EligibleOf(ms[..|ms| - 1]) + if Eligible(m) then [m] else []
  }

  /** The users with an eligible message, ordered by first appearance. */
  function Users(ms: seq<Message>): seq<string> {
    if ms == [] then []
    else
      var m := ms[|ms| - 1];
      var before := Users(ms[..|ms| - 1]);
      if Eligible(m) && m.fromUser !in before then before + [m.fromUser] else before
  }

  /** The groups that the parallel branch schedules: one per user, by first
      appearance, each holding that user's eligible messages in order. */
  ghost predicate IsGrouping(ms: seq<Message>, groups: seq<seq<Message>>) {
    && |groups| == |Users(ms)|
    && forall g :: 0 <= g < |groups| ==> groups[g] == ForUser(ms, Users(ms)[g])
  }

  /** The calls in a log that belong to one user. */
  function Of(log: seq<Call>, user: string): seq<Call> {
    if log == [] then []
    else
      var c := log[|log| - 1];
      Of(log[..|log| - 1], user) + if c.msg.fromUser == user then [c] else []
  }

  lemma OfAppend(log: seq<Call>, c: Call, user: string)
    ensures Of(log + [c], user) == Of(log, user) + if c.msg.fromUser == user then [c] else []
  {
    assert (log + [c])[..|log|] == log;
  }

  lemma {:induction false} OfConcat(a: seq<Call>, b: seq<Call>, user: string)
    ensures Of(a + b, user) == Of(a, user) + Of(b, user)
    decreases |b|
  {
    if b == [] {
      assert a + b == a;
    } else {
      var n := |b| - 1;
      assert a + b == (a + b[..n]) + [b[n]];
      OfAppend(a + b[..n], b[n], user);
      OfConcat(a, b[..n], user);
    }
  }

  lemma {:induction false} OfSingleUser(log: seq<Call>, owner: string, user: string)
    requires forall c <- log :: c.msg.fromUser == owner
    ensures Of(log, user) == if user == owner then log else []
    decreases |log|
  {
    if log != [] {
      OfSingleUser(log[..|log| - 1], owner, user);
    }
  }

  lemma FlatAppend(ms: seq<Message>, m: Message)
    ensures Flat(ms + [m]) == Flat(ms) + CallsOf(m)
  {
    assert (ms + [m])[..|ms|] == ms;
  }

  /** The calls of an initial part of a group are an initial part of its calls. */
  lemma {:induction false} FlatPrefix(ms: seq<Message>, k: nat)
    requires k <= |ms|
    ensures Flat(ms[..k]) <= Flat(ms)
    decreases |ms| - k
  {
    if k == |ms| {
      assert ms[..k] == ms;
    } else {
      FlatPrefix(ms, k + 1);
      assert ms[..k + 1] == ms[..k] + [ms[k]];
      FlatAppend(ms[..k], ms[k]);
    }
  }

  lemma {:induction false} InFlat(ms: seq<Message>, i: nat, j: nat)
    requires i < |ms| && j < |ms[i].items|
    ensures Call(ms[i], j) in Flat(ms)
    decreases |ms|
  {
    var n := |ms| - 1;
    if i < n {
      InFlat(ms[..n], i, j);
    } else {
      assert CallsOf(ms[n])[j] == Call(ms[n], j);
    }
  }

  lemma {:induction false} ForUserMembers(ms: seq<Message>, user: string)
    ensures forall m <- ForUser(ms, user) :: m in ms && Eligible(m) && m.fromUser == user
    ensures forall m <- ms :: Eligible(m) && m.fromUser == user ==> m in ForUser(ms, user)
    decreases |ms|
  {
    if ms != [] {
      ForUserMembers(ms[..|ms| - 1], user);
    }
  }

  lemma {:induction false} UsersDistinct(ms: seq<Message>)
    ensures forall i, j :: 0 <= i < j < |Users(ms)| ==> Users(ms)[i] != Users(ms)[j]
    ensures forall m <- ms :: Eligible(m) ==> m.fromUser in Users(ms)
    ensures forall u <- Users(ms) :: ForUser(ms, u) != []
    decreases |ms|
  {
    if ms != [] {
      UsersDistinct(ms[..|ms| - 1]);
    }
  }

  lemma HasGroup(ms: seq<Message>, user: string)
    ensures ForUser(ms, user) != [] <==> user in Users(ms)
  {
    ForUserMembers(ms, user);
    UsersDistinct(ms);
    if ForUser(ms, user) != [] {
      assert ForUser(ms, user)[0] in ForUser(ms, user);
    }
  }

  lemma ForUserAppend(ms: seq<Message>, m: Message, user: string)
    ensures ForUser(ms + [m], user) == ForUser(ms, user) + if Eligible(m) && m.fromUser == user then [m] else []
    ensures EligibleOf(ms + [m]) == EligibleOf(ms) + if Eligible(m) then [m] else []
  {
    assert (ms + [m])[..|ms|] == ms;
  }

  /** Grouping loses, duplicates and reorders nothing: seen by any one user, the
      calls of the serial branch are exactly the calls of that user's group. */
  lemma {:induction false} GroupingMatchesSerial(ms: seq<Message>, user: string)
    ensures Of(Flat(EligibleOf(ms)), user) == Flat(ForUser(ms, user))
    decreases |ms|
  {
    if ms != [] {
      var before, m := ms[..|ms| - 1], ms[|ms| - 1];
      GroupingMatchesSerial(before, user);
      assert ms == before + [m];
      ForUserAppend(before, m, user);
      if Eligible(m) {
        FlatAppend(EligibleOf(before), m);
        if m.fromUser == user {
          FlatAppend(ForUser(before, user), m);
        }
        OfConcat(Flat(EligibleOf(before)), CallsOf(m), user);
        OfSingleUser(CallsOf(m), m.fromUser, user);
        assert Flat(EligibleOf(ms)) == Flat(EligibleOf(before)) + CallsOf(m);
        if m.fromUser != user {
          assert ForUser(ms, user) == ForUser(before, user);
        }
      } else {
        assert EligibleOf(ms) == EligibleOf(before) && ForUser(ms, user) == ForUser(before, user);
      }
    }
  }

  lemma UsersAppend(ms: seq<Message>, m: Message)
    ensures Users(ms + [m]) ==
            if Eligible(m) && m.fromUser !in Users(ms) then Users(ms) + [m.fromUser] else Users(ms)
  {
    assert (ms + [m])[..|ms|] == ms;
  }

  lemma GroupingSkips(ms: seq<Message>, m: Message, groups: seq<seq<Message>>)
    requires IsGrouping(ms, groups) && !Eligible(m)
    ensures IsGrouping(ms + [m], groups)
  {
    UsersAppend(ms, m);
    forall h | 0 <= h < |groups|
      ensures groups[h] == ForUser(ms + [m], Users(ms)[h])
    {
      ForUserAppend(ms, m, Users(ms)[h]);
    }
  }

  lemma GroupingOpens(ms: seq<Message>, m: Message, groups: seq<seq<Message>>)
    requires IsGrouping(ms, groups) && Eligible(m) && m.fromUser !in Users(ms)
    ensures IsGrouping(ms + [m], groups + [[m]])
  {
    UsersAppend(ms, m);
    forall h | 0 <= h < |groups|
      ensures groups[h] == ForUser(ms + [m], Users(ms)[h])
    {
      ForUserAppend(ms, m, Users(ms)[h]);
    }
    HasGroup(ms, m.fromUser);
    ForUserAppend(ms, m, m.fromUser);
  }

  lemma GroupingExtends(ms: seq<Message>, m: Message, groups: seq<seq<Message>>, g: nat)
    requires IsGrouping(ms, groups) && Eligible(m)
    requires g < |groups| && Users(ms)[g] == m.fromUser
    ensures IsGrouping(ms + [m], groups[g := groups[g] + [m]])
  {
    UsersAppend(ms, m);
    UsersDistinct(ms);
    forall h | 0 <= h < |groups|
      ensures ForUser(ms + [m], Users(ms)[h]) == groups[h] + if h == g then [m] else []
    {
      ForUserAppend(ms, m, Users(ms)[h]);
    }
  }

  /** The grouping loop of `processBatch`. */
  method GroupByUser(messages: seq<Message>) returns (groups: seq<seq<Message>>)
    ensures IsGrouping(messages, groups)
  {
    var indexes: map<string, nat> := map[];
    groups := [];
    for i := 0 to |messages|
      invariant IsGrouping(messages[..i], groups)
      invariant forall u :: u in indexes <==> u in Users(messages[..i])
      invariant forall u <- indexes :: indexes[u] < |groups| && Users(messages[..i])[indexes[u]] == u
    {
      var m := messages[i];
      ghost var before := messages[..i];
      assert messages[..i + 1] == before + [m];
      UsersAppend(before, m);
      if m.msgType != MSG_TYPE_USER || m.msgState != MSG_STATE_FINISH {
        GroupingSkips(before, m, groups);
        continue;
      }
      ghost var known := groups;
      if m.fromUser in indexes {
        GroupingExtends(before, m, groups, indexes[m.fromUser]);
      } else {
        GroupingOpens(before, m, groups);
        indexes := indexes[m.fromUser := |groups|];
        groups := groups + [[]];
      }
      var index := indexes[m.fromUser];
      groups := groups[index := groups[index] + [m]];
      assert index == |known| ==> groups == known + [[m]];
    }
    assert messages[..|messages|] == messages;
  }
}
