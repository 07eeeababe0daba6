/** What `Start` promises over every run, with any number of restarts. */
module ListenerTheorems {
  import opened Messages
  import opened Listener
  import Store = CursorStore

  // ----- the counters

  /** Empty-cursor expiries since the last accepted poll, seen in the history only. */
  function EmptyExpiries(polls: seq<PollKind>): nat {
    if polls == [] || polls[|polls| - 1].PollAccepted? then 0
    else EmptyExpiries(polls[..|polls| - 1]) + if polls[|polls| - 1].ExpiredEmpty? then 1 else 0
  }

  /** Unaccepted polls since the last accepted one. */
  function Failures(polls: seq<PollKind>): nat {
    if polls == [] || polls[|polls| - 1].PollAccepted? then 0 else Failures(polls[..|polls| - 1]) + 1
  }

  predicate OnlyExpired(polls: seq<PollKind>) {
    polls == [] ||
    var last := polls[|polls| - 1];
    (last.ExpiredEmpty? || last.ExpiredCursor?) && OnlyExpired(polls[..|polls| - 1])
  }

  /** The one expiry that a run starting with a cursor spends on clearing it. */
  function Extra(s: State): nat {
    if s.firstCursor != "" then 1 else 0
  }

  ghost predicate LoopCounters(c: Setup, s: State, cursor: string, failures: nat, expired: nat) {
    && expired == EmptyExpiries(s.polls) && failures == Failures(s.polls)
    && expired < c.threshold && expired <= failures
    && (expired > 0 ==> cursor == "")
    && (OnlyExpired(s.polls) ==>
          && |s.polls| == expired + (if s.polls == [] then 0 else Extra(s))
          && (cursor == "" <==> s.polls != [] || s.firstCursor == ""))
  }

  ghost predicate Counters(c: Setup, s: State) {
    match s.pc
    case Down(outcome) =>
      (outcome.TokenRevoked? ==>
        && EmptyExpiries(s.polls) == c.threshold
        && (OnlyExpired(s.polls) ==> |s.polls| == c.threshold + Extra(s)))
    case Head(cursor, failures, expired) => LoopCounters(c, s, cursor, failures, expired)
    case Waiting(cursor, failures, expired) => LoopCounters(c, s, cursor, failures, expired)
    case Revoking(expired) =>
      && expired == EmptyExpiries(s.polls) == c.threshold
      && (OnlyExpired(s.polls) ==> |s.polls| == c.threshold + Extra(s))
    case Resetting(cursor, failures) =>
      && EmptyExpiries(s.polls) == 0 && failures + 1 == Failures(s.polls)
      && s.polls != [] && (OnlyExpired(s.polls) ==> |s.polls| == Extra(s))
    case Handling(_, _, _, _) => s.polls != [] && s.polls[|s.polls| - 1].PollAccepted?
    case Handled(_, _) => s.polls != [] && s.polls[|s.polls| - 1].PollAccepted?
    case Saving(_, _, _, _) => s.polls != [] && s.polls[|s.polls| - 1].PollAccepted?
  }

  lemma Appended(polls: seq<PollKind>, kind: PollKind)
    ensures EmptyExpiries(polls + [kind]) ==
            if kind.PollAccepted? then 0 else EmptyExpiries(polls) + if kind.ExpiredEmpty? then 1 else 0
    ensures Failures(polls + [kind]) == if kind.PollAccepted? then 0 else Failures(polls) + 1
    ensures OnlyExpired(polls + [kind]) <==> OnlyExpired(polls) && (kind.ExpiredEmpty? || kind.ExpiredCursor?)
  {
    assert (polls + [kind])[..|polls|] == polls;
  }

  lemma PlainPollCounters(c: Setup, s: State, r: Response, from: nat)
    requires WellFormedSetup(c) && Counters(c, s) && Enabled(c, s, Poll(r, from)) && !Expired(r)
    ensures Counters(c, Step(c, s, Poll(r, from)))
  {
    Appended(s.polls, KindOf(s.pc.cursor, r));
  }

  lemma ExpiredPollCounters(c: Setup, s: State, r: Response, from: nat)
    requires WellFormedSetup(c) && Counters(c, s) && Enabled(c, s, Poll(r, from)) && Expired(r)
    ensures Counters(c, Step(c, s, Poll(r, from)))
  {
    Appended(s.polls, KindOf(s.pc.cursor, r));
  }

  lemma CountersStep(c: Setup, s: State, a: Action)
    requires WellFormedSetup(c) && Counters(c, s) && Enabled(c, s, a)
    ensures Counters(c, Step(c, s, a))
  {
    if a.Poll? {
      if Expired(a.r) {
        ExpiredPollCounters(c, s, a.r, a.from);
      } else {
        PlainPollCounters(c, s, a.r, a.from);
      }
    }
  }

  // ----- the theorems, over every run

  lemma {:induction false} InvariantHolds(c: Setup, files: Store.Files, actions: seq<Action>)
    requires WellFormedSetup(c) && Holds(c, files, "") && Runs(c, files, actions)
    ensures Delivery(c, After(c, files, actions)) && Counters(c, After(c, files, actions))
    decreases |actions|
  {
    if actions == [] {
      assert Covered(c, Init(files), Position(c, ""));
    } else {
      var before := actions[..|actions| - 1];
      InvariantHolds(c, files, before);
      DeliveryStep(c, After(c, files, before), actions[|actions| - 1]);
      CountersStep(c, After(c, files, before), actions[|actions| - 1]);
    }
  }

  /** At least once: over every run, with crashes between any two steps (also
      inside a batch and inside the file write), restarts, resets and failures,
      the stored cursor names a position such that every item of every eligible
      message before it, from the floor on, has had its handler return nil; so has
      every item, wherever it lies, of a batch that returned nil. Only positions
      that the server itself passed over on an empty cursor lie below the floor. */
  lemma AtLeastOnce(c: Setup, files: Store.Files, actions: seq<Action>) returns (durable: string)
    requires WellFormedSetup(c) && Holds(c, files, "") && Runs(c, files, actions)
    ensures var s := After(c, files, actions);
            && Store.Load(c.store, s.files, c.account) == Store.Loaded(durable)
            && Known(c, durable)
            && forall i, j | (s.floor <= i < Position(c, durable) || i in s.done) && 0 <= i < |c.log|
                             && Eligible(c.log[i]) && 0 <= j < |c.log[i].items| :: Call(c.log[i], j) in s.returned
  {
    InvariantHolds(c, files, actions);
    var s := After(c, files, actions);
    if s.pc.Saving? {
      SavedOrNot(c, s.pc.before, s.files, s.pc.write, s.pc.cursor, s.pc.buf);
      durable := if Store.Replaced(s.pc.write) then s.pc.buf else s.pc.cursor;
    } else if s.pc.Down? {
      durable :| Holds(c, s.files, durable) && Covered(c, s, Position(c, durable));
    } else {
      durable := if s.pc.Revoking? then "" else s.pc.cursor;
    }
  }

  /** Every poll on an empty cursor is answered from the start of the log. */
  ghost predicate FromStart(c: Setup, files: Store.Files, actions: seq<Action>)
    requires Runs(c, files, actions)
    decreases |actions|
  {
    actions == [] ||
    var before, a := actions[..|actions| - 1], actions[|actions| - 1];
    && FromStart(c, files, before)
    && (a.Poll? && After(c, files, before).pc.cursor == "" ==> a.from == 0)
  }

  lemma {:induction false} FloorStays(c: Setup, files: Store.Files, actions: seq<Action>)
    requires Runs(c, files, actions) && FromStart(c, files, actions)
    ensures After(c, files, actions).floor == 0
    decreases |actions|
  {
    if actions != [] {
      FloorStays(c, files, actions[..|actions| - 1]);
    }
  }

  /** Of a server that retains everything, everything before the durable cursor has
      been handled. */
  lemma AtLeastOnceFromStart(c: Setup, files: Store.Files, actions: seq<Action>) returns (durable: string)
    requires WellFormedSetup(c) && Holds(c, files, "") && Runs(c, files, actions) && FromStart(c, files, actions)
    ensures var s := After(c, files, actions);
            && Store.Load(c.store, s.files, c.account) == Store.Loaded(durable)
            && Known(c, durable)
            && forall i, j | 0 <= i < Position(c, durable) && i < |c.log| && Eligible(c.log[i])
                             && 0 <= j < |c.log[i].items| :: Call(c.log[i], j) in s.returned
  {
    durable := AtLeastOnce(c, files, actions);
    FloorStays(c, files, actions);
  }

  /** At the loop head the local cursor is the stored one, an expiry count above
      zero means an empty cursor, and it never exceeds the failures. */
  lemma LoopHead(c: Setup, files: Store.Files, actions: seq<Action>)
    requires WellFormedSetup(c) && Holds(c, files, "") && Runs(c, files, actions)
    requires After(c, files, actions).pc.Head?
    ensures var s := After(c, files, actions);
            && Store.Load(c.store, s.files, c.account) == Store.Loaded(s.pc.cursor)
            && (s.pc.expired > 0 ==> s.pc.cursor == "")
            && s.pc.expired <= s.pc.failures == Failures(s.polls)
            && s.pc.expired == EmptyExpiries(s.polls) < c.threshold
  {
    InvariantHolds(c, files, actions);
  }

  /** Revocation is reported at exactly the threshold of empty-cursor expiries
      since the last accepted poll. */
  lemma RevokedAtThreshold(c: Setup, files: Store.Files, actions: seq<Action>)
    requires WellFormedSetup(c) && Holds(c, files, "") && Runs(c, files, actions)
    requires After(c, files, actions).pc == Down(TokenRevoked)
    ensures EmptyExpiries(After(c, files, actions).polls) == c.threshold
  {
    InvariantHolds(c, files, actions);
  }

  /** In any run a server that only answers -14 is polled at most threshold times,
      plus once if a cursor was stored, and it is at that count that the run gives up. */
  lemma OnlyExpiredEnds(c: Setup, files: Store.Files, actions: seq<Action>)
    requires WellFormedSetup(c) && Holds(c, files, "") && Runs(c, files, actions)
    requires OnlyExpired(After(c, files, actions).polls)
    ensures var s := After(c, files, actions);
            && (s.pc.Head? || s.pc.Waiting? || s.pc.Resetting? ==> |s.polls| < c.threshold + Extra(s))
            && (s.pc.Revoking? || s.pc == Down(TokenRevoked) ==> |s.polls| == c.threshold + Extra(s))
            && !s.pc.Handling? && !s.pc.Handled? && !s.pc.Saving?
  {
    InvariantHolds(c, files, actions);
  }
}
