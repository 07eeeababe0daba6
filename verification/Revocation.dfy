/** How `Start` gives up an expired session: whether the expiries it counts were
    consecutive, and what a server that only answers -14 makes of a run. */
module Revocation {
  import opened Listener
  import opened ListenerTheorems
  import opened Backoff
  import Store = CursorStore

  // ----- consecutive or not

  /** The last n polls were all empty-cursor expiries. */
  predicate Consecutive(polls: seq<PollKind>, n: nat) {
    n <= |polls| && forall i :: |polls| - n <= i < |polls| ==> polls[i].ExpiredEmpty?
  }

  /** Between an expiry at i and a failure or rejection at j after it, and on to the
      end, no poll was accepted: the count went on past the failure. */
  ghost predicate InterruptedAt(polls: seq<PollKind>, i: nat, j: nat) {
    && i < j < |polls|
    && polls[i].ExpiredEmpty?
    && (polls[j].PollFailed? || polls[j].PollRejected?)
    && forall k :: i <= k < |polls| ==> !polls[k].PollAccepted?
  }

  /** A transport error or another rejection lies after a counted expiry. */
  ghost predicate Interrupted(polls: seq<PollKind>) {
    exists i: nat, j: nat :: InterruptedAt(polls, i, j)
  }

  /** A stale cursor is only found expired before the counting begins. */
  predicate ResetsFirst(polls: seq<PollKind>) {
    polls == [] ||
    var before := polls[..|polls| - 1];
    ResetsFirst(before) && (polls[|polls| - 1].ExpiredCursor? ==> EmptyExpiries(before) == 0)
  }

  lemma ResetsStep(c: Setup, s: State, a: Action)
    requires WellFormedSetup(c) && Counters(c, s) && ResetsFirst(s.polls) && Enabled(c, s, a)
    ensures ResetsFirst(Step(c, s, a).polls)
  {
    if a.Poll? {
      assert (s.polls + [KindOf(s.pc.cursor, a.r)])[..|s.polls|] == s.polls;
    }
  }

  lemma {:induction false} ResetsComeFirst(c: Setup, files: Store.Files, actions: seq<Action>)
    requires WellFormedSetup(c) && Holds(c, files, "") && Runs(c, files, actions)
    ensures ResetsFirst(After(c, files, actions).polls)
    decreases |actions|
  {
    if actions != [] {
      var before := actions[..|actions| - 1];
      ResetsComeFirst(c, files, before);
      InvariantHolds(c, files, before);
      ResetsStep(c, After(c, files, before), actions[|actions| - 1]);
    }
  }

  /** The expiry at i is still counted at the end. */
  ghost predicate CountsAt(polls: seq<PollKind>, i: nat) {
    i < |polls| && polls[i].ExpiredEmpty? && forall k :: i <= k < |polls| ==> !polls[k].PollAccepted?
  }

  /** An expiry is being counted exactly if one lies after the last accepted poll. */
  lemma {:induction false} CountedExpiry(polls: seq<PollKind>)
    ensures EmptyExpiries(polls) > 0 ==> exists i: nat :: CountsAt(polls, i)
    ensures forall i: nat :: CountsAt(polls, i) ==> EmptyExpiries(polls) > 0
    decreases |polls|
  {
    if polls != [] && !polls[|polls| - 1].PollAccepted? {
      var before := polls[..|polls| - 1];
      CountedExpiry(before);
      if polls[|polls| - 1].ExpiredEmpty? {
        assert CountsAt(polls, |polls| - 1);
      } else if EmptyExpiries(polls) > 0 {
        var i: nat :| CountsAt(before, i);
        assert CountsAt(polls, i);
      }
      forall i: nat | CountsAt(polls, i)
        ensures EmptyExpiries(polls) > 0
      {
        if i < |before| {
          assert forall k :: i <= k < |before| ==> before[k] == polls[k];
          assert CountsAt(before, i);
        }
      }
    }
  }

  lemma InterruptionFound(before: seq<PollKind>, last: PollKind, i: nat, j: nat)
    requires InterruptedAt(before + [last], i, j)
    ensures !last.PollAccepted?
    ensures Interrupted(before) || ((last.PollFailed? || last.PollRejected?) && EmptyExpiries(before) > 0)
  {
    var polls := before + [last];
    assert !polls[|before|].PollAccepted?;
    assert forall k :: i <= k < |before| ==> before[k] == polls[k];
    if j < |before| {
      assert InterruptedAt(before, i, j);
    } else {
      CountedExpiry(before);
      assert CountsAt(before, i);
    }
  }

  lemma InterruptionMade(before: seq<PollKind>, last: PollKind, i: nat, j: nat)
    requires !last.PollAccepted? && CountsAt(before, i)
    requires InterruptedAt(before, i, j) || ((last.PollFailed? || last.PollRejected?) && j == |before|)
    ensures InterruptedAt(before + [last], i, j)
  {
    assert forall k :: 0 <= k < |before| ==> (before + [last])[k] == before[k];
  }

  /** How an interruption comes about, one poll at a time. */
  lemma InterruptedStep(before: seq<PollKind>, last: PollKind)
    ensures Interrupted(before + [last]) <==>
            !last.PollAccepted? &&
            (Interrupted(before) || ((last.PollFailed? || last.PollRejected?) && EmptyExpiries(before) > 0))
  {
    if Interrupted(before + [last]) {
      var i: nat, j: nat :| InterruptedAt(before + [last], i, j);
      InterruptionFound(before, last, i, j);
    } else if !last.PollAccepted? && Interrupted(before) {
      var i: nat, j: nat :| InterruptedAt(before, i, j);
      InterruptionMade(before, last, i, j);
    } else if (last.PollFailed? || last.PollRejected?) && EmptyExpiries(before) > 0 {
      CountedExpiry(before);
      var i: nat :| CountsAt(before, i);
      InterruptionMade(before, last, i, |before|);
    }
  }

  /** The counted expiries were consecutive exactly if nothing interrupted them. */
  lemma {:induction false} ConsecutiveIff(polls: seq<PollKind>)
    requires ResetsFirst(polls)
    ensures Consecutive(polls, EmptyExpiries(polls)) <==> !Interrupted(polls)
    ensures EmptyExpiries(polls) <= |polls|
    decreases |polls|
  {
    if polls != [] {
      var before, last := polls[..|polls| - 1], polls[|polls| - 1];
      assert polls == before + [last];
      ConsecutiveIff(before);
      InterruptedStep(before, last);
      CountedExpiry(before);
      if !last.PollAccepted? {
        ConsecutiveStep(before, last, EmptyExpiries(before));
        if Interrupted(before) {
          var i: nat, j: nat :| InterruptedAt(before, i, j);
          assert CountsAt(before, i);
        }
      }
    }
  }

  lemma ConsecutiveStep(before: seq<PollKind>, last: PollKind, n: nat)
    requires n <= |before|
    ensures last.ExpiredEmpty? ==> (Consecutive(before + [last], n + 1) <==> Consecutive(before, n))
    ensures !last.ExpiredEmpty? ==> (Consecutive(before + [last], n) <==> n == 0)
  {
    var polls := before + [last];
    if last.ExpiredEmpty? {
      assert forall i :: |before| - n <= i < |before| ==> polls[i] == before[i];
      if Consecutive(polls, n + 1) {
        assert Consecutive(before, n);
      }
    } else if n > 0 {
      assert !polls[|before|].ExpiredEmpty?;
    }
  }

  /** Exactly when the revocation is one after `threshold` consecutive expiries:
      when no transport error and no other rejection lies between the first expiry
      that was counted and the last. */
  lemma RevokedConsecutivelyIff(c: Setup, files: Store.Files, actions: seq<Action>)
    requires WellFormedSetup(c) && Holds(c, files, "") && Runs(c, files, actions)
    requires After(c, files, actions).pc == Down(TokenRevoked)
    ensures var polls := After(c, files, actions).polls;
            Consecutive(polls, c.threshold) <==> !Interrupted(polls)
  {
    RevokedAtThreshold(c, files, actions);
    ResetsComeFirst(c, files, actions);
    ConsecutiveIff(After(c, files, actions).polls);
  }


  lemma OneStep(c: Setup, files: Store.Files, actions: seq<Action>, a: Action)
    requires Runs(c, files, actions) && Enabled(c, After(c, files, actions), a)
    ensures Runs(c, files, actions + [a])
    ensures After(c, files, actions + [a]) == Step(c, After(c, files, actions), a)
  {
    assert (actions + [a])[..|actions|] == actions;
  }

  const EXPIRED_ANSWER := Response(ERR_CODE_SESSION_EXPIRED, 0, [], "")

  const EMPTY: Store.Files := map[]

  /** The longest delay that may be drawn. */
  function Longest(c: Setup, failures: nat): (delay: int64)
    requires WellFormedSetup(c)
    ensures DelayAfter(c, failures, delay)
  {
    DoubledIsDelay(c.backoffInitial as int, c.backoffMax as int, failures);
    Doubled(c.backoffInitial as int, c.backoffMax as int, failures) as int64
  }

  lemma LaunchEmpty(c: Setup)
    requires WellFormedSetup(c)
    ensures Runs(c, EMPTY, [Launch(true)])
    ensures var s := After(c, EMPTY, [Launch(true)]); s.pc == Head("", 0, 0) && s.polls == [] && s.files == EMPTY
  {
    OneStep(c, EMPTY, [], Launch(true));
    assert [] + [Launch(true)] == [Launch(true)];
  }

  lemma ExpiredStep(c: Setup, s: State)
    requires s.pc.Head? && s.pc.cursor == "" && Enabled(c, s, Poll(EXPIRED_ANSWER, 0))
    ensures var s' := Step(c, s, Poll(EXPIRED_ANSWER, 0));
            && s'.polls == s.polls + [ExpiredEmpty]
            && s'.pc == if s.pc.expired + 1 >= c.threshold then Revoking(s.pc.expired + 1)
                        else Waiting("", s.pc.failures + 1, s.pc.expired + 1)
  {}

  lemma ExpiredOnce(c: Setup) returns (actions: seq<Action>)
    requires WellFormedSetup(c) && c.threshold == 2
    ensures actions == [Launch(true), Poll(EXPIRED_ANSWER, 0), Resume(Longest(c, 1))]
    ensures Runs(c, EMPTY, actions)
    ensures var s := After(c, EMPTY, actions); s.pc == Head("", 1, 1) && s.polls == [ExpiredEmpty]
  {
    LaunchEmpty(c);
    actions := [Launch(true)];
    ExpiredStep(c, After(c, EMPTY, actions));
    OneStep(c, EMPTY, actions, Poll(EXPIRED_ANSWER, 0));
    actions := actions + [Poll(EXPIRED_ANSWER, 0)];
    OneStep(c, EMPTY, actions, Resume(Longest(c, 1)));
    actions := actions + [Resume(Longest(c, 1))];
  }

  lemma FailedOnce(c: Setup) returns (actions: seq<Action>)
    requires WellFormedSetup(c) && c.threshold == 2
    ensures actions == [Launch(true), Poll(EXPIRED_ANSWER, 0), Resume(Longest(c, 1)), Poll(TransportError, 0),
                        Resume(Longest(c, 2))]
    ensures Runs(c, EMPTY, actions)
    ensures var s := After(c, EMPTY, actions); s.pc == Head("", 2, 1) && s.polls == [ExpiredEmpty, PollFailed]
  {
    actions := ExpiredOnce(c);
    OneStep(c, EMPTY, actions, Poll(TransportError, 0));
    actions := actions + [Poll(TransportError, 0)];
    OneStep(c, EMPTY, actions, Resume(Longest(c, 2)));
    actions := actions + [Resume(Longest(c, 2))];
  }

  /** A run on an empty directory, with threshold two: expired, a transport error,
      expired again, revoked. */
  lemma RevokedAcrossFailure(c: Setup) returns (actions: seq<Action>)
    requires WellFormedSetup(c) && c.threshold == 2
    ensures actions == [Launch(true), Poll(EXPIRED_ANSWER, 0), Resume(Longest(c, 1)), Poll(TransportError, 0),
                        Resume(Longest(c, 2)), Poll(EXPIRED_ANSWER, 0), Clear(true)]
    ensures Runs(c, EMPTY, actions)
    ensures var s := After(c, EMPTY, actions);
            && s.pc == Down(TokenRevoked)
            && s.polls == [ExpiredEmpty, PollFailed, ExpiredEmpty]
            && !Consecutive(s.polls, 2)
  {
    actions := FailedOnce(c);
    ExpiredStep(c, After(c, EMPTY, actions));
    OneStep(c, EMPTY, actions, Poll(EXPIRED_ANSWER, 0));
    actions := actions + [Poll(EXPIRED_ANSWER, 0)];
    OneStep(c, EMPTY, actions, Clear(true));
    actions := actions + [Clear(true)];
    assert After(c, EMPTY, actions).polls[1].PollFailed?;
  }

  // ----- a server that only answers -14

  /** What an uncancelled run with working storage does against such a server. */
  predicate Undisturbed(a: Action) {
    (a.Poll? && Expired(a.r)) || a.Resume? || a == Clear(true)
  }

  predicate AllUndisturbed(actions: seq<Action>) {
    forall a <- actions :: Undisturbed(a)
  }

  /** How many steps such a run has taken since it was launched. */
  ghost predicate Taken(s: State, steps: nat) {
    var n, extra := |s.polls|, if s.polls == [] then 0 else Extra(s);
    match s.pc
    case Head(_, _, _) => steps == 2 * n + extra
    case Waiting(_, _, _) => steps == 2 * n + extra - 1
    case Resetting(_, _) => steps == 2 * n - 1 && n == 1 == extra
    case Revoking(_) => steps == 2 * n + extra - 1
    case Down(outcome) => outcome == TokenRevoked && steps == 2 * n + extra
    case _ => false
  }

  ghost predicate Launched(c: Setup, files: Store.Files, before: seq<Action>) {
    Runs(c, files, before) && After(c, files, before).pc.Head? && After(c, files, before).polls == []
  }

  lemma TakenPoll(c: Setup, s: State, r: Response, from: nat, steps: nat)
    requires WellFormedSetup(c) && Counters(c, s) && OnlyExpired(s.polls) && Taken(s, steps)
    requires Expired(r) && Enabled(c, s, Poll(r, from))
    ensures var s' := Step(c, s, Poll(r, from)); Taken(s', steps + 1) && OnlyExpired(s'.polls)
  {
    var s' := Step(c, s, Poll(r, from));
    var kind := KindOf(s.pc.cursor, r);
    Appended(s.polls, kind);
    assert s'.polls == s.polls + [kind] && |s'.polls| == |s.polls| + 1 && Extra(s') == Extra(s);
    if s.pc.cursor != "" {
      assert kind.ExpiredCursor? && s.polls == [] && Extra(s) == 1;
    } else {
      assert kind.ExpiredEmpty? && (s.polls == [] ==> Extra(s) == 0);
    }
  }

  lemma TakenStep(c: Setup, s: State, a: Action, steps: nat)
    requires WellFormedSetup(c) && Counters(c, s) && OnlyExpired(s.polls) && Taken(s, steps)
    requires Undisturbed(a) && Enabled(c, s, a)
    ensures var s' := Step(c, s, a); Taken(s', steps + 1) && OnlyExpired(s'.polls)
  {
    if a.Poll? {
      TakenPoll(c, s, a.r, a.from, steps);
    }
  }

  lemma {:induction false} TakenHolds(c: Setup, files: Store.Files, before: seq<Action>, after: seq<Action>)
    requires WellFormedSetup(c) && Holds(c, files, "") && Launched(c, files, before)
    requires Runs(c, files, before + after) && AllUndisturbed(after)
    ensures Taken(After(c, files, before + after), |after|) && OnlyExpired(After(c, files, before + after).polls)
    decreases |after|
  {
    if after == [] {
      assert before + after == before;
    } else {
      var init, a := after[..|after| - 1], after[|after| - 1];
      assert (before + after)[..|before + after| - 1] == before + init;
      TakenHolds(c, files, before, init);
      InvariantHolds(c, files, before + init);
      TakenStep(c, After(c, files, before + init), a, |init|);
    }
  }

  /** The steps that such a run takes from its launch to its end. */
  function StepsToRevocation(c: Setup, s: State): nat {
    2 * c.threshold + 3 * Extra(s)
  }

  /** An uncancelled run with working storage against such a server takes a known
      number of steps, and has given up exactly when it has taken them all: after
      `threshold` polls, and one more if a cursor was stored. */
  lemma ExpiredServerRevokes(c: Setup, files: Store.Files, before: seq<Action>, after: seq<Action>)
    requires WellFormedSetup(c) && Holds(c, files, "") && Launched(c, files, before)
    requires Runs(c, files, before + after) && AllUndisturbed(after)
    ensures var s := After(c, files, before + after);
            && |after| <= StepsToRevocation(c, s)
            && (s.pc == Down(TokenRevoked) <==> |after| == StepsToRevocation(c, s))
            && (s.pc == Down(TokenRevoked) ==> |s.polls| == c.threshold + Extra(s))
  {
    TakenHolds(c, files, before, after);
    OnlyExpiredEnds(c, files, before + after);
  }

  /** Until then it is never stuck. */
  lemma ExpiredServerGoesOn(c: Setup, files: Store.Files, before: seq<Action>, after: seq<Action>) returns (a: Action)
    requires WellFormedSetup(c) && Holds(c, files, "") && Launched(c, files, before)
    requires Runs(c, files, before + after) && AllUndisturbed(after)
    requires After(c, files, before + after).pc != Down(TokenRevoked)
    ensures AllUndisturbed(after + [a]) && Runs(c, files, before + (after + [a]))
  {
    TakenHolds(c, files, before, after);
    var s := After(c, files, before + after);
    a := if s.pc.Head? then Poll(EXPIRED_ANSWER, 0) else if s.pc.Waiting? then Resume(Longest(c, s.pc.failures)) else Clear(true);
    OneStep(c, files, before + after, a);
    assert before + (after + [a]) == before + after + [a];
  }

  /** So it ends, and in revocation: every such run can be continued to that end, and
      `ExpiredServerRevokes` leaves no other. */
  lemma ExpiredServerEnds(c: Setup, files: Store.Files, before: seq<Action>, after: seq<Action>)
    returns (all: seq<Action>)
    requires WellFormedSetup(c) && Holds(c, files, "") && Launched(c, files, before)
    requires Runs(c, files, before + after) && AllUndisturbed(after)
    ensures after <= all && Runs(c, files, before + all) && AllUndisturbed(all)
    ensures After(c, files, before + all).pc == Down(TokenRevoked)
    ensures |all| == StepsToRevocation(c, After(c, files, before + all))
    decreases 2 * c.threshold + 3 - |after|
  {
    ExpiredServerRevokes(c, files, before, after);
    if After(c, files, before + after).pc == Down(TokenRevoked) {
      all := after;
    } else {
      var a := ExpiredServerGoesOn(c, files, before, after);
      all := ExpiredServerEnds(c, files, before, after + [a]);
    }
  }
}
