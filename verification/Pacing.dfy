/** The pace of `Start` and what it commits: one back-off for each poll that was not
    accepted, and the cursor of the last poll that was. */
module Pacing {
  import opened Messages
  import opened Backoff
  import opened Listener
  import opened ListenerTheorems
  import Store = CursorStore

  /** For each unaccepted poll, how many there had been since the last accepted one. */
  function Owed(polls: seq<PollKind>): seq<nat> {
    if polls == [] then []
    else Owed(polls[..|polls| - 1]) + if polls[|polls| - 1].PollAccepted? then [] else [Failures(polls)]
  }

  /** The cursor that the answers call for: the last one delivered, unless a stale
      one has been reset since. */
  function CursorDue(first: string, polls: seq<PollKind>): string {
    if polls == [] then first
    else
      var before := CursorDue(first, polls[..|polls| - 1]);
      match polls[|polls| - 1]
      case PollAccepted(buf) => if buf != "" then buf else before
      case ExpiredCursor => ""
      case _ => before
  }

  /** One wait for each entry, and of the right length. */
  predicate Waited(c: Setup, owed: seq<nat>, waits: seq<int64>) {
    |waits| == |owed| && forall k :: 0 <= k < |waits| ==> DelayAfter(c, owed[k], waits[k])
  }

  /** All waits but perhaps the last one have been sat out. */
  predicate AlmostWaited(c: Setup, owed: seq<nat>, waits: seq<int64>) {
    Waited(c, owed, waits) || (owed != [] && Waited(c, owed[..|owed| - 1], waits))
  }

  /** The last poll was not accepted, and its wait is still to come. */
  ghost predicate WaitDue(c: Setup, s: State) {
    && s.polls != [] && !s.polls[|s.polls| - 1].PollAccepted?
    && Waited(c, Owed(s.polls[..|s.polls| - 1]), s.waits)
  }

  /** The last poll was accepted with the given cursor, and the one before is still held. */
  ghost predicate CommitDue(c: Setup, s: State, cursor: string, buf: string) {
    && s.polls != [] && s.polls[|s.polls| - 1] == PollAccepted(buf)
    && cursor == CursorDue(s.firstCursor, s.polls[..|s.polls| - 1])
    && Waited(c, Owed(s.polls), s.waits)
  }

  ghost predicate Paced(c: Setup, s: State) {
    match s.pc
    case Down(_) => AlmostWaited(c, Owed(s.polls), s.waits)
    case Head(cursor, failures, _) =>
      && cursor == CursorDue(s.firstCursor, s.polls) && failures == Failures(s.polls)
      && Waited(c, Owed(s.polls), s.waits)
    case Waiting(cursor, failures, _) =>
      && cursor == CursorDue(s.firstCursor, s.polls) && failures == Failures(s.polls)
      && WaitDue(c, s)
    case Resetting(_, failures) =>
      failures + 1 == Failures(s.polls) && WaitDue(c, s) && s.polls[|s.polls| - 1].ExpiredCursor?
    case Revoking(_) => WaitDue(c, s)
    case Handling(cursor, _, buf, _) => CommitDue(c, s, cursor, buf)
    case Handled(cursor, buf) => CommitDue(c, s, cursor, buf)
    case Saving(cursor, buf, _, _) => CommitDue(c, s, cursor, buf) && buf != "" && buf != cursor
  }

  lemma OneMorePoll(polls: seq<PollKind>, kind: PollKind, first: string)
    ensures Owed(polls + [kind]) == Owed(polls) + if kind.PollAccepted? then [] else [Failures(polls + [kind])]
    ensures CursorDue(first, polls + [kind]) ==
            if kind.PollAccepted? && kind.buf != "" then kind.buf
            else if kind.ExpiredCursor? then "" else CursorDue(first, polls)
  {
    assert (polls + [kind])[..|polls|] == polls;
  }

  lemma PollPaced(c: Setup, s: State, r: Response, from: nat)
    requires WellFormedSetup(c) && Paced(c, s) && Enabled(c, s, Poll(r, from))
    ensures Paced(c, Step(c, s, Poll(r, from)))
  {
    var kind := KindOf(s.pc.cursor, r);
    Appended(s.polls, kind);
    OneMorePoll(s.polls, kind, s.firstCursor);
    assert (s.polls + [kind])[..|s.polls|] == s.polls;
  }

  lemma OwedLast(polls: seq<PollKind>)
    requires polls != [] && !polls[|polls| - 1].PollAccepted?
    ensures Owed(polls) == Owed(polls[..|polls| - 1]) + [Failures(polls)]
    ensures Owed(polls)[..|Owed(polls)| - 1] == Owed(polls[..|polls| - 1])
  {}

  lemma ResumePaced(c: Setup, s: State, delay: int64)
    requires WellFormedSetup(c) && Paced(c, s) && Enabled(c, s, Resume(delay))
    ensures Paced(c, Step(c, s, Resume(delay)))
  {
    OwedLast(s.polls);
    OneMoreWaited(c, Owed(s.polls[..|s.polls| - 1]), s.waits, s.pc.failures, delay);
  }

  lemma OneMoreWaited(c: Setup, owed: seq<nat>, waits: seq<int64>, failures: nat, delay: int64)
    requires Waited(c, owed, waits) && DelayAfter(c, failures, delay)
    ensures Waited(c, owed + [failures], waits + [delay])
  {}

  lemma PacedStep(c: Setup, s: State, a: Action)
    requires WellFormedSetup(c) && Paced(c, s) && Enabled(c, s, a)
    ensures Paced(c, Step(c, s, a))
  {
    if a.Poll? {
      PollPaced(c, s, a.r, a.from);
    } else if a.Resume? {
      ResumePaced(c, s, a.delay);
    } else if s.polls != [] && !s.polls[|s.polls| - 1].PollAccepted? {
      OwedLast(s.polls);
    }
  }

  lemma {:induction false} PacedHolds(c: Setup, files: Store.Files, actions: seq<Action>)
    requires WellFormedSetup(c) && Runs(c, files, actions)
    ensures Paced(c, After(c, files, actions))
    decreases |actions|
  {
    if actions != [] {
      var before := actions[..|actions| - 1];
      PacedHolds(c, files, before);
      PacedStep(c, After(c, files, before), actions[|actions| - 1]);
    }
  }

  /** Between two polls of a run lies exactly one wait if the first was not accepted,
      as long as the failures since the last accepted poll call for, and none if it
      was: whenever the next poll is up, every wait owed has been sat out. */
  lemma OneWaitPerFailure(c: Setup, files: Store.Files, actions: seq<Action>)
    requires WellFormedSetup(c) && Runs(c, files, actions)
    ensures var s := After(c, files, actions);
            && (s.pc.Head? ==> Waited(c, Owed(s.polls), s.waits))
            && (!s.pc.Head? ==> AlmostWaited(c, Owed(s.polls), s.waits))
  {
    PacedHolds(c, files, actions);
    var s := After(c, files, actions);
    if s.polls != [] && !s.polls[|s.polls| - 1].PollAccepted? {
      OwedLast(s.polls);
    }
  }

  /** Whenever the next poll is up, the last cursor delivered has been stored, unless
      it was found stale and cleared; nothing else is ever stored. */
  lemma CommitsLastCursor(c: Setup, files: Store.Files, actions: seq<Action>)
    requires WellFormedSetup(c) && Holds(c, files, "") && Runs(c, files, actions)
    ensures var s := After(c, files, actions);
            && (s.pc.Head? ==>
                  Store.Load(c.store, s.files, c.account) == Store.Loaded(CursorDue(s.firstCursor, s.polls)))
            && (s.pc.Saving? ==> s.pc.buf != "" && s.pc.buf != s.pc.cursor
                                 && s.pc.buf == CursorDue(s.firstCursor, s.polls))
  {
    PacedHolds(c, files, actions);
    InvariantHolds(c, files, actions);
  }

  // ----- the answers, spelt out

  /** What each answer makes of the loop head. */
  lemma AnswersLeadTo(c: Setup, s: State, from: nat, ret: int, errCode: int, msgs: seq<Message>, buf: string)
    requires s.pc.Head? && Enabled(c, s, Poll(Response(ret, errCode, msgs, buf), from))
    ensures var next := Step(c, s, Poll(Response(ret, errCode, msgs, buf), from)).pc;
            && ((ret == -14 || errCode == -14) && s.pc.cursor != "" ==> next == Resetting(s.pc.cursor, s.pc.failures))
            && ((ret == -14 || errCode == -14) && s.pc.cursor == "" && s.pc.expired + 1 >= c.threshold ==>
                  next == Revoking(s.pc.expired + 1))
            && ((ret == -14 || errCode == -14) && s.pc.cursor == "" && s.pc.expired + 1 < c.threshold ==>
                  next == Waiting("", s.pc.failures + 1, s.pc.expired + 1))
            && (ret != -14 && errCode != -14 && (ret != 0 || errCode != 0) ==>
                  next == Waiting(s.pc.cursor, s.pc.failures + 1, s.pc.expired))
            && (ret == 0 && errCode == 0 ==> next == Handling(s.pc.cursor, msgs, buf, from))
  {}
}
