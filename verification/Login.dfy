/** QR login (`login.go`, `WaitForQRConfirmation`): polling with throttling, bounded
    redirects and verification codes, against an explicit clock. The login keeps a
    history of what it did and saw; what it promises is said of that history. */
module Login {
  import opened Messages
  import opened Text

  const MAX_QR_REDIRECTS := 5
  const SECOND := 1_000_000_000
  const DEFAULT_INTERVAL := 3 * SECOND
  const DEFAULT_TIMEOUT := 180 * SECOND

  const WAIT := "wait"
  const SCANNED := "scaned"
  const CONFIRMED := "confirmed"
  const EXPIRED := "expired"
  const NEED_VERIFY_CODE := "need_verifycode"
  const VERIFY_CODE_BLOCKED := "verify_code_blocked"
  const REDIRECT := "scaned_but_redirect"
  const BOUND_REDIRECT := "binded_redirect"

  datatype Status = Status(status: string, redirectHost: string, botToken: string, botID: string, baseURL: string, userID: string)

  /** How a status request can fail (`retryQRRequest`). */
  datatype RequestError = HTTPStatus(code: int) | Timeout | OtherError

  predicate Retryable(e: RequestError) {
    match e
    case HTTPStatus(code) => code == 408 || code == 429 || code >= 500
    case Timeout => true
    case OtherError => false
  }

  datatype Reply = Answer(res: Status) | Failure(error: RequestError)

  /** One thing the login did or saw. */
  datatype Event =
    | Poll(at: int, base: string, code: string)
    | Reply(reply: Reply)
    | Notified(status: string)        // onStatus
    | CodeGiven(code: string)         // the callback returned a code and no error
    | CodeFailed                      // the callback returned an error, or too late
    | Redirected(base: string)
    | Waited                          // the interval has passed
    | Over                            // a context check found the context ended

  datatype Credentials = Credentials(botToken: string, botID: string, baseURL: string, userID: string)

  datatype Result =
    | LoggedIn(credentials: Credentials)
    | ContextEnded
    | RequestFailed(error: RequestError)
    | EmptyQRCode
    | ConfirmedNoCreds
    | QRExpired
    | VerificationRequired
    | AttemptsExhausted
    | CallbackFailed
    | VerificationBlocked
    | AlreadyBound
    | BadRedirect
    | RedirectLimit
    | NoStatus

  /** The options of a login, and the host policy anchored to the configured base. */
  datatype Options = Options(
    base: string,
    accepts: string -> bool,     // hosts that parse and satisfy the policy
    hasCallback: bool,
    maxAttempts: nat)

  // ----- what a history says

  /** The code a poll must carry: that of the last callback, unless scanned since. */
  function CodeDue(h: seq<Event>): string {
    if h == [] then ""
    else
      match h[|h| - 1]
      case CodeGiven(code) => Trim(code)
      case Reply(Answer(res)) => if res.status == SCANNED then "" else CodeDue(h[..|h| - 1])
      case _ => CodeDue(h[..|h| - 1])
  }

  /** The accepted redirects, in order. */
  function Redirects(h: seq<Event>): seq<string> {
    if h == [] then []
    else
      match h[|h| - 1]
      case Redirected(base) => Redirects(h[..|h| - 1]) + [base]
      case _ => Redirects(h[..|h| - 1])
  }

  /** Where a poll must go: to the last redirect, or to the configured base. */
  function BaseDue(base: string, h: seq<Event>): string {
    var r := Redirects(h);
    if r == [] then base else r[|r| - 1]
  }

  /** The statuses the server reported. */
  function Statuses(h: seq<Event>): seq<string> {
    if h == [] then []
    else
      match h[|h| - 1]
      case Reply(Answer(res)) => Statuses(h[..|h| - 1]) + [res.status]
      case _ => Statuses(h[..|h| - 1])
  }

  function Notifications(h: seq<Event>): seq<string> {
    if h == [] then []
    else
      match h[|h| - 1]
      case Notified(status) => Notifications(h[..|h| - 1]) + [status]
      case _ => Notifications(h[..|h| - 1])
  }

  /** Consecutive repeats removed, and a leading empty status with them. */
  function Dedup(statuses: seq<string>): seq<string> {
    if statuses == [] then []
    else
      var before, last := statuses[..|statuses| - 1], statuses[|statuses| - 1];
      if last == LastOf(before) then Dedup(before) else Dedup(before) + [last]
  }

  function LastOf(statuses: seq<string>): string {
    if statuses == [] then "" else statuses[|statuses| - 1]
  }

  function Callbacks(h: seq<Event>): nat {
    if h == [] then 0
    else Callbacks(h[..|h| - 1]) + if h[|h| - 1].CodeGiven? || h[|h| - 1].CodeFailed? then 1 else 0
  }

  function PollTimes(h: seq<Event>): seq<int> {
    if h == [] then []
    else
      match h[|h| - 1]
      case Poll(at, _, _) => PollTimes(h[..|h| - 1]) + [at]
      case _ => PollTimes(h[..|h| - 1])
  }

  function LastPoll(h: seq<Event>): Option<int> {
    if h == [] then None
    else if h[|h| - 1].Poll? then Some(h[|h| - 1].at)
    else LastPoll(h[..|h| - 1])
  }

  /** Redirects followed since the last poll. */
  function RedirectsSince(h: seq<Event>): nat {
    if h == [] || h[|h| - 1].Poll? then 0
    else RedirectsSince(h[..|h| - 1]) + if h[|h| - 1].Redirected? then 1 else 0
  }

  function LastReply(h: seq<Event>): Option<Reply> {
    if h == [] then None
    else if h[|h| - 1].Reply? then Some(h[|h| - 1].reply)
    else LastReply(h[..|h| - 1])
  }

  /** The context was found ended. */
  predicate Ended(h: seq<Event>) {
    h != [] && (h[|h| - 1].Over? || Ended(h[..|h| - 1]))
  }

  // ----- what the login promises of its history

  /** Every poll went where the redirects so far point, with the code then due,
      before the deadline and before the context was found ended. */
  ghost predicate WellAddressed(o: Options, start: int, deadline: int, h: seq<Event>) {
    h == [] ||
    var before, last := h[..|h| - 1], h[|h| - 1];
    && WellAddressed(o, start, deadline, before)
    && (last.Poll? ==>
          && last.base == BaseDue(o.base, before)
          && last.code == CodeDue(before)
          && start <= last.at < deadline && !Ended(before))
  }

  /** Between two polls lies the interval, or at least one redirect. */
  ghost predicate Throttled(interval: int, h: seq<Event>) {
    h == [] ||
    var before, last := h[..|h| - 1], h[|h| - 1];
    && Throttled(interval, before)
    && (last.Poll? && LastPoll(before).Some? ==>
          && last.at >= LastPoll(before).value
          && (RedirectsSince(before) > 0 || last.at >= LastPoll(before).value + interval))
  }

  /** At most five redirects, all distinct and each to an accepted host. */
  ghost predicate GoodRedirects(o: Options, redirects: seq<string>) {
    && |redirects| <= MAX_QR_REDIRECTS
    && (forall i, j :: 0 <= i < j < |redirects| ==> redirects[i] != redirects[j])
    && (forall r <- redirects :: exists host :: r == RedirectURL(host) && o.accepts(host))
  }

  lemma MoreRedirects(o: Options, redirects: seq<string>, host: string)
    requires GoodRedirects(o, redirects) && |redirects| < MAX_QR_REDIRECTS
    requires o.accepts(host) && RedirectURL(host) !in redirects
    ensures GoodRedirects(o, redirects + [RedirectURL(host)])
  {}

  function RedirectURL(host: string): string {
    "https://" + host
  }

  /** Replies that a login goes on after. */
  predicate Continues(reply: Reply) {
    match reply
    case Failure(e) => Retryable(e)
    case Answer(res) =>
      && res.status != ""
      && res.status !in {CONFIRMED, EXPIRED, VERIFY_CODE_BLOCKED, BOUND_REDIRECT}
  }

  /** Every reply but the last was one to go on after. */
  ghost predicate Persistent(h: seq<Event>) {
    h == [] ||
    var before, last := h[..|h| - 1], h[|h| - 1];
    && Persistent(before)
    && (last.Poll? && LastReply(before).Some? ==> Continues(LastReply(before).value))
  }

  // ----- what must follow a reply

  /** What has been done since the last reply, other than telling the application. */
  function Acts(h: seq<Event>): seq<Event> {
    if h == [] || h[|h| - 1].Reply? then []
    else Acts(h[..|h| - 1]) + if h[|h| - 1].Notified? || h[|h| - 1].Over? then [] else [h[|h| - 1]]
  }

  predicate AsksFor(reply: Option<Reply>, status: string) {
    reply.Some? && reply.value.Answer? && reply.value.res.status == status
  }

  /** The callback gave a code that is more than white space. */
  predicate UsefulCode(e: Event) {
    e.CodeGiven? && Trim(e.code) != ""
  }

  /** The interval may pass now: at once, or behind the code that was asked for, but
      never behind a redirect. */
  predicate MayWait(reply: Option<Reply>, acts: seq<Event>) {
    && reply.Some? && !AsksFor(reply, REDIRECT)
    && if AsksFor(reply, NEED_VERIFY_CODE) then |acts| == 1 && UsefulCode(acts[0]) else acts == []
  }

  /** All that a reply asks for has been done, and nothing else: a redirect is
      followed, a code is asked for once and the interval passes, or it just passes. */
  predicate Settled(reply: Reply, acts: seq<Event>) {
    if AsksFor(Some(reply), REDIRECT) then acts == [Redirected(RedirectURL(reply.res.redirectHost))]
    else if AsksFor(Some(reply), NEED_VERIFY_CODE) then |acts| == 2 && UsefulCode(acts[0]) && acts[1] == Waited
    else acts == [Waited]
  }

  /** The event may happen after that history. */
  predicate Legal(o: Options, before: seq<Event>, e: Event) {
    var reply := LastReply(before);
    && !Ended(before)
    && match e
       case Poll(_, _, _) => before == [] || (reply.Some? && Settled(reply.value, Acts(before)))
       case Reply(_) => before != [] && before[|before| - 1].Poll?
       case Notified(status) => before != [] && before[|before| - 1].Reply? && AsksFor(reply, status)
       case CodeGiven(_) => o.hasCallback && AsksFor(reply, NEED_VERIFY_CODE) && Acts(before) == []
       case CodeFailed => o.hasCallback && AsksFor(reply, NEED_VERIFY_CODE) && Acts(before) == []
       case Redirected(base) =>
         && AsksFor(reply, REDIRECT) && Acts(before) == []
         && o.accepts(reply.value.res.redirectHost) && base == RedirectURL(reply.value.res.redirectHost)
       case Waited => MayWait(reply, Acts(before))
       case Over => true
  }

  /** The history is one round after the other, each what its reply asks for. */
  predicate Rounds(o: Options, h: seq<Event>) {
    h == [] || (Rounds(o, h[..|h| - 1]) && Legal(o, h[..|h| - 1], h[|h| - 1]))
  }

  /** Where the replies alone send the polls: to the host of the last redirect. */
  function RedirectDue(base: string, h: seq<Event>): string {
    if h == [] then base
    else if h[|h| - 1].Reply? && AsksFor(Some(h[|h| - 1].reply), REDIRECT)
    then RedirectURL(h[|h| - 1].reply.res.redirectHost)
    else RedirectDue(base, h[..|h| - 1])
  }

  /** A redirect is followed as soon as anything is done about it. */
  lemma {:induction false} RedirectsAreFollowed(o: Options, h: seq<Event>)
    requires Rounds(o, h)
    ensures AsksFor(LastReply(h), REDIRECT) && Acts(h) == [] ==>
              RedirectDue(o.base, h) == RedirectURL(LastReply(h).value.res.redirectHost)
    ensures !(AsksFor(LastReply(h), REDIRECT) && Acts(h) == []) ==> RedirectDue(o.base, h) == BaseDue(o.base, h)
    decreases |h|
  {
    if h != [] {
      RedirectsAreFollowed(o, h[..|h| - 1]);
    }
  }

  lemma {:induction false} RoundsPrefix(o: Options, start: int, deadline: int, h: seq<Event>, i: nat)
    requires Rounds(o, h) && WellAddressed(o, start, deadline, h) && Persistent(h) && i <= |h|
    ensures Rounds(o, h[..i]) && WellAddressed(o, start, deadline, h[..i]) && Persistent(h[..i])
    decreases |h|
  {
    if i == |h| {
      assert h[..i] == h;
    } else {
      RoundsPrefix(o, start, deadline, h[..|h| - 1], i);
      assert h[..|h| - 1][..i] == h[..i];
    }
  }

  /** Every poll goes where the replies before it send it. */
  lemma PollFollowsReplies(o: Options, start: int, deadline: int, h: seq<Event>, i: nat)
    requires Rounds(o, h) && WellAddressed(o, start, deadline, h) && Persistent(h) && i < |h| && h[i].Poll?
    ensures h[i].base == RedirectDue(o.base, h[..i])
  {
    RoundsPrefix(o, start, deadline, h, i + 1);
    var before := h[..i];
    assert h[..i + 1][..i] == before && h[..i + 1][i] == h[i];
    RedirectsAreFollowed(o, before);
  }

  predicate FollowsReplies(o: Options, h: seq<Event>, i: nat)
    requires i < |h|
  {
    h[i].Poll? ==> h[i].base == RedirectDue(o.base, h[..i])
  }

  lemma PollsFollowReplies(o: Options, start: int, deadline: int, h: seq<Event>)
    requires Rounds(o, h) && WellAddressed(o, start, deadline, h) && Persistent(h)
    ensures forall i :: 0 <= i < |h| ==> FollowsReplies(o, h, i)
  {
    forall i | 0 <= i < |h| ensures FollowsReplies(o, h, i) {
      if h[i].Poll? {
        PollFollowsReplies(o, start, deadline, h, i);
      }
    }
  }

  /** A poll that follows a redirect comes straight behind it, and one that follows a
      request for a code comes behind one code and the interval. */
  lemma PollComesAfter(o: Options, start: int, deadline: int, h: seq<Event>, i: nat)
    requires Rounds(o, h) && WellAddressed(o, start, deadline, h) && Persistent(h) && 0 < i < |h| && h[i].Poll?
    ensures LastReply(h[..i]).Some?
    ensures var reply, acts := LastReply(h[..i]).value, Acts(h[..i]);
            && (reply.Answer? && reply.res.status == "scaned_but_redirect" ==>
                  acts == [Redirected("https://" + reply.res.redirectHost)])
            && (reply.Answer? && reply.res.status == "need_verifycode" ==>
                  |acts| == 2 && acts[0].CodeGiven? && Trim(acts[0].code) != "" && acts[1] == Waited)
            && (reply.Failure? || reply.res.status !in {"scaned_but_redirect", "need_verifycode"} ==> acts == [Waited])
  {
    RoundsPrefix(o, start, deadline, h, i + 1);
    assert h[..i + 1][..i] == h[..i] && h[..i + 1][i] == h[i];
  }

  // ----- codes, notices and failures, spelt out

  predicate Scanned(e: Event) {
    e.Reply? && e.reply.Answer? && e.reply.res.status == "scaned"
  }

  /** The code due is that of the last callback, with nothing scanned since; or none. */
  lemma {:induction false} CodeDueSpelt(h: seq<Event>, i: nat)
    requires i <= |h| && forall k :: i <= k < |h| ==> !h[k].CodeGiven? && !Scanned(h[k])
    ensures i == 0 ==> CodeDue(h) == ""
    ensures i > 0 && h[i - 1].CodeGiven? ==> CodeDue(h) == Trim(h[i - 1].code)
    ensures i > 0 && Scanned(h[i - 1]) ==> CodeDue(h) == ""
    decreases |h|
  {
    if h != [] && i < |h| {
      CodeDueSpelt(h[..|h| - 1], i);
    }
  }

  /** No status is passed on twice in a row, and the last one passed on is always the
      last one reported. */
  lemma {:induction false} DedupFacts(statuses: seq<string>)
    ensures LastOf(Dedup(statuses)) == LastOf(statuses)
    ensures Dedup(statuses) != [] ==> Dedup(statuses)[0] != ""
    ensures forall i :: 0 < i < |Dedup(statuses)| ==> Dedup(statuses)[i] != Dedup(statuses)[i - 1]
    decreases |statuses|
  {
    if statuses != [] {
      DedupFacts(statuses[..|statuses| - 1]);
    }
  }

  /** What has been passed on stays passed on. */
  lemma {:induction false} DedupGrows(statuses: seq<string>, n: nat)
    requires n <= |statuses|
    ensures Dedup(statuses[..n]) <= Dedup(statuses)
    decreases |statuses|
  {
    if n == |statuses| {
      assert statuses[..n] == statuses;
    } else {
      DedupGrows(statuses[..|statuses| - 1], n);
      assert statuses[..|statuses| - 1][..n] == statuses[..n];
    }
  }

  /** The login goes on after these HTTP answers, and after no other. */
  lemma PollAfterFailure(o: Options, start: int, deadline: int, h: seq<Event>, i: nat, code: int)
    requires Rounds(o, h) && WellAddressed(o, start, deadline, h) && Persistent(h) && 0 < i < |h| && h[i].Poll?
    ensures LastReply(h[..i]) == Some(Failure(HTTPStatus(code))) ==> code == 408 || code == 429 || code >= 500
    ensures LastReply(h[..i]) != Some(Failure(OtherError))
  {
    RoundsPrefix(o, start, deadline, h, i + 1);
    assert h[..i + 1][..i] == h[..i] && h[..i + 1][i] == h[i];
  }

  /** With one of these it ends only if the context does. */
  lemma FailureThatEnds(o: Options, result: Result, h: seq<Event>)
    requires Explained(o, result, h) && result.RequestFailed?
    ensures LastReply(h) == Some(Failure(result.error)) && result.error != Timeout
    ensures result.error.HTTPStatus? ==> result.error.code < 500 && result.error.code !in {408, 429}
  {}

  /** A result is the one that the last reply and the history call for. */
  ghost predicate Explained(o: Options, result: Result, h: seq<Event>) {
    var last := LastReply(h);
    var status := if last.Some? && last.value.Answer? then last.value.res.status else "none";
    (result.ContextEnded? <==> Ended(h)) &&
    match result
    case ContextEnded => true
    case EmptyQRCode => h == []
    case RequestFailed(e) => last == Some(Failure(e)) && !Retryable(e)
    case LoggedIn(c) =>
      && status == CONFIRMED
      && var res := last.value.res;
         res.botToken != "" && res.botID != "" && c == Credentials(res.botToken, res.botID, res.baseURL, res.userID)
    case ConfirmedNoCreds => status == CONFIRMED && (last.value.res.botToken == "" || last.value.res.botID == "")
    case QRExpired => status == EXPIRED
    case VerificationBlocked => status == VERIFY_CODE_BLOCKED
    case AlreadyBound => status == BOUND_REDIRECT
    case VerificationRequired =>
      status == NEED_VERIFY_CODE && (!o.hasCallback || (h[|h| - 1].CodeGiven? && Trim(h[|h| - 1].code) == ""))
    case AttemptsExhausted => status == NEED_VERIFY_CODE && o.hasCallback && Callbacks(h) == o.maxAttempts
    case CallbackFailed => status == NEED_VERIFY_CODE && h[|h| - 1].CodeFailed?
    case BadRedirect => status == REDIRECT && !o.accepts(last.value.res.redirectHost)
    case RedirectLimit =>
      && status == REDIRECT
      && (|Redirects(h)| == MAX_QR_REDIRECTS || RedirectURL(last.value.res.redirectHost) in Redirects(h))
    case NoStatus => last.Some? && last.value.Answer? && status == ""
  }

  /** A poll may go out now, to that base and with that code. */
  ghost predicate Due(o: Options, start: int, deadline: int, interval: int, h: seq<Event>, poll: Event)
    requires poll.Poll?
  {
    && poll.base == BaseDue(o.base, h) && poll.code == CodeDue(h) && start <= poll.at < deadline
    && (LastPoll(h).Some? ==>
          && poll.at >= LastPoll(h).value
          && (RedirectsSince(h) > 0 || poll.at >= LastPoll(h).value + interval))
    && (LastReply(h).Some? ==> Continues(LastReply(h).value))
  }

  /** All that is promised of a history, event by event. */
  ghost predicate Kept(o: Options, start: int, deadline: int, interval: int, h: seq<Event>) {
    h == [] ||
    var before, last := h[..|h| - 1], h[|h| - 1];
    && Kept(o, start, deadline, interval, before) && Legal(o, before, last)
    && (last.Poll? ==> Due(o, start, deadline, interval, before, last))
  }

  lemma {:induction false} KeptMeans(o: Options, start: int, deadline: int, interval: int, h: seq<Event>)
    requires Kept(o, start, deadline, interval, h)
    ensures WellAddressed(o, start, deadline, h) && Throttled(interval, h) && Persistent(h) && Rounds(o, h)
    decreases |h|
  {
    if h != [] {
      KeptMeans(o, start, deadline, interval, h[..|h| - 1]);
    }
  }

  /** A legal event, if a poll then a due one, breaks none of the promises. */
  lemma AfterEvent(o: Options, start: int, deadline: int, interval: int, h: seq<Event>, e: Event)
    requires Kept(o, start, deadline, interval, h) && Legal(o, h, e)
    requires e.Poll? ==> Due(o, start, deadline, interval, h, e)
    ensures Kept(o, start, deadline, interval, h + [e])
  {
    assert (h + [e])[..|h|] == h;
  }

  /** Following a redirect leaves everything else that the history says as it was. */
  lemma AfterRedirect(o: Options, h: seq<Event>, host: string)
    requires GoodRedirects(o, Redirects(h)) && |Redirects(h)| < MAX_QR_REDIRECTS
    requires o.accepts(host) && RedirectURL(host) !in Redirects(h)
    ensures var h' := h + [Redirected(RedirectURL(host))];
            && GoodRedirects(o, Redirects(h')) && Redirects(h') == Redirects(h) + [RedirectURL(host)]
            && LastReply(h') == LastReply(h) && LastPoll(h') == LastPoll(h)
            && RedirectsSince(h') == RedirectsSince(h) + 1 && Callbacks(h') == Callbacks(h)
            && CodeDue(h') == CodeDue(h) && Ended(h') == Ended(h)
            && Acts(h') == Acts(h) + [Redirected(RedirectURL(host))]
            && Statuses(h') == Statuses(h) && Notifications(h') == Notifications(h)
  {
    MoreRedirects(o, Redirects(h), host);
    assert (h + [Redirected(RedirectURL(host))])[..|h|] == h;
  }

  /** The set holds the redirects of the history. */
  ghost predicate SameHosts(some: set<string>, redirects: seq<string>) {
    (forall r :: r in some <==> r in redirects) && |some| == |redirects|
  }

  lemma OneMoreHost(some: set<string>, redirects: seq<string>, host: string)
    requires SameHosts(some, redirects) && host !in some
    ensures SameHosts(some + {host}, redirects + [host])
  {}

  lemma AfterPoll(h: seq<Event>, at: int, base: string, code: string)
    ensures var h' := h + [Poll(at, base, code)];
            && Redirects(h') == Redirects(h) && Callbacks(h') == Callbacks(h)
            && LastReply(h') == LastReply(h) && LastPoll(h') == Some(at) && RedirectsSince(h') == 0
            && Ended(h') == Ended(h) && CodeDue(h') == CodeDue(h)
            && Notifications(h') == Notifications(h) && Statuses(h') == Statuses(h)
  {
    assert (h + [Poll(at, base, code)])[..|h|] == h;
  }

  /** A reply is one more status, if it is an answer, and asks for everything anew. */
  lemma AfterReply(h: seq<Event>, reply: Reply)
    ensures var h' := h + [Reply(reply)];
            && Redirects(h') == Redirects(h) && Callbacks(h') == Callbacks(h)
            && LastReply(h') == Some(reply) && LastPoll(h') == LastPoll(h) && RedirectsSince(h') == RedirectsSince(h)
            && Acts(h') == [] && Ended(h') == Ended(h) && Notifications(h') == Notifications(h)
            && Statuses(h') == Statuses(h) + (if reply.Answer? then [reply.res.status] else [])
            && CodeDue(h') == if reply.Answer? && reply.res.status == SCANNED then "" else CodeDue(h)
  {
    assert (h + [Reply(reply)])[..|h|] == h;
  }

  /** What came back from the verification callback is the code due, or is not. */
  lemma AfterCode(h: seq<Event>, e: Event)
    requires e.CodeGiven? || e.CodeFailed?
    ensures var h' := h + [e];
            && Redirects(h') == Redirects(h) && Callbacks(h') == Callbacks(h) + 1
            && LastReply(h') == LastReply(h) && LastPoll(h') == LastPoll(h) && RedirectsSince(h') == RedirectsSince(h)
            && Acts(h') == Acts(h) + [e] && Ended(h') == Ended(h)
            && Notifications(h') == Notifications(h) && Statuses(h') == Statuses(h)
            && CodeDue(h') == if e.CodeGiven? then Trim(e.code) else CodeDue(h)
  {
    assert (h + [e])[..|h|] == h;
  }

  lemma AfterWait(h: seq<Event>)
    ensures var h' := h + [Waited];
            && Redirects(h') == Redirects(h) && Callbacks(h') == Callbacks(h)
            && LastReply(h') == LastReply(h) && LastPoll(h') == LastPoll(h) && RedirectsSince(h') == RedirectsSince(h)
            && Acts(h') == Acts(h) + [Waited] && Ended(h') == Ended(h)
            && Notifications(h') == Notifications(h) && Statuses(h') == Statuses(h) && CodeDue(h') == CodeDue(h)
  {
    assert (h + [Waited])[..|h|] == h;
  }

  // ----- how many polls that allows

  function FirstPoll(h: seq<Event>): Option<int> {
    if h == [] then None
    else
      var before, last := FirstPoll(h[..|h| - 1]), h[|h| - 1];
      if before.None? && last.Poll? then Some(last.at) else before
  }

  /** The time between the first and the last poll pays for every poll but the
      first, except those that followed a redirect. */
  lemma {:induction false} ElapsedPerPoll(interval: int, h: seq<Event>)
    requires interval > 0 && Throttled(interval, h)
    ensures LastPoll(h).Some? == FirstPoll(h).Some? == (PollTimes(h) != [])
    ensures RedirectsSince(h) <= |Redirects(h)|
    ensures LastPoll(h).Some? ==>
              LastPoll(h).value - FirstPoll(h).value >=
              interval * (|PollTimes(h)| - 1 - |Redirects(h)| + RedirectsSince(h))
    decreases |h|
  {
    if h != [] {
      var before, last := h[..|h| - 1], h[|h| - 1];
      ElapsedPerPoll(interval, before);
      if last.Poll? && LastPoll(before).Some? {
        var due := |PollTimes(before)| - 1 - |Redirects(before)| + RedirectsSince(before);
        if RedirectsSince(before) > 0 {
          Scale(interval, |PollTimes(before)| - |Redirects(before)|, due);
        } else {
          assert interval * (due + 1) == interval * due + interval;
        }
      }
    }
  }

  lemma Scale(interval: int, a: int, b: int)
    requires interval > 0 && a <= b
    ensures interval * a <= interval * b
  {}

  lemma {:induction false} PollsInTime(o: Options, start: int, deadline: int, h: seq<Event>)
    requires WellAddressed(o, start, deadline, h)
    ensures LastPoll(h).Some? ==> start <= LastPoll(h).value < deadline
    ensures FirstPoll(h).Some? ==> start <= FirstPoll(h).value < deadline
    decreases |h|
  {
    if h != [] {
      PollsInTime(o, start, deadline, h[..|h| - 1]);
    }
  }

  /** A login makes at most six polls, and one more for each whole interval of its
      timeout, however fast callback and server answer. */
  lemma PollLimit(o: Options, start: int, interval: int, timeout: int, h: seq<Event>)
    requires interval > 0 && timeout > 0
    requires WellAddressed(o, start, start + timeout, h) && Throttled(interval, h) && GoodRedirects(o, Redirects(h))
    ensures |PollTimes(h)| <= 1 + MAX_QR_REDIRECTS + timeout / interval
  {
    ElapsedPerPoll(interval, h);
    PollsInTime(o, start, start + timeout, h);
    if PollTimes(h) != [] {
      var paid := |PollTimes(h)| - 1 - MAX_QR_REDIRECTS;
      Scale(interval, paid, |PollTimes(h)| - 1 - |Redirects(h)| + RedirectsSince(h));
      Quotient(interval, paid, timeout);
    }
  }

  lemma Quotient(interval: int, n: int, timeout: int)
    requires interval > 0 && timeout > 0 && interval * n < timeout
    ensures n <= timeout / interval
  {
    if n > timeout / interval {
      Scale(interval, timeout / interval + 1, n);
      assert false;
    }
  }

  // ----- the loop

  /** One login in progress: the variables of the loop and the history behind them. */
  class Session {
    const o: Options
    const interval: int
    const start: int
    const deadline: int
    var now: int
    var base: string
    var lastStatus: string
    var verifyCode: string
    var redirects: set<string>
    var verifyAttempts: nat
    /** How often the context has been asked whether it is over. */
    var checks: nat
    ghost var h: seq<Event>

    constructor (o: Options, interval: int, timeout: int, start: int)
      requires interval > 0
      ensures Ready() && h == [] && now == start
      ensures this.o == o && this.interval == interval && this.start == start && deadline == start + timeout
    {
      this.o, this.interval, this.start, this.deadline := o, interval, start, start + timeout;
      now, base, lastStatus, verifyCode, redirects, verifyAttempts := start, o.base, "", "", {}, 0;
      checks := 0;
      h := [];
    }

    /** What holds of the history at every moment. */
    ghost predicate Sound()
      reads this
    {
      && interval > 0
      && Kept(o, start, deadline, interval, h)
      && GoodRedirects(o, Redirects(h))
      && base == BaseDue(o.base, h)
      && SameHosts(redirects, Redirects(h))
      && verifyAttempts == Callbacks(h) <= o.maxAttempts
      && start <= now && (LastPoll(h).Some? ==> LastPoll(h).value <= now)
    }

    /** Every status the server reported has been passed on. */
    ghost predicate Told()
      reads this
    {
      lastStatus == LastOf(Statuses(h)) && Notifications(h) == Dedup(Statuses(h))
    }

    /** Ready to poll: the last reply was one to go on after, and the interval is
        over unless a redirect is being followed. */
    ghost predicate Ready()
      reads this
    {
      && Sound() && Told() && verifyCode == CodeDue(h) && !Ended(h)
      && (h == [] || (LastReply(h).Some? && Settled(LastReply(h).value, Acts(h))))
      && (LastReply(h).Some? ==> Continues(LastReply(h).value))
      && (LastPoll(h).Some? ==> RedirectsSince(h) > 0 || LastPoll(h).value + interval <= now)
    }

    /** A reply is in: the next step is up to it. */
    ghost predicate Replied(reply: Reply)
      reads this
    {
      && Sound() && !Ended(h) && LastReply(h) == Some(reply) && LastPoll(h).Some? && RedirectsSince(h) == 0
      && CodeDue(h) == if reply.Answer? && reply.res.status == SCANNED then "" else verifyCode
    }

    /** The clock only moves forward. */
    method Elapse(atLeast: nat)
      modifies this`now
      ensures now >= old(now) + atLeast
    {
      var d :| d >= atLeast;
      now := now + d;
    }

    /** `ctx.Err()`: set from the deadline on, or earlier by the parent. */
    method CtxErr() returns (err: bool)
      requires Sound() && Told() && !Ended(h)
      modifies this`h, this`checks
      ensures checks == old(checks) + 1
      ensures !err ==> now < deadline && h == old(h)
      ensures err ==> Sound() && Told() && Ended(h)
      ensures PollTimes(h) == old(PollTimes(h))
    {
      err := Ask();
      if err {
        NoteEnd();
      }
    }

    method Ask() returns (err: bool)
      modifies this`checks
      ensures checks == old(checks) + 1
      ensures !err ==> now < deadline
    {
      checks := checks + 1;
      err := *;
      if now >= deadline {
        err := true;
      }
    }

    ghost method NoteEnd()
      requires Sound() && Told() && !Ended(h)
      modifies this`h
      ensures Sound() && Told() && Ended(h)
      ensures PollTimes(h) == old(PollTimes(h))
    {
      AfterEvent(o, start, deadline, interval, h, Over);
      assert (h + [Over])[..|h|] == h;
      h := h + [Over];
    }

    /** A request goes out with the current base and code. */
    ghost method Request()
      requires Ready() && now < deadline
      modifies this`h
      ensures Sound() && Told() && verifyCode == CodeDue(h)
      ensures LastPoll(h).Some? && RedirectsSince(h) == 0 && h != [] && !Ended(h) && h[|h| - 1].Poll?
    {
      AfterEvent(o, start, deadline, interval, h, Poll(now, base, verifyCode));
      AfterPoll(h, now, base, verifyCode);
      h := h + [Poll(now, base, verifyCode)];
    }

    /** One status request, and its reply. */
    method CheckQRStatus() returns (reply: Reply)
      requires Ready() && now < deadline
      modifies this`now, this`h
      ensures Replied(reply) && h != [] && h[|h| - 1].Reply? && now >= old(now)
      ensures reply.Failure? ==> Told() && verifyCode == CodeDue(h)
      ensures reply.Answer? ==> Untold(reply.res.status)
    {
      Request();
      reply := AnyReply();
      Elapse(0);
      AfterEvent(o, start, deadline, interval, h, Reply(reply));
      AfterReply(h, reply);
      h := h + [Reply(reply)];
    }

    method AnyReply() returns (reply: Reply)
    {
      reply := *;
    }

    /** All but the last reported status have been passed on. */
    ghost predicate Untold(status: string)
      reads this
    {
      var statuses := Statuses(h);
      && statuses != [] && statuses[|statuses| - 1] == status
      && lastStatus == LastOf(statuses[..|statuses| - 1])
      && Notifications(h) == Dedup(statuses[..|statuses| - 1])
    }

    /** `onStatus`, when the status has changed. */
    method Report(res: Status)
      requires Replied(Answer(res)) && Untold(res.status) && h != [] && h[|h| - 1].Reply?
      modifies this`now, this`h, this`lastStatus
      ensures Replied(Answer(res)) && Told() && Acts(h) == [] && now >= old(now)
      ensures h == old(h) || h == old(h) + [Notified(res.status)]
    {
      if res.status != lastStatus {
        lastStatus := res.status;
        AfterEvent(o, start, deadline, interval, h, Notified(res.status));
        assert (h + [Notified(res.status)])[..|h|] == h;
        h := h + [Notified(res.status)];
        Elapse(0);
      }
    }

    /** The verification callback; `ended` says the context was over when it returned. */
    method AskCode(res: Status) returns (code: Option<string>, ended: bool)
      requires Replied(Answer(res)) && Told() && Acts(h) == []
      requires o.hasCallback && verifyAttempts < o.maxAttempts && res.status == NEED_VERIFY_CODE
      modifies this`now, this`h, this`verifyAttempts, this`verifyCode, this`checks
      ensures checks == old(checks) + 1 && verifyAttempts == old(verifyAttempts) + 1
      ensures Sound() && Told() && now >= old(now)
      ensures if ended then Ended(h) else Replied(Answer(res)) && verifyCode == CodeDue(h)
      ensures !ended ==> h == old(h) + [if code.None? then CodeFailed else CodeGiven(code.value)]
    {
      code := AnyCode();
      Elapse(0);
      ended := Ask();
      if code.None? || ended {
        NoCode(res);
        if ended {
          NoteEnd();
        }
      } else {
        TakeCode(res, code.value);
      }
    }

    method TakeCode(res: Status, code: string)
      requires Replied(Answer(res)) && Told() && Acts(h) == []
      requires o.hasCallback && verifyAttempts < o.maxAttempts && res.status == NEED_VERIFY_CODE
      modifies this`h, this`verifyAttempts, this`verifyCode
      ensures Replied(Answer(res)) && Told() && verifyCode == Trim(code) == CodeDue(h)
      ensures h == old(h) + [CodeGiven(code)] && verifyAttempts == old(verifyAttempts) + 1
    {
      verifyAttempts := verifyAttempts + 1;
      verifyCode := Trim(code);
      AfterEvent(o, start, deadline, interval, h, CodeGiven(code));
      AfterCode(h, CodeGiven(code));
      h := h + [CodeGiven(code)];
    }

    method NoCode(res: Status)
      requires Replied(Answer(res)) && Told() && Acts(h) == []
      requires o.hasCallback && verifyAttempts < o.maxAttempts && res.status == NEED_VERIFY_CODE
      modifies this`h, this`verifyAttempts
      ensures Replied(Answer(res)) && Told() && verifyCode == CodeDue(h)
      ensures h == old(h) + [CodeFailed] && verifyAttempts == old(verifyAttempts) + 1
    {
      verifyAttempts := verifyAttempts + 1;
      AfterEvent(o, start, deadline, interval, h, CodeFailed);
      AfterCode(h, CodeFailed);
      h := h + [CodeFailed];
    }

    method AnyCode() returns (code: Option<string>)
    {
      code := *;
    }

    /** Follows a redirect to an accepted host not visited before. */
    method Follow(res: Status)
      requires Replied(Answer(res)) && Told() && Acts(h) == [] && res.status == REDIRECT
      requires o.accepts(res.redirectHost)
      requires |redirects| < MAX_QR_REDIRECTS && RedirectURL(res.redirectHost) !in redirects
      modifies this`h, this`redirects, this`base
      ensures Ready() && |redirects| == old(|redirects|) + 1
      ensures h == old(h) + [Redirected(RedirectURL(res.redirectHost))]
    {
      NoteRedirect(res);
      base := RedirectURL(res.redirectHost);
      redirects := redirects + {base};
    }

    /** The history of a redirect, ahead of the variables. */
    ghost method NoteRedirect(res: Status)
      requires Replied(Answer(res)) && Told() && Acts(h) == [] && res.status == REDIRECT
      requires o.accepts(res.redirectHost)
      requires |redirects| < MAX_QR_REDIRECTS && RedirectURL(res.redirectHost) !in redirects
      modifies this`h
      ensures Kept(o, start, deadline, interval, h) && GoodRedirects(o, Redirects(h))
      ensures BaseDue(o.base, h) == RedirectURL(res.redirectHost)
      ensures SameHosts(redirects + {RedirectURL(res.redirectHost)}, Redirects(h))
      ensures Told() && !Ended(h) && verifyCode == CodeDue(h) && verifyAttempts == Callbacks(h)
      ensures LastReply(h) == Some(Answer(res)) && Settled(Answer(res), Acts(h)) && RedirectsSince(h) > 0
      ensures LastPoll(h) == old(LastPoll(h))
      ensures h == old(h) + [Redirected(RedirectURL(res.redirectHost))]
    {
      AfterEvent(o, start, deadline, interval, h, Redirected(RedirectURL(res.redirectHost)));
      AfterRedirect(o, h, res.redirectHost);
      OneMoreHost(redirects, Redirects(h), RedirectURL(res.redirectHost));
      h := h + [Redirected(RedirectURL(res.redirectHost))];
    }

    ghost method NoteWait(reply: Reply)
      requires Replied(reply) && Told() && Continues(reply) && MayWait(Some(reply), Acts(h)) && verifyCode == CodeDue(h)
      requires LastPoll(h).value + interval <= now
      modifies this`h
      ensures Ready()
    {
      AfterEvent(o, start, deadline, interval, h, Waited);
      AfterWait(h);
      h := h + [Waited];
    }

    /** The loop: poll, act on the reply, wait. */
    method Run(qrcode: string) returns (result: Result)
      requires Ready() && h == []
      modifies this
      ensures Sound() && Told()
      ensures Explained(o, result, h)
      ensures result.EmptyQRCode? ==> qrcode == ""
      ensures qrcode == "" ==> PollTimes(h) == [] && (result.EmptyQRCode? || result.ContextEnded?)
    {
      while true
        invariant Ready() && (h == [] || qrcode != "")
        decreases deadline - now, MAX_QR_REDIRECTS - |redirects|
      {
        var ctxErr := CtxErr();
        if ctxErr {
          return ContextEnded;
        }
        if qrcode == "" {
          // The request fails before it goes out, for a reason that is not retried.
          ctxErr := CtxErr();
          return if ctxErr then ContextEnded else EmptyQRCode;
        }
        var reply := CheckQRStatus();
        var done, redirected := Settle(reply);
        if done.Some? {
          return done.value;
        }
        if redirected {
          continue;
        }
        var stopped := WaitInterval(reply);
        if stopped {
          return ContextEnded;
        }
      }
    }

    /** From the reply to the wait: a failure may be retried, a status is reported
        and acted on. */
    method Settle(reply: Reply) returns (done: Option<Result>, redirected: bool)
      requires Replied(reply) && h != [] && h[|h| - 1].Reply?
      requires if reply.Failure? then Told() && verifyCode == CodeDue(h) else Untold(reply.res.status)
      modifies this`now, this`h, this`lastStatus, this`verifyAttempts, this`verifyCode, this`redirects, this`base, this`checks
      ensures checks == old(checks) + 1 + verifyAttempts - old(verifyAttempts)
      ensures Sound() && Told() && now >= old(now)
      ensures done.Some? ==> Explained(o, done.value, h) && !done.value.EmptyQRCode?
      ensures done.None? && redirected ==> Ready() && h != [] && |redirects| == old(|redirects|) + 1
      ensures done.None? && !redirected ==>
                && Replied(reply) && Continues(reply) && MayWait(Some(reply), Acts(h))
                && verifyCode == CodeDue(h) && h != [] && redirects == old(redirects)
    {
      done, redirected := None, false;
      if reply.Failure? {
        done := Fail(reply.error);
      } else {
        done, redirected := Handle(reply.res);
      }
    }

    /** A status: the application is told, the context checked, and the status acted on. */
    method Handle(res: Status) returns (done: Option<Result>, redirected: bool)
      requires Replied(Answer(res)) && Untold(res.status) && h != [] && h[|h| - 1].Reply?
      modifies this`now, this`h, this`lastStatus, this`verifyAttempts, this`verifyCode, this`redirects, this`base, this`checks
      ensures checks == old(checks) + 1 + verifyAttempts - old(verifyAttempts)
      ensures Sound() && Told() && now >= old(now)
      ensures done.Some? ==> Explained(o, done.value, h) && !done.value.EmptyQRCode?
      ensures done.None? && redirected ==> Ready() && h != [] && |redirects| == old(|redirects|) + 1
      ensures done.None? && !redirected ==>
                && Replied(Answer(res)) && Continues(Answer(res)) && MayWait(Some(Answer(res)), Acts(h))
                && verifyCode == CodeDue(h) && redirects == old(redirects)
    {
      Report(res);
      var ctxErr := CtxErr();
      if ctxErr {
        return Some(ContextEnded), false;
      }
      done, redirected := Act(res);
    }

    /** A failed request: the context is to blame if it is over; some failures are retried. */
    method Fail(error: RequestError) returns (done: Option<Result>)
      requires Replied(Failure(error)) && Told()
      modifies this`h, this`checks
      ensures checks == old(checks) + 1
      ensures Sound() && Told()
      ensures if done.Some? then Explained(o, done.value, h) && !done.value.EmptyQRCode?
              else Retryable(error) && h == old(h)
    {
      var ctxErr := CtxErr();
      if ctxErr {
        return Some(ContextEnded);
      }
      return if Retryable(error) then None else Some(RequestFailed(error));
    }

    /** A redirect: refused, one too many, or followed. */
    method Redirect(res: Status) returns (done: Option<Result>)
      requires Replied(Answer(res)) && Told() && Acts(h) == [] && res.status == REDIRECT
      modifies this`h, this`redirects, this`base
      ensures Sound() && Told()
      ensures done.Some? ==> Explained(o, done.value, h) && !done.value.EmptyQRCode?
      ensures done.None? ==> Ready() && h != [] && |redirects| == old(|redirects|) + 1
    {
      if !o.accepts(res.redirectHost) {
        return Some(BadRedirect);
      }
      if |redirects| >= MAX_QR_REDIRECTS || RedirectURL(res.redirectHost) in redirects {
        return Some(RedirectLimit);
      }
      Follow(res);
      return None;
    }

    /** The switch on the reported status: a result, or a redirect followed, or on. */
    method Act(res: Status) returns (done: Option<Result>, redirected: bool)
      requires Replied(Answer(res)) && Told() && Acts(h) == []
      modifies this`now, this`h, this`verifyAttempts, this`verifyCode, this`redirects, this`base, this`checks
      ensures checks == old(checks) + verifyAttempts - old(verifyAttempts)
      ensures Sound() && Told() && now >= old(now)
      ensures done.Some? ==> Explained(o, done.value, h) && !done.value.EmptyQRCode?
      ensures done.None? && redirected ==> Ready() && h != [] && |redirects| == old(|redirects|) + 1
      ensures done.None? && !redirected ==>
                && Replied(Answer(res)) && Continues(Answer(res)) && MayWait(Some(Answer(res)), Acts(h))
                && verifyCode == CodeDue(h) && redirects == old(redirects)
    {
      done, redirected := None, false;
      if res.status == CONFIRMED {
        done := Some(if res.botToken == "" || res.botID == "" then ConfirmedNoCreds
                     else LoggedIn(Credentials(res.botToken, res.botID, res.baseURL, res.userID)));
      } else if res.status == EXPIRED {
        done := Some(QRExpired);
      } else if res.status == NEED_VERIFY_CODE {
        done := Verify(res);
      } else if res.status == VERIFY_CODE_BLOCKED {
        done := Some(VerificationBlocked);
      } else if res.status == BOUND_REDIRECT {
        done := Some(AlreadyBound);
      } else if res.status == REDIRECT {
        done := Redirect(res);
        redirected := done.None?;
      } else if res.status == SCANNED {
        verifyCode := "";
      } else if res.status != WAIT && res.status == "" {
        done := Some(NoStatus);
      }
    }

    /** A code is asked for: within the limit, the callback supplies it. */
    method Verify(res: Status) returns (done: Option<Result>)
      requires Replied(Answer(res)) && Told() && Acts(h) == [] && res.status == NEED_VERIFY_CODE
      modifies this`now, this`h, this`verifyAttempts, this`verifyCode, this`checks
      ensures checks == old(checks) + verifyAttempts - old(verifyAttempts)
      ensures Sound() && Told() && now >= old(now)
      ensures done != Some(EmptyQRCode)
      ensures if done.Some? then Explained(o, done.value, h)
              else Replied(Answer(res)) && MayWait(Some(Answer(res)), Acts(h)) && verifyCode == CodeDue(h)
    {
      if !o.hasCallback {
        return Some(VerificationRequired);
      }
      if verifyAttempts >= o.maxAttempts {
        return Some(AttemptsExhausted);
      }
      var code, ended := AskCode(res);
      if ended {
        return Some(ContextEnded);
      }
      if code.None? {
        return Some(CallbackFailed);
      }
      if verifyCode == "" {
        return Some(VerificationRequired);
      }
      return None;
    }

    /** The reply was one to go on after: wait, unless the context ends first. */
    method WaitInterval(reply: Reply) returns (ended: bool)
      requires Replied(reply) && Told() && Continues(reply) && MayWait(Some(reply), Acts(h)) && verifyCode == CodeDue(h)
      modifies this`now, this`h
      ensures Sound() && Told()
      ensures if ended then Ended(h) else Ready() && now >= old(now) + interval
    {
      ended := *;
      if ended {
        NoteEnd();
      } else {
        Elapse(interval);
        NoteWait(reply);
      }
    }
  }

  /** The login loop. */
  method WaitForQRConfirmation(qrcode: string, interval0: int, timeout0: int, o: Options, start: int)
    returns (result: Result, ghost h: seq<Event>)
    ensures var interval := if interval0 <= 0 then DEFAULT_INTERVAL else interval0;
            var timeout := if timeout0 <= 0 then DEFAULT_TIMEOUT else timeout0;
            && WellAddressed(o, start, start + timeout, h)
            && Throttled(interval, h)
            && |PollTimes(h)| <= 1 + MAX_QR_REDIRECTS + timeout / interval
    ensures Notifications(h) == Dedup(Statuses(h))
    ensures GoodRedirects(o, Redirects(h))
    ensures Callbacks(h) <= o.maxAttempts
    ensures Persistent(h) && Explained(o, result, h) && Rounds(o, h)
    ensures forall i :: 0 <= i < |h| ==> FollowsReplies(o, h, i)
    ensures result.EmptyQRCode? ==> qrcode == ""
    ensures qrcode == "" ==> PollTimes(h) == [] && (result.EmptyQRCode? || result.ContextEnded?)
  {
    var interval := if interval0 <= 0 then DEFAULT_INTERVAL else interval0;
    var timeout := if timeout0 <= 0 then DEFAULT_TIMEOUT else timeout0;
    var s := new Session(o, interval, timeout, start);
    result := s.Run(qrcode);
    h := s.h;
    KeptMeans(o, start, start + timeout, interval, h);
    PollLimit(o, start, interval, timeout, h);
    PollsFollowReplies(o, start, start + timeout, h);
  }
}
