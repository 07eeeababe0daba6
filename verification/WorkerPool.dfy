/** The parallel branch of `processBatch` (`listener.go`): an enqueuer hands groups
    to workers over an unbuffered channel, each worker dispatches its group message
    by message and item by item, and the first error cancels the batch. Every
    interleaving is a sequence of atomic actions. */
module WorkerPool {
  import opened Messages
  import opened Recency

  /** One batch: the groups, the user of each group, and the configuration. */
  datatype Batch = Batch(
    groups: seq<seq<Message>>,
    users: seq<string>,
    concurrency: nat,
    capacity: nat)

  ghost predicate WellFormedBatch(b: Batch) {
    && b.concurrency >= 1
    && b.capacity >= 1
    && |b.users| == |b.groups|
    && (forall g, h :: 0 <= g < h < |b.users| ==> b.users[g] != b.users[h])
    && (forall g, k :: 0 <= g < |b.groups| && 0 <= k < |b.groups[g]| ==> b.groups[g][k].fromUser == b.users[g])
  }

  datatype Error =
    | Cancelled                  // ctx.Err() of the batch context
    | EncodeFailed(msg: Message)
    | HandlerFailed(call: Call)  // an error or a recovered panic
    | ParentCause                // the cause of the parent context

  /** The conversation carried by a handler's context. */
  datatype Conversation = Conversation(user: string, token: string)

  /** Where a worker stands inside one `dispatchInbound`. */
  datatype Stage =
    | Enter            // about to check the context
    | Entered          // the check passed
    | AtItem(j: nat)   // about to check the context before item j
    | Ready(j: nat)    // that check passed
    | Running(j: nat)  // the handler is in flight

  datatype Worker =
    | Idle             // receiving from the channel
    | Busy(g: nat, k: nat, stage: Stage, conversation: Option<Conversation>)
    | Failing(g: nat, err: Error)  // dispatch failed, cancel not yet called
    | Exited

  /** A message sent by a running handler of `origin`. */
  datatype Sent = Sent(origin: Message, to: string, token: string)

  datatype State = State(
    sent: nat,                  // groups received by workers
    closed: bool,               // the channel is closed
    workers: seq<Worker>,
    cause: Option<Error>,       // first cancellation of the batch context
    result: Option<Option<Error>>,
    cache: seq<Entry>,
    // history
    parentCancelled: bool,
    outside: bool,              // the application set or forgot a token itself
    started: seq<Call>,
    returned: seq<Call>,        // handler calls that returned nil
    failed: seq<Call>,          // handler calls that returned an error or panicked
    unencoded: seq<Message>,    // messages whose raw form could not be built
    late: seq<nat>,             // handler calls started by each worker after the cancellation
    replies: seq<Sent>)

  function WorkerCount(b: Batch): nat {
    if b.concurrency < |b.groups| then b.concurrency else |b.groups|
  }

  function Init(b: Batch, cache: seq<Entry>): State {
    var n := WorkerCount(b);
    State(0, false, seq(n, _ => Idle), None, None, cache, false, false, [], [], [], [], seq(n, _ => 0), [])
  }

  datatype Action =
    | Send(w: nat)              // jobs <- group, received by worker w
    | CloseJobs                 // all sent, or the select saw the cancellation
    | Leave(w: nat)             // range over the closed channel ends
    | NextGroup(w: nat)         // the group is done
    | CheckMessage(w: nat)      // ctx.Err() on entry to dispatchInbound
    | Prepare(w: nat, encodes: bool)  // save the token, build the context, encode if needed
    | CheckItem(w: nat)         // ctx.Err() before an item, or the items are done
    | Invoke(w: nat)            // the handler is called
    | HandlerReturns(w: nat, ok: bool)
    | Cancel(w: nat)            // cancel(err) and return
    | ParentCancel
    | Return                    // workers.Wait() is over; context.Cause
    | Reply(w: nat, to: string) // a running handler sends a message
    | Outside(op: Op)           // cache operation of the application

  predicate Holds(p: Worker, g: nat) {
    (p.Busy? || p.Failing?) && p.g == g
  }

  predicate AllExited(workers: seq<Worker>) {
    forall w :: 0 <= w < |workers| ==> workers[w].Exited?
  }

  /** The message a busy worker is on. */
  predicate OnMessage(b: Batch, p: Worker) {
    p.Busy? && p.g < |b.groups| && p.k < |b.groups[p.g]|
  }

  function MessageOf(b: Batch, p: Worker): Message
    requires OnMessage(b, p)
  {
    b.groups[p.g][p.k]
  }

  predicate Enabled(b: Batch, s: State, a: Action) {
    && s.result.None?
    && match a
       case Send(w) => !s.closed && s.sent < |b.groups| && w < |s.workers| && s.workers[w].Idle?
       case CloseJobs => !s.closed && (s.sent >= |b.groups| || s.cause.Some?)
       case Leave(w) => s.closed && w < |s.workers| && s.workers[w].Idle?
       case NextGroup(w) =>
         && w < |s.workers| && s.workers[w].Busy? && s.workers[w].stage.Enter?
         && s.workers[w].g < |b.groups| && s.workers[w].k >= |b.groups[s.workers[w].g]|
       case CheckMessage(w) =>
         w < |s.workers| && OnMessage(b, s.workers[w]) && s.workers[w].stage.Enter?
       case Prepare(w, encodes) =>
         && w < |s.workers| && OnMessage(b, s.workers[w]) && s.workers[w].stage.Entered?
         && (encodes || !MessageOf(b, s.workers[w]).hasRaw)
       case CheckItem(w) =>
         w < |s.workers| && OnMessage(b, s.workers[w]) && s.workers[w].stage.AtItem?
       case Invoke(w) =>
         w < |s.workers| && OnMessage(b, s.workers[w]) && s.workers[w].stage.Ready? && w < |s.late|
       case HandlerReturns(w, ok) =>
         w < |s.workers| && OnMessage(b, s.workers[w]) && s.workers[w].stage.Running?
       case Cancel(w) => w < |s.workers| && s.workers[w].Failing?
       case ParentCancel => !s.parentCancelled
       case Return => s.closed && AllExited(s.workers)
       case Reply(w, to) =>
         w < |s.workers| && OnMessage(b, s.workers[w]) && s.workers[w].stage.Running?
       case Outside(_) => true
  }

  function SetCause(s: State, err: Error): State {
    if s.cause.None? then s.(cause := Some(err)) else s
  }

  /** The conversation attached to the context of a message's handler calls. */
  function ConversationOf(m: Message): Option<Conversation> {
    if m.fromUser != "" && m.contextToken != "" then Some(Conversation(m.fromUser, m.contextToken)) else None
  }

  /** The token a send to `to` carries, and the cache afterwards (`contextTokenFor`). */
  function TokenFor(cache: seq<Entry>, conversation: Option<Conversation>, to: string): (string, seq<Entry>) {
    if conversation.Some? && conversation.value.user == to then (conversation.value.token, cache)
    else (Lookup(cache, to), Touch(cache, to))
  }

  function Step(b: Batch, s: State, a: Action): State
    requires Enabled(b, s, a)
  {
    match a
    case Send(w) =>
      s.(sent := s.sent + 1, workers := s.workers[w := Busy(s.sent, 0, Enter, None)])
    case CloseJobs => s.(closed := true)
    case Leave(w) => s.(workers := s.workers[w := Exited])
    case NextGroup(w) => s.(workers := s.workers[w := Idle])
    case CheckMessage(w) =>
      var p := s.workers[w];
      s.(workers := s.workers[w := if s.cause.Some? then Failing(p.g, Cancelled) else p.(stage := Entered)])
    case Prepare(w, encodes) =>
      var p := s.workers[w];
      var m := MessageOf(b, p);
      var saved := if m.fromUser != "" && m.contextToken != ""
                   then s.(cache := SetToken(b.capacity, s.cache, m.fromUser, m.contextToken)) else s;
      if encodes
      then saved.(workers := s.workers[w := Busy(p.g, p.k, AtItem(0), ConversationOf(m))])
      else saved.(workers := s.workers[w := Failing(p.g, EncodeFailed(m))], unencoded := s.unencoded + [m])
    case CheckItem(w) =>
      var p := s.workers[w];
      var next := if p.stage.j >= |MessageOf(b, p).items| then Busy(p.g, p.k + 1, Enter, None)
                  else if s.cause.Some? then Failing(p.g, Cancelled)
                  else p.(stage := Ready(p.stage.j));
      s.(workers := s.workers[w := next])
    case Invoke(w) =>
      var p := s.workers[w];
      s.(workers := s.workers[w := p.(stage := Running(p.stage.j))],
         started := s.started + [Call(MessageOf(b, p), p.stage.j)],
         late := if s.cause.Some? then s.late[w := s.late[w] + 1] else s.late)
    case HandlerReturns(w, ok) =>
      var p := s.workers[w];
      var call := Call(MessageOf(b, p), p.stage.j);
      if ok
      then s.(workers := s.workers[w := p.(stage := AtItem(p.stage.j + 1))], returned := s.returned + [call])
      else s.(workers := s.workers[w := Failing(p.g, HandlerFailed(call))], failed := s.failed + [call])
    case Cancel(w) =>
      SetCause(s.(workers := s.workers[w := Exited]), s.workers[w].err)
    case ParentCancel => SetCause(s.(parentCancelled := true), ParentCause)
    case Return => s.(result := Some(s.cause))
    case Reply(w, to) =>
      var p := s.workers[w];
      var (token, cache) := TokenFor(s.cache, p.conversation, to);
      s.(cache := cache, replies := s.replies + [Sent(MessageOf(b, p), to, token)])
    case Outside(op) =>
      s.(cache := Apply(b.capacity, s.cache, op), outside := s.outside || !op.Get?)
  }

  /** The states that a schedule passes through; a schedule need not be complete. */
  predicate Runs(b: Batch, cache: seq<Entry>, actions: seq<Action>)
    decreases |actions|, 0
  {
    actions == [] ||
    (Runs(b, cache, actions[..|actions| - 1]) &&
     Enabled(b, After(b, cache, actions[..|actions| - 1]), actions[|actions| - 1]))
  }

  function After(b: Batch, cache: seq<Entry>, actions: seq<Action>): State
    requires Runs(b, cache, actions)
    decreases |actions|, 1
  {
    if actions == [] then Init(b, cache)
    else Step(b, After(b, cache, actions[..|actions| - 1]), actions[|actions| - 1])
  }
}
