/** `dispatchInbound` and the serial branch of `processBatch` (`listener.go`), run
    against a context that ends at any of its checks and a handler that may fail at
    any call. */
module SerialBatch {
  import opened Messages
  import opened WorkerPool

  function AsSeq<T>(o: Option<T>): seq<T> {
    if o.Some? then [o.value] else []
  }

  /** The context and the handler, with everything they were asked. */
  class Surroundings {
    /** The checks that the context still passes; it has ended when none are left. */
    var passes: nat
    var started: seq<Call>
    var returned: seq<Call>
    var saves: seq<Conversation>
    /** Every check that failed, every call that failed, every failed encoding. */
    var troubles: seq<Error>

    constructor (passes: nat)
      ensures this.passes == passes && started == [] && returned == [] && saves == [] && troubles == []
    {
      this.passes, started, returned, saves, troubles := passes, [], [], [], [];
    }

    /** `ctx.Err()`: once cancelled, always cancelled. */
    method CtxErr() returns (err: bool)
      modifies this`passes, this`troubles
      ensures err <==> old(passes) == 0
      ensures passes == if err then 0 else old(passes) - 1
      ensures troubles == old(troubles) + if err then [Cancelled] else []
    {
      err := passes == 0;
      if err {
        troubles := troubles + [Cancelled];
      } else {
        passes := passes - 1;
      }
    }

    /** One handler call, made with the conversation of its own message; a panic
        counts as an error. */
    method InvokeHandler(call: Call, conversation: Option<Conversation>) returns (ok: bool)
      requires conversation == ConversationOf(call.msg)
      modifies this`started, this`returned, this`troubles
      ensures started == old(started) + [call]
      ensures returned == old(returned) + if ok then [call] else []
      ensures troubles == old(troubles) + if ok then [] else [HandlerFailed(call)]
    {
      started := started + [call];
      ok := *;
      if ok {
        returned := returned + [call];
      } else {
        troubles := troubles + [HandlerFailed(call)];
      }
    }

    /** `json.Marshal` of a message that came without its raw form. */
    method EncodeMessage(m: Message) returns (ok: bool)
      modifies this`troubles
      ensures troubles == old(troubles) + if ok then [] else [EncodeFailed(m)]
    {
      ok := *;
      if !ok {
        troubles := troubles + [EncodeFailed(m)];
      }
    }

    method SaveContextToken(c: Conversation)
      modifies this`saves
      ensures saves == old(saves) + [c]
    {
      saves := saves + [c];
    }
  }

  /** The checks of the context that a message asks for when nothing fails: one on
      entry, and one before each item of an eligible message. */
  function Checks(m: Message): nat {
    1 + if Eligible(m) then |m.items| else 0
  }

  function AllChecks(ms: seq<Message>): nat {
    if ms == [] then 0 else AllChecks(ms[..|ms| - 1]) + Checks(ms[|ms| - 1])
  }

  /** The calls an eligible message asks for. */
  function Wanted(m: Message): seq<Call> {
    if Eligible(m) then CallsOf(m) else []
  }

  /** How a dispatch that was to make the given calls ended: all returned, or
      some first ones returned and at most one more was tried and failed. */
  ghost predicate Dispatched(wanted: seq<Call>, started: seq<Call>, returned: seq<Call>, err: Option<Error>) {
    && returned <= started <= wanted
    && match err
       case None => returned == wanted
       case Some(HandlerFailed(call)) => started == returned + [call]
       case Some(_) => started == returned
  }

  /** One message: nothing for an ineligible one; otherwise its token is saved
      first, then its items are handed over in order until one fails. The error is
      the first and only trouble there was. */
  method DispatchInbound(env: Surroundings, m: Message)
    returns (err: Option<Error>, ghost started: seq<Call>, ghost returned: seq<Call>)
    modifies env
    ensures env.started == old(env.started) + started && env.returned == old(env.returned) + returned
    ensures Dispatched(Wanted(m), started, returned, err)
    ensures err.None? ==> env.saves == old(env.saves) + if Eligible(m) then AsSeq(ConversationOf(m)) else []
    ensures started != [] ==> env.saves == old(env.saves) + AsSeq(ConversationOf(m))
    ensures env.troubles == old(env.troubles) + AsSeq(err)
    ensures err.None? ==> old(env.passes) == env.passes + Checks(m)
    ensures err == Some(Cancelled) ==> env.passes == 0 && old(env.passes) < Checks(m)
    ensures err.Some? && err.value.EncodeFailed? ==> err.value.msg == m && Eligible(m) && !m.hasRaw
    ensures old(env.passes) == 0 ==> err == Some(Cancelled) && started == []
    ensures err != Some(ParentCause)
  {
    started, returned := [], [];
    var cancelled := env.CtxErr();
    if cancelled {
      return Some(Cancelled), [], [];
    }
    if m.msgType != MSG_TYPE_USER || m.msgState != MSG_STATE_FINISH {
      return None, [], [];
    }
    var conversation := None;
    if m.fromUser != "" && m.contextToken != "" {
      conversation := Some(Conversation(m.fromUser, m.contextToken));
      env.SaveContextToken(conversation.value);
    }
    if !m.hasRaw {
      var encodes := env.EncodeMessage(m);
      if !encodes {
        return Some(EncodeFailed(m)), [], [];
      }
    }
    err, started, returned := DispatchItems(env, m, conversation);
  }

  /** The items of an eligible message, in order until one fails. */
  method DispatchItems(env: Surroundings, m: Message, conversation: Option<Conversation>)
    returns (err: Option<Error>, ghost started: seq<Call>, ghost returned: seq<Call>)
    requires conversation == ConversationOf(m)
    modifies env`passes, env`started, env`returned, env`troubles
    ensures env.started == old(env.started) + started && env.returned == old(env.returned) + returned
    ensures Dispatched(CallsOf(m), started, returned, err)
    ensures env.troubles == old(env.troubles) + AsSeq(err)
    ensures err.None? ==> old(env.passes) == env.passes + |m.items|
    ensures err.Some? ==> err == Some(Cancelled) || err.value.HandlerFailed?
    ensures err == Some(Cancelled) ==> env.passes == 0 && old(env.passes) < |m.items|
  {
    started, returned := [], [];
    for j := 0 to |m.items|
      invariant started == returned == CallsOf(m)[..j]
      invariant env.started == old(env.started) + started && env.returned == old(env.returned) + returned
      invariant env.troubles == old(env.troubles)
      invariant old(env.passes) == env.passes + j
    {
      var cancelled := env.CtxErr();
      if cancelled {
        return Some(Cancelled), started, returned;
      }
      var call := Call(m, j);
      assert CallsOf(m)[..j + 1] == CallsOf(m)[..j] + [call];
      var ok := env.InvokeHandler(call, conversation);
      started := started + [call];
      if !ok {
        return Some(HandlerFailed(call)), started, returned;
      }
      returned := returned + [call];
    }
    assert CallsOf(m)[..|m.items|] == CallsOf(m);
    return None, started, returned;
  }

  /** What the serial branch asks for: the items of the eligible messages, in order. */
  function WantedBy(messages: seq<Message>): seq<Call> {
    Flat(EligibleOf(messages))
  }

  lemma WantedAppend(ms: seq<Message>, n: nat)
    requires n < |ms|
    ensures WantedBy(ms[..n + 1]) == WantedBy(ms[..n]) + Wanted(ms[n])
  {
    var before := EligibleOf(ms[..n]);
    assert ms[..n + 1] == ms[..n] + [ms[n]];
    ForUserAppend(ms[..n], ms[n], "");
    if Eligible(ms[n]) {
      FlatAppend(before, ms[n]);
    } else {
      assert before + [] == before;
    }
  }

  lemma {:induction false} WantedPrefix(ms: seq<Message>, n: nat)
    requires n <= |ms|
    ensures WantedBy(ms[..n]) <= WantedBy(ms)
    decreases |ms| - n
  {
    if n == |ms| {
      assert ms[..n] == ms;
    } else {
      WantedPrefix(ms, n + 1);
      WantedAppend(ms, n);
    }
  }

  /** A message that fails after others succeeded: the whole is cut short there. */
  lemma CutShort(before: seq<Call>, wanted: seq<Call>, all: seq<Call>, s: seq<Call>, r: seq<Call>, err: Option<Error>)
    requires Dispatched(wanted, s, r, err) && err.Some? && before + wanted <= all
    ensures Dispatched(all, before + s, before + r, err)
  {
    assert before + s <= before + wanted;
  }

  lemma Assoc(a: seq<Call>, b: seq<Call>, c: seq<Call>)
    ensures a + b + c == a + (b + c)
  {}

  /** What the dispatch of one message makes of the whole. */
  lemma OneMore(ms: seq<Message>, i: nat, s: seq<Call>, r: seq<Call>, err: Option<Error>)
    requires i < |ms| && Dispatched(Wanted(ms[i]), s, r, err)
    ensures err.None? ==> WantedBy(ms[..i + 1]) == WantedBy(ms[..i]) + s == WantedBy(ms[..i]) + r
    ensures err.Some? ==> Dispatched(WantedBy(ms), WantedBy(ms[..i]) + s, WantedBy(ms[..i]) + r, err)
  {
    WantedPrefix(ms, i + 1);
    WantedAppend(ms, i);
    if err.Some? {
      CutShort(WantedBy(ms[..i]), Wanted(ms[i]), WantedBy(ms), s, r, err);
    }
  }

  lemma ChecksAppend(ms: seq<Message>, n: nat)
    requires n < |ms|
    ensures AllChecks(ms[..n + 1]) == AllChecks(ms[..n]) + Checks(ms[n])
  {
    assert ms[..n + 1][..n] == ms[..n];
  }

  lemma {:induction false} ChecksPrefix(ms: seq<Message>, n: nat)
    requires n <= |ms|
    ensures AllChecks(ms[..n]) <= AllChecks(ms)
    decreases |ms| - n
  {
    if n == |ms| {
      assert ms[..n] == ms;
    } else {
      ChecksPrefix(ms, n + 1);
      ChecksAppend(ms, n);
    }
  }

  /** The serial branch: nil means that exactly the eligible items were handled,
      once each and in order; an error leaves an initial part of them handled. It
      is nil exactly if nothing failed and the context passed every check that was
      made, and the error is what failed, or the check that did not pass. */
  method ProcessSerial(env: Surroundings, messages: seq<Message>)
    returns (err: Option<Error>, ghost started: seq<Call>, ghost returned: seq<Call>)
    modifies env
    ensures env.started == old(env.started) + started && env.returned == old(env.returned) + returned
    ensures Dispatched(WantedBy(messages), started, returned, err)
    ensures env.troubles == old(env.troubles) + AsSeq(err)
    ensures err.None? ==> old(env.passes) == env.passes + AllChecks(messages)
    ensures err == Some(Cancelled) ==> env.passes == 0 && old(env.passes) < AllChecks(messages)
    ensures err.Some? && err.value.EncodeFailed? ==>
              err.value.msg in messages && Eligible(err.value.msg) && !err.value.msg.hasRaw
    ensures err != Some(ParentCause)
  {
    started, returned := [], [];
    ghost var s0, r0, p0 := env.started, env.returned, env.passes;
    for i := 0 to |messages|
      invariant started == returned == WantedBy(messages[..i])
      invariant env.started == s0 + started && env.returned == r0 + returned
      invariant env.troubles == old(env.troubles)
      invariant p0 == env.passes + AllChecks(messages[..i])
    {
      ghost var s, r;
      ChecksAppend(messages, i);
      ChecksPrefix(messages, i + 1);
      err, s, r := DispatchInbound(env, messages[i]);
      OneMore(messages, i, s, r, err);
      Assoc(s0, started, s);
      Assoc(r0, returned, r);
      started, returned := started + s, returned + r;
      if err.Some? {
        return err, started, returned;
      }
    }
    assert messages[..|messages|] == messages;
    return None, started, returned;
  }

  /** A context that ends right after the last check: unless a handler or an encoding
      fails, the branch returns nil although the context is over by then. */
  method NilAfterCancellation(messages: seq<Message>) returns (env: Surroundings, err: Option<Error>)
    ensures fresh(env)
    ensures err.None? <==> env.troubles == []
    ensures err.None? ==> env.passes == 0
    ensures err != Some(Cancelled)
  {
    env := new Surroundings(AllChecks(messages));
    ghost var started, returned;
    err, started, returned := ProcessSerial(env, messages);
  }

  /** For instance a message without items: no handler to fail, one check. */
  method NilThoughCancelled() returns (err: Option<Error>, passes: nat)
    ensures err.None? && passes == 0
  {
    var m := Message(1, "u", MSG_TYPE_USER, MSG_STATE_FINISH, [], "", true);
    OneWithoutItems(m);
    var env := new Surroundings(1);
    ghost var started, returned;
    err, started, returned := ProcessSerial(env, [m]);
    passes := env.passes;
  }

  lemma OneWithoutItems(m: Message)
    requires Eligible(m) && m.items == []
    ensures WantedBy([m]) == [] && AllChecks([m]) == 1
  {
    assert [m][..0] == [] && EligibleOf([m]) == [m] && CallsOf(m) == [];
    assert Flat([m]) == Flat([m][..0]) + CallsOf(m);
  }
}
