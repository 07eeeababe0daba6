# A verified model of the WeChat bot client

A Dafny 4.11 model of the iLink WeChat client library: how it delivers messages,
what it keeps on disk and in memory, how it logs in, and how it encodes media and
text. `dafny verify dfyconfig.toml` checks everything.

## What is modelled

| Files | Component |
|---|---|
| `Messages`, `WorkerPool`, `PoolOrder`, `PoolControl`, `PoolTokens`, `BatchTheorems`, `PoolReplies` | The parallel branch of `processBatch`: grouping by user, the unbuffered channel, one program counter per worker, first-cause cancellation. A run is any sequence of atomic actions. |
| `SerialBatch` | `dispatchInbound` and the serial branch, as code against an arbitrary context and handler. |
| `Listener`, `ListenerTheorems`, `Revocation`, `Pacing`, `StartLoop`, `Backoff` | `Start` over a durable cursor. The machine allows a crash between any two steps; `StartLoop.Client.Start` is the loop itself, and its ghost run is always a run of that machine. |
| `Recency`, `TokenCache` | The token cache: a plain most-recent-first sequence, and the map into a doubly linked ring that refines it. |
| `CursorNames`, `CursorStore`, `Hex` | File names, the two cursor stores, and the step-by-step replacement of a file. |
| `Login`, `Text` | QR login, with an explicit clock and a history of everything sent and seen. |
| `Crypto`, `Base64`, `Media` | Padding, ECB mode, key forms, and size limits on 64-bit integers. |
| `Markdown`, `MarkdownTables`, `MarkdownExamples`, `MarkdownStrip` | Table flattening and marker stripping. |

State that the source changes in place is a class here (`Element`, `List`, `Cache`,
`MemoryBufStorage`, `FileBufStorage`, `Disk`, `Client`, `Session`, `Surroundings`), and each
of its methods is proved against a function of the old state or a step of a machine.

## Assumptions, all of them parameters or preconditions

- A handler call ends with nil or an error (a panic counts as an error). Between its
  start and its end anything may happen.
- The server is honest about positions (`Listener.Honest`): each cursor it hands out
  names a position in its log, an answer with a new cursor carries exactly the messages
  between two positions, and an empty cursor starts where the server's retention does
  (the ghost `floor` of the history).
- The file system may refuse any operation, and counts what it has refused
  (`CursorStore.Disk`); the store is to blame for no more than that. The context is over
  after any number of its checks, and stays so.
- Renaming a file is atomic, as `storage.go:225` says of Unix.
- The JSON codec of the cursor file inverts itself on the cursors in use
  (`CursorStore.Valid`).
- The block cipher is a bijection on blocks for each key (`Crypto.BlockCipher`).
- The configuration has passed `validate` (`config.go:215-220`).

## Where the code and its documentation differ

- `config.go:70` speaks of consecutive expired answers. In the code a transport error or
  another rejection in between neither counts nor resets the count; only an accepted poll
  or the reset of a non-empty cursor does. `Revocation.RevokedAcrossFailure` is a run that
  is revoked after expired, transport error, expired, with a threshold of two;
  `Revocation.RevokedConsecutivelyIff` says that the last `threshold` polls of a revoked
  run were all expired if and only if no transport error or rejection lies after an
  expiry that was counted.
- `StripMarkdown` is said to remove markers (`markdown.go:46-47`), but one can reappear:
  `*__*` becomes `**`, `` _`_ `` becomes `__`, and `# # a` becomes `# a`
  (`MarkdownStrip.BoldReappears`, `UnderscoresReappear`, `HeaderReappears`).
  `MarkdownStrip.PlainIff` says of every text whether all markers go, by a condition on
  the text: no two stars left by the removal of `**` have only backticks and paired
  underscores between them, no two underscores left single have, and no line shows a
  further header mark behind those that are dropped. `MarkdownStrip.IdempotentIff` says
  that stripping twice is stripping once under the same condition.
- `equalJitter` is said to let a jittered retry still grow (`listener.go:302-303`). Near
  the cap it need not (`Backoff.DrawsCanShrink`: 3, then 2); it is sure not to shrink
  exactly while the doubled delay is within the maximum (`Backoff.GrowthUntilCap`).

One thing the documentation leaves open: a context that ends right after the last check
of a batch. With `HandlerConcurrency` 1 the batch still returns nil
(`SerialBatch.NilAfterCancellation`), since it is nil exactly if nothing failed and every
check passed (`SerialBatch.ProcessSerial`). In the parallel branch the same cancellation
gives an error (`BatchTheorems.ResultIsFirstCause`).

## Model

| member | source | states |
|---|---|---|
| `Messages.GroupByUser` | listener.go:155-168 | the loop yields one group per user, by first appearance, each holding exactly that user's eligible messages in the order received |
| `Messages.GroupingMatchesSerial` | listener.go:153-168 | seen by any one user, the handler calls of that user's group are exactly the calls the serial branch would make for the user, in its order |
| `Messages.UsersDistinct` | listener.go:155-168 | no user has two groups, no eligible message is without one, and no group is empty |
| `Messages.HasGroup` | listener.go:158-167 | a user has a group if and only if some eligible message is theirs |
| `PoolOrder.ShapeStep` | listener.go:169-197 | every action keeps each worker inside the group it holds, at a valid message and item, with the conversation of that message attached |
| `PoolOrder.ExclusiveStep` | listener.go:153-186 | no action lets two workers hold the same group |
| `PoolOrder.InvokeAppends` | listener.go:229-254 | a handler start is exactly the next call of the worker's group, and the calls started remain an initial part of the group's |
| `PoolOrder.ReturnAppends` | listener.go:254-257 | a handler that returns nil makes the calls returned catch up with those started |
| `PoolOrder.OrderStep` | listener.go:175-184 | every action keeps, for each user, the started and returned calls equal to what the holder's program counter says, and a released group complete unless cancelled |
| `PoolControl.LateStep` | listener.go:201-203 | the at-most-one-late-start invariant: a worker that started a handler after the cancellation is not about to start another |
| `PoolControl.AccountedStep` | listener.go:254-257 | every started call has returned, failed, or is in flight, none twice |
| `PoolControl.CausesStep` | listener.go:179-182 | an error held by a worker or by the batch has really happened, and a failure is never lost on its way to the cause |
| `PoolControl.DeadlockFree` | listener.go:187-197 | every state before the return has an enabled action of the pool itself, also when all workers have quit and groups remain unsent |
| `PoolControl.Terminates` | listener.go:169-197 | every action of the pool strictly decreases a measure and no other action changes it |
| `PoolTokens.TokensStep` | client.go:165-181 | every action keeps replies to their own sender on the message's token, and the cache free of stale tokens of the batch's users |
| `BatchTheorems.InvariantHolds` | listener.go:169-197 | all of the invariants above hold after every schedule, from any well-formed cache |
| `BatchTheorems.UserOrder` | listener.go:153-186 | in every interleaving a user's started calls are a prefix of their eligible items in received order, at most one unfinished per user, at most HandlerConcurrency overall |
| `BatchTheorems.NilMeansComplete` | listener.go:195-197 | nil implies, for every user, that exactly the calls of the serial branch were started and returned nil, once each and in its order |
| `BatchTheorems.NilCoversItems` | listener.go:195-197 | nil implies that every item of every eligible message had its handler return nil |
| `BatchTheorems.ResultIsFirstCause` | listener.go:169-197 | the result is nil if and only if nothing failed and the parent was not cancelled; an error returned is one that happened, never the secondary cancellation |
| `BatchTheorems.LateStarts` | listener.go:178-183 | after the first cancellation each worker starts at most one more handler |
| `BatchTheorems.CanContinue` | listener.go:187-197 | no reachable state before the return is stuck |
| `BatchTheorems.ScheduleBound` | listener.go:187-197 | the number of pool actions in any schedule is bounded before it starts |
| `BatchTheorems.Completes` | listener.go:195-197 | every partial schedule extends to one in which the batch has returned |
| `BatchTheorems.ReplyToken` | client.go:174-181 | under every interleaving and any eviction a reply to the handler's own sender carries that message's non-empty token |
| `PoolReplies.ReplyAnswer` | client.go:174-181 | in every reachable state, a send to anyone but the own sender, or from a message without a token, carries what the cache holds for the receiver at that moment and moves that entry to the front, all others keeping their order; on a miss it carries nothing and changes nothing |
| `PoolReplies.TokensStayWithTheirUser` | client.go:165-181 | over every run, each token sent to a user, or cached for one, was written for that same user: by the starting cache, by the application, or by a prepared message from that user |
| `PoolReplies.FirstCauseWins` | listener.go:169-197 | once the batch has a cause it keeps it, and returns it |
| `PoolReplies.WorkersStarted` | listener.go:173 | there are exactly as many workers as the smaller of HandlerConcurrency and the number of users |
| `PoolReplies.OnlyFinishedUserMessages` | listener.go:158-160 | a handler is only ever called for an item of a received message with type 1 and state 2 |
| `BatchTheorems.FreshAfterBatch` | listener.go:217-220 | after a successful batch without outside writes, a cached token of a user who sent one is the one of that user's last such message |
| `BatchTheorems.KeptAfterBatch` | listener.go:217-220 | if the users of the cache and of the batch fit into it together, the cache is certain to hold that token |
| `SerialBatch.DispatchInbound` | listener.go:200-259 | an ineligible message does nothing; otherwise its token is saved before any handler starts, the items are handled in order, and an error leaves an initial part handled and at most one call failed |
| `SerialBatch.CutShort` | listener.go:145-151 | a failing message cuts the whole batch short exactly there |
| `SerialBatch.ProcessSerial` | listener.go:144-152 | nil means exactly the eligible items were handled, once each and in order; an error leaves an initial part of them handled; it is nil exactly if nothing failed and every check of the context passed, and an error is the one trouble there was |
| `SerialBatch.DispatchItems` | listener.go:229-257 | items are handed over in order, each behind its own check of the context, until one fails or a check does |
| `SerialBatch.NilAfterCancellation` | listener.go:145-151 | for any messages: a context that ends right after the last check gives nil unless a handler or an encoding fails |
| `SerialBatch.NilThoughCancelled` | listener.go:145-151 | a batch and a context for which the result is nil although the context is over |
| `Listener.DeliveryStep` | listener.go:57-130 | every step, crashes included, keeps the stored cursor covered: all eligible items before it were handled |
| `Listener.ParallelDelivery` | listener.go:116-129 | a batch whose parallel run returned nil covers the log up to the new cursor; any other end leaves the old cursor covered |
| `Listener.WriteDelivery` | listener.go:124-129 | after any step of the file write the stored cursor is the old or the new one, and both are covered |
| `Listener.SavedOrNot` | storage.go:193-228 | between any two steps of the write a load finds the old cursor or the whole new one, decided by the rename |
| `ListenerTheorems.AtLeastOnce` | listener.go:57-130 | over every run with crashes between any two steps, restarts, resets and failures, the durable cursor loads, is one the server knows, and every eligible item before it from the floor on had its handler return nil, as had every item of a batch that returned nil; below the floor lie only positions the server itself passed over on an empty cursor |
| `ListenerTheorems.AtLeastOnceFromStart` | listener.go:57-130 | if the server answers every empty cursor from its first message, every eligible item before the durable cursor had its handler return nil |
| `ListenerTheorems.LoopHead` | listener.go:57-60 | at the loop head the local cursor is the stored one, an expiry count above zero means an empty cursor, and the counts are those of the poll history, expiries at most failures and below the threshold |
| `ListenerTheorems.RevokedAtThreshold` | listener.go:83-94 | revocation is reported only at exactly the threshold of empty-cursor expiries since the last accepted poll |
| `ListenerTheorems.OnlyExpiredEnds` | listener.go:75-103 | in any run, disturbed or not, a server that only answers -14 is polled at most threshold times, plus once if a cursor was stored |
| `Revocation.RevokedConsecutivelyIff` | listener.go:75-103 | in every revoked run the last threshold polls were all empty-cursor expiries if and only if no transport error or other rejection lies after a counted expiry |
| `Revocation.RevokedAcrossFailure` | listener.go:62-103 | a concrete run with threshold two: expired, transport error, expired, revoked |
| `Revocation.ResetsComeFirst` | listener.go:76-81 | in every run a stale cursor is only found expired while no expiry is being counted |
| `Revocation.ConsecutiveIff` | listener.go:83-84 | a count of expiries is a count of consecutive ones if and only if nothing interrupted it |
| `Revocation.ExpiredServerRevokes` | listener.go:75-103 | an uncancelled run with working storage against a server that only answers -14 takes at most 2*threshold steps, three more if a cursor was stored, and is revoked exactly when it has taken them all, after threshold polls and that one more |
| `Revocation.ExpiredServerGoesOn` | listener.go:57-103 | until then such a run is never stuck |
| `Revocation.ExpiredServerEnds` | listener.go:57-103 | every such run continues to its end, and the end is revocation |
| `ListenerTheorems.CountersStep` | listener.go:56-130 | every step keeps the two counters equal to what the poll history says |
| `Pacing.OneWaitPerFailure` | listener.go:61-113 | in every run there is exactly one wait for each poll that was not accepted, none for an accepted one, each of a length drawn for the failures since the last accepted poll, and sat out before the next poll |
| `Pacing.CommitsLastCursor` | listener.go:121-129 | whenever the next poll is up, the cursor of the last answer that had one is stored, unless it was found stale and cleared since; only a new, non-empty cursor is ever saved |
| `Pacing.AnswersLeadTo` | listener.go:75-116 | -14 in either field resets a cursor or is counted, any other code is a rejection, and two zeros are a batch |
| `Pacing.PacedStep` | listener.go:56-130 | every step keeps the waits and the cursor what the poll history calls for |
| `StartLoop.RunPool` | listener.go:169-197 | the parallel branch under an arbitrary scheduler always returns, by a run of the pool machine |
| `StartLoop.LiftWrites` | listener.go:124-129 | the write steps of a save are steps of the listener machine through the same directories |
| `StartLoop.Client.Start` | listener.go:37-131 | the loop moves only by steps of the listener machine, ends in the outcome it returns, and has waited once for each unaccepted poll as long as the failures call for; it blames the context only if that is over, the store only if something was refused or the context is over, and tells the expiry callback once if and only if the session was revoked and the store cleared |
| `StartLoop.Client.Loop` | listener.go:56-130 | the same of the loop itself, which ends when the context has passed its last check at the latest |
| `StartLoop.Client.Open` | listener.go:48-55 | the run begins at the loop head with the stored cursor; it ends at once if the context is over, or if the directory refuses the load |
| `StartLoop.Client.LoadCursor` | listener.go:52-55 | what earlier runs have stored always loads, unless the directory refuses it or the context is over |
| `StartLoop.Client.Respond` | listener.go:62-129 | each branch on the answer leads where the machine's poll step says; if the run goes on, it has waited exactly once after an unaccepted poll and not at all after an accepted one, and the context has passed exactly the checks that the branch makes |
| `StartLoop.Client.Retry` | listener.go:62-73 | a failed or rejected poll is followed by its checks of the context and one wait |
| `StartLoop.Client.RecoverSession` | listener.go:75-103 | an expired session clears a stale cursor or counts towards the threshold, and revokes exactly there |
| `StartLoop.Client.Revoke` | listener.go:85-93 | the store is cleared first; the callback is told once if that went well; a failure of either is joined to the revocation |
| `StartLoop.Client.WaitContext` | listener.go:286-321 | the delay waited is half of the doubled delay plus the random draw, and an error means the context ended |
| `StartLoop.Client.Accept` | listener.go:114-129 | an accepted batch is handled, then the context is checked, then a new cursor is saved, and only then does the local cursor move |
| `StartLoop.Client.SaveBuf` | listener.go:124-129 | a save succeeds exactly if the context passes its three checks and the directory refuses nothing; then the new cursor is at the loop head |
| `StartLoop.Client.ProcessBatch` | listener.go:144-198 | either branch leaves the machine handled on nil and ended on an error |
| `Backoff.BackoffBase` | listener.go:291-300 | the result is min(initial * 2^max(n-1, 0), max) for every n, and no intermediate value overflows 64 bits |
| `Backoff.DelayMonotone` | listener.go:290-300 | the base delay never shrinks with more failures and stays between the two bounds |
| `Backoff.DoubledIsDelay` | listener.go:290-300 | doubling failure by failure and capping each time gives the capped power |
| `Backoff.EqualJitter` | listener.go:302-310 | the jittered delay lies between half of the delay and the delay, one value per draw |
| `Backoff.OrderedDraws` | listener.go:302-310 | for any two positive delays: no draw of the second is below a draw of the first if and only if the second delay is at least double, or both are one |
| `Backoff.DrawsCanShrink` | listener.go:302-310 | delays 3 and 5 under a cap of 5 with draws 3 and then 2 |
| `Backoff.GrowthUntilCap` | listener.go:284-310 | jittered delays are sure not to shrink exactly while the doubled delay is still within the maximum |
| `Recency.ApplyWellFormed` | client.go:120-163 | set, get and forget keep the cache duplicate-free, within capacity, and free of empty users and tokens |
| `Recency.RunWellFormed` | client.go:120-163 | so does every trace of operations |
| `Recency.LookupSet` | client.go:120-141 | a set token is read back at once, and can at worst evict others |
| `Recency.LookupTouch` | client.go:145-153 | a read never changes what any user would read next |
| `Recency.Fresh` | client.go:120-163 | over every trace a hit returns the last token set, and a miss is the only other answer |
| `Recency.Retention` | client.go:118-153 | a user at the front stays cached if and only if at no moment since had capacity-many other users been set or hit and kept; until then exactly those users are ahead |
| `Recency.RetainedAfterUse` | client.go:118-153 | the same over every trace, for any user set or hit at any point and left alone since |
| `Recency.SetOnlyRun` | client.go:118-141 | after a run that only sets, the cache is exactly the capacity-many most recently set users, each with its last token |
| `Recency.SetOnlyExact` | client.go:118-141 | in such a run a user is cached if and only if fewer than capacity-many others were set since |
| `Recency.UseAt` | client.go:130-134 | setting or hitting an entry known by its position moves exactly that entry to the front |
| `TokenCache.IndexedRemove` | client.go:137-139 | taking one entry out of map and list leaves every other key on its own element |
| `TokenCache.IndexedInsert` | client.go:135 | a new key points to the new front element and all others stay put |
| `TokenCache.UseKnown` | client.go:130-134 | for a cached user, moving the element to the front of the list is what the sequence prescribes for a set or a hit |
| `TokenCache.ForgetKnown` | client.go:159-162 | for a cached user, unlinking the element is what the sequence prescribes for a forget |
| `TokenCache.List.Unlink` | client.go:139 | taking an element out relinks its neighbours, both ways, and keeps the rest of the ring |
| `TokenCache.List.PushFront` | client.go:135 | a fresh element becomes the front, the rest keeps its order and values |
| `TokenCache.List.MoveToFront` | client.go:132 | the element becomes the front, the others keep their order and every element its value |
| `TokenCache.Cache.SetContextToken` | client.go:120-141 | acts on map and linked list exactly as the sequence model does, keeping every key on its own live element |
| `TokenCache.Cache.Insert` | client.go:135-140 | a new user goes to the front, and the least recently used one is evicted exactly when the capacity is passed |
| `TokenCache.Cache.ContextToken` | client.go:145-153 | returns the modelled token; a hit moves the entry to the front, a miss changes nothing |
| `TokenCache.Cache.ForgetContextToken` | client.go:156-163 | removes exactly the user's entry from map and list |
| `CursorNames.PathForAccount` | storage.go:82-108 | the byte loop and the reserved-name branch build the specified name, for every byte string |
| `CursorNames.NameDecodes` | storage.go:83-106 | a left inverse: the case-folded name of a non-empty ID decodes to the ID, that of the empty one to nothing |
| `CursorNames.FileNamesDistinct` | storage.go:83-107 | distinct accounts have distinct file names, even after ASCII case folding |
| `CursorNames.NeverADevice` | storage.go:97-106 | no file is named like one of those devices, in whatever case and with whatever extension |
| `CursorNames.PlainName` | storage.go:86-107 | no file name holds a path separator, a drive colon, or anything but the listed characters |
| `CursorNames.OrdinaryIds` | storage.go:83-106 | an ID of small letters, digits, @, dot, hyphen and underscore names its file literally, unless it is named like a device, when its first byte is escaped |
| `CursorNames.OtherBytes` | storage.go:89-90 | any other byte is written as a percent sign and two upper-case hexadecimal digits |
| `CursorNames.EmptyId` | storage.go:94-96 | the empty ID is named by a percent sign alone |
| `CursorNames.ReservedIff` | storage.go:99-103 | the names that get an escape are con, prn, aux, nul, com1 to com9 and lpt1 to lpt9, alone or with an extension |
| `CursorNames.NeverTemp` | storage.go:201 | no account's file is a temporary file, folded or not |
| `CursorStore.AgreeStep` | storage.go:111-157 | each save, load and clear, cancelled or not, answers as the memory map does and keeps the agreement for all accounts |
| `CursorStore.StoresAnswerAlike` | storage.go:111-157 | so does every sequence of operations on any accounts |
| `CursorStore.FreshDirectory` | storage.go:110-120 | a directory without cursor files agrees with the empty map, whatever leftovers it holds |
| `CursorStore.WriteInvStep` | storage.go:193-228 | each step of the write keeps the lasting files all old, or old with exactly the target wholly new |
| `CursorStore.CrashLeavesOldOrNew` | storage.go:193-228 | a crash after any step leaves every account's cursor wholly old or wholly new, and only the saved account's can be new |
| `CursorStore.LoadsLastSaved` | storage.go:32-65 | after any operations on any accounts, cancelled or not, a load from either store returns the cursor last saved for the account and not cleared since |
| `CursorStore.EpisodeStep` | storage.go:131-143 | an operation, or a save cut off at any step, keeps the agreement of the file store with a map that takes the save wholly or not at all |
| `CursorStore.TracesAgree` | storage.go:111-157 | over every history of operations and cut-off saves the file store answers as that map |
| `CursorStore.RunBoth` | storage.go:33-157 | run side by side, the two stores give equal answers to all operations but those the file system refuses, which are counted exactly, and agree on every account at the end; if nothing was refused, nothing was left out |
| `CursorStore.FileBufStorage.LoadBuf` | storage.go:111-129 | unless the context is over or the directory refuses the read: a missing file is the empty cursor, a malformed one a decoding error, any other its cursor |
| `CursorStore.FileBufStorage.SaveBuf` | storage.go:132-143 | it succeeds exactly if the context passes three checks and nothing is refused; success replaces exactly this account's file, failure changes no lasting file, both by write steps |
| `CursorStore.FileBufStorage.WritePrivateFile` | storage.go:193-228 | the same for any target: whichever step fails, the run of steps is one the crash theorem covers |
| `CursorStore.FileBufStorage.FillAndRename` | storage.go:206-227 | the temporary file is filled, the context checked, and only then is the file renamed |
| `CursorStore.FileBufStorage.ClearBuf` | storage.go:146-157 | it succeeds unless the context is over or the removal is refused, also if there is no file; it removes exactly this account's file |
| `Login.WaitForQRConfirmation` | login.go:124-233 | the whole history: polls addressed and coded as the events before call for, before the deadline, throttled, at most 6 + timeout/interval of them; statuses notified without consecutive repeats; callbacks within the limit; redirects distinct and accepted; the result is the one the history calls for, and the context is blamed if and only if it was found ended |
| `Login.PollFollowsReplies` | login.go:141-145 | every poll goes where the replies before it send it: to the host of the last redirect, or to the configured base |
| `Login.PollComesAfter` | login.go:174-231 | a poll after a redirect reply comes straight behind exactly one redirect, one after a request for a code behind exactly one useful code and the interval, and any other behind the interval alone |
| `Login.RedirectsAreFollowed` | login.go:201-211 | a redirect reply is followed as soon as anything is done about it |
| `Login.CodeDueSpelt` | login.go:145-213 | the code sent is that of the last callback with nothing scanned since, or empty |
| `Login.DedupFacts` | login.go:154-159 | no status is passed on twice in a row, and the last one passed on is the last one reported |
| `Login.PollAfterFailure` | login.go:146-152 | the login goes on after HTTP 408, 429 and 500 or more, and after no other HTTP failure |
| `Login.FailureThatEnds` | login.go:249-256 | a failure that ends the login is not a timeout and none of these |
| `Login.Session.Run` | login.go:141-232 | the loop keeps all of that and ends |
| `Login.Session.Settle` | login.go:146-224 | a reply is settled by what it asks for, behind exactly one check of the context, and one more behind the callback |
| `Login.Session.Handle` | login.go:154-224 | a status is reported before the context is checked and before it is acted on |
| `Login.Session.Fail` | login.go:146-152 | a failed request is retried only if retryable, and the context is blamed first |
| `Login.Session.Act` | login.go:163-224 | each status ends the login, follows a redirect, or goes on, as the switch says; it goes on to the interval only if that is all the status asks for |
| `Login.Session.Redirect` | login.go:201-211 | a redirect is refused, one too many or a repetition, or followed |
| `Login.Session.Verify` | login.go:174-196 | a code is asked for within the limit only, and an empty one ends the login |
| `Login.Session.Follow` | login.go:201-211 | the redirect is recorded once, becomes the base, and is polled at once |
| `Login.AfterRedirect` | login.go:201-211 | following a redirect leaves codes, statuses, callbacks and polls as they were |
| `Login.Session.Report` | login.go:154-159 | the callback gets a status exactly when it differs from the last one |
| `Login.ElapsedPerPoll` | login.go:225-231 | the time from first to last poll is at least interval times (polls - 1 - redirects) |
| `Login.PollLimit` | login.go:124-135 | hence at most six polls plus one per whole interval of the timeout |
| `Crypto.PKCS7Pad` | crypto.go:48-59 | the padded copy is the data and then as many bytes, each of that value, as complete the block, or the error for a bad block size |
| `Crypto.PKCS7Unpad` | crypto.go:62-82 | accepts and refuses with the same error as the specification, for every input and block size |
| `Crypto.UnpadPad` | crypto.go:48-82 | unpad after pad is the identity for every block size from 1 to 255 |
| `Crypto.PadUnpad` | crypto.go:61-82 | every input that unpad accepts is the pad of its result |
| `Crypto.AcceptsPaddings` | crypto.go:61-82 | unpad accepts exactly the paddings |
| `Crypto.UnpadAnswers` | crypto.go:61-82 | each input is answered by the error the source gives, or by the data in front of as many equal bytes as the last one says |
| `Crypto.PadLengthUnique` | crypto.go:52 | the padding length is the only one that completes the last block |
| `Crypto.BlocksInvert` | crypto.go:99-118 | block-wise decryption undoes block-wise encryption and keeps the length |
| `Crypto.CodebookBlocks` | crypto.go:99-102 | block i of the ciphertext is the encryption of block i of the padded text; keys of 16, 24 and 32 bytes are accepted and no others |
| `Crypto.CiphertextSize` | crypto.go:84-87 | a ciphertext has exactly the size announced by AESECBPaddedSize |
| `Crypto.DecryptEncrypt` | crypto.go:90-120 | decrypt after encrypt is the identity |
| `Crypto.EncryptDecrypt` | crypto.go:106-120 | every accepted ciphertext is the encryption of its plaintext |
| `Crypto.AESECBEncrypt` | crypto.go:90-104 | the in-place loop computes the specified encryption into a fresh buffer, or refuses the key |
| `Crypto.AESECBDecrypt` | crypto.go:107-120 | the in-place loop computes the specified decryption with the same errors |
| `Hex.RoundTrip` | cdn.go:38 | hexadecimal text decodes to the bytes it encodes |
| `Hex.EncodeAt` | cdn.go:38 | each byte is two digits, the high one first |
| `Base64.RoundTrip` | notify.go:51 | base64 text decodes to the bytes it encodes, for all lengths |
| `Base64.Alphabet` | notify.go:51 | the digits are those of the standard alphabet |
| `Base64.GroupNumber` | notify.go:51 | four digits are three bytes as one number of 24 bits |
| `Base64.LastGroups` | notify.go:51 | one or two bytes left over are padded with zero bits and signs |
| `Base64.GroupsOnly` | cdn.go:224-227 | only whole groups of digits and signs decode |
| `Media.KeyForms` | cdn.go:213-236 | a key is recovered from base64 of its hexadecimal form, base64 of its bytes, and plain hexadecimal |
| `Media.ImageKeyDecides` | cdn.go:214-220 | the image's own key decides alone: 32 hexadecimal digits, or an error |
| `Media.SentKeySpelt` | notify.go:51 | what is sent decodes to the hexadecimal text of the key |
| `Media.PlainDownload` | cdn.go:186-210 | without a key the body is the plaintext, within the limit |
| `Media.KeyLength` | cdn.go:213-238 | an accepted key is absent or 16 bytes long |
| `Media.AESECBPaddedSize` | crypto.go:84-87 | the size is computed without overflow under validate's bound |
| `Media.UploadToCDN` | cdn.go:21-66 | refuses exactly the data longer than the limit; otherwise the announced size is that of the ciphertext sent |
| `Media.ReadLimitedBody` | client.go:242-251 | a body is returned whole or refused, exactly at the limit, and limit+1 does not overflow |
| `Media.DownloadAndDecrypt` | cdn.go:186-210 | the download is refused or decoded as specified, and never exceeds the limit |
| `Media.RoundTrip` | cdn.go:62-66 | whatever an upload accepts comes back unchanged under the same limit through the key form it is sent with; anything longer is refused |
| `Media.LimitsFit` | cdn.go:186-193 | the ciphertext of accepted data passes the body limit, and the sum of limits does not overflow |
| `Media.PaddedSizeRange` | crypto.go:84-87 | padding adds between one byte and one block |
| `Markdown.IsMarkdownTableRow` | markdown.go:66-78 | the scan finds an unescaped inner bar if and only if there is one |
| `Markdown.ParseMarkdownTableRow` | markdown.go:107-129 | the scan yields the specified cells |
| `Markdown.RowIffTwoCells` | markdown.go:66-78 | a bar-delimited line is a row if and only if it parses into at least two cells, one more than its unescaped inner bars |
| `Markdown.CellCount` | markdown.go:113-127 | there is one cell more than there are unescaped bars |
| `Markdown.ReadsBack` | markdown.go:113-128 | trimmed cells written as a row with escaped bars are read back unchanged |
| `Markdown.IsMarkdownTableSeparator` | markdown.go:80-105 | accepts exactly the rows whose cells are empty or dashes with optional colons |
| `MarkdownExamples.RulesSeparate` | markdown.go:80-105 | rows of two or more cells that are dashes with a colon at either end or not, or empty, are separators |
| `MarkdownExamples.NotSeparators` | markdown.go:89-103 | colons alone, and anything but dashes between the colons, make no separator |
| `Text.TrimCuts` | markdown.go:67 | trimming cuts white space off both ends, and all of it |
| `Text.Spaces` | markdown.go:67 | white space is that of Unicode, by code point |
| `Markdown.JoinSplit` | markdown.go:26 | splitting and joining lines loses nothing |
| `Markdown.SplitJoin` | markdown.go:26-43 | lines without breaks are what their join splits into |
| `MarkdownTables.RenderFlatTable` | markdown.go:131-172 | two columns become pairs with a colon, any other number a dotted list padded to the widest row |
| `MarkdownTables.BlocksKeepLines` | markdown.go:28-42 | dividing the lines into tables and plain lines loses and reorders none, and finds tables wherever one starts |
| `MarkdownTables.BlocksUnique` | markdown.go:28-42 | that division is the only one |
| `MarkdownTables.FlattenLines` | markdown.go:28-42 | the index-driven loop appends one text per block of that division |
| `MarkdownTables.FlattenMarkdownTables` | markdown.go:22-44 | the result is the specified flattening, also on the shortcut without bars |
| `MarkdownTables.NoBars` | markdown.go:23-25 | the shortcut is sound: a text without bars has no table |
| `MarkdownTables.FlattenedLines` | markdown.go:18-44 | the output's lines are the plain lines verbatim and in order and the flattened rows; exactly as many as the input's less the tables |
| `MarkdownExamples.TableFlattens` | markdown.go:18-44 | a table written from trimmed cells flattens, row by row, to first cell, colon, second cell if it has two columns, and to all cells with dots between them, empty ones added up to the widest row, if it has more |
| `MarkdownExamples.DottedLineSplits` | markdown.go:161-170 | a dotted line splits at its dots into the cells again |
| `MarkdownExamples.OneTable` | markdown.go:29-38 | the lines of a written table are found to be one table, whatever bars its cells hold |
| `MarkdownStrip.ReplaceAtLineStart` | markdown.go:174-192 | the byte loop computes the specified scan |
| `MarkdownStrip.LineByLine` | markdown.go:174-192 | for a prefix without line breaks the scan equals split, replace one leading prefix per line, join |
| `MarkdownStrip.StripMarkdown` | markdown.go:46-64 | every character that is no part of a marker stays, in order; no backtick stays; and no marker at all stays if and only if the text settles (no stars or underscores meet, no header mark follows another) |
| `MarkdownStrip.FormatForWeChat` | markdown.go:7-16 | of the flattened text every character that is no part of a marker stays, in order, and no marker stays if and only if that text settles |
| `MarkdownStrip.StripKeepsContent` | markdown.go:46-64 | every character that is no part of a marker stays, in order |
| `MarkdownStrip.NoBackticks` | markdown.go:60-62 | no backtick survives |
| `MarkdownStrip.BoldReappears` | markdown.go:57-59 | a text whose stripping yields a bold marker, which stripping again removes |
| `MarkdownStrip.UnderscoresReappear` | markdown.go:59-62 | a text whose stripping yields a pair of underscores |
| `MarkdownStrip.HeaderReappears` | markdown.go:53-56 | a text whose stripping yields a header mark |
| `MarkdownStrip.HeadersInOrder` | markdown.go:53-56 | longer marks are dropped before shorter ones, each once |
| `MarkdownStrip.BoldReappearsIff` | markdown.go:57-62 | a bold marker reappears if and only if, among the stars left single, two have only backticks and paired underscores between them |
| `MarkdownStrip.UnderscoresReappearIff` | markdown.go:59-62 | a pair of underscores reappears if and only if two underscores left single have only backticks and pairs between them |
| `MarkdownStrip.StripLines` | markdown.go:48-64 | stripping a text is stripping each of its lines |
| `MarkdownStrip.HeaderLeftIff` | markdown.go:53-62 | a header mark leads a line of the result if and only if a line shows one behind those that are dropped |
| `MarkdownStrip.PlainIff` | markdown.go:46-64 | the result holds no marker if and only if the text settles |
| `MarkdownStrip.IdempotentIff` | markdown.go:46-64 | stripping twice is stripping once if and only if the text settles |
| `MarkdownStrip.StripLeavesIff` | markdown.go:46-64 | stripping leaves a text alone if and only if no header mark leads a line and no other marker stands in it |

## Left out

- HTTP, JSON encoding, headers, request timeouts, logging and `diagnostics.go`: responses are arbitrary inputs instead.
- The insides of AES, MD5, random bytes and UUIDs: the cipher is an abstract bijection per key, a drawn key is a parameter.
- URL parsing and the body of `urlPolicy.check`: an abstract predicate on hosts; that an accepted URL prints back as its host is part of it.
- `uploadCDNBytes` and the choice of the CDN URL: a bounded retry around plumbing.
- The fields of `InboundMessage` and the kinds of items: a handler call is named by its message and item.
- What the `OnExpired` callback does, `ErrAlreadyStarted`, `ErrNoMessageHandler` and the guard against concurrent `Start` calls.
- `SaveCredentials`, `LoadCredentials`, `GetQRCode`, QR rendering, the send wrappers of `notify.go` and the option setters of `config.go`.
- File permissions, Windows ACLs and durability across power loss, which the source disclaims.
- Go's memory model: the worker pool is a machine of atomic actions, with the cache's mutex as the reason that each cache operation is one action.
- Liveness of handlers that ignore cancellation, and fairness between polls.
- Invalid UTF-8: texts are sequences of characters, and account IDs are sequences of bytes.
- `strings.ReplaceAll` is a function of its own (`RemoveAll`), as the library's loop is not the client's.
- The 32-bit width of Go's `int` on some platforms: counters are unbounded, and only durations and media sizes have 64 bits.
- StartLoop.Client.Start: the run is cut off by a context that is over after a given number of checks, because the loop of the source need not end; every finite part of a run is covered.
- StartLoop.Client.ProcessBatch: the serial branch does not carry the token cache along, because tokens play no part in delivery there; `SerialBatch.DispatchInbound` states which tokens it saves.
- SerialBatch.DispatchInbound: what the running handlers themselves do to the cache is not part of the serial model; the pool model has it.
- ListenerTheorems.AtLeastOnce: positions below the floor that no successful batch held are exempt, because a server that has dropped old messages cannot deliver them to an empty cursor.
- Revocation.ExpiredServerEnds: that each poll is answered at all is the environment's business, so the end of the run is stated by its steps.
- Login.Session.Verify: a callback error and a callback that came back too late are one event in the history, although the results differ.
- Media.UploadToCDN: the two server round trips between key and ciphertext are not part of this model, only sizes, key and ciphertext.
