# Verified model of the chat system

A Dafny model of the chat system's long-poll replication from server to widget, and of the smaller
stateful parts around it, with proofs of what they promise. `dafny verify dfyconfig.toml` checks
everything.

## The replication protocol

On the server a chat is a table of messages numbered 1, 2, 3, ..., a counter, a cached last number,
and two logs (deletions and edits) scored by their own counters. The widget keeps three cursors, a
set of seen ids and a list. Four things interact: a read returns at most a hundred rows, the widget
drops ids it has seen, a failure puts the cursor one back, and a wake-up may be dropped.

- `Messages`, `ZSets`, `Servers`: rows, sorted sets, and the three writes of a chat with what every
  write keeps.
- `Polling`, `Merging`: what a poll reads, what the widget does with it, and what that means.
- `Replication`: both sides as one step system. A poll reads its messages at one step and the logs at
  a later one; answers and older pages are applied later still, with writes and the other request in
  between.
- `Convergence`: what finitely many successful polls reach once writes stop, and exactly when.
- `Outcomes`: the guarantees for every run, and runs that show where they stop.
- `PollHandlers`, `Widgets`: the handler's and the widget's loops, proved against the functions above.
- `Delivery`: senders, deleters, publishers and poll requests interleaved command by command, over
  one-slot channels and non-blocking sends.
- `DeleteLogs`, `EditLogs`: deleters and editors that number and log in two separate commands.

## Around it

- `ChatTables`, `MessageServices`: the tables of all chats, joins, and the message service whose calls
  are single writes of one chat in the protocol's sense.
- `Paging`: the three list queries, their in-place reversal, and scrolling back under writes.
- `Channels`, `Subscribers`, `Brokers`, `RedisBrokers`: the two brokers.
- `RateLimiters`, `Bans`, `TokenRefreshes`, `Presence`, `Exports`: one module each.

Stateful code is a class whose methods are proved against a function of the old state; what the
source promises is then proved about those functions. Times are integers (milliseconds, seconds for
presence), texts are byte sequences, ids are opaque numbers. Each Redis command and each SQL
statement is atomic. Bounds of 64-bit counters play no part.

## What turned out to be false

Each has a lemma that exhibits it and one that says when the property holds, for most of them
exactly when.

- A client a hundred step-backs behind can stall for ever (`Outcomes.StallAtAHundred`; exact
  condition: `Outcomes.ReachesTheTableExactly`).
- An older page in flight brings a deleted message back (`Outcomes.OvertakenPageRevives`), and so does
  a poll whose message is deleted between its two reads (`Outcomes.TornAnswerRevives`); the message
  stays exactly when its deletion is no longer to come (`Convergence.DeletedLeavesExactly`).
- A cursor stepped back below the loaded pages brings older rows to the end of the list
  (`Outcomes.LateRowBreaksOrder`; `Merging.OrderAfterExactly`).
- Concurrent senders can lower the cached number, and the fast path then misses a stored message
  (`Delivery.LoweredCacheHidesAMessage`; `Delivery.FastPathReachesExactly`).
- Deleting one message twice at the same time can hide the deletion from a client
  (`DeleteLogs.TwiceDeletedIsLost`; `DeleteLogs.HeardExactly`, `DeleteLogs.TwiceDeletedExactly`).
- Two editors of one message at the same time can leave an old text as the newest log entry
  (`EditLogs.RacingIsReached`, `EditLogs.LaterNumberWins`; `EditLogs.EditLogAgrees` for one editor of
  a message at a time).
- The ban check can outlive the ban (`Bans.TwoRowsGoStale`; `Bans.AgreesForeverExactly`).
- `has_more` is wrong for limits above 100 (`Paging.HasMoreSoundExactly`).
- The rate limit bounds milliseconds, not calls (`RateLimiters.SameMillisecondBurst`).
- An export of a changing table skips messages: after a deletion (`Exports.DeletionSkipsExactly`), and
  even when messages are only added, after a short batch (`Exports.OvertakenSkips`;
  `Exports.AppendsExportedExactly`).
- The online count endpoint and the heartbeat disagree about a user seen exactly sixty seconds ago
  (`Presence.OnlineCounts`, `Presence.HeartbeatCounts`).

Where code and documentation disagree the model follows the code: message limits are 2 and, for
moderators, 6 per ten seconds (the comment in `services/chat/internal/middleware/ratelimit.go:111-112`
says 10 and 30); the wait of a poll is 25 seconds (`docs/api.md:140` says up to 30) and enters the
model only as an event.

## Model

| member | source | states |
|---|---|---|
| Outcomes.NoSkippedMessage | frontend/widget/src/hooks/useLongPoll.ts:66-75 | in every run of writes, polls on either path, 429s, step-backs and older pages, every live message from the oldest loaded number to the highest value the cursor ever had is in the widget's list |
| Outcomes.NoMoreMeansAll | frontend/widget/src/components/ChatWindow.tsx:95-121 | in every run that nothing disturbed, a widget that offers no older page lists every live message from the first one on up to its highest cursor value |
| Outcomes.OrderAndUniqueness | frontend/widget/src/components/ChatWindow.tsx:95-147 | in every run no id is listed twice and everything listed was sent; while the cursor never fell more than one below the oldest loaded number, and no answer brought a message together with a later change to it, the list is strictly ascending by number |
| Outcomes.NoMissedChange | frontend/widget/src/components/ChatWindow.tsx:128-139 | in every run in which no change was delivered ahead of the message it is about (no older page overtaken, no answer torn) a listed copy equals its row, or an entry for it lies above the client's delete or edit cursor |
| Outcomes.ReachesTheTable | frontend/widget/src/hooks/useLongPoll.ts:40-126 | once writes stop, a client less than a hundred step-backs behind, with no page overtaken and no answer torn, lists exactly the live rows from the oldest loaded one on, after one poll more than there are unseen live rows above its cursor |
| Outcomes.ReachesTheTableExactly | frontend/widget/src/hooks/useLongPoll.ts:66-75 | from any reachable state polling a quiet chat brings the list in step if and only if every listed copy is settled and no full page of seen rows lies ahead of the cursor |
| Outcomes.ChangesShow | frontend/widget/src/components/ChatWindow.tsx:124-147 | from every reachable state between polls: after an edit of a listed live message and one poll the list shows the new text and edit time for it (unless a change was ever delivered ahead of its message); after a deletion of any message and one poll it is not listed |
| Outcomes.OnlyChangesTear | services/chat/internal/handler/poll_handler.go:174-179 | in every run in which messages are only sent, no page is overtaken and no answer torn |
| Outcomes.OnlyFailuresDisturb | frontend/widget/src/hooks/useLongPoll.ts:118-120 | in every run with sends only and no failing poll, nothing disturbs the order |
| Outcomes.StallAtAHundred | frontend/widget/src/hooks/useLongPoll.ts:118-120 | a reachable state, exactly a hundred step-backs behind, from which no number of successful polls ever lists the live message sent last |
| Outcomes.OvertakenPageRevives | frontend/widget/src/components/ChatWindow.tsx:101-107 | when a poll delivers the deletion of a message on an older page still in flight, the page puts the message back and it stays listed after every run of polls of the quiet chat |
| Outcomes.OvertakenPageIsReachable | frontend/widget/src/components/ChatWindow.tsx:95-107 | the state that lemma starts from occurs in a run of the protocol |
| Outcomes.TornAnswerRevives | services/chat/internal/handler/poll_handler.go:174-179 | a message deleted after a poll has read it and before the poll reads the log comes in one answer with its deletion; the widget removes first and appends after, and it stays listed after every run of polls of the quiet chat |
| Outcomes.TornAnswerIsReachable | frontend/widget/src/components/ChatWindow.tsx:128-144 | the state that lemma starts from occurs in a run of the protocol |
| Outcomes.LateRowBreaksOrder | frontend/widget/src/components/ChatWindow.tsx:140-144 | a run of the protocol, its cursor stepped back below the loaded page, after which the list is not ascending |
| Replication.OpenInv | frontend/widget/src/components/ChatWindow.tsx:83-93 | the first page and the cursor set from it establish the invariant |
| Replication.StepInv | frontend/widget/src/hooks/useLongPoll.ts:40-126 | every single step (write, poll start, wake, timeout, answer applied, failure, 429, older page asked, served, applied, failed) keeps the whole invariant, with polls and older pages in flight |
| Replication.RunInv | frontend/widget/src/hooks/useLongPoll.ts:40-126 | the invariant over all runs |
| Replication.DoneInv | frontend/widget/src/components/ChatWindow.tsx:124-147 | applying a poll answer computed on an earlier table keeps the invariant |
| Replication.OlderDoneInv | frontend/widget/src/components/ChatWindow.tsx:95-122 | prepending an older page read from an earlier table keeps the invariant |
| Convergence.RoundIsAPoll | services/chat/internal/handler/poll_handler.go:193-229 | the four protocol steps of a poll of a quiet chat (two reads, the timeout, the answer applied) are one round of the client and change nothing else |
| Convergence.RoundProgress | frontend/widget/src/hooks/useLongPoll.ts:66-75 | an unblocked poll with live rows beyond the highest cursor value strictly shrinks the set of unseen live rows |
| Convergence.ConvergesExactly | frontend/widget/src/hooks/useLongPoll.ts:66-75 | settled and unblocked is exactly the condition for getting in step; otherwise never |
| Convergence.EditShows | frontend/widget/src/components/ChatWindow.tsx:132-138 | a tracked, settled client lists an edited message with its new text and time after the next poll |
| Convergence.DeletionShows | frontend/widget/src/components/ChatWindow.tsx:128-131 | a tracked client lists a deleted message no more after the next poll, whatever it missed before |
| Convergence.FewStepBacksUnblocked | frontend/widget/src/hooks/useLongPoll.ts:118-120 | fewer than a hundred numbers between the cursor and its highest value: nothing blocks |
| Convergence.BlockedNeverLists | frontend/widget/src/hooks/useLongPoll.ts:66-75 | while a full page of seen rows stands between the cursor and the news, no row past the highest cursor value is listed after any run of polls |
| Convergence.DeletedLeavesExactly | frontend/widget/src/components/ChatWindow.tsx:128-131 | a listed message whose row is deleted is taken off by the next poll of a quiet chat, for good, if and only if its deletion is logged above the delete cursor; otherwise it stays for good |
| Merging.ReadAnswers | services/chat/internal/handler/poll_handler.go:174-179 | an answer whose messages were read from an earlier table than its logs: exactly the deletions above the delete cursor, what the edited rows hold by then, and the first hundred live rows above the cursor with none skipped |
| Merging.FastIsSlow | services/chat/internal/handler/poll_handler.go:169-191 | with the cached number exact, the fast read (cache looked at first) returns what the plain read returns |
| Merging.DeletedMeans | services/chat/internal/handler/poll_handler.go:64-83 | an id is in the fetched deletions exactly when an entry above the cursor names it |
| Merging.EditMeans | frontend/widget/src/components/ChatWindow.tsx:132-138 | the last fetched entry for a message, from any cursor, carries the text and edit time of its row: the last-wins merge is right |
| Merging.MergeAscending | frontend/widget/src/components/ChatWindow.tsx:124-147 | merging keeps an ascending list ascending when unlisted incoming rows lie above it |
| Merging.OrderAfterExactly | frontend/widget/src/components/ChatWindow.tsx:128-144 | one answer leaves an ascending list ascending if and only if every unseen, unlisted message it brings lies above every message that stays |
| Merging.OlderAscending | frontend/widget/src/components/ChatWindow.tsx:103-107 | prepending a page from below the list keeps it ascending |
| Servers.ChangeStores | services/chat/internal/repository/postgres/message_repo.go:134-145 | an edit of a live message stores the given text and time in its row, origin kept, logs the same as the newest entry of that message, and changes no other row, entry or log |
| Servers.ChangeOfDeleted | services/chat/internal/repository/postgres/message_repo.go:134-145 | an edit of a deleted message changes no row and logs what its row says |
| Servers.DeleteStores | services/chat/internal/repository/postgres/message_repo.go:147-156 | a deletion marks its row, text and edit time kept, logs the id above the old counter, and changes nothing else |
| Servers.SendStores | services/chat/internal/repository/postgres/message_repo.go:27-45 | a send adds one live, unedited row with the given id, chat, user, text and time and the next number, and moves counter and cached number to it |
| Servers.WriteKeepsGood | services/chat/internal/service/message_service.go:114-131 | one completed send, delete or edit keeps numbering, both logs and the cached number right, and everything it changes about a row is logged above the old counters |
| Servers.WritesKeepGood | services/chat/internal/service/message_service.go:182-305 | the same over all runs of writes: in particular the newest logged edit of a message, re-added equal entries included, always carries the table's text |
| Servers.ChangeAgrees | services/chat/internal/service/message_service.go:253-297 | an edit's entry becomes the newest of its message and agrees with the row; the other messages' newest entries stay |
| ZSets.ZAddValid | services/chat/internal/service/message_service.go:210 | adding with a score keeps the sorted set ordered with each member once, and scores distinct when the score is new |
| PollHandlers.FetchDeletesSince | services/chat/internal/handler/poll_handler.go:64-83 | the loop returns the members above the cursor in order and their largest score, 0 for none |
| PollHandlers.FetchEditsSince | services/chat/internal/handler/poll_handler.go:87-111 | the same for edit entries |
| PollHandlers.BuildResult | services/chat/internal/handler/poll_handler.go:169-191 | the fast result: messages only when the cached number is ahead of the cursor, then the two logs as they are by then |
| PollHandlers.Poll | services/chat/internal/handler/poll_handler.go:193-259 | which of the four endings a request takes: fast answer exactly when it is not empty, else no content on timeout, nothing on disconnect, and on wake-up the later messages, without looking at the cache, with the logs read after them |
| Widgets.ChatWindow.HandlePollMessages | frontend/widget/src/components/ChatWindow.tsx:124-147 | the list becomes deletions, then last-wins edits, then unlisted incoming messages |
| Widgets.ChatWindow.MapEdits | frontend/widget/src/components/ChatWindow.tsx:132-138 | mapping through a map built from the entries applies, for each id, the last entry |
| Widgets.ChatWindow.BeginLoadOlder | frontend/widget/src/components/ChatWindow.tsx:95-99 | asks below the first listed number, exactly when not already loading, more is expected, and the list is not empty |
| Widgets.ChatWindow.EndLoadOlder | frontend/widget/src/components/ChatWindow.tsx:100-121 | the page's unlisted messages go in front and the page's has_more is taken over; a failure changes nothing; loading is over either way |
| Widgets.LongPoll.constructor | frontend/widget/src/components/ChatWindow.tsx:162-164 | polling starts at the highest number loaded, 0 for none, with both log cursors at zero, nothing seen and a delay of a second |
| Widgets.LongPoll.HandleResponse | frontend/widget/src/hooks/useLongPoll.ts:46-86 | one answer moves the three cursors, the seen ids, the delay and the list as the step system says |
| Widgets.LongPoll.Turn | frontend/widget/src/hooks/useLongPoll.ts:87-128 | after a 429 with Retry-After n the pause is n seconds, or a minute without one, the delay goes back to a second and nothing else changes; after any other failure the pause is the delay, which doubles up to 30 seconds, and the cursor falls by one; after an answer there is no pause and the delay is a second |
| Widgets.LongPoll.Loop | frontend/widget/src/hooks/useLongPoll.ts:39-131 | the loop handles the outcomes up to and including the first abort, 401 or ban, and its pauses are those of its states, one for each outcome handled |
| Widgets.PausedIsAdmitted | frontend/widget/src/hooks/useLongPoll.ts:113-115 | a widget refused by any of the limiters pauses, on that limiter's Retry-After, at least a whole window, and its next call, if it made no other, is admitted |
| Widgets.BackOff | frontend/widget/src/hooks/useLongPoll.ts:109-128 | n failures in a row pause 1, 2, 4, ... seconds up to 30 and put the cursor n back, not below zero |
| ChatTables.NumberingHolds | services/chat/internal/repository/postgres/message_repo.go:27-45 | over all runs of inserts, updates, soft deletes and joins the numbers of every chat are exactly 1 to its counter, each once |
| ChatTables.NumbersNeverReused | services/chat/internal/repository/postgres/message_repo.go:27-45 | over all runs of statements a number once taken in a chat stays with its message, deleted or not: later rows share chat and number if and only if they share the id, and a deletion is never undone |
| ChatTables.RejoinKeepsCounter | services/chat/internal/service/chat_service.go:32-53 | joining a known room again returns the same chat under its new name, makes no second child, and leaves counters and messages alone |
| ChatTables.UpsertFinds | services/chat/internal/repository/postgres/chat_repo.go:77-116 | the select after the upsert finds the row it wrote, and a room keeps one child chat |
| ChatTables.CreateKeepsSound | services/chat/internal/repository/postgres/message_repo.go:27-45 | the one-statement counter update and insert keeps every chat numbered without gaps |
| MessageServices.AcceptedExactly | services/chat/internal/service/message_service.go:50-105 | a message is stored if and only if it is 1 to 4096 bytes, its sender is neither banned nor muted, a replied-to message exists in the same chat, and the chat has a counter |
| MessageServices.MessageService.SendMessage | services/chat/internal/service/message_service.go:46-134 | case by case in the order of the checks, which refusal the sender gets, with nothing changed; otherwise the stored and returned row, field by field, with the number above the old counter, exactly one send in its chat, nothing in other chats, one wake-up |
| MessageServices.MessageService.StoreAndPublish | services/chat/internal/service/message_service.go:114-131 | row, then cached number, then wake-up: the row field by field, one send and nothing else; a refused insert changes nothing |
| MessageServices.MessageService.SoftDelete | services/chat/internal/service/message_service.go:182-226 | not found, forbidden to a plain member who is not the owner, or the row marked and no other touched, one logged deletion in the message's chat and one wake-up |
| MessageServices.MessageService.EditMessage | services/chat/internal/service/message_service.go:231-305 | refusals in order without change, or the owner's edit: the row, returned as it now reads, has the new text and time and is otherwise what it was (a deleted one altogether), no other row changes, one logged edit, one wake-up |
| MessageServices.MessageService.GetOrCreateChildChat | services/chat/internal/service/chat_service.go:32-53 | refused without a parent chat; otherwise the room's one child under its new name (none for an empty one), with a counter at 0 if it had none; no message, other chat or other counter changes |
| MessageServices.SendWrites | services/chat/internal/service/message_service.go:114-125 | a stored send is one send to its chat in the protocol's sense, on sound tables |
| MessageServices.DeleteWrites | services/chat/internal/service/message_service.go:198-219 | mark and log entry together are one deletion in the protocol's sense |
| MessageServices.EditWrites | services/chat/internal/service/message_service.go:253-297 | update, reload and log entry together are one edit in the protocol's sense |
| MessageServices.JoinKeepsAll | services/chat/internal/service/chat_service.go:32-53 | a join changes no chat as the poll protocol sees it |
| Paging.ReverseInPlace | services/chat/internal/repository/postgres/message_repo.go:102-105 | swapping from both ends reverses the array |
| Paging.GetByChatIDBeforeSeq | services/chat/internal/repository/postgres/message_repo.go:79-108 | descending select, limit and in-place reversal give the newest `limit` live rows below the bound, ascending |
| Paging.ListMessages | services/chat/internal/service/message_service.go:138-152 | the newest live rows, at most a hundred, ascending |
| Paging.List | services/chat/internal/handler/message_handler.go:98-159 | which of the three queries answers, the default limit of 50, and has_more exactly when as many came as were asked for |
| Paging.PageMeans | services/chat/internal/handler/message_handler.go:135-147 | which live messages a list request returns: the newest below before, or else the oldest above after, or else the newest of all, at most the limit and a hundred, none skipped |
| Paging.HasMoreSoundExactly | services/chat/internal/handler/message_handler.go:135-158 | has_more = false means nothing older is live, for the newest page and any page below a number, exactly for limits up to 100 or histories of at most 100 |
| Paging.ScrollComplete | services/chat/internal/handler/message_handler.go:138-140 | paging back with sends, edits and deletes between the reads: one ascending list with every row below the start that is still live at the end, once |
| Paging.ScrollEnds | services/chat/internal/handler/message_handler.go:154-158 | as many reads as there were rows below the start always end in a short page |
| Paging.ScrollFromNewest | services/chat/internal/handler/message_handler.go:135-158 | the same from the newest page on: everything there at the start and never deleted |
| Delivery.NoLostWakeUp | shared/pkg/longpoll/broker.go:73-88 | in every interleaving a request parked when a publish copied the list has a full channel once that publish is done, or has received, and then its read shows the write behind it |
| Delivery.TwoRequestDelivery | services/chat/internal/handler/poll_handler.go:193-227 | with one sender at a time, every request that comes in after a send's cache write returns the message from any cursor below it, unless it was deleted or a hundred live ones come first; it is never parked past it |
| Delivery.CacheNeverAhead | services/chat/internal/service/message_service.go:114-125 | under any number of concurrent senders the numbers are 1, 2, 3, ... and the cached number never exceeds the table's |
| Delivery.FastPathReachesExactly | services/chat/internal/handler/poll_handler.go:169-178 | whatever the senders did, requests from all cursors below a live message find it on the fast path if and only if the cached number has reached it |
| Delivery.LoweredCacheHidesAMessage | services/chat/internal/service/message_service.go:119-125 | two concurrent senders after which a stored and published message is not found by a request below it |
| Delivery.SendIsStored | services/chat/internal/repository/postgres/message_repo.go:27-45 | whatever runs afterwards, a sent message stays in its place with its number and its content; only a deletion marks it |
| Delivery.StepInv | services/chat/internal/handler/poll_handler.go:193-235 | every command of senders, deleters, publishers and polls keeps the invariant behind these results |
| Subscribers.ListsAreRemaining | shared/pkg/longpoll/broker.go:45-69 | after any run of calls each chat's list is exactly the channels opened for it and not handed back, in order; no empty list is kept and no channel is in two lists |
| Subscribers.DroppedAt | shared/pkg/longpoll/broker.go:59-64 | removing a channel keeps everything before and after it, in order |
| Channels.Append | shared/pkg/longpoll/broker.go:48 | appending to a slice: in place when there is room, into a fresh array when there is none |
| Channels.RemoveAt | shared/pkg/longpoll/broker.go:61 | the in-place shift removes one channel and keeps the order of the others |
| Channels.OfferAll | shared/pkg/longpoll/broker.go:80-86 | a publish fills every empty slot of its copy once and leaves full ones as they are |
| Brokers.InMemoryBroker.Subscribe | shared/pkg/longpoll/broker.go:45-52 | a fresh empty channel at the end of the chat's list, other lists and every copy being delivered untouched |
| Brokers.InMemoryBroker.Unsubscribe | shared/pkg/longpoll/broker.go:55-69 | the channel goes, the others keep their order, an empty list is dropped, and no copy being delivered changes though the shift is in place |
| Brokers.InMemoryBroker.Publish | shared/pkg/longpoll/broker.go:73-88 | every channel of the chat is full afterwards, with the new message where it was empty |
| RedisBrokers.RedisBroker.OneSubscriptionExactly | services/chat/internal/broker/redis_broker.go:40-82 | a chat has an open subscription if and only if it has a local client, and never two |
| RedisBrokers.RedisBroker.Subscribe | services/chat/internal/broker/redis_broker.go:40-57 | the first client of a chat starts one subscription, later ones start none |
| RedisBrokers.RedisBroker.Unsubscribe | services/chat/internal/broker/redis_broker.go:61-82 | the last client leaving cancels the reader and closes the subscription; all other fan-outs stay |
| RedisBrokers.RedisBroker.FanOut | services/chat/internal/broker/redis_broker.go:120-140 | a Redis message reaches whoever is in the chat's list at that moment |
| RateLimiters.SetIsHistory | services/chat/internal/middleware/ratelimit.go:34-48 | after every call the stored set holds exactly the distinct millisecond stamps of all calls, rejected ones too, in (now - window, now] |
| RateLimiters.AdmittedExactly | services/chat/internal/middleware/ratelimit.go:51-63 | a call is admitted if and only if its window holds at most `limit` distinct stamps |
| RateLimiters.WindowBound | services/chat/internal/middleware/ratelimit.go:51-63 | any interval one window long admits calls at no more than `limit` distinct milliseconds |
| RateLimiters.SameMillisecondBurst | services/chat/internal/middleware/ratelimit.go:42 | the bound is on milliseconds only: any number of calls in one millisecond are all admitted |
| RateLimiters.DistinctCallsExactly | services/chat/internal/middleware/ratelimit.go:41-45 | for calls in distinct milliseconds: admitted if and only if among the first `limit`, or the call `limit` places earlier is a whole window old |
| RateLimiters.ExpiryInvisible | services/chat/internal/middleware/ratelimit.go:44 | dropping the key at its expiry never changes any later set or answer |
| RateLimiters.RetryAfterSound | services/chat/internal/middleware/ratelimit.go:77 | a caller silent for the advertised Retry-After (section 10.2.3 of RFC 9110) is admitted, in all three limiters and for moderators |
| RateLimiters.SendersLimits | services/chat/internal/middleware/ratelimit.go:111-147 | who may send how often: a user twice and a moderator six times in ten seconds (calls in distinct milliseconds, exactly); admins and callers without claims are not counted |
| RateLimiters.AddressLimits | services/chat/internal/middleware/ratelimit.go:15-24 | by address, exactly: a hundred requests and sixty polls in sixty seconds |
| RateLimiters.RateLimiter.Allow | services/chat/internal/middleware/ratelimit.go:51-63 | the answer is the history count, with the key expiring meanwhile |
| Bans.AgreesForeverExactly | services/chat/internal/middleware/ban.go:40-75 | the check answers what the table says at every later moment, however often asked, if and only if the key runs out with the last ban (any key under an endless ban, none when no ban is in force) |
| Bans.CacheAgrees | services/chat/internal/middleware/ban.go:40-75 | in every run with one ban row per person at a time and expiries in the future, every check answers what the table says |
| Bans.CreateKeepsTightExactly | services/admin/internal/service/ban_service.go:28-58 | exactly which new bans keep the key in step |
| Bans.UnbanKeepsTightExactly | services/admin/internal/service/ban_service.go:61-82 | exactly which lifted bans leave the key in step |
| Bans.NeverLetThrough | services/chat/internal/middleware/ban.go:57-70 | with no limit on rows, a person with an unexpired ban is never let through |
| Bans.TwoRowsGoStale | services/chat/internal/middleware/ban.go:63-68 | two rows, one lifted: a check under the other writes a key without expiry and the person stays out for good |
| Bans.BannedUntil | services/chat/internal/repository/postgres/ban_repo.go:25-37 | the counting query says banned exactly until the last of the person's bans runs out |
| Bans.CreateConcerns | services/admin/internal/service/ban_service.go:28-58 | a new ban adds to its own person's bans until it runs out; for everyone else table and check answer as before at every moment |
| Bans.UnbanConcerns | services/admin/internal/service/ban_service.go:61-82 | after a ban is lifted table and check answer as before for everyone else at every moment; the person is banned exactly under another ban of theirs, and the check says so |
| Bans.BanServices.CreateBan | services/admin/internal/service/ban_service.go:28-58 | the row is added behind the others; the key gets the ban's own lifetime, a day for an endless ban, a second for an expired one; all other keys stay |
| Bans.BanServices.UnbanUser | services/admin/internal/service/ban_service.go:61-82 | an unknown id changes nothing; otherwise that one row goes and the person's key, and every other row and key stays |
| Bans.BanServices.IsBanned | services/chat/internal/middleware/ban.go:40-75 | banned exactly under a living key or an unexpired row; a banned miss leaves a key without expiry, and nothing else changes |
| TokenRefreshes.OneRefreshTwoFetches | frontend/widget/src/api/client.ts:34-68 | in every run at most one refresh is unsettled, each request fetches at most twice, its retry carries the token of the refresh it joined, and who joined a failed one never fetches again |
| TokenRefreshes.SettledLeavesNoneWaiting | frontend/widget/src/api/client.ts:56-67 | once a refresh settles, everyone who joined it leaves the wait when resumed, in any interleaving: rejected after one fetch, or sent out once more with that token |
| TokenRefreshes.NobodyWaitsForNothing | frontend/widget/src/api/client.ts:60-64 | every waiting request waits for the refresh in flight or for a settled one |
| TokenRefreshes.ReturnedExactly | frontend/widget/src/api/client.ts:54-92 | in every run a request is returned if and only if the last answer it got was a 2xx; it gets at most two, the second only after a 401 with a refresh to be had, and a second 401, or any other refusal on the last try, fails it |
| TokenRefreshes.ApiClient.OnResponse | frontend/widget/src/api/client.ts:54-92 | a first 401 with a refresh to be had joins the refresh in flight, or starts one exactly when there is none; any other answer returns the request if it is a 2xx and fails it if not; no other request changes |
| TokenRefreshes.ApiClient.OnNetworkError | frontend/widget/src/api/client.ts:48-53 | a fetch that does not come through fails its request and changes nothing else |
| TokenRefreshes.ApiClient.OnRefreshSettled | frontend/widget/src/api/client.ts:60-63 | the refresh settles: the field is cleared and the waiters' outcome fixed, nothing else |
| TokenRefreshes.ApiClient.OnResumed | frontend/widget/src/api/client.ts:64-68 | the stretch after the refresh: new token for all later requests and one more fetch, or failure |
| Presence.HeartbeatCounts | services/chat/internal/handler/online_handler.go:49-62 | the count a heartbeat returns is the number of distinct users whose last heartbeat lies in (now - 60 s, now] with no later leave, with the 70-second expiry enforced or not |
| Presence.OnlineCounts | services/chat/internal/handler/online_handler.go:93-110 | the count endpoint counts the same users and those seen exactly 60 s ago, these only if no heartbeat came in the very second of the question; with the expiry enforced or not |
| Presence.OnlineHandler.Heartbeat | services/chat/internal/handler/online_handler.go:35-65 | the same as a method over the stored set |
| Presence.OnlineHandler.OnlineCount | services/chat/internal/handler/online_handler.go:93-110 | the count endpoint as a method over the stored set, the second of the last event included |
| Presence.OnlineHandler.Leave | services/chat/internal/handler/online_handler.go:69-89 | a leave takes the user, and nobody else, out of every later count |
| Exports.ExportCsv | services/admin/internal/service/export_service.go:52-100 | for an unchanging table of any size: terminates, and writes the header and then every selected message once in order, as id, number, text, user and time |
| Exports.ExportNdjson | services/admin/internal/service/export_service.go:102-128 | the same for JSON lines |
| Exports.MatchingExact | services/admin/internal/repository/postgres/message_repo.go:28-64 | the selection is exactly the live in-range messages, ascending by number, each once |
| Exports.DeletionSkipsExactly | services/admin/internal/service/export_service.go:64-96 | one deletion between two reads, all else unchanged: a message that stays is lost if and only if the deleted one lies before the next offset and it is the one that stood at that offset |
| Exports.DeletionCuts | services/admin/internal/repository/postgres/message_repo.go:33-44 | a deletion cuts its message out of the selection and moves everything behind it up |
| Exports.AppendsExportedExactly | services/admin/internal/service/export_service.go:64-96 | while messages are only added, a finished export has written a beginning of the final selection, and all of the first one, if and only if no short batch was overtaken: by the next read, a hundred further on, the selection had not grown past that offset |
| Exports.GrowingTableExactly | services/admin/internal/service/export_service.go:64-96 | the same for a chat table to which rows are only appended between the reads |
| Exports.OvertakenSkips | services/admin/internal/service/export_service.go:94-96 | a short first batch, then more than a hundred messages by the second read: the rest of the first hundred is never written |
| EditLogs.EditLogAgrees | services/chat/internal/service/message_service.go:253-297 | any number of messages edited at once, one editor each at a time, command by command: the newest log entry of a message nobody is editing carries its row's text and edit time |
| EditLogs.LogSaysLastWord | services/chat/internal/service/message_service.go:253-297 | with one editor of a message at a time its newest log entry, once nobody edits it, is the last thing written for it, text and time |
| EditLogs.LaterNumberWins | services/chat/internal/service/message_service.go:253-297 | two editors of one message with different texts, others at work on other messages, in any order of their commands: once both are done the newest entry agrees with the row if and only if the editor that loaded the row's text took the later number |
| EditLogs.SameTextAgrees | services/chat/internal/service/message_service.go:253-297 | any number of editors of one message that all loaded the row's text: in whatever order they finish, the newest entry agrees with the row |
| EditLogs.RacingIsReached | services/chat/internal/service/message_service.go:253-292 | the state that lemma starts from occurs in a run, with different texts |
| DeleteLogs.EntriesExactly | services/chat/internal/service/message_service.go:203-219 | in every interleaving of deleters and fetches a log entry at or below the client's cursor was delivered if and only if it was not numbered-but-unlogged when the client fetched past it |
| DeleteLogs.DeliveredExactly | services/chat/internal/handler/poll_handler.go:64-83 | any number of deleters, messages deleted any number of times: a logged deletion at or below the cursor was delivered if and only if, when the client fetched past its number, it was neither unlogged nor moved by a second deletion |
| DeleteLogs.HeardExactly | services/chat/internal/handler/poll_handler.go:64-83 | in every interleaving the client has heard of a message if and only if one of its deletions was fetched past in time and in place |
| DeleteLogs.DeletedOnceExactly | services/chat/internal/handler/poll_handler.go:64-83 | of a message deleted once the client has heard, once past its number, if and only if that number was not skipped |
| DeleteLogs.TwiceDeletedExactly | services/chat/internal/service/message_service.go:203-219 | of a message deleted twice the client never hears, once past both numbers, if and only if the deletion left in the log was skipped and the other skipped or moved |
| DeleteLogs.TwiceDeletedIsLost | services/chat/internal/service/message_service.go:207-213 | two deleters of one message: the slow one moves the entry back below the cursor and the client is never told |
| DeleteLogs.TwiceAtWorkIsReached | services/chat/internal/service/message_service.go:207-213 | the state that lemma starts from occurs in a run |

## Left out

- HTTP parsing and routing, JSON, logging, configuration, authentication tokens, roles beyond the checks named above, CORS.
- Failing Redis and database calls: every command succeeds, except where a row is missing or an id is taken. Fail-open branches of the ban check, the limiter and the mute check are therefore not modelled.
- The one-hour expiry of the two logs and their counters and the seven-day expiry of the cached number: all claims are inside one key lifetime.
- In `Replication` the cache look-up and the message read of a poll are one read, and so are its two log reads; `Delivery` splits the look-up from the message read, and no single system has all of these splits at once.
- In `Replication` an edit or a deletion is one step; `EditLogs` and `DeleteLogs` take it apart, without the rest of the widget.
- The widget's own send, edit and delete handlers and its optimistic messages: the client is a receiving one.
- Reply references are checked on send but not kept in the row; reply previews, user names and mutes' own table are not modelled.
- Ids are given to an insert as a parameter, and a taken id is refused; the database's own id generation, and rows ordered by insertion rather than by an index, stand behind the reads.
- The edit time in a log entry is whole; the source cuts fractions of a second from it.
- Liveness under real time: delays are values, the settle delay and the 25-second timer are events.
- RedisBroker: a fan-out's client list is a sequence field, so the sharing of its backing array is not captured; that is proved for the in-memory broker, whose list operations are the same.
- RedisBroker: the reader goroutine's loop and the network between publish and fan-out.
- Channels.Append: grows by doubling; the runtime's exact growth is not modelled.
- Exports.ExportCsv: quoting, time formats and the reply column of a line are not modelled; writer errors do not occur.
- Brokers.InMemoryBroker.Publish: no other call comes between its copy of the list and its sends; `Delivery` interleaves them, on values.
- RedisBrokers.RedisBroker.FanOut: no other call comes between its copy of the list and its sends.
- Bans.CacheAgrees: the duplicate check inside message sending reads the same key and table and is a parameter there.
- RateLimiters.RateLimiter.Allow: the two clocks involved (server and Redis) are one clock that does not run backwards.
- User interface: rendering, scrolling, notices.
