# Verification model of the Enzyme chat server

Enzyme is a chat server (Go over SQLite) with text utilities shared between its
clients (TypeScript). This project models its four components with the deepest
behaviour and proves what they are meant to guarantee, over whole runs wherever the
guarantee is about runs.

* **Message store and readers** - `Messages.dfy`, `RowHistory.dfy`, `Posting.dfy`,
  `Paging.dfy`, `Threads.dfy`, `ThreadWalks.dfy`, `Pins.dfy`, `Delivery.dfy`,
  `Unread.dfy`, `Notifications.dfy`, `AllUnreads.dfy`. The
  `messages` table is a sequence of rows whose ids are their positions (ids are ULIDs
  minted in increasing order; id 0 is the empty string, which sorts before every ULID).
  Each transaction is a method of `Messages.Store` tied to the function `Messages.Apply`,
  and `Messages.Run` iterates it. Every list query is a method tied to a function on the
  table; whole walks through a list, with writes between two pages, are functions over
  those.
* **Channels and direct messages** - `DmHash.dfy`, `Channels.dfy`, `Memberships.dfy`,
  `DirectMessages.dfy`, `ChannelStore.dfy`. A channel row carries its membership rows; type and participant hash
  must stay in step with them. What a request reads and decides is kept apart from what
  it writes, so that requests interleave. Where the database may answer in several ways
  (member order, one of several rows with a hash) every answer is covered.
* **Protocols over shared rows** - `Scheduled.dfy` interleaves the database statements of
  any number of senders, edits, deletes, attachment removals and recoveries of scheduled
  messages, and `ScheduledRuns.dfy` says which runs are safe with the recovery in them;
  `Owners.dfy` separates what a role request reads and decides from what it writes.
* **Text algorithms** - `Mentions.dfy`, `MentionRewrite.dfy`, `MentionStorage.dfy`,
  `Fuzzy.dfy`, `AvatarColor.dfy`.

`Common.dfy` holds options, LIMIT and COUNT. Verify the whole project with
`dafny verify dfyconfig.toml`.

Strings of user and message ids are taken non-empty and without ":" (they are ULIDs),
SHA-256 is taken to be collision-free, and lower casing to keep a string's length.
I/O, clocks and the network are parameters: times are arguments, what a scheduled send
meets on its way is a value of `Scheduled.Weather`.

## What the model found

Where a property does not hold of the code, the project states exactly when it does.

* A scheduled message can be sent twice in five ways, each shown from the empty table:
  the delete after a successful send fails, the sender crashes before that delete, a send
  outlasts five minutes - the worker's recovery then puts the row back -, an edit is
  written whose status check is out of date, or an attachment removal sets a claimed row's
  time stamp back (`ScheduledRuns.FailedCleanupSendsTwice`, `CrashAfterCommitSendsTwice`,
  `SlowSendSendsTwice`, `StaleEditSendsTwice`, `StaleStampSendsTwice`). Without these five
  it cannot (`ScheduledRuns.OrderlyRunIsSafe`). `Scheduled.SafeExactlyWhenClean` gives
  the exact condition on a single step.
* Two members leaving a three-member group DM at once leave one member in it
  (`Channels.TwoLeavesFromOneRead`; exact condition `Channels.LeaveNeedsThreeMembers`).
  `AddMemberToDM` computes type and hash from a list its caller read earlier; two
  additions from one read break the DM (`Channels.TwoAddsFromOneRead`; exact condition
  `Channels.AddToDmNeedsFreshList`). `UpdateChannel` writes back the type it read
  (`Channels.StaleEditAfterLeave`; exact condition `Channels.WritingBackTheType`).
  Additions and departures decided before a conversion undo it. Over whole interleaved
  runs the exact condition is `Channels.AlwaysInvIffAllFresh`.
* A member set can get two DMs: by an addition or a departure
  (`DirectMessages.LeaveMakesTwin`), by two creations that both look first, and by an edit
  that writes "group_dm" back onto a channel converted meanwhile
  (`DirectMessages.StaleEditMakesTwin`). The exact condition, for every write however old
  its decision, is `DirectMessages.WriteKeepsUniqueIffNoTwin`.
* A workspace can lose its last owner. A departure counts the owners in the transaction
  that deletes the row, but only if the user was read as an owner before it
  (`Owners.StaleLeaveLosesLastOwner`); a removal counts in a statement of its own
  (`Owners.TwoSelfRemovalsLoseBothOwners`). Over interleaved runs the exact condition is
  `Owners.AlwaysOwnedIffAllFresh`. An admin's removal decided earlier also takes out
  somebody who has become an owner since (`Owners.StaleRemovalTakesOwner`; exact condition
  `Owners.StaleRequestTakesOwnerIff`).
* A reply between two pages of the thread list moves its thread to the front. If it is the
  cursor's own thread, the next page starts over; if it is a thread still to come, the walk
  misses it (`ThreadWalks.NewReplyKeepsTheRestIff`, and `ReplyKeepsTheRestIff` without an
  assumption on the clock). Writes that reply to no thread the listing could show leave
  the walk right (`ThreadWalks.WalkWithWrites`).
* Walking through the pinned messages by cursor returns each of them exactly once if and
  only if they were pinned in the order in which they were written
  (`Pins.PinWalksAreCompleteIff`, `Pins.PinWalkCanLoseMessages`).
* Mention rewriting depends on the map's iteration order exactly when one display name is
  another followed by white space (`MentionRewrite.OrderFreeExactly`).
* Substring matches outrank all others for queries of up to ten characters and for no
  longer length (`Fuzzy.SubstringsFirstUpToTen`).
* A default "mark read" makes the unread count follow new messages unless the channel has
  no live top-level message and the stored position is beyond every existing id
  (`Unread.MarkReadTracksNewMessages`).
* For a limit of 1 the window around a message is 25 ids to each side, not one
  (`Paging.AroundIsWindow` is stated with the code's half limit).

## Model

| member | source | states |
|---|---|---|
| `Messages.RunKeepsInv` | server/internal/message/repository.go:33-225 | over every run of creates, edits, deletes, pins and unpins each message's `reply_count` is the number of its live replies, `last_reply_at` the creation time of its newest reply ever, and no channel has more than 50 pinned rows |
| `Messages.ReachableInv` | server/internal/message/repository.go:33-225 | all of that holds of every table that the writes reach from the empty one |
| `Messages.NewestReplyTimeMeaning` | server/internal/message/repository.go:79-88 | the reply time the invariant names is that of the last row below the parent, and absent exactly when there never was a reply |
| `Messages.CreateCounter` | server/internal/message/repository.go:65-90 | creating a message leaves every counter exact, that of its parent included |
| `Messages.DeleteReplyCounts` | server/internal/message/repository.go:182-224 | deleting a reply lowers exactly its parent's counter by exactly one |
| `Messages.DeleteCounter` | server/internal/message/repository.go:182-224 | after a delete every message's counter still equals its live replies and its reply time is untouched |
| `Messages.ClampNeverFires` | server/internal/message/repository.go:213-222 | in a reachable table the clamp `MAX(reply_count - 1, 0)` never changes the result |
| `Messages.DeleteIsFinal` | server/internal/message/repository.go:182-203 | whatever happens in between, deleting a message again is refused and changes nothing |
| `Messages.RunExtends` | server/internal/message/repository.go:33-225 | no run changes the id, channel, author, parent or creation time of a row, removes a row or revives a deleted one |
| `Messages.PinKeepsInv` | server/internal/message/repository.go:1304-1337 | a pin never takes a channel over 50 pinned rows and disturbs no counter |
| `Messages.Store.Create` | server/internal/message/repository.go:33-91 | one transaction inserts the row under the next id and moves the parent's counter and reply time, or fails on a missing parent and changes nothing; the invariant is kept |
| `Messages.Store.Delete` | server/internal/message/repository.go:182-225 | a live row becomes a tombstone and its parent's counter drops; a missing or deleted one yields "not found"; the invariant is kept |
| `Messages.Store.Update` | server/internal/message/repository.go:166-180 | only a live row is edited; the invariant is kept |
| `Messages.Store.CountPinned` | server/internal/message/repository.go:1346-1350 | the number of pinned rows of the channel, deleted ones included, which is at most 50 |
| `Messages.Store.PinMessage` | server/internal/message/repository.go:1304-1337 | pins unless the row is missing or its channel already has 50 pins; the invariant is kept |
| `Messages.Store.UnpinMessage` | server/internal/message/repository.go:1340-1343 | clears the pin of an existing row and nothing else; the invariant is kept |
| `RowHistory.WhatWasSentIsKept` | server/internal/message/repository.go:33-91 | whatever is written later, a message keeps the channel, author, mentions, parent, "also send" flag and time it was sent with, its text until an edit or a deletion of it, and carries no pin until one is made |
| `RowHistory.LastEditShows` | server/internal/message/repository.go:166-180 | through every run an edit of a live message shows, with its time, until the next edit or the deletion; any other edit changes nothing |
| `RowHistory.DeletedForGood` | server/internal/message/repository.go:182-203 | through every run a deleted message reads "[deleted]" and keeps the time of its deletion |
| `RowHistory.LastPinShows` | server/internal/message/repository.go:1304-1343 | through every run an accepted pin shows its time and user, and an unpinned message none, until the next pin or unpin of it |
| `RowHistory.FiftyPinsPerChannel` | server/internal/message/repository.go:1317-1326 | a pin is refused exactly when the message is missing or fifty rows of its channel are pinned, and then changes nothing |
| `RowHistory.RepliesTouchTheParent` | server/internal/message/repository.go:79-88 | a reply raises its parent's counter by one and dates it; deleting a live reply dates it too |
| `Posting.VerdictMeaning` | server/internal/handler/message.go:120-138 | a thread parent is accepted exactly when it is a top-level message of the same channel; a missing one and one of another channel are refused as such |
| `Posting.AcceptedStays` | server/internal/handler/message.go:120-138 | a thread parent once accepted would be accepted by every later table |
| `Posting.CreateKeepsFlatIffAccepted` | server/internal/handler/message.go:120-138 | creating a message keeps threads one level deep and inside their channel exactly when its parent passes SendMessage's checks |
| `Posting.ThreadsStayFlat` | server/internal/handler/message.go:120-138 | over every run in which each message was checked at its creation or at any earlier moment, threads stay flat |
| `Paging.NewestMeaning` | server/internal/message/repository.go:270-296 | the "before" query lists exactly the matching ids up to its bound, strictly descending |
| `Paging.OldestMeaning` | server/internal/message/repository.go:258-269 | the "after" query lists exactly the matching ids above its bound, strictly ascending |
| `Paging.NewestStable` | server/internal/message/repository.go:227-324 | no write changes which ids up to a bound a visibility filter selects |
| `Paging.WalkBackIsExact` | server/internal/message/repository.go:227-324 | following the cursor to the end, with arbitrary writes between pages, returns exactly the ids visible at the first page, in order, each once |
| `Paging.WalkBackLength` | server/internal/message/repository.go:302-310 | that walk takes the least possible number of pages |
| `Paging.PagesMeaning` | server/internal/message/repository.go:302-310 | the number of pages is max(1, ceil(n / limit)) |
| `Paging.ChannelHistory` | server/internal/message/repository.go:227-324 | reading a channel back yields, newest first and each once, every message of the channel at the moment the reading began that is no reply or was also sent to the channel and whose author the reader has neither hidden nor blocked, on max(1, ceil(n / limit)) pages |
| `Paging.WalkForwardIsExact` | server/internal/message/repository.go:472-563 | reading forward misses and repeats nothing: it returns exactly the matching ids that exist when the last page is served, those created meanwhile included |
| `Paging.ThreadHistory` | server/internal/message/repository.go:472-563 | reading a thread yields exactly the replies to its parent that exist when its last page is served, less those of hidden and blocked authors, oldest first, each once |
| `Paging.AroundIsWindow` | server/internal/message/repository.go:327-432 | the window is a contiguous descending stretch of the visible ids, at most two half limits long, and its flags say exactly whether ids remain on either side |
| `Paging.AroundShowsCursor` | server/internal/message/repository.go:336-363 | a visible message is in the window opened on it |
| `Paging.AroundHalves` | server/internal/message/repository.go:327-432 | the window holds at most half the limit - 25 for a limit of 1 - on either side of the cursor, and exactly that many where more remain |
| `Paging.AroundPartitions` | server/internal/message/repository.go:327-432 | the window, the "after" walk from its first id and the "before" walk from its last id, with arbitrary writes between any two pages, make up the channel as it stands when the "after" walk ends: nothing lost, nothing repeated |
| `Paging.WalkBackFades` | server/internal/message/repository.go:847-954 | a backward walk over a query that also asks for live rows goes strictly down, returns only ids that matched when it began and every one that still matches when it ends, whatever is written between the pages |
| `Paging.List` | server/internal/message/repository.go:227-324 | one call returns the page its direction and cursor select, of the limit when that is 1 to 100 and of 50 otherwise; a page that announces more is full |
| `Paging.ListAround` | server/internal/message/repository.go:327-432 | fetching, trimming and reversing both halves yields the window |
| `Paging.ListThread` | server/internal/message/repository.go:472-563 | one call returns the next page of replies, oldest first |
| `Paging.FetchNewest` | server/internal/message/repository.go:270-296 | reading rows downwards until the limit returns the first ids of the whole listing |
| `Paging.TrimFetched` | server/internal/message/repository.go:302-310 | fetching one row too many and dropping it reports exactly whether more exist |
| `Delivery.SentMessageIsRead` | server/internal/message/repository.go:33-91 | after every accepted send the whole reading of any channel, under any hidden and blocked users, is the new id followed by the old reading exactly when the message is in that channel, is no reply or was also sent there, and its author passes; the reading of any thread gains the id at its end exactly when the message replies to it; everything else reads as before |
| `Delivery.OtherWritesAreNotRead` | server/internal/message/repository.go:166-225 | edits, deletes, pins and unpins leave both readings unchanged |
| `Threads.OrderIsUnique` | server/internal/message/repository.go:1199-1223 | ordering by reply time and id leaves one possible listing of a set of threads, ties on time included |
| `Threads.RepliedRowsHaveATime` | server/internal/message/repository.go:1216-1223 | in a reachable table a message with replies has a reply time, so the cursor's comparison with NULL loses no row; the counter is positive exactly when a live reply exists |
| `Threads.NextPageIsTheRest` | server/internal/message/repository.go:1216-1224 | the next page's two-column condition selects exactly the rows after the cursor |
| `Threads.WalkVisitsEveryThreadOnce` | server/internal/message/repository.go:1171-1301 | a whole walk visits every followed live thread with a live reply exactly once, latest reply first |
| `Threads.WalkCovers` | server/internal/message/repository.go:1171-1301 | from any cursor the walk returns the rest of the listing, in the least number of pages |
| `ThreadWalks.WalkWithWrites` | server/internal/message/repository.go:1171-1301 | with any sends, edits, deletes, pins and unpins between the pages, except replies to a thread the listing could show, the walk goes strictly down and repeats nothing, shows only threads listed when it began and every one of those still listed when it ends |
| `ThreadWalks.ReplyKeepsTheRestIff` | server/internal/message/repository.go:1216-1224 | a reply between two pages leaves what the next page's query selects unchanged exactly when each row the reply concerns stays on its side of the cursor's key |
| `ThreadWalks.NewReplyKeepsTheRestIff` | server/internal/message/repository.go:1216-1224 | when the clock is past every reply time that is so exactly if the thread replied to is not among those still to come and, if it is the cursor's own, no other listed thread is ahead of it |
| `Threads.ListUserThreads` | server/internal/message/repository.go:1171-1301 | one call returns the page of the ordered listing at the effective page size |
| `Delivery.ReplyComesFirst` | server/internal/message/repository.go:79-88 | a reply written after all others puts its thread first in the list of every follower in whose workspace the live parent is and who has neither hidden nor blocked its author, and leaves the other threads in place; for everybody else nothing changes |
| `Pins.OnePageHoldsAllPins` | server/internal/handler/message.go:1662-1674 | because of the pin cap a request without cursor and with a limit outside 1..49 returns every live pinned message that passes the filter, and announces no further page |
| `Pins.DistinctAtMostCount` | server/internal/message/repository.go:1346-1350 | a listing without duplicates is no longer than the count of matching rows |
| `Pins.PinWalksAreCompleteIff` | server/internal/message/repository.go:1353-1415 | however the database breaks ties and whatever the page size, following the cursor returns every live pinned message exactly once if and only if the pins were made in the order in which the messages were written |
| `Pins.CompleteWalksDescend` | server/internal/message/repository.go:1376-1386 | for given answers of the database: if every page size gives every pin once, the listing is in strictly descending id order |
| `Pins.PinWalkCanLoseMessages` | server/internal/message/repository.go:1376-1386 | after three messages and three pins, the oldest message pinned last, the first page of one announces more and the second is empty |
| `Pins.PinnedLateIsReachable` | server/internal/message/repository.go:1304-1337 | that table is what six requests make of the empty one, and satisfies the invariant |
| `Pins.ListPinnedMessages` | server/internal/message/repository.go:1353-1415 | returns a page of a listing that holds every live pinned message the filter lets through, once, newest pin first |
| `Pins.SortPins` | server/internal/message/repository.go:1369-1383 | every selected row once, newest pin first |
| `Delivery.NewPinComesFirst` | server/internal/message/repository.go:1304-1337 | a pin made after all others heads the channel's pins if its message is live and its author passes the filter, whatever answer the database gives; the rest are the pins listed before |
| `Unread.MarkUnreadCounts` | server/internal/handler/message.go:1418-1434 | after "mark unread" on a message exactly the live top-level messages from it on are unread |
| `Unread.MarkReadClears` | server/internal/handler/channel.go:812-834 | after a default "mark read" nothing in the channel is unread |
| `Unread.MarkReadTracksNewMessages` | server/internal/channel/repository.go:711-763 | from then on, through every run of writes, the unread count is the number of live top-level messages sent since - exactly when the stored position was NULL or an existing id or the channel had a live top-level message |
| `Unread.ListedCounts` | server/internal/channel/repository.go:211-238 | counting row by row, with the membership joined only if there is one, gives the member's unread and notifying messages of a channel |
| `Unread.SummedCounts` | server/internal/channel/repository.go:375-399 | the summary query's own two counts, with its own case distinction, give the same numbers |
| `Unread.ListForWorkspace` | server/internal/channel/repository.go:208-245 | one row for every open channel that is public or the user's, with those counts |
| `Unread.GetWorkspaceNotificationSummaries` | server/internal/channel/repository.go:375-423 | for every workspace the summary is the sum of the counts that `ListForWorkspace` lists for the user's channels, and a workspace appears exactly when the user belongs to one of its open channels |
| `Unread.NotifiedAtMostUnread` | server/internal/channel/repository.go:214-238 | a channel's notification count never exceeds its unread count |
| `Unread.SumNotifiedAtMostUnread` | server/internal/channel/repository.go:375-423 | nor does a workspace's |
| `Unread.MarkAllReadZeroes` | server/internal/handler/channel.go:862-889 | after "mark all read" both sums of the workspace are 0 |
| `Unread.MarkAllReadIsLocal` | server/internal/handler/channel.go:862-889 | and every other workspace is listed exactly as before |
| `Notifications.ChannelCountsMean` | server/internal/channel/repository.go:211-241 | the unread count is the number of live top-level messages after the position; in DMs and at level "all" the notification count equals it, at "none" and at unknown levels it is 0, at "mentions" or without a preference it is the number of those that mention the user, @channel or @everyone |
| `Notifications.ListingIsMeant` | server/internal/channel/repository.go:208-245 | the listing holds the open channels of the workspace that are public or the user's, once each, with exactly those counts |
| `Notifications.SendRaisesCounts` | server/internal/channel/repository.go:211-241 | sending one message adds one to the unread count of its own channel exactly when it is new there, one to the notification count exactly when type, preference and mentions say so, and nothing elsewhere |
| `Notifications.SendRaisesSummary` | server/internal/channel/repository.go:375-423 | and the same to the summary of its channel's workspace when that channel is open and the user's |
| `AllUnreads.AllUnreadsVersusSummary` | server/internal/message/repository.go:847-954 | a whole walk of the unread messages returns as many as the summary counts plus the replies also sent to a channel plus those in archived channels, less those of hidden and blocked users |
| `AllUnreads.AllUnreadsWithWrites` | server/internal/message/repository.go:847-954 | with any writes between the pages the walk goes strictly down, shows only messages unread when it started, and every one of those still live when it ends |
| `Unread.Positions.UpdateLastRead` | server/internal/channel/repository.go:711-718 | the member's unread messages in that channel become the live top-level ones after the given id; nobody else's position, no message and no other channel changes |
| `Unread.Positions.MarkChannelRead` | server/internal/handler/channel.go:801-847 | moves the position to the requested or the latest message, or nowhere; by default the member's counts there become 0 |
| `Unread.Positions.MarkMessageUnread` | server/internal/handler/message.go:1389-1447 | the member's unread count becomes the number of live top-level messages from the given one on |
| `Unread.Positions.ListMemberChannelIDs` | server/internal/channel/repository.go:788-808 | exactly the open channels of the workspace the user belongs to |
| `Unread.Positions.MarkAllChannelsRead` | server/internal/handler/channel.go:850-894 | the loop moves exactly the user's positions in that workspace and leaves both sums 0 |
| `AllUnreads.ListAllUnreads` | server/internal/message/repository.go:847-954 | one call returns the newest unread messages below the cursor at the effective page size |
| `DmHash.SortSorts` | server/internal/channel/repository.go:886-893 | sorting the ids orders them and keeps each as often as it occurs |
| `DmHash.JoinIsInjective` | server/internal/channel/repository.go:886-893 | two id lists joined with ":" are equal only if the lists are |
| `DmHash.HashIsCanonical` | server/internal/channel/repository.go:886-893 | two participant lists have the same hash exactly when they hold the same ids equally often |
| `DmHash.HashIdentifiesSet` | server/internal/channel/repository.go:886-893 | a list hashes like a member set exactly when it lists that set once each |
| `Channels.RunKeepsInv` | server/internal/channel/repository.go:453-674 | over every run of uninterrupted requests a `dm` has exactly two members, a `group_dm` three or more, both carry the hash of exactly their current members, and public and private channels carry none |
| `Channels.ApplyKeepsInv` | server/internal/channel/repository.go:453-674 | every single request keeps type and hash in step with the members, whatever order the database lists members in |
| `Channels.WriteKeepsInvIffFresh` | server/internal/channel/repository.go:496-674 | a write decided on rows read earlier keeps type and hash right exactly when what it relies on still holds of the row |
| `Channels.AlwaysInvIffAllFresh` | server/internal/channel/repository.go:453-674 | over every interleaving of reads and writes of any number of requests the invariant holds at every moment exactly when each write is fresh when it is made |
| `Channels.DecidedNowIsFresh` | server/internal/handler/channel.go:386-411 | what a request decides is fresh at that moment |
| `Channels.LeaveNeedsThreeMembers` | server/internal/channel/repository.go:577-638 | the departure transaction, on whatever the channel has become, keeps type and hash right exactly when two members or more remain, and makes it a `dm` exactly when two do |
| `Channels.TwoLeavesFromOneRead` | server/internal/channel/repository.go:496-638 | two members of a three-member group DM leaving at once leave one member in a `group_dm` |
| `Channels.AddToDmNeedsFreshList` | server/internal/channel/repository.go:528-574 | adding a member, on whatever the channel has become, keeps type and hash right exactly when the list passed in is the current membership |
| `Channels.TwoAddsFromOneRead` | server/internal/handler/channel.go:386-411 | two additions that read the same membership leave a wrong hash |
| `Channels.StaleAddUndoesConversion` | server/internal/channel/repository.go:528-574 | an addition decided before a conversion turns the channel back into a group DM |
| `Channels.StaleLeaveUndoesConversion` | server/internal/channel/repository.go:577-638 | so does a departure decided before a conversion |
| `Channels.WritingBackTheType` | server/internal/channel/repository.go:164-181 | updating a channel with a type read earlier keeps the invariant exactly when that type is still right |
| `Channels.StaleEditAfterLeave` | server/internal/handler/channel.go:186-262 | an edit read before a member left marks a two-member DM as a group |
| `Channels.DedupeMeaning` | server/internal/handler/channel.go:128-141 | removing repeats keeps every id once |
| `Memberships.MemberAfterIff` | server/internal/channel/repository.go:453-674 | after any write a user is in a channel exactly when the write puts them there, or they were and it does not take them out |
| `Memberships.RoleAfter` | server/internal/channel/repository.go:453-674 | a new membership starts unread and with the role its request gives; an old one keeps its position, and its role unless the user rejoins or converts the channel |
| `Memberships.ColumnsAfter` | server/internal/channel/repository.go:37-181 | what type, hash, flags and workspace a new channel gets, and which writes change those of an old one, to what |
| `Memberships.MembersStay` | server/internal/channel/repository.go:496-638 | over every interleaved run a member stays one unless a write takes them out of that channel |
| `Memberships.OthersStayOut` | server/internal/channel/repository.go:453-574 | over every interleaved run whoever is not in a channel stays out unless a write puts them into it |
| `Memberships.DepartureTakesOut` | server/internal/channel/repository.go:902-937 | leaving a workspace deletes exactly the user's rows in its channels that are no DMs and changes nothing else |
| `Memberships.StaysOutIff` | server/internal/channel/repository.go:902-937 | a write brings a user who is out of a workspace's channels back exactly when it creates, adds or joins for them, or makes an ordinary channel of a DM they are in |
| `Memberships.StaysOutUntilLetIn` | server/internal/handler/workspace.go:281-283 | over every interleaved run the user is out at every moment exactly as long as no write does that |
| `DirectMessages.LookupNamesTheSet` | server/internal/channel/repository.go:78-90 | whichever row the lookup by hash returns, it is a DM of exactly the given users, and it returns none exactly when there is no such DM |
| `DirectMessages.CreateDmFindsTheSet` | server/internal/channel/repository.go:75-138 | from every reachable state creating a DM returns a DM of exactly the given users; asking again with any permutation creates nothing and returns such a DM, the same one when no member set has two |
| `DirectMessages.RequestFindsTheSet` | server/internal/handler/channel.go:116-177 | the same for a request with repeated ids, with or without the caller's own |
| `DirectMessages.TwoParticipants` | server/internal/handler/channel.go:128-145 | fewer than two ids are left exactly when the request names nobody but the caller |
| `DirectMessages.WriteKeepsUniqueIffNoTwin` | server/internal/channel/repository.go:75-138 | any write, fresh or decided long ago, keeps "one DM per member set" exactly when no other DM of the workspace has the members of the DM it makes - by creating it, adding or deleting a member row, or writing a DM type onto a channel that is none |
| `DirectMessages.OnlyAddAndLeaveMakeTwins` | server/internal/channel/repository.go:75-138 | among uninterrupted requests only additions and departures can give a member set a second DM |
| `DirectMessages.LeaveMakesTwin` | server/internal/channel/repository.go:577-638 | three requests from the empty table give two users two DMs: their own, and the group of three that the third left |
| `DirectMessages.StaleEditMakesTwin` | server/internal/handler/channel.go:186-262 | in a possible run from the empty table an edit read before a conversion gives three users a second group DM |
| `ChannelStore.Repository.FindDM` | server/internal/channel/repository.go:78-90 | returns some channel of the workspace with the hash, if there is one |
| `ChannelStore.Repository.InsertDM` | server/internal/channel/repository.go:92-137 | inserts the channel with the right type and a member row per user, or - on a repeated user - nothing |
| `ChannelStore.Repository.CreateDM` | server/internal/channel/repository.go:75-138 | returns what the lookup finds, or inserts |
| `ChannelStore.Repository.DropDuplicates` | server/internal/handler/channel.go:128-141 | the loop over a set of seen ids keeps first occurrences |
| `ChannelStore.Repository.CreateDMRequest` | server/internal/handler/channel.go:116-177 | refused exactly when nobody else is named; otherwise the returned channel is a DM of the named users and the caller, and a channel is added exactly when they had none |
| `ChannelStore.Repository.AutoCreateDMs` | server/internal/handler/workspace.go:547-578 | whoever joins ends up with a DM with each of the first five other members, fewer only where there are fewer, and existing channels are untouched |
| `ChannelStore.Repository.GetMemberUserIDs` | server/internal/channel/repository.go:810-828 | lists every member once, in some order |
| `ChannelStore.Repository.CreateChannel` | server/internal/channel/repository.go:37-73 | adds one open channel of the asked type, with its creator as its only member and admin |
| `ChannelStore.Repository.AddMemberToDM` | server/internal/channel/repository.go:528-574 | inserts the row and sets type and hash from the given list; an existing member is reported and changes nothing |
| `ChannelStore.Repository.AddMember` | server/internal/channel/repository.go:453-485 | inserts a membership unless the channel was read as archived or the user is in it |
| `ChannelStore.Repository.AddChannelMember` | server/internal/handler/channel.go:385-440 | uninterrupted, keeps the invariant and adds exactly the user, as poster in a DM and with the given role elsewhere; refused exactly for a DM of eight or an archived channel |
| `ChannelStore.Repository.JoinChannel` | server/internal/handler/channel.go:516-546 | only open public channels can be joined; the user becomes a poster, and who joins again keeps the read position |
| `ChannelStore.Repository.LeaveGroupDM` | server/internal/channel/repository.go:577-638 | removes the member and recomputes type and hash from the rows that remain, whatever the type was |
| `ChannelStore.Repository.RemoveMember` | server/internal/channel/repository.go:496-525 | acts on the type read earlier; the invariant survives exactly when that decision is still right |
| `ChannelStore.Repository.LeaveChannel` | server/internal/handler/channel.go:564-585 | uninterrupted, a departure keeps the invariant and removes exactly the member; each refusal names its reason and changes nothing |
| `ChannelStore.Repository.ConvertToChannel` | server/internal/channel/repository.go:642-674 | clears the hash, sets the type and makes a member who converts an admin, whatever the type was |
| `ChannelStore.Repository.ConvertGroupDMToChannel` | server/internal/handler/channel.go:684-753 | uninterrupted, exactly a member of a group DM can convert it; it becomes a channel of the asked visibility without hash, with that member as admin, and nothing else changes |
| `ChannelStore.Repository.UpdateChannel` | server/internal/handler/channel.go:239-262 | uninterrupted, a new type is refused exactly for DM types, DMs and a private default channel; otherwise exactly the type changes, to the one asked for |
| `ChannelStore.Repository.ArchiveChannel` | server/internal/handler/channel.go:295-328 | archives open channels that are neither DMs nor the default, and changes nothing else; succeeds exactly when something changes |
| `ChannelStore.Repository.RemoveAllNonDMMemberships` | server/internal/channel/repository.go:902-937 | deletes exactly the user's memberships in the workspace's channels that are no DMs and reports exactly the channels they were in |
| `Scheduled.CleanRunIsSafe` | server/internal/handler/scheduled_message.go:301-491 | over every interleaving in which no row is released while it is being worked on or was sent, one scheduled message yields at most one chat message, and once sent its row is gone or still "sending" |
| `Scheduled.SendersAloneAreClean` | server/internal/scheduled/worker.go:49-90 | runs without the recovery and without edits never release a row wrongly |
| `Scheduled.SendersNeverSendTwice` | server/internal/scheduled/repository.go:142-156 | from the empty table, whatever any number of senders meet, without the recovery of stuck rows and without edits one scheduled message yields at most one chat message |
| `Scheduled.CleanStepKeepsInv` | server/internal/scheduled/repository.go:142-191 | each clean step keeps every claimed row with one holder, unsent and "sending" |
| `Scheduled.SafeExactlyWhenClean` | server/internal/scheduled/repository.go:52-191 | a step leaves all clean continuations safe exactly when it releases no row that is being worked on or was sent |
| `Scheduled.ClaimableAgainIsSentAgain` | server/internal/scheduled/repository.go:142-156 | a row that is pending again, sent or not, can be sent once more |
| `ScheduledRuns.OrderlyRunIsSafe` | server/internal/scheduled/worker.go:32-94 | from the empty table, with any number of requests and workers, recoveries and edits interleaved: as long as nobody is overdue when the recovery runs, no delete after a send fails, nobody crashes between sending and deleting, edits are written only to rows not being sent and no attachment removal sets a time stamp back, one scheduled message yields at most one chat message |
| `ScheduledRuns.OrderlyIsClean` | server/internal/scheduled/worker.go:32-40 | under those conditions every step, the recovery included, releases no row that is being worked on or was sent |
| `ScheduledRuns.FailedCleanupSendsTwice` | server/internal/handler/scheduled_message.go:476-480 | a failed delete after a send, more than five minutes and the recovery lead to a second chat message |
| `ScheduledRuns.CrashAfterCommitSendsTwice` | server/internal/handler/scheduled_message.go:399-480 | so does a crash between creating the message and deleting the row |
| `ScheduledRuns.SlowSendSendsTwice` | server/internal/scheduled/worker.go:32-64 | so does a send that takes longer than the recovery waits |
| `ScheduledRuns.StaleEditSendsTwice` | server/internal/handler/scheduled_message.go:198-245 | so does an edit that checked the status before the row was claimed |
| `ScheduledRuns.StaleStampSendsTwice` | server/internal/scheduled/repository.go:195-250 | so does removing an attachment that writes a time from before the claim |
| `Scheduled.Repository.TryMarkSending` | server/internal/scheduled/repository.go:142-156 | claims a row exactly when it is pending, after which nobody can claim it |
| `Scheduled.Repository.SetFailed` | server/internal/scheduled/repository.go:159-166 | afterwards nobody can claim the row and the recovery never puts it back; no other row changes |
| `Scheduled.Repository.Retry` | server/internal/scheduled/repository.go:169-176 | afterwards the row can be claimed again with one more retry counted; no other row changes |
| `Scheduled.Repository.ResetStuckSending` | server/internal/scheduled/repository.go:180-191 | puts back exactly the rows "sending" for more than 300 seconds, each with one more retry, and returns their number |
| `Scheduled.Repository.ExecuteScheduledSend` | server/internal/handler/scheduled_message.go:349-491 | a message is created exactly when the channel is found and open, the author is readably a member and the create succeeds; the refusal is permanent exactly when the channel is archived or the author has left |
| `Scheduled.Repository.SendScheduledMessageNow` | server/internal/handler/scheduled_message.go:301-344 | the request is a run of protocol steps by one sender; each of its five replies names exactly one case, and the row afterwards is gone, failed, pending with one more retry, or still "sending", exactly as that case and the stored settlement say |
| `Scheduled.SendOutcome` | server/internal/handler/scheduled_message.go:319-339 | where those steps leave the row and the messages, for every way the attempt can end |
| `Scheduled.StepsHandle` | server/internal/handler/scheduled_message.go:349-491 | the steps of one attempt, by a request or a worker, send exactly when the message can be delivered and leave the row as the kind of failure and the number of tries say |
| `Scheduled.Repository.ProcessMessage` | server/internal/scheduled/worker.go:49-90 | the worker's handling of one due message: it sends exactly when it claimed a deliverable message, gives up on a refusal or a third failure, and otherwise counts a retry |
| `Scheduled.ThirdFailureIsLast` | server/internal/scheduled/worker.go:72-86 | three passing failures in a row: the first two put a fresh message back with one and two retries, the third fails it for good |
| `Scheduled.SettleDatesTheRow` | server/internal/scheduled/repository.go:159-176 | however long after the attempt a failure is stored, exactly its row becomes failed, or pending with one more retry, dated at that moment |
| `Scheduled.StampDatesTheRow` | server/internal/scheduled/repository.go:195-250 | removing an attachment dates exactly its row, keeping status and retries |
| `Scheduled.Repository.UpdateScheduledMessage` | server/internal/handler/scheduled_message.go:198-245 | uninterrupted, an edit makes any row that is not being sent pending with no retries; otherwise it is refused and changes nothing |
| `Scheduled.Repository.DeleteScheduledMessage` | server/internal/handler/scheduled_message.go:258-300 | uninterrupted, deletes any row that is not being sent; otherwise it is refused and changes nothing |
| `Owners.WriteKeepsOwnerIffFresh` | server/internal/workspace/repository.go:144-205 | a role write leaves the workspace an owner exactly when it counts owners itself or does not touch the last one |
| `Owners.RolesAfter` | server/internal/workspace/repository.go:144-205 | after any write a user is a member exactly when they accepted an invite or were one and were not dropped, and a role changes exactly by an update of it; a write that counts stops at a single owner |
| `Owners.AtomicRunKeepsOwner` | server/internal/handler/workspace.go:203-389 | over every run of uninterrupted role updates, leaves, removals and accepted invites a workspace with an owner keeps one |
| `Owners.AlwaysOwnedIffAllFresh` | server/internal/handler/workspace.go:203-389 | over every interleaving of reads and writes of any number of requests a workspace with an owner has one at every moment exactly when each write is fresh when it is made |
| `Owners.OnlyOwnersMakeOwners` | server/internal/handler/workspace.go:339-363 | in an uninterrupted request only an owner adds an owner |
| `Owners.OwnersComeFromOwners` | server/internal/handler/workspace.go:339-441 | over every run of uninterrupted requests, whoever became an owner was made one by somebody who was an owner at that moment; no invite does it |
| `Owners.OwnersAreUntouchable` | server/internal/handler/workspace.go:215-389 | uninterrupted, only owners themselves give up their role, and never the last one |
| `Owners.NewOwnersComeFromOwners` | server/internal/handler/workspace.go:339-441 | over every interleaved run, whoever became an owner was made one by a request that began while its actor was an owner |
| `Owners.WriteTakesOwnerIff` | server/internal/workspace/repository.go:144-205 | a write takes an owner's role exactly when it is directed against that member and, if it counts, another owner is left |
| `Owners.StaleRequestTakesOwnerIff` | server/internal/handler/workspace.go:215-389 | a request decided on earlier roles takes an owner's role exactly when it was allowed against that member before they became an owner, or the owner, one already then, gives the role up and the count the code makes finds another |
| `Owners.OnlyOwnRequestsTakeIt` | server/internal/handler/workspace.go:215-389 | over every interleaved run an owner against whom nothing is pending loses the role only if they asked for it |
| `Owners.StaleRemovalTakesOwner` | server/internal/handler/workspace.go:203-243 | an admin's removal begun while its target was a member takes out the owner the target has become |
| `Owners.StaleLeaveLosesLastOwner` | server/internal/handler/workspace.go:246-292 | a departure decided while the user was an admin removes them as the last owner |
| `Owners.TwoSelfRemovalsLoseBothOwners` | server/internal/workspace/repository.go:178-205 | two owners removing themselves at once both pass the count |
| `Owners.Workspace.CountOwners` | server/internal/workspace/repository.go:144-159 | the number of owners |
| `Owners.Workspace.UpdateMemberRole` | server/internal/handler/workspace.go:318-389 | keeps an owner; succeeds exactly for an owner, or an admin assigning a role below their own, whose target is no other owner and not the last one stepping down, and then sets exactly that role |
| `Owners.Workspace.LeaveWorkspace` | server/internal/handler/workspace.go:246-292 | keeps an owner; succeeds exactly for members other than the last owner, who are gone afterwards |
| `Owners.Workspace.RemoveMember` | server/internal/handler/workspace.go:203-243 | keeps an owner; succeeds exactly for oneself, unless one is the last owner, and for lower-ranked members of an owner or admin |
| `Owners.Workspace.CreateInvite` | server/internal/handler/workspace.go:412-473 | succeeds exactly when the workspace's setting allows the actor and an admin invite comes from a manager; the invite carries the requested role, or member in place of none or owner |
| `Owners.Workspace.AcceptInvite` | server/internal/workspace/repository.go:392-420 | gives a newcomer exactly the invite's role and changes no owner and no existing member |
| `Mentions.ParseMentionTrigger` | packages/shared/src/mentions.ts:31-65 | for every way of cutting the text before the cursor into a start, an "@" and a query: that is the trigger found exactly when the start is empty or ends in a blank or line break and the query holds neither of them nor "@" |
| `Mentions.InsertReplacesTheTrigger` | packages/shared/src/mentions.ts:71-84 | insertion keeps the text before the trigger and after the cursor, puts the cursor at the kept suffix, and no trigger is active there |
| `Mentions.SplitMeaning` | packages/shared/src/mentions.ts:127-163 | the leftmost match and the text around it make up the string, and the match spells its mention |
| `Mentions.CloseMeaning` | packages/shared/src/mentions.ts:127-163 | a mention's id ends at the first ">" |
| `Mentions.PrintAfterParse` | packages/shared/src/mentions.ts:127-163 | printing the parsed segments gives back the string, for every string |
| `Mentions.ParseAfterPrint` | packages/shared/src/mentions.ts:127-163 | parsing printed segments gives them back, when texts are non-empty, apart and free of "<@" and "<!", and ids non-empty without ">" |
| `Mentions.ParseStoredMentions` | packages/shared/src/mentions.ts:127-163 | the loop over matches computes that parse |
| `MentionRewrite.PassIsOneMoreEntry` | packages/shared/src/mentions.ts:92-112 | a further replacement pass never touches what earlier passes wrote and replaces what a single scan would |
| `MentionRewrite.SequentialIsOneScan` | packages/shared/src/mentions.ts:92-112 | the passes one after another equal one simultaneous replacement |
| `MentionRewrite.OrderFreeExactly` | packages/shared/src/mentions.ts:92-112 | the result is the same for every order of the names, on every message, exactly when no name is another followed by white space |
| `MentionRewrite.ConflictShows` | packages/shared/src/mentions.ts:96-106 | two such names give two different results on the longer one |
| `MentionRewrite.StoredMentionsAreRecovered` | packages/shared/src/mentions.ts:92-163 | if the message has no "<", parsing what is stored recovers exactly the mentions written, in order, and the text between them |
| `MentionStorage.ConvertMentionsForStorage` | packages/shared/src/mentions.ts:92-112 | for names without markup that do not extend each other or a special word, any message written as words and mentions parses back from what is stored as those words, the ids of exactly the named users, and the special words themselves |
| `MentionStorage.SpelledMentionsAreStored` | packages/shared/src/mentions.ts:92-163 | the same for the passes as functions: user names first, then @here, @channel and @everyone |
| `Fuzzy.FuzzyMatch` | packages/shared/src/fuzzyMatch.ts:5-44 | the loop computes the matching and score the other lemmas are about |
| `Fuzzy.WordCodes` | packages/shared/src/fuzzyMatch.ts:14-36 | the characters that do not end a word are exactly the ASCII letters, digits and the low line |
| `Fuzzy.MatchesExactlySubsequences` | packages/shared/src/fuzzyMatch.ts:5-44 | a match is reported exactly when the query is a subsequence of the text; otherwise the score is 0 |
| `Fuzzy.SubstringScores` | packages/shared/src/fuzzyMatch.ts:9-18 | a query found in one piece scores its length plus 300 at the start of the text, 250 at the start of a later word and 200 elsewhere, by its first occurrence |
| `Fuzzy.ScatteredScores` | packages/shared/src/fuzzyMatch.ts:20-43 | any other match scores, over the leftmost places of its characters, twice the length of the row each ends plus ten at every start of a word |
| `Fuzzy.LeftmostExists` | packages/shared/src/fuzzyMatch.ts:20-43 | whenever the query is a subsequence of the text there are such places |
| `Fuzzy.SubstringBounds` | packages/shared/src/fuzzyMatch.ts:9-18 | a substring match scores between 200 and 300 plus the query's length |
| `Fuzzy.ScatteredBound` | packages/shared/src/fuzzyMatch.ts:20-43 | any other match of n characters scores at most n(n-1) + 2 + 10n, which is below n(n+1) + 10n for n > 1 |
| `Fuzzy.DotsSplit` | packages/shared/src/fuzzyMatch.ts:20-43 | that bound is reached for every n from 2 on |
| `Fuzzy.SubstringsFirstUpToTen` | packages/shared/src/fuzzyMatch.ts:5-44 | substring matches outscore all other matches of the same query exactly for lengths up to ten |
| `AvatarColor.PolynomialSnoc` | packages/shared/src/utils.ts:114-121 | one more code unit multiplies the exact hash by 31 and adds it |
| `AvatarColor.StepWraps` | packages/shared/src/utils.ts:114-121 | one iteration on wrapped numbers equals one on exact ones, and the value before wrapping stays below 2^53 |
| `AvatarColor.GetAvatarColor` | packages/shared/src/utils.ts:114-121 | the loop computes the index the next two rows are about, which is below 16, also for -2^31 |
| `AvatarColor.EveryColorOccurs` | packages/shared/src/utils.ts:93-121 | exactly the indices 0 to 15 occur, each for some id |
| `AvatarColor.ColorIndexMeaning` | packages/shared/src/utils.ts:114-121 | the index is the distance from zero, modulo 16, of the one 32-bit number that differs from the polynomial by a multiple of 2^32 |

## Left out

- Concurrency inside one transaction: transactions take the write lock when they begin, so they are atomic here. A request that reads in several statements is covered by the step `BeginSplit`, which decides on any write, in `Channels.AlwaysInvIffAllFresh` and `Owners.AlwaysOwnedIffAllFresh`.
- Owners.NewOwnersComeFromOwners: here, as in `Owners.OnlyOwnRequestsTakeIt`, each request reads the roles at one moment, since a split read may pair any two roles.
- Columns of listed rows: pages are lists of ids with flags and cursor; authors, reactions, attachments and thread participants are not part of this model.
- Hard deletes: rows leave `messages` only by cascades from channels and workspaces; those, and `ON DELETE SET NULL` of authors, are not part of this model. Foreign keys other than the thread parent are not checked either.
- Messages.Store.Create: the message type and system-event columns are left out; a system message is a create without parent.
- Threads.WalkVisitsEveryThreadOnce: stated without writes during the walk; with writes it is `ThreadWalks.WalkWithWrites`.
- ThreadWalks.WalkWithWrites: subscriptions, the workspace's channels and the sets of hidden and blocked users do not change during the walk.
- Paging.ChannelHistory: the sets of hidden and blocked users are those of the request and do not change during a walk.
- Pins.PinWalksAreCompleteIff: pins are not added or removed during the walk.
- ChannelStore.Repository.CreateDM: the method itself is not interrupted; two creations for one member set that both look first are covered by `DirectMessages.WriteKeepsUniqueIffNoTwin`.
- Channels.RunKeepsInv: requests are not interrupted there; interleaved runs are `Channels.AlwaysInvIffAllFresh`.
- ChannelStore.Repository.AddChannelMember: permissions, workspace membership of the target and blocks between users only refuse requests earlier and are left out; so are channel names and their uniqueness.
- ChannelStore.Repository.AutoCreateDMs: a failed creation, which the code skips without counting, cannot happen to distinct users in the model.
- Unread.GetWorkspaceNotificationSummaries: the result is a map; the order of workspaces is left out, as is the ORDER BY name of `ListForWorkspace`.
- AllUnreads.AllUnreadsVersusSummary: the equation is stated without writes during the walk, since the counts move with them; what the walk returns with writes is `AllUnreads.AllUnreadsWithWrites`. Read positions and memberships stay put during a walk.
- Scheduled.Repository.SendScheduledMessageNow: the refusal for somebody else's message and storage errors of the claim itself come before any write and are left out; thread subscriptions, attachments, previews and notifications of a send are not part of this model.
- ScheduledRuns.OrderlyRunIsSafe: the schedule time is left out; a claim by the worker is possible whenever the row is pending. The attachment list that a removal rewrites is left out too; only its time stamp is modelled.
- Owners.Workspace.AcceptInvite: expiry, use limits and bans only refuse invites; invites are never deleted in the model.
- Mentions.ParseStoredMentions: the regular expression engine is the function that finds the leftmost match; strings are sequences of characters, not of UTF-16 code units.
- MentionStorage.ConvertMentionsForStorage: names are matched literally (the code escapes them), and a "$" in an id, which a JavaScript replacement string would interpret, is excluded by the lemmas' conditions.
- Scheduled.Repository.UpdateScheduledMessage: the checks of the new content and time, and the refusal for somebody else's message, come before any write and are left out, as is the latter for `DeleteScheduledMessage`.
- Delivery.ReplyComesFirst: stated for a reply later than all others; how an equal time sorts is `Threads.OrderIsUnique`.
- Fuzzy.FuzzyMatch: lower casing is a character-wise function, so it keeps the length; full Unicode case mapping does not always.
- AvatarColor.GetAvatarColor: the sixteen colour names.
- Star, mute and notification settings, reactions, full-text search, emoji, files, e-mail, push, server-sent events, rate limits and configuration: input, output or field copying without a deeper property.
