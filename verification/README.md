# A verified model of the hard parts of go-imap

An IMAP library has to keep many clients in step with one mailbox and has to carry structured data
over a byte stream without changing its meaning. This project models the code that does this and
proves, for all inputs and all runs, what that code is for. `dafny verify dfyconfig.toml` checks it.

The model has nine parts. Each pairs the objects and loops of the code with pure functions, and
proves the promises of the code about those functions.

* **Mailbox views** (`Views`, `MailboxRuns`, `Tracker`, `Mailbox`, `FlagSync`, `StaticSets`, `CopyMove`). A mailbox, its tracker
  and its sessions form a state machine whose steps are append, store, expunge (with every turn of its
  loop a step of its own), select, poll and close. The invariant: what a client was shown at SELECT,
  replayed through the updates it was given and the updates still queued, is the mailbox. It gives the
  exactness of both sequence number translations, the identity of every delivered FLAGS update and the
  absence of panics. EXISTS carries only a count, so ghost `arrivals` say which messages it announces.
  What a client knows of flags follows from the updates it gets. COPY and MOVE are proved with any appends
  of other sessions between the copies.
* **Number sets** (`NumSet`, `NumSetText`). Range lists denote sets of numbers plus a star. Canonical
  lists are unique representatives, insertion is union, parsing is independent of order and inverts
  printing.
* **SEARCH** (`Criteria`, `SearchKeys`, `SearchText`, `SearchRoundTrip`, `SearchCodec`,
  `Calendar`). The criteria
  that a server builds from the printed text select the same messages as those the client holds, and
  every key sequence, in any order and with any arguments, means exactly its surviving keys. Dates are
  compared as the days of the calendar are counted.
* **Wire elements** (`Wire`, `WireCodec`). Decoder and encoder objects against functions on the
  remaining input; everything the encoder writes is read back and the rest of the input is left.
* **Modified UTF-7** (`Unicode`, `Utf7`, `Utf7Codec`, `Utf7Format`): a round trip, and the format itself, stated
  bit by bit, which Encode meets and nothing else does; and **mailbox names** (`MailboxName`,
  `MailboxCodec`).
* **Body structures** (`BodyParams`, `Envelope`, `BodyStructure`, `BodyRoundTrip`, `BodyCodec`,
  `BodyReader`, `BodyParts`). Trees of any depth survive printing and parsing, and what arrives
  is stated for every part of the tree, field by field.
* **LIST patterns** (`MatchList`). The backtracking matcher decides a declarative relation.
* **The client's command table** (`ClientCommands`). Commands have real channels, in which a second send
  or a second close is a panic. The threads of the client move through the statements of
  readResponseTagged (with its deferred completion), closeWithError and readContinueReq in every
  interleaving; no run panics, and every command that is taken is sent to and closed exactly once.
* **The append quota** (`Quota`), over all runs.

A round trip alone would also hold of a writer and a reader that agree on the wrong bytes. `WireForms` and
`SearchForms` therefore state the written forms against their grammar: decimal numbers, quoted strings and
literals, lists, envelopes, body structures, sets, dates and key words.

`Exchanges` joins the writing and the reading side of SEARCH, mailbox names and body structures.

Bytes are chars; a Go string is a sequence of bytes. 32-bit wrap-around is written out where the code
computes in 32 bits (`Merge`, `Nums`, the quota counters).

What turned out false of the code, and exactly when it holds:

* `SearchCriteria.And` drops the receiver's `Smaller` limit when the argument has none: `AndExactly`
  states that And is conjunction if and only if the argument has a limit or the receiver has none. So a
  server does not read a key sequence as the conjunction of its keys: `KeySequenceMeans` and
  `SequenceMeans` state that it matches exactly the keys in `Surviving`, which drops every SMALLER with a
  later date key, LARGER or SMALLER 0 and every key whose argument means "not set" (size 0, the zero
  day); `SurvivingAll` states exactly when nothing is dropped, and `LimitLost` gives inputs.
* `staticNumSet` can leave a set in disorder, and the binary search then overlooks numbers: `StaticExact`
  states that a number is found if and only if the set means it and it is not meant by the last range
  alone while the one before starts beyond it; `MissedExample` is `5:6,9:*` with 3 messages.
* `*` in a sequence set stands for the number of messages in the mailbox, while the numbers looked up are
  those of the client: `StarExactly` states that it is the message the client knows as its last if and
  only if the two counts agree or no message has either number; `StarOverlooksLast` is an input on which
  `COPY *` copies nothing.
* A client that changes flags is not told of its own change again, but older changes of others may still be
  queued for it: `OwnChangeKnown` states that it ends up with the flags of the message if and only if its
  queue holds no FLAGS for it, or the last one carries the same flags; `StaleFlags` is a run after which it
  does not. `FlagsKnown` states that a client without changes of its own always knows them.
* `MatchList` treats wildcards in the reference as text: `JoinedPattern` states that it equals matching
  the joined pattern for every name if and only if the completed reference holds no wildcard.
* `utf7.Escape` is not undone by `utf7.Decode` on control bytes: `EscapeRoundTrip` and `MailboxReads` state
  that Decode gives the name back exactly when it holds none, and refuses it otherwise.
* `readBodyFldParam` takes an empty key for no key, lower-cases keys and decodes values: `PairsExactly`
  states that the pairs of a map come back if and only if no key is empty or holds an upper-case letter
  and decoding leaves every value as it is.

## Model

| member | source | states |
|---|---|---|
| `Views.DecodeExact` | imapserver/tracker.go:231-255 | DecodeSeqNum, for every client number: the position in the mailbox of the same message, and 0 exactly when there is no such message or it is gone |
| `Views.EncodeExact` | imapserver/tracker.go:261-284 | EncodeSeqNum, for every server number: the position of the same message in the list the client has, and 0 exactly when the client has not heard of it |
| `Views.SeqNumsInverse` | imapserver/tracker.go:231-284 | the two translations undo each other: one gives m for n exactly when the other gives n for m |
| `Views.SeqNumsMonotone` | imapserver/tracker.go:231-284 | both translations are strictly increasing where they are not 0 |
| `Views.ReplayKnown` | imapserver/tracker.go:130-145 | whatever is replayed, the messages a client knows or will hear of stay in ascending UID order and none is invented |
| `MailboxRuns.AppendKeeps` | imapserver/imapmemserver/mailbox.go:137-169 | an append keeps the invariant: the new UID is above all others and every session will replay to the longer list |
| `MailboxRuns.SetFlagsKeeps` | imapserver/imapmemserver/mailbox.go:305-318 | a flag change keeps the invariant, whichever session it came from |
| `MailboxRuns.ExpungeNextKeeps` | imapserver/imapmemserver/mailbox.go:256-267 | every turn of the expunge loop keeps the invariant, also between turns, while the list still holds the victims |
| `MailboxRuns.StepKeeps` | imapserver/tracker.go:41-65 | every step of append, store, expunge, select, poll and close keeps the invariant |
| `MailboxRuns.RunKeeps` | imapserver/tracker.go:41-65 | in every state of every run all open sessions replay to the tracked list, UIDs ascend below uidNext and no update was refused with a panic |
| `MailboxRuns.ReachableSession` | imapserver/imapmemserver/session.go:36-45 | in every reachable state the list shown at SELECT, with the delivered and then the queued updates replayed, is the tracked list |
| `MailboxRuns.QuietMailbox` | imapserver/tracker.go:41-65 | between mailbox steps numMessages is the length of the mailbox list and every client will see exactly that list |
| `MailboxRuns.ReachableSeqNums` | imapserver/tracker.go:231-284 | in every reachable quiet state Encode and Decode are exact and mutually inverse between what the client sees and the mailbox |
| `MailboxRuns.DeliveredFlags` | imapserver/tracker.go:92-98 | a FLAGS update names, in the list of the client at the moment of delivery, the message whose UID it was queued with |
| `FlagSync.StepReaches` | imapserver/tracker.go:41-65 | every open session but the source gets exactly one update for every message that arrives, every change of flags and every victim |
| `FlagSync.StepList` | imapserver/imapmemserver/mailbox.go:137-169 | what every step does to the list of messages, message by message |
| `FlagSync.FlagsKnown` | imapserver/tracker.go:91-98 | over every run, a client that makes no changes itself knows the flags of a message at any time from those it knew before and the last FLAGS update since |
| `FlagSync.OwnChangeKnown` | imapserver/imapmemserver/mailbox.go:402-411 | a client that stores flags and then polls knows the flags of the message if and only if no FLAGS for it was queued before, or the last one carries the same |
| `FlagSync.StaleFlags` | imapserver/imapmemserver/mailbox.go:402-411 | a run after which the client that changed the flags last hears of an older change last |
| `MailboxRuns.PollTakesPrefix` | imapserver/tracker.go:148-190 | Poll takes everything, or the longest prefix without EXPUNGE; nothing is lost, repeated or reordered |
| `MailboxRuns.ExpungeReplays` | imapserver/imapmemserver/mailbox.go:256-276 | for any victims, the queued numbers replayed on the old list are all in range and leave the old list without the victims, in order |
| `MailboxRuns.TurnsQueue` | imapserver/imapmemserver/mailbox.go:256-276 | the loop queues exactly these numbers to every session, in descending order |
| `MailboxRuns.TurnsAreSteps` | imapserver/imapmemserver/mailbox.go:256-276 | the whole of expungeLocked is a run of the state machine |
| `MailboxRuns.KeepMembers` | imapserver/imapmemserver/mailbox.go:256-276 | the filtered list holds exactly the messages that are not victims |
| `MailboxRuns.KeepInOrder` | imapserver/imapmemserver/mailbox.go:256-276 | filtering keeps UIDs ascending |
| `Tracker.SessionTracker.QueueUpdate` | imapserver/tracker.go:130-145 | an update goes to the end of the queue, whole state stated |
| `Tracker.SessionTracker.Poll` | imapserver/tracker.go:148-190 | the loop takes the longest allowed prefix, delivers it and leaves the rest |
| `Tracker.SessionTracker.DecodeSeqNum` | imapserver/tracker.go:231-255 | the loop over the queue computes Decode |
| `Tracker.SessionTracker.EncodeSeqNum` | imapserver/tracker.go:261-284 | the backward loop over the queue computes Encode |
| `Tracker.MailboxTracker.NewSession` | imapserver/tracker.go:33-39 | a new session with an empty queue joins the table |
| `Tracker.MailboxTracker.Close` | imapserver/tracker.go:123-128 | the session leaves the table and nothing else changes |
| `Tracker.MailboxTracker.QueueUpdate` | imapserver/tracker.go:41-65 | every session but the source gets the update and the count follows it |
| `Tracker.MailboxTracker.Broadcast` | imapserver/tracker.go:52-57 | the loop over the sessions reaches each exactly once |
| `Mailbox.Store` | imapserver/imapmemserver/message.go:98-114 | STORE sets, adds or removes the lower-cased flags |
| `Mailbox.StoredFlag` | imapserver/imapmemserver/message.go:98-114 | flag by flag and in any case: set after STORE if given, after +FLAGS if set before or given, after -FLAGS if set before and not given |
| `Mailbox.FlagList` | imapserver/imapmemserver/message.go:90-96 | the list holds every flag of the set once and nothing else |
| `Mailbox.Mailbox.AppendBytes` | imapserver/imapmemserver/mailbox.go:137-169 | is the append step: UID, list, flags, count and queues |
| `Mailbox.Mailbox.CopyMsg` | imapserver/imapmemserver/mailbox.go:129-135 | appends a message with the same body, time and flags under the next UID |
| `Mailbox.Mailbox.StoreMessageFlags` | imapserver/imapmemserver/mailbox.go:402-406 | is the store step: the message changes in place and all sessions but the source are told |
| `Mailbox.Mailbox.NewView` | imapserver/imapmemserver/mailbox.go:278-283 | is the select step: the session starts with the list as it is |
| `Mailbox.Mailbox.PollView` | imapserver/imapmemserver/mailbox.go:413-415 | is the poll step |
| `Mailbox.Mailbox.CloseView` | imapserver/imapmemserver/mailbox.go:291-293 | is the close step |
| `Mailbox.Mailbox.CollectDeleted` | imapserver/imapmemserver/mailbox.go:232-243 | the first half of Expunge collects exactly the deleted messages that the UID set selects |
| `Mailbox.DeletedByStore` | imapserver/imapmemserver/mailbox.go:232-243 | a message is deleted exactly as the flag Deleted, in any case, was added or taken away by STORE |
| `Mailbox.Mailbox.ExpungeLoop` | imapserver/imapmemserver/mailbox.go:256-267 | the reverse loop announces every victim and collects the others |
| `Mailbox.Mailbox.ExpungeLocked` | imapserver/imapmemserver/mailbox.go:256-276 | the list becomes the old list without the victims, in order; the announced numbers are returned |
| `Mailbox.ReverseInPlace` | imapserver/imapmemserver/mailbox.go:269-272 | the swapping loop reverses the list |
| `Mailbox.ReverseTwice` | imapserver/imapmemserver/mailbox.go:257-274 | collecting backwards and reversing gives the original order |
| `StaticSets.Resolve` | imapserver/imapmemserver/mailbox.go:449-485 | the loop of staticNumSet: every star becomes the maximum, and a range that this turns around is put in order |
| `StaticSets.Lookup` | internal/imapnum/numset.go:239-252 | the binary search on a list that may be in disorder |
| `StaticSets.StaticExact` | imapserver/imapmemserver/mailbox.go:449-485 | for every canonical set, maximum and number: the number is found in the resolved set if and only if the set means it with the maximum for star and it is not meant by the last range alone while the one before starts beyond it |
| `StaticSets.MissedIsMaximum` | imapserver/imapmemserver/mailbox.go:449-485 | within the mailbox only the maximum can be overlooked |
| `StaticSets.MissedExample` | imapserver/imapmemserver/mailbox.go:449-485 | in 5:6,9:* with three messages the third is meant and not found |
| `CopyMove.IsPicked` | imapserver/imapmemserver/mailbox.go:427-447 | forEachLocked visits a message by its UID or by the number its client knows it by, looked up in the resolved set, and not at all if the client does not know it |
| `CopyMove.PicksByUid` | imapserver/imapmemserver/mailbox.go:427-447 | by UID a message is visited exactly when the set means it with star for the highest UID given out, apart from the overlooked maximum |
| `CopyMove.PicksBySeqNum` | imapserver/imapmemserver/mailbox.go:427-447 | by sequence number a message is visited exactly when its client has a number for it that the set means with star for the number of messages in the mailbox, apart from the overlooked ones |
| `CopyMove.StarExactly` | imapserver/imapmemserver/mailbox.go:427-466 | star is the message that the client knows as its last if and only if the client knows as many messages as there are, or no message has either number |
| `CopyMove.StarOverlooksLast` | imapserver/imapmemserver/mailbox.go:427-466 | a client that has not heard of the third message yet: star visits none of the three |
| `CopyMove.PickedInOrder` | imapserver/imapmemserver/mailbox.go:427-447 | the visited messages are exactly the selected ones, in ascending order |
| `CopyMove.CopiesInOrder` | imapserver/imapmemserver/session.go:68-79 | whatever others append between the copies, these are the visited messages one by one with the same body, time and flags; their UIDs ascend and name their places in the destination |
| `CopyMove.Meanwhile` | imapserver/imapmemserver/mailbox.go:137-169 | the appends of other sessions before a turn, each under the next UID |
| `CopyMove.CopyOne` | imapserver/imapmemserver/session.go:69-73 | the callback appends one copy and records both UIDs |
| `CopyMove.CopyVisit` | imapserver/imapmemserver/mailbox.go:427-447 | one turn: the appends of others, then the copy exactly when the message is selected |
| `CopyMove.CopyAll` | imapserver/imapmemserver/session.go:97-107 | the destination grows by copies of the visited messages in order, woven with what others append, and the two UID sets name message and copy pairwise |
| `CopyMove.Copy` | imapserver/imapmemserver/session.go:53-80 | COPY with its two errors, for any set with stars and any appends of others meanwhile: the copies, the pairing of the two UID sets, the source untouched |
| `CopyMove.Move` | imapserver/imapmemserver/session.go:82-117 | MOVE with its two errors: as COPY, and the source keeps the other messages in order |
| `CopyMove.PickedNamed` | imapserver/imapmemserver/session.go:68-79 | whatever others append meanwhile, the k-th numbers of SourceUIDs and DestUIDs name a message and its copy, so both sets have the same size (section 3 of RFC 4315) |
| `CopyMove.MoveSplits` | imapserver/imapmemserver/session.go:100-108 | a message stays in the source exactly when it was not copied |
| `NumSet.Merge` | internal/imapnum/numset.go:37-66 | two ranges merge exactly when neither lies apart before the other, also at 4294967295 where Stop+1 wraps |
| `NumSet.MergeMembers` | internal/imapnum/numset.go:37-66 | the merged range has exactly the members of both |
| `NumSet.MergeSymmetric` | internal/imapnum/numset.go:37-66 | merging does not depend on the order of the two |
| `NumSet.CanonicalUnique` | internal/imapnum/numset.go:93-95 | two canonical lists with the same members are the same list |
| `NumSet.InsertCanonical` | internal/imapnum/numset.go:173-209 | insertion keeps the list sorted, pairwise apart and dynamic only at its end |
| `NumSet.InsertMembers` | internal/imapnum/numset.go:173-209 | after insertion the members are the old ones and those of the range, no others |
| `NumSet.InsertUnique` | internal/imapnum/numset.go:173-209 | the result is the only canonical list with these members |
| `NumSet.Absorb` | internal/imapnum/numset.go:173-209 | the in-place walk from the found position computes insertion |
| `NumSet.ShiftRight` | internal/imapnum/numset.go:220-223 | the overlapping copy moves the tail one place to the right and nothing else |
| `NumSet.InsertAt` | internal/imapnum/numset.go:212-234 | on an array: in place when there is room, otherwise in a new array while the old one is left alone; the slice is then the old one with the element at its index |
| `NumSet.Set.Search` | internal/imapnum/numset.go:239-252 | the binary search finds the first range that is not below the number |
| `NumSet.Set.Contains` | internal/imapnum/numset.go:130-135 | binary search agrees with membership for every number; 0 is in no set |
| `NumSet.Set.InsertRange` | internal/imapnum/numset.go:173-209 | the object holds the canonical union afterwards |
| `NumSet.Set.AddNum` | internal/imapnum/numset.go:98-102 | every number is added |
| `NumSet.Set.AddRange` | internal/imapnum/numset.go:105-111 | a range is added in either order of its ends |
| `NumSet.Set.AddSet` | internal/imapnum/numset.go:114-118 | the members of the other set are added |
| `NumSet.Set.Nums` | internal/imapnum/numset.go:138-146 | static sets are enumerated, dynamic ones refused |
| `NumSet.NumsOfExact` | internal/imapnum/numset.go:83-91 | the enumeration is strictly ascending and holds exactly the members |
| `NumSet.NumsRebuild` | internal/imapnum/numset.go:98-102 | adding the enumerated numbers one by one rebuilds the set |
| `NumSet.AscendingRoundTrip` | internal/imapnum/numset.go:98-146 | adding ascending numbers and enumerating gives the same numbers back |
| `NumSetText.ParseSetText` | internal/imapnum/numset.go:296-306 | ParseSet inverts String on every canonical set that is not empty |
| `NumSetText.ParseSetOrder` | internal/imapnum/numset.go:296-306 | texts with the same items, in any order and any number of times, parse to the same list or both fail |
| `NumSetText.ParseItemsMembers` | internal/imapnum/numset.go:296-306 | the parsed set has exactly the members of its items |
| `NumSetText.SetString` | internal/imapnum/numset.go:149-170 | the loop prints the items joined by commas |
| `NumSetText.ParseSetLoop` | internal/imapnum/numset.go:296-306 | the loop over the items computes ParseSet, errors included |
| `Criteria.AndMatches` | search.go:65-90 | after a.And(b) a message matches exactly when it matched both, unless a limit is lost |
| `Criteria.AndLosesLimit` | search.go:84-86 | when the receiver has a Smaller limit and the argument has none, the limit is dropped and nothing else |
| `Criteria.AndExactly` | search.go:65-90 | And is conjunction, for all criteria with given Smaller limits and all messages, if and only if the argument has a limit or the receiver has none |
| `Criteria.Search` | imapserver/imapmemserver/message.go:124-197 | message.search with its loops and recursion decides the meaning of the criteria |
| `Criteria.SetContains` | internal/imapnum/numset.go:130-135 | membership in a canonical list by the code of the set |
| `Criteria.SearchNumbers` | imapserver/imapmemserver/message.go:125-134 | the sequence number and UID checks |
| `Criteria.SearchFlags` | imapserver/imapmemserver/message.go:139-148 | the flag loops |
| `Criteria.SearchContents` | imapserver/imapmemserver/message.go:159-183 | the header, sent date, text and body checks |
| `Calendar.EarlierIsOrdinal` | imapserver/imapmemserver/message.go:199-213 | a day is earlier than another exactly when its number in a count of all days is smaller, and equal numbers are the same day |
| `Calendar.NextDayOrdinal` | imapserver/search.go:270-280 | adding 24 hours gives the day with the next number, across months, years and leap days |
| `Calendar.DayKeyMeans` | imapserver/search.go:256-283 | ON and SENTON hold of that day alone, SINCE and SENTSINCE from it on, BEFORE and SENTBEFORE before it |
| `Calendar.MatchDateMeans` | imapserver/imapmemserver/message.go:199-213 | matchDate holds between the limits that are set, the lower one included |
| `Calendar.IntersectMeans` | search.go:92-116 | of two limits the later lower one and the earlier upper one remain |
| `SearchKeys.LeavesHold` | imapclient/search.go:169-234 | the keys that are printed before NOT and OR hold together exactly when the fields of the criteria do |
| `SearchKeys.KeySequenceMeans` | imapserver/search.go:203-339 | for every sequence of keys with any arguments: the criteria built from it match a message exactly when all surviving keys hold |
| `SearchKeys.SurvivingAll` | search.go:65-90 | no key is lost or changed if and only if every key counts: no size 0, no unset day, and no SMALLER before a date key or LARGER |
| `SearchKeys.NormalMeans` | imapserver/search.go:193-339 | the criteria that the server builds match exactly the messages that the printed ones match |
| `SearchText.DateRoundTrip` | internal/internal.go:43-53 | a day printed in the date layout is parsed back |
| `SearchForms.DateForm` | internal/internal.go:15-15 | a day is its number without leading zeros, the English name of the month and four digits of the year, with dashes |
| `SearchForms.KeyForms` | imapclient/search.go:169-234 | the text of every key with its literal key word |
| `SearchForms.HeaderForms` | imapclient/search.go:197-205 | BCC, CC, FROM, SUBJECT and TO have keys of their own, other fields go behind HEADER |
| `SearchForms.FlagForms` | imapclient/search.go:214-227 | five flags have keys of their own, the others are keywords |
| `SearchForms.DayWords` | imapserver/search.go:256-283 | each of the six date words, in any case, adds the criteria of its day |
| `SearchForms.BareWords` | imapserver/search.go:203-240 | what ALL, NEW, OLD and the saved result add |
| `SearchRoundTrip.LeafReads` | imapserver/search.go:203-339 | every single key is read back and adds to the criteria what it means |
| `SearchRoundTrip.NotReads` | imapserver/search.go:305-313 | NOT with a nested list is read back |
| `SearchRoundTrip.OrReads` | imapserver/search.go:314-328 | OR with two nested lists is read back |
| `SearchRoundTrip.ListReads` | internal/imapwire/decoder.go:460-488 | a parenthesized list of keys is read into one criteria, below the nesting limit |
| `SearchRoundTrip.CommandReads` | imapserver/search.go:52-72 | the whole printed criteria is read to the end of the line |
| `SearchRoundTrip.SearchSurvives` | imapserver/search.go:52-72 | for every tree within the limits of the server, the criteria it reads match a message exactly when those of the client do |
| `SearchRoundTrip.SequenceReads` | imapserver/search.go:52-72 | a printed sequence of keys, in any order, is read key by key into one criteria |
| `SearchRoundTrip.SequenceMeans` | imapserver/search.go:52-72 | for every key sequence that a client may send, what the server reads matches a message exactly when all surviving keys hold |
| `SearchRoundTrip.LimitLost` | imapserver/search.go:294-304 | behind SMALLER a date key, LARGER or SMALLER 0 erases the limit, the other order keeps it, and SMALLER 0 alone asks nothing |
| `SearchCodec.ValidFlag` | internal/imapwire/encoder.go:192-206 | the loop accepts atom characters and a leading backslash |
| `SearchCodec.WriteFlag` | internal/imapwire/encoder.go:174-180 | a flag is written, or an error set exactly when it is invalid |
| `SearchCodec.WriteNumSet` | internal/imapwire/encoder.go:165-172 | a set is written, or an error set exactly when it is empty |
| `SearchCodec.WriteLeaf` | imapclient/search.go:169-234 | one key is written as its text |
| `SearchCodec.WriteLeaves` | imapclient/search.go:160-234 | the keys are written in order with single spaces; no error if every key can be encoded |
| `SearchCodec.WriteNots` | imapclient/search.go:249-254 | the NOT keys follow |
| `SearchCodec.WriteOrs` | imapclient/search.go:255-264 | the OR keys follow |
| `SearchCodec.WriteSearchKey` | imapclient/search.go:159-269 | writes the text of the criteria, ALL when it has no keys |
| `SearchCodec.ExpectUIDSet` | internal/imapwire/decoder.go:560-567 | reads a UID set or the marker of the saved result |
| `SearchCodec.ExpectFlag` | internal/internal.go:80-93 | reads a flag in its usual spelling |
| `SearchCodec.ExpectDate` | internal/internal.go:43-53 | reads a date |
| `SearchCodec.ReadArgumentKey` | imapserver/search.go:208-304 | the keys with an argument |
| `SearchCodec.ReadSearchKeyWithAtom` | imapserver/search.go:203-339 | one key, with the recursion of NOT and OR |
| `SearchCodec.ReadSearchKey` | imapserver/search.go:193-201 | a key or a list of keys; the list depth is restored |
| `SearchCodec.ReadKeyList` | internal/imapwire/decoder.go:477-487 | the list loop over keys, all into the same criteria |
| `SearchCodec.ReadSearchKeys` | imapserver/search.go:52-68 | the key loop of the command |
| `Wire.SpaceReads` | internal/imapwire/decoder.go:150-168 | a space is taken when the line goes on |
| `Wire.FuncReads` | internal/imapwire/decoder.go:188-208 | a run of a character class is read up to the first other byte |
| `Wire.NumberReads` | internal/imapwire/decoder.go:319-330 | a printed number is read back |
| `Wire.QuotedReads` | internal/imapwire/decoder.go:381-407 | a quoted string is read back with its escapes undone and the rest left |
| `Wire.LiteralReads` | internal/imapwire/decoder.go:573-613 | a literal is read back by its size, synchronizing or not |
| `Wire.StringReads` | internal/imapwire/decoder.go:409-427 | what String writes, quoted or literal, String and ExpectAString read |
| `Wire.NStringReads` | internal/imapwire/decoder.go:429-439 | an optional string is read back, NIL as the empty string |
| `WireForms.DigitsForm` | internal/imapwire/encoder.go:208-215 | a number is written in decimal without leading zeros |
| `WireForms.CaseForm` | imapserver/imapmemserver/message.go:271-273 | lower and upper case change exactly the letters of the other case |
| `WireForms.StringForm` | internal/imapwire/encoder.go:87-150 | a string is quoted, with every quote and backslash escaped, when it is short and harmless; otherwise it is a literal with its size, without waiting exactly where the extensions allow it |
| `WireForms.QuotedAccepts` | internal/imapwire/decoder.go:381-407 | a quoted string is read for what it stands for, however it is escaped |
| `WireForms.QuotedRefuses` | internal/imapwire/decoder.go:381-407 | and nothing else is read as one |
| `WireForms.LineEndForms` | internal/imapwire/decoder.go:174-182 | a line ends with CR LF or LF, with at most one space in front, and with nothing else |
| `WireForms.RangeForm` | internal/imapnum/numset.go:149-170 | a range is one number or two with a colon, and 0 is the star |
| `WireForms.NumberAccepts` | internal/imapnum/numset.go:263-270 | a number of a set is read exactly as it is written: no leading zeros, not 0, within 32 bits, or the star |
| `WireForms.RangeAccepts` | internal/imapnum/numset.go:275-293 | two numbers are read as the range between them in either order, the star last |
| `WireCodec.Decoder.ReadByte` | internal/imapwire/decoder.go:95-112 | one byte, within the size limit; an error sticks |
| `WireCodec.Decoder.AcceptByte` | internal/imapwire/decoder.go:114-123 | a byte is taken only if it is the wanted one |
| `WireCodec.Decoder.ReadSP` | internal/imapwire/decoder.go:150-168 | a space, or nothing in front of a parenthesis |
| `WireCodec.Decoder.ReadCRLF` | internal/imapwire/decoder.go:174-182 | a line end with its liberties |
| `WireCodec.Decoder.ReadFunc` | internal/imapwire/decoder.go:188-208 | the loop computes Func |
| `WireCodec.Decoder.ReadNumber` | internal/imapwire/decoder.go:301-330 | digits within the limit |
| `WireCodec.Decoder.ReadQuoted` | internal/imapwire/decoder.go:381-407 | the loop computes Quoted, also on broken input |
| `WireCodec.Decoder.ReadLiteralHead` | internal/imapwire/decoder.go:592-613 | the line in front of a literal |
| `WireCodec.Decoder.ReadLiteral` | internal/imapwire/decoder.go:573-590 | a literal within the buffer limit |
| `WireCodec.Decoder.ReadString` | internal/imapwire/decoder.go:421-423 | quoted or literal |
| `WireCodec.Decoder.ExpectAString` | internal/imapwire/decoder.go:409-419 | string or run of astring characters; failure sets the error |
| `WireCodec.Decoder.ExpectNString` | internal/imapwire/decoder.go:429-439 | string or NIL; failure sets the error |
| `WireCodec.Encoder.WriteString` | internal/imapwire/encoder.go:52-64 | appends unless an error is set |
| `WireCodec.Encoder.Quote` | internal/imapwire/encoder.go:87-100 | the loop escapes quotes and backslashes |
| `WireCodec.Encoder.Quotable` | internal/imapwire/encoder.go:110-129 | the loop decides whether a string may be quoted |
| `WireCodec.Encoder.WriteLiteral` | internal/imapwire/encoder.go:131-150 | size line and bytes |
| `WireCodec.Encoder.Write` | internal/imapwire/encoder.go:102-108 | quoted if possible, else a literal |
| `WireCodec.Encoder.WriteNString` | imapserver/fetch.go:576-582 | NIL for the empty string |
| `Unicode.Utf16RoundTrip` | internal/utf7/decoder.go:99-117 | UTF-16 of code points outside printable ASCII is decoded to their UTF-8 |
| `Unicode.B64RoundTrip` | internal/utf7/decoder.go:93-97 | base64 decoding inverts encoding with the alphabet of section 5.1.3 of RFC 3501 |
| `Unicode.ValidRunes` | internal/utf7/encoder.go:46-51 | a valid string is the UTF-8 form of the code points it is split into |
| `Unicode.Utf8Valid` | internal/utf7/decoder.go:17-19 | the UTF-8 form of any code points is valid and gives them back |
| `Utf7.SegmentReads` | internal/utf7/decoder.go:75-118 | decode on an unpadded base64 segment restores the padding and gives the encoded text |
| `Utf7.ShiftReads` | internal/utf7/decoder.go:40-67 | a base64 shift that follows no other shift is read as the run it stands for |
| `Utf7.NoAdjacentShifts` | internal/utf7/encoder.go:10-72 | for every string, valid or not: where a base64 shift of Encode(s) ends no other begins, so the decoder meets no null shift |
| `Utf7.EncodePrintable` | internal/utf7/encoder.go:10-72 | Encode writes only the bytes 0x20 to 0x7E, for any input |
| `Utf7.EncodeRoundTrip` | internal/utf7/encoder.go:10-72 | Decode(Encode(s)) is s for every valid UTF-8 string s |
| `Utf7Format.EncodeExact` | internal/utf7/encoder.go:10-72 | Encode(s) is the one text that has the format of modified UTF-7 for s: printable bytes as they are, and every other run as a shift whose characters are, six bits each in the order of the alphabet, the big-endian UTF-16 of the run and then fewer than six zero bits |
| `Utf7Format.EncodesUnique` | internal/utf7/encoder.go:10-72 | there is only one text of that format |
| `Utf7Format.DecodeEncodes` | internal/utf7/decoder.go:16-71 | Decode gives the string back for any text of that format |
| `Utf7Format.ShiftAlphabet` | internal/utf7/encoder.go:60-71 | for every string, each character of a shift is a letter, a digit, plus or comma |
| `Utf7Format.IndexIs` | internal/utf7/decoder.go:93-97 | the decoder knows the 64 characters by their positions, and no others |
| `Utf7Format.SegmentAlphabet` | internal/utf7/decoder.go:75-97 | decode refuses every segment with a character outside the alphabet |
| `Utf7.EscapeIs` | internal/utf7/encoder.go:76-88 | Escape leaves every byte of a valid string but the ampersand alone |
| `Utf7.EscapeRoundTrip` | internal/utf7/encoder.go:76-88 | Decode undoes Escape exactly on the valid strings without control bytes and refuses the others |
| `Utf7Codec.ToUtf16` | internal/utf7/encoder.go:45-57 | the rune loop of encode |
| `Utf7Codec.EncodeBytes` | internal/utf7/encoder.go:42-72 | one run as a base64 shift, padding stripped in place |
| `Utf7Codec.Encode` | internal/utf7/encoder.go:10-38 | the loop over the bytes computes Encode |
| `Utf7Codec.Escape` | internal/utf7/encoder.go:76-88 | the loop over the runes computes Escape |
| `Utf7Codec.Allocate` | internal/utf7/decoder.go:82-91 | the block holds the padded base64 and three times the decoded length |
| `Utf7Codec.Transcode` | internal/utf7/decoder.go:99-117 | UTF-16 to UTF-8 within one buffer, in which every write is in bounds |
| `Utf7Codec.DecodeSegment` | internal/utf7/decoder.go:75-118 | decode, nil for every invalid segment |
| `Utf7Codec.Decode` | internal/utf7/decoder.go:16-71 | the loop with the ascii flag computes Decode, errors included |
| `MailboxName.NameTextKeepsApart` | internal/imapwire/encoder.go:152-163 | no other name is written as INBOX, and the written name decodes to the name |
| `MailboxName.MailboxForm` | internal/imapwire/encoder.go:152-163 | every casing of INBOX is written as INBOX, any other name as a string in modified UTF-7 or, where UTF-8 may be quoted, with a dash behind every ampersand |
| `MailboxName.MailboxReads` | internal/imapwire/decoder.go:511-525 | every valid name that the connection can carry is read back as the mailbox it means and the rest is left; the others are refused |
| `MailboxCodec.WriteMailbox` | internal/imapwire/encoder.go:152-163 | writes INBOX, or the name in the alphabet of the connection |
| `MailboxCodec.ExpectMailbox` | internal/imapwire/decoder.go:511-525 | reads a name; failure sets the error |
| `BodyParams.SortedUnique` | imapserver/fetch.go:683-687 | there is only one sorted list of the keys |
| `BodyParams.ListReads` | internal/imapwire/decoder.go:500-509 | a list of strings is read back by ExpectNList and by readBodyFldLang, NIL as none |
| `BodyParams.ParamsReads` | imapclient/fetch.go:1166-1198 | parameters come back as the same map with its values decoded, whatever their number |
| `BodyParams.PairsExactly` | imapclient/fetch.go:1177-1188 | the pairs of a map come back if and only if no key is empty or has an upper-case letter and decoding changes no value, for any decoding function |
| `WireForms.ListForm` | imapserver/fetch.go:707-715 | a list of strings is NIL or the strings in parentheses with single spaces |
| `WireForms.ParamsForm` | imapserver/fetch.go:677-694 | parameters are NIL or the keys in ascending order, each followed by its value |
| `WireForms.LeqForm` | imapserver/fetch.go:683-687 | the order of keys: the first different byte decides, and a prefix comes first |
| `Envelope.AddressListReads` | imapclient/fetch.go:881-911 | a list of addresses is read back, names encoded by the server and decoded by the client |
| `Envelope.EnvelopeReads` | imapclient/fetch.go:831-879 | an envelope is read back field by field, with sender and reply-to defaulting to from and the encoded words decoded, and the rest is left |
| `WireForms.AddressForm` | imapserver/fetch.go:558-574 | an address is its name, NIL, its mailbox and its host |
| `WireForms.EnvelopeForm` | imapserver/fetch.go:523-555 | the ten fields of an envelope in order, from in place of a missing sender or reply-to |
| `BodyRoundTrip.DspReads` | imapclient/fetch.go:1142-1164 | a disposition is read back |
| `BodyRoundTrip.TailReads` | imapclient/fetch.go:1048-1075 | disposition, language and location are read back |
| `BodyRoundTrip.SpacedExtReads` | imapclient/fetch.go:1027-1035 | the extension data of a single part is read when it is there and not missed when it is not |
| `BodyRoundTrip.MultiExtReads` | imapclient/fetch.go:1104-1140 | the extension data of a multipart is read back |
| `BodyRoundTrip.BasicReads` | imapclient/fetch.go:963-984 | the basic fields are read back, description and parameter values decoded, no encoding as 7bit |
| `BodyRoundTrip.KindReads` | imapclient/fetch.go:993-1025 | the fields of a message, with its nested tree, or of a text are read back |
| `BodyRoundTrip.ChildrenRead` | imapclient/fetch.go:1081-1091 | the parts of a multipart are told apart only by the parenthesis that SP accepts in place of a space |
| `BodyRoundTrip.BodyReads` | imapclient/fetch.go:925-958 | for every well-formed tree of any depth, extended or not, any decoding function and any suffix, readBody gives the normal form of the tree and leaves exactly the suffix |
| `BodyParts.EveryPartArrives` | imapclient/fetch.go:925-958 | for every well-formed tree, at every path: the client has a part there if and only if the server has, and of this part type, subtype, ID, size, lines, number of children, envelope and extension data arrive as they are, the encoding in lower case or as 7bit, and texts decoded |
| `WireForms.SingleForm` | imapserver/fetch.go:609-648 | a single part is its fields in order, in parentheses and with single spaces |
| `WireForms.MultiForm` | imapserver/fetch.go:650-675 | a multipart is its parts with nothing in between, then the subtype and the extension data |
| `BodyCodec.Keys` | imapserver/fetch.go:683-687 | the keys collected and sorted |
| `BodyCodec.WriteParams` | imapserver/fetch.go:677-694 | writes the parameters in key order |
| `BodyCodec.WriteDsp` | imapserver/fetch.go:696-705 | writes a disposition |
| `BodyCodec.WriteList` | imapserver/fetch.go:707-715 | writes NIL or a list of strings |
| `BodyCodec.WriteAddressList` | imapserver/fetch.go:558-574 | writes NIL or a list of addresses |
| `BodyCodec.WriteEnvelope` | imapserver/fetch.go:523-555 | writes an envelope, with sender and reply-to taken from from when there are none |
| `BodyCodec.WriteSingle` | imapserver/fetch.go:609-648 | writes a single part |
| `BodyCodec.WriteMulti` | imapserver/fetch.go:650-675 | writes a multipart |
| `BodyCodec.WriteChildren` | imapserver/fetch.go:654-658 | writes the parts with nothing in between |
| `BodyCodec.WriteBody` | imapserver/fetch.go:596-607 | writes the text of a tree |
| `BodyReader.ExpectOpenList` | internal/imapwire/decoder.go:460-488 | the list loop over strings, within the depth limit |
| `BodyReader.ExpectLang` | imapclient/fetch.go:1200-1223 | a list, one string or NIL |
| `BodyReader.ExpectParams` | imapclient/fetch.go:1166-1198 | reads parameters, a key without a value is an error |
| `BodyReader.ExpectAddressList` | imapclient/fetch.go:881-892 | reads a list of addresses |
| `BodyReader.ExpectEnvelope` | imapclient/fetch.go:831-879 | reads an envelope |
| `BodyReader.DiscardValue` | internal/imapwire/decoder.go:275-299 | skips a string, a nested list or an atom; a list nested too deeply is no decoder error |
| `BodyReader.SkipValues` | imapclient/fetch.go:947-951 | the loop over unknown values |
| `BodyReader.ExpectDsp` | imapclient/fetch.go:1142-1164 | reads a disposition or NIL |
| `BodyReader.ExpectSingleExt` | imapclient/fetch.go:1040-1076 | extension data that may stop after any field |
| `BodyReader.ExpectMultiExt` | imapclient/fetch.go:1104-1140 | extension data that may stop after any field |
| `BodyReader.ExpectOctets` | internal/imapwire/decoder.go:336-345 | a size, or -1 for none |
| `BodyReader.ExpectSingle` | imapclient/fetch.go:960-1038 | reads a single part |
| `BodyReader.ExpectMulti` | imapclient/fetch.go:1078-1102 | reads a multipart |
| `BodyReader.ExpectBody` | imapclient/fetch.go:925-958 | reads a tree; the list depth is restored |
| `Exchanges.SearchSent` | imapclient/search.go:159-269 | the criteria that the server ends up with are the normal form of those written |
| `Exchanges.SearchExchange` | imapserver/imapmemserver/message.go:124-197 | written, read back and tried on a message, the criteria answer what they mean for the client |
| `Exchanges.MailboxExchange` | internal/imapwire/decoder.go:511-525 | a name written by one side is the mailbox it means on the other, or refused, and the rest of the input is left |
| `Exchanges.StoredFound` | imapserver/imapmemserver/message.go:98-148 | after STORE, SEARCH finds a message by a flag in any case exactly when it was given or was set, as the kind of STORE has it |
| `Exchanges.BodyExchange` | imapclient/fetch.go:925-958 | a tree written by the server is its normal form at the client, every part of it is what was sent, and the rest of the input is left |
| `MatchList.MatchPattern` | imapserver/list.go:298-329 | the backtracking matcher returns true exactly when the wildcards can be filled in to give the name |
| `MatchList.MatchListEntry` | imapserver/list.go:275-296 | MatchList with reference and delimiter decides its relation |
| `MatchList.MatchesConcat` | imapserver/list.go:298-329 | a pattern in two parts matches exactly the names that can be cut so that each part matches its own |
| `MatchList.MatchesPieces` | imapserver/list.go:298-329 | text matches itself, star every name and percent every name without the delimiter |
| `MatchList.EntryForms` | imapserver/list.go:275-296 | the ways of joining: a leading delimiter is cut off together with the reference, a plain reference is put in front with the delimiter in between unless it ends with it |
| `MatchList.JoinedPattern` | imapserver/list.go:275-296 | for a pattern that does not start with the delimiter: matching the joined pattern, for every name, if and only if the completed reference has no wildcard |
| `ClientCommands.RunKeeps` | imapclient/client.go:425-592 | under every interleaving each command and each continuation request is in exactly one place and its channel is in the state of that place |
| `ClientCommands.CommandsOnce` | imapclient/client.go:425-592 | no run panics; tags are unique; a done channel is sent to at most once and closed only after that, and it is not sent to exactly while its command is in the table or held by one thread |
| `ClientCommands.TakenIsSent` | imapclient/client.go:705-812 | a command that a thread has taken was sent to and closed exactly once by the time the thread has left its function, by whatever return |
| `ClientCommands.AllSettled` | imapclient/client.go:580-592 | when no thread is under way every command is untouched in the table or over |
| `ClientCommands.RequestsOnce` | imapclient/client.go:504-592 | no request ends twice; it is open exactly while it is in the queue once or held by one thread |
| `ClientCommands.RunInOrder` | imapclient/client.go:567-578 | in every run the queue is in order of registration and every request in it is the one of its owner |
| `ClientCommands.OldestFirst` | imapclient/client.go:680-703 | in every run a continuation request of the server goes to the request registered first among those still waiting, and the others go on waiting |
| `ClientCommands.TaggedTakesItsCommand` | imapclient/client.go:705-812 | a tagged response takes out exactly the command that bears its tag |
| `ClientCommands.CancelEachIs` | imapclient/client.go:511-519 | the loop cancels exactly the requests of the command |
| `ClientCommands.TaggedAlone` | imapclient/client.go:705-812 | undisturbed, the statements of a tagged response come to one completion of its command, on the error returns and on success |
| `ClientCommands.Client.BeginCommand` | imapclient/client.go:425-463 | is the begin step with the next tag |
| `ClientCommands.Client.DeletePendingCmdByTag` | imapclient/client.go:465-476 | the loop takes out the command with the tag, or nothing |
| `ClientCommands.Client.SendDone` | imapclient/client.go:504-509 | a send needs a fresh open channel |
| `ClientCommands.Client.CloseChan` | imapclient/client.go:504-509 | a close needs an open channel |
| `ClientCommands.Client.CompleteCommand` | imapclient/client.go:504-520 | sends, closes and cancels the requests of the command; the channel is over |
| `ClientCommands.Client.CancelRequests` | imapclient/client.go:511-519 | the filter loop keeps the requests of others and cancels those of this command |
| `ClientCommands.Client.Respond` | imapclient/client.go:718-812 | the body of readResponseTagged up to its return: on every error the command is still open, on success it is over |
| `ClientCommands.Client.ReadResponseTagged` | imapclient/client.go:705-812 | on every error return and on success the command with the tag was taken and completed exactly once, with the deferred call |
| `ClientCommands.Client.CloseWithError` | imapclient/client.go:580-592 | all pending commands are taken and each is completed exactly once, the others untouched |
| `ClientCommands.Client.RegisterContReq` | imapclient/client.go:567-578 | a request joins the end of the queue |
| `ClientCommands.Client.ReadContinueReq` | imapclient/client.go:680-703 | the oldest request is taken and done, or it is an error |
| `Quota.User.AppendMessage` | imapserver/imapmemserver/user.go:138-201 | Append: the decision, in the order of the checks, and the new state |
| `Quota.SizeLocked` | imapserver/imapmemserver/mailbox.go:113-119 | the loop sums the sizes |
| `Quota.OutcomesExact` | imapserver/imapmemserver/user.go:138-201 | the answer to every call of every run with a monotone clock, told from the earlier answers: no such mailbox, then the hour, the number of messages and the bytes, in this order, and accepted if and only if none applies |
| `Quota.SumConcat` | imapserver/imapmemserver/mailbox.go:113-119 | what the sum adds up |
| `Quota.HourlyBound` | imapserver/imapmemserver/user.go:151-201 | in every run with a monotone clock no window of one hour holds more recorded appends than the quota |
| `Quota.MailboxBound` | imapserver/imapmemserver/user.go:170-201 | mailboxes that start within quota and are filled only by Append never exceed it |

## Left out

- TCP, TLS, STARTTLS, deadlines, buffering, SASL, logging and the command programs: I/O plumbing.
- Bytes that are not ASCII are compared without case folding: `strings.ToLower`, `ToUpper`, `Title` and
  `EqualFold` are modelled for ASCII.
- Encoded words: `options.decodeText` and `mime.QEncoding` are arbitrary functions from text to text, about which
  nothing is assumed. Dates inside envelopes and message IDs are the texts that are sent.
- Header, body and text matching in SEARCH are predicates of the message; times below a day and years
  above 9999 are not modelled; MODSEQ, the RETURN options and CHARSET of SEARCH are left out.
- Criteria and body trees are values. `And`, the criteria pointer of readSearchKey and the struct fields of
  readBody are modelled by returned values, so aliasing between them is not captured.
- Writing in `Poll` cannot fail here, and `Idle` and the wake-up channels are not modelled.
- The waiting for a continuation of a synchronizing literal is taken to end with consent.
- The streaming readers of literals, `DiscardLine` and the crlf flag of the decoder are not modelled.
- FileStorage and MemoryStorage, and any agreement between memory and storage.
- The EXPUNGE responses that Move writes itself: the same expunges are also queued.
- `Search` over a mailbox view, and the LIST, STATUS, ACL, ID, METADATA, NAMESPACE and NOTIFY
  responses: they would only add easy members.
- Messages are identified by UID, where the code compares pointers; the two agree because UIDs are unique.
- Liveness, deadlock, and the locking of two mailboxes.
- The tag counter of the client is unbounded.
- Utf7Codec.DecodeSegment: segments hold no CR or LF, as Decode ensures before it calls decode.
- BodyRoundTrip.BodyReads: a well-formed tree has a message exactly in message/rfc822 and message/global parts and a
  line count exactly in text parts, at least one child in a multipart, extension data when it is asked for,
  parameter keys as `PairsExactly` requires, and sizes and line counts that are not negative.
- NumSet.Set.Nums: requires ranges that end below 4294967295, where the 32-bit loop counter of the code wraps.
- Views.EncodeExact: every queued EXISTS raises the count by one, as appendBytes does.
- Mailbox.Mailbox.AppendBytes: requires that UIDs are left; at 4294967295 the counter of the code wraps.
- Mailbox.Mailbox.CopyMsg: requires that UIDs are left in the destination.
- CopyMove.CopyOne: requires that UIDs are left in the destination.
- CopyMove.Copy: the destination changes between the copies only by appends; the `$` marker is not resolved, and
  that staticNumSet edits the set of its caller is not modelled.
- CopyMove.Move: as CopyMove.Copy.
- StaticSets.StaticExact: the maximum is not 0; in an empty mailbox forEachLocked visits nothing.
- SearchCodec.WriteLeaves: the loops over the fields are one loop over the keys in the order of the fields.
- SearchCodec.WriteSearchKey: as SearchCodec.WriteLeaves.
- WireCodec.Decoder.ReadByte: the error for a byte read inside an open literal and the crlf flag are not modelled.
- WireCodec.Decoder.ReadCRLF: the crlf flag is not modelled.
- WireCodec.Encoder.WriteString: the error for an open literal and errors of the connection are not modelled.
- WireCodec.Encoder.WriteLiteral: the continuation is granted; its error paths are not modelled.
- WireCodec.Encoder.Write: as WireCodec.Encoder.WriteLiteral.
- MatchList.MatchListEntry: the delimiter is empty or one byte; a delimiter outside ASCII, which takes several bytes,
  is not modelled.
- SearchRoundTrip.CommandReads: literals count towards the size of the command here, though the decoder does not
  count them; commands with more than 50 KiB of literals get no claim.
- SearchRoundTrip.SearchSurvives: as SearchRoundTrip.CommandReads.
- SearchRoundTrip.SequenceMeans: as SearchRoundTrip.CommandReads.
- Exchanges.SearchSent: as SearchRoundTrip.CommandReads.
- Exchanges.SearchExchange: as SearchRoundTrip.CommandReads.
- Quota.OutcomesExact: mailboxes hold fewer than 4294967296 messages and the sum of sizes is unbounded.
- MatchList.EntryForms: for references and delimiters without wildcards; `JoinedPattern` covers the others.
- WireForms.QuotedAccepts: without a size limit of the decoder.
- WireForms.QuotedRefuses: as WireForms.QuotedAccepts.
- WireForms.LineEndForms: as WireForms.QuotedAccepts.
- Calendar.EarlierIsOrdinal: for dates of the calendar, which are all that a parser or a clock gives.
- Quota.HourlyBound: calls of Append do not overlap; COPY and MOVE, which check no quota, are not part of these runs.
