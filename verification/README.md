# Verified models of the feed store, the document repair, the signature protocol and other long-lived state

This project models, in Dafny, the parts of the application that keep state over long runs or
rewrite structured data, and proves what they promise.

| files | what they model |
|---|---|
| `SortedSets.dfy` | sorted sets whose scores are their members, with ranks counted from the newest |
| `FeedManager.dfy` | the home feed store: timeline, reblog tracker and extra-reblog sets, as an object whose methods change them and as functions of the state |
| `FeedRuns.dfy`, `FeedCalls.dfy` | what every run of adds, removals, trims and cleanings keeps, and every sequence of the calls built from them |
| `FeedRemovals.dfy`, `FeedLimits.dfy` | what one removal does to the first ranks, and which removals keep them free of duplicates; runs in which removals do harm |
| `FeedUnmerge.dfy`, `FeedPopulate.dfy`, `FeedReblogs.dfy` | unfollowing; rebuilding and merging; what they make of reblogs |
| `JsonLd.dfy`, `JsonLdForwarding.dfy`, `JsonLdRepairs.dfy`, `JsonLdLimits.dfy` | repairing a compacted document, the safety test, what a safe document keeps; how little the repair changes; the node budget |
| `Text.dfy`, `SignatureParser.dfy`, `SignatureGrammar.dfy`, `HttpSignatures.dfy` | the `Signature` header printed, read back, exactly which headers are read, and the signed string rebuilt (sections 2.3 and 4 of draft-cavage-http-signatures-12; tokens as in section 3.2.6 of RFC 7230) |
| `Streaming.dfy`, `StreamingRuns.dfy` | the streaming server's subscription registry as a step system |
| `Conversations.dfy`, `BulkImports.dfy` | optimistic locking and atomic counters under every interleaving |
| `CleanupPolicies.dfy` | automatic post deletion and its cursor |
| `EmojiFormatter.dfy` | the shortcode scan of one text node |
| `Mates.dfy`, `MatesTransactions.dfy` | follow counters and mutual follows; follows and unfollows in concurrent transactions |
| `Freethedream.dfy` | what one person may see of everyone's documents |
| `Tracklists.dfy` | a track list and its text form |

Where the source changes state step by step, a class or a method does the same and is proved equal
to a function of the old state; the properties are then proved of that function. Protocols that
interleave (streaming, conversations, imports, follow transactions) are step systems, and their main results quantify
over every run.

## What does not hold as one might expect

Each of these is a lemma; where a property fails, the lemma beside it says exactly when it holds.

- Rebuilding a feed passes over an account whose last-status score is below the feed's oldest entry, and
  the score is rounded down to a whole second (`lib/mastodon/snowflake.rb:99-105`). An account is safe in
  every feed if and only if it offers no post two or more above its score
  (`FeedPopulate.AlwaysKeepsNewestIff`); a given rebuild, with any accounts, loses a newest post if and only
  if it skipped an account that offered one with fewer than 400 newer entries
  (`FeedPopulate.RebuildKeepsNewestIff`). It takes no
  more than an oldest entry from the same second (`FeedPopulate.SkipLosesARecentPost`); nothing further
  than a second from that entry is lost while each account's last-status time covers the posts it offers
  (`FeedPopulate.PopulateKeepsNewestButASecond`). It need not cover a direct post that was made public
  later, which was never counted.
- Rebuilding a feed that is more than half full can take it above 800 entries, and only the command line
  asks for such feeds to be skipped (`FeedCalls.EveryRebuildFitsIff`).
- `clean_feeds!` leaves extra sets behind when a feed id is listed twice: the second read of the
  tracker, after the delete, overwrites the first (`FeedRuns.CleanLeavesNothing`).
- Removing an extra reblog that is not shown returns before its set is touched, so a deleted reblog can
  come back, and no other can (`FeedLimits.RemovedCanComeBackIff`, `FeedLimits.DeletedReblogResurfaces`).
- Removing a tracked reblog with aggregation switched off leaves the tracker naming it, and no other
  operation does (`FeedRuns.ShownThroughoutIff`, `FeedRuns.SwitchedOffTrackerGoesStale`); reblogs of answers
  are aggregated on removal but not on insertion (`FeedRuns.RemoveUndoesAdd`).
- Removals can break deduplication in two ways. They lift an entry into the first forty ranks, which may
  stand for a post that is there already (`FeedRemovals.RemovalDeduplicatesIff`,
  `FeedLimits.RemovalsUncoverDuplicates`). And removing an old, untracked reblog ends the tracking of a newer
  one that is still shown, so that the next reblog is put in beside it (`FeedLimits.NextReblogStandsBeside`,
  `FeedLimits.RemovalAdmitsDuplicate`). Which removals do neither is `FeedRemovals.RemovalKeepsTopIff`.
- The patch for forwarding does not look into arrays of arrays (`JsonLdForwarding.PatchedIsSafeIff`).
- A signature that leaves the query string out of its target is accepted as well
  (`HttpSignatures.AcceptedIffTargetMatches`).
- A signer that lists `(created)` or `(expires)` prints a header its own verifier rejects, because the
  printed algorithm is `rsa-sha256` (`HttpSignatures.OwnSignatureVerifies`,
  `HttpSignatures.CreationTimeIsRejected`).
- A subscribe request that finishes after its socket closed registers listeners that stay unless a later
  unsubscribe names the same channels (`StreamingRuns.LateSubscribeLeaks`).
- Two workers that both find no conversation row do not both succeed: the second insert raises, and only a
  stale version is retried (`Conversations.NobodyRaisesIff`, `Conversations.ConcurrentFirstAddsRaise`).
- An import that is reported on more often than it has rows may never be marked finished
  (`BulkImports.FinishesIff`).
- A cleanup run with no budget moves the cursor past posts it did not delete
  (`CleanupPolicies.CleanupCursorSoundIff`). A post below the cursor that is edited so that no exception
  keeps it any more, by making a direct post public, dropping the poll or the media, or that loses its
  popularity, is not seen again; nor is one published under a past id (`CleanupPolicies.ChangePostIff`,
  `CleanupPolicies.PublishedDirectPostIsMissed`, `CleanupPolicies.BackdatedPostIsMissed`). No other kind of
  event breaks the cursor (`CleanupPolicies.CursorSoundThroughoutIff`), unless it comes between a run's
  query and its end: the run then writes its cursor over one that was lowered or dropped
  (`CleanupPolicies.InterruptedRunIff`, `CleanupPolicies.UnpinDuringRunIsMissed`).
- Following oneself counts two mates for one (`Mates.FollowAccurateIff`).
- A follow that two had loaded and both destroy is taken off the counters twice: the callbacks run although
  the second finds no row (`MatesTransactions.CommittedAccurateIff`, `MatesTransactions.DestroyedTwice`).
- Two people who follow each other at the same moment, or any number in a circle, can deadlock, each
  holding the counters the one before needs (`MatesTransactions.DeadlockIff`,
  `MatesTransactions.OppositeFollowsDeadlock`); what is committed is right all the same.
- A shortcode after a stray opening colon is left as text (`EmojiFormatter.StrayColonHidesShortcode`).

## Model

| member | source | states |
|---|---|---|
| FeedManager.FeedStore.constructor | app/lib/feed_manager.rb:577-579 | a feed with no keys is empty |
| FeedManager.FeedStore.AddToFeed | app/lib/feed_manager.rb:577-614 | the whole state after adding a status, and the answer |
| FeedManager.FeedStore.RemoveFromFeed | app/lib/feed_manager.rb:625-657 | the whole state after removing a status, and the answer |
| FeedManager.FeedStore.TrimFeed | app/lib/feed_manager.rb:422-447 | the whole state after a trim |
| FeedManager.FeedStore.PushToHome | app/lib/feed_manager.rb:76-83 | nothing for an owner who has not signed in recently; else an add, and a trim if it put something in |
| FeedManager.FeedStore.AddEach | app/lib/feed_manager.rb:144-148 | a query's eligible rows added in its order |
| FeedManager.FeedStore.MergeIntoHome | app/lib/feed_manager.rb:128-151 | the state after merging an account, unchanged for an owner who has not signed in recently |
| FeedManager.FeedStore.UnmergeFromHome | app/lib/feed_manager.rb:186-193 | the state after removing an account's listed rows one by one |
| FeedManager.FeedStore.PopulateHome | app/lib/feed_manager.rb:282-340 | the state after rebuilding from the owner's and the followed accounts' posts |
| FeedManager.FeedStore.PopulateAccount | app/lib/feed_manager.rb:308-339 | one followed account: skipped, cut at the oldest entry, or added and trimmed |
| FeedManager.CollectAndDrop | app/lib/feed_manager.rb:391-401 | the pipelined reads and deletes, with a repeated id's record overwritten |
| FeedManager.DropExtras | app/lib/feed_manager.rb:403-411 | the extra sets named by the records are deleted |
| FeedManager.CleanFeeds | app/lib/feed_manager.rb:390-414 | what cleaning leaves of every listed feed |
| FeedRuns.AddRepresents | app/lib/feed_manager.rb:567-614 | after any add the post stands in the feed if and only if the status was put in or the post stood there, and so always while tracked reblogs are shown; the answer is yes exactly when the status was put in; an aggregated reblog refused for another one is kept as an extra |
| FeedRuns.AddKeepsRest | app/lib/feed_manager.rb:577-614 | an add forgets nothing: tracked originals keep their reblog and extras stay; new is only the status itself, as an entry, as tracked or as one more extra of its original |
| FeedRuns.UnsetAggregates | app/lib/feed_manager.rb:581-629 | a setting never made counts as on |
| FeedRuns.RemoveKeepsRest | app/lib/feed_manager.rb:625-657 | the answer is whether the status was shown; other originals are left alone, and of its own exactly the status, or all extras of a removed original, go |
| FeedRuns.TrimTracksIff | app/lib/feed_manager.rb:429-446 | whatever the tracker holds, a trim stops tracking exactly the originals whose reblog has more than forty entries as new as itself |
| FeedRuns.PushTrims | app/lib/feed_manager.rb:76-83 | after a push that put something in, the newest 800 are kept and tracked reblogs are in the first forty; one that did not adds at most an extra |
| FeedRuns.NoOrphanExtrasEver | app/lib/feed_manager.rb:577-657 | in every run an extra set is non-empty and belongs to a tracked original, whatever the aggregation settings |
| FeedRuns.CleanLeavesNothing | app/lib/feed_manager.rb:385-414 | cleaning leaves no key of a reachable feed if and only if its id is listed once or it has no extra sets |
| FeedRuns.RemoveUndoesAdd | app/lib/feed_manager.rb:577-657 | removing what was just added restores timeline, tracker and extra sets if and only if no answer's reblog is in the way |
| FeedRuns.GenuineEver | app/lib/feed_manager.rb:592-602 | in every run the tracker and the extra sets name only reblogs of their original |
| FeedRuns.TrackedAreShownEver | app/lib/feed_manager.rb:592-657 | in every run whose removals aggregate every tracked reblog is in the timeline, whatever the setting of the adds |
| FeedRuns.RemoveKeepsShownIff | app/lib/feed_manager.rb:629-656 | a removal keeps tracked reblogs shown if and only if it aggregates or its reblog is not the tracked one |
| FeedRuns.ShownThroughoutIff | app/lib/feed_manager.rb:577-657 | a run with any settings keeps tracked reblogs shown at every moment if and only if each of its removals does |
| FeedRuns.SwitchedOffTrackerGoesStale | app/lib/feed_manager.rb:610-657 | switching aggregation off in between leaves a tracked reblog that is gone and the original refused |
| FeedRuns.TrimKeepsTopTracking | app/lib/feed_manager.rb:429-446 | a trim keeps tracking exactly the originals whose reblog is in the first forty ranks, with their extras |
| FeedRuns.TrimWindow | app/lib/feed_manager.rb:10-15 | after a trim: the newest 800 entries, tracked reblogs within the first forty, at most forty tracked |
| FeedRuns.AddKeepsTopTracked | app/lib/feed_manager.rb:581-614 | an aggregating add keeps every reblog near the top the tracked one and tracked originals away from the top |
| FeedRuns.NoDuplicatesNearTheTopEver | app/lib/feed_manager.rb:577-614 | in every run of aggregating adds and trims no post stands twice in the first forty ranks |
| FeedCalls.CallIsRun | app/lib/feed_manager.rb:76-340 | every call on a home feed is a run of adds, removals and trims with the call's setting |
| FeedCalls.CallsKeepFeedSound | app/lib/feed_manager.rb:76-340 | in every sequence of calls the extra-set invariants hold; tracked reblogs are shown if removals aggregate; without removals and with aggregation no post stands twice near the top |
| FeedCalls.CallKeepsBound | app/lib/feed_manager.rb:10-11 | no call takes the timeline above 800 entries, unless it rebuilds a feed more than half full |
| FeedCalls.CallsKeepBound | app/lib/feed_manager.rb:10-11 | nor does any sequence of such calls |
| FeedCalls.EveryRebuildFitsIff | app/services/precompute_feed_service.rb:6-22 | every rebuild stays within 800 entries if and only if filled feeds are skipped or the feed holds at most 400 |
| FeedCalls.PrecomputeSkips | app/services/precompute_feed_service.rb:20-22 | asked to, exactly the feeds with more than 400 entries are skipped |
| FeedUnmerge.RemoveAllOutcome | app/lib/feed_manager.rb:190-192 | removing rows one by one removes them all and brings in only reblogs of what they reblogged |
| FeedUnmerge.ReplacementSurvives | app/lib/feed_manager.rb:643-650 | the oldest further reblog of a removed one is shown and tracked to the end |
| FeedUnmerge.UnmergeClearsAccount | app/lib/feed_manager.rb:186-193 | after unfollowing no undeleted status of the account is left, others' entries are kept, and removed reblogs with extras are replaced |
| FeedPopulate.StepMissesOnlyOld | app/lib/feed_manager.rb:304-339 | one account's cut or skip loses only plain posts older than the oldest entry, give or take the score's error |
| FeedPopulate.PopulateMissesOnlyOld | app/lib/feed_manager.rb:282-340 | the same over all accounts in any order |
| FeedPopulate.PopulateKeepsNewest | app/lib/feed_manager.rb:282-340 | if no account offers a post two or more above its score, the newest 400 of the rebuilt feed are the newest 400 of everything offered |
| FeedPopulate.RebuildKeepsNewestIff | app/lib/feed_manager.rb:282-340 | a rebuild with the owner's posts and any accounts keeps the newest 400 if and only if no account it passed over offered a missing post with fewer than 400 newer entries |
| FeedPopulate.RebuildWithOneKeepsNewestIff | app/lib/feed_manager.rb:309-322 | a rebuild with one account keeps the newest 400 if and only if the account is not skipped or offers nothing newer than the 400th entry |
| FeedPopulate.AlwaysKeepsNewestIff | app/lib/feed_manager.rb:311-318 | an account is safe in every feed if and only if it offers no post two or more above its score |
| FeedPopulate.SafeAccountsSafeTogether | app/lib/feed_manager.rb:304-340 | accounts that are each safe are safe together in any order |
| FeedPopulate.TimelyScoreCovers | app/models/status.rb:638-645 | the score of an account whose last-status time covers the posts it offers is less than a second's ids below each of them |
| FeedPopulate.IdWithinASecondOfScore | lib/mastodon/snowflake.rb:99-105 | a post's id lies less than a second's ids above the score of a last status in the same or a later second |
| FeedPopulate.PopulateKeepsNewestButASecond | app/lib/feed_manager.rb:309-320 | with the scores as computed for such accounts, only posts within a second of the oldest entry can be missing from the newest 400 |
| FeedPopulate.SkipLosesARecentPost | app/lib/feed_manager.rb:311-318 | from an empty feed one of the newest 400 posts is lost whenever the owner's oldest post was made before it in the same second |
| FeedPopulate.MergeKeepsNewest | app/lib/feed_manager.rb:128-151 | merging plain posts leaves the newest 800 of the feed and the account's offer |
| FeedReblogs.AddAllRepresents | app/lib/feed_manager.rb:144-148 | every eligible row, reblogs included, stands in the feed after the rows were added, and only eligible rows came in |
| FeedReblogs.MergeAccounts | app/lib/feed_manager.rb:128-151 | after a merge every eligible row it asked for stands in the feed or is older than all of it |
| FeedReblogs.PopulateAccounts | app/lib/feed_manager.rb:282-340 | after a rebuild every eligible row of the owner and of every account not skipped stands in the feed or is older than all of it |
| FeedReblogs.NewestReblogStands | app/lib/feed_manager.rb:144-148 | rows come newest first: the newest reblog is shown and tracked for an original that is not in the feed, the others are its extras, and the original is refused |
| FeedReblogs.MergeShowsBoost | app/lib/feed_manager.rb:128-151 | merging an account that boosted its own post does not show the post itself |
| FeedLimits.RemovalForgets | app/lib/feed_manager.rb:630-637 | a removed reblog is forgotten if and only if it was shown or was no extra |
| FeedLimits.OnlyAddedAreShown | app/lib/feed_manager.rb:577-657 | a run shows and keeps only statuses that it added |
| FeedLimits.ForgottenForGood | app/lib/feed_manager.rb:577-657 | what a feed has forgotten stays out in every run that does not add it |
| FeedLimits.RemovedCanComeBackIff | app/lib/feed_manager.rb:629-650 | some run brings a removed reblog back without adding it if and only if it was not shown but kept as an extra |
| FeedLimits.DeletedReblogResurfaces | app/lib/feed_manager.rb:630-650 | a run in which a deleted reblog is shown again |
| FeedLimits.RemovalsUncoverDuplicates | app/lib/feed_manager.rb:625-657 | a run in which removals bring a post into the first forty ranks twice |
| FeedLimits.NextReblogStandsBeside | app/lib/feed_manager.rb:637-645 | removing an older reblog of a post while a newer one is shown and none is kept lets the next one in beside it |
| FeedLimits.RemovalAdmitsDuplicate | app/lib/feed_manager.rb:577-645 | a run from the empty feed in which that happens |
| FeedRemovals.FirstRanksAfter | app/lib/feed_manager.rb:643-656 | exactly which entries make up the first forty ranks after a removal |
| FeedRemovals.RemovalDeduplicatesIff | app/lib/feed_manager.rb:625-657 | a removal keeps the first ranks free of duplicates if and only if the entry it lifts into them is an answer's reblog or stands for a post not there yet |
| FeedRemovals.RemovalKeepsTopIff | app/lib/feed_manager.rb:625-657 | it keeps the first ranks' reblogs tracked if and only if it leaves no shown one untracked and lifts neither an untracked reblog nor a tracked original |
| FeedRemovals.TopTrackedThroughoutIff | app/lib/feed_manager.rb:577-657 | an aggregating run with removals keeps that at every moment if and only if each removal does |
| FeedRemovals.DeduplicatedWithRemovals | app/lib/feed_manager.rb:577-657 | and then no post stands twice near the top |
| JsonLd.PatchForForwarding | app/helpers/json_ld_helper.rb:168-193 | the compacted hash after the loop over the original's fields |
| JsonLd.PatchEach | app/helpers/json_ld_helper.rb:179-188 | the items of an array, paired and patched |
| JsonLdForwarding.PatchedIsSafeIff | app/helpers/json_ld_helper.rb:149-219 | for every document and every compaction of it, the patched copy is safe if and only if no array inside an array was touched |
| JsonLdForwarding.CollapsedArrayIsUnsafe | app/helpers/json_ld_helper.rb:176-177 | a one-item array of an array that was collapsed can never be repaired |
| JsonLdForwarding.FlatFieldsIntact | app/helpers/json_ld_helper.rb:156-159 | documents without arrays of arrays are always repaired |
| JsonLdForwarding.SafeFieldsUntouched | app/helpers/json_ld_helper.rb:168-219 | the patch leaves a safe document as it is |
| JsonLdForwarding.SafeValueReads | app/helpers/json_ld_helper.rb:195-219 | in a safe copy every path to a string, number or boolean of the original leads to the same one |
| JsonLdForwarding.ForwardedReadsAsOriginal | app/helpers/json_ld_helper.rb:149-219 | so a reader that ignores JSON-LD reads the forwarded copy as the original, and patching again changes nothing |
| JsonLdRepairs.PatchRepairs | app/helpers/json_ld_helper.rb:168-193 | for every original and compacted hash the patch changes a value only to the full Public URI for `as:Public`, an item back into its one-item array, or so inside hashes and arrays, and only towards the original |
| JsonLdRepairs.ReplacedHashStays | app/helpers/json_ld_helper.rb:173-191 | a hash replaced by its id is not put back and the document is not safe |
| JsonLdRepairs.ContextAndSignatureIgnored | app/helpers/json_ld_helper.rb:169-205 | the context and the signature play no part |
| JsonLdRepairs.EqualHashesIff | app/helpers/json_ld_helper.rb:213-213 | items are compared as hashes are: the same keys in any order, with equal values |
| JsonLdLimits.KeywordIffPosition | app/helpers/json_ld_helper.rb:139-147 | a document has an unsupported keyword at some depth exactly when one is met in document order |
| JsonLdLimits.KeywordsUnsupported | app/helpers/json_ld_helper.rb:139-147 | each of the three keywords makes its hash unsupported |
| JsonLdLimits.OtherKeysSupported | app/helpers/json_ld_helper.rb:139-147 | and no other key does |
| JsonLdLimits.PassesIff | app/helpers/json_ld_helper.rb:115-137 | the walk succeeds exactly for documents with no unsupported keyword and at most the budget's nodes, and returns what is left |
| JsonLdLimits.CheckLimits | app/helpers/json_ld_helper.rb:116-137 | the verdict, including which of the two errors is raised |
| JsonLdLimits.CheckFields | app/helpers/json_ld_helper.rb:119-125 | the loop over a hash |
| JsonLdLimits.CheckItems | app/helpers/json_ld_helper.rb:126-132 | the loop over an array |
| SignatureParser.Parse | app/lib/signature_parser.rb:19-44 | the scanner loop computes the parameters or raises |
| SignatureParser.ScanPrinted | app/lib/signature_parser.rb:14-17 | the parameter pattern reads a printed pair and leaves the rest |
| SignatureParser.ParseUndoesPrint | app/lib/signature_parser.rb:19-44 | any list with distinct token names and well-formed quoted values is read back from its printed form |
| SignatureParser.PrefixIsIgnored | app/lib/signature_parser.rb:20-21 | with or without the old clients' prefix |
| SignatureParser.ParseFromWellFormed | app/lib/signature_parser.rb:14-44 | whatever is accepted has token names and well-formed values |
| SignatureParser.ReprintedAnswerParses | app/lib/signature_parser.rb:19-44 | printing an answer and reading it again gives the same answer |
| SignatureGrammar.ParsesIff | app/lib/signature_parser.rb:14-44 | a header is accepted if and only if it is parameters in the written syntax, whitespace and quotes as they may be, separated by commas and with no key twice; a repeated key is reported as such |
| HttpSignatures.ParsedSignature | app/lib/http_signature_draft.rb:22-29 | reading the header of a signed request returns the four printed parameters |
| HttpSignatures.SignedHeadersRead | app/lib/signed_request.rb:100-102 | the verifier lists the signer's header names, in lower case and in order |
| HttpSignatures.LinesRebuilt | app/lib/signed_request.rb:110-136 | the verifier's lines are the signed ones, or it raises for a pseudo-header |
| HttpSignatures.TimedLinesRebuilt | app/lib/signed_request.rb:110-136 | under `hs2019` the lines are the signed ones, each pseudo-header with its own parameter, or it raises because a listed one has none |
| HttpSignatures.TimedSignatureVerifies | app/lib/signed_request.rb:28-38 | such a request is accepted exactly if the signature fits these lines, with the query string or without |
| HttpSignatures.TimedSignatureAccepted | app/lib/signed_request.rb:28-38 | so one that its key signed for this request is accepted |
| HttpSignatures.DefaultHeaders | app/lib/signed_request.rb:100-102 | without a list of headers it is `(created)` for `hs2019` and `date` else |
| HttpSignatures.DefaultAlgorithm | app/lib/signed_request.rb:90-98 | without an algorithm it is `hs2019`; a header that cannot be read raises |
| HttpSignatures.MissingHeaderIsEmpty | app/lib/signed_request.rb:133-133 | a listed header that is missing counts as empty |
| HttpSignatures.FullPathParts | app/lib/http_signature_draft.rb:22-29 | the query follows the path after a question mark |
| HttpSignatures.VerifierRebuilds | app/lib/signed_request.rb:110-136 | whatever target was signed, the verifier rebuilds the string that signs the request's own target, with or without the query string |
| HttpSignatures.VerifierRebuildsSignedString | app/lib/signed_request.rb:100-136 | on a request that carries what was signed the verifier rebuilds exactly the signed string |
| HttpSignatures.OwnSignatureVerifies | app/lib/signed_request.rb:28-38 | a signer's request, signed with the query string or without, is accepted if and only if it lists neither `(created)` nor `(expires)` |
| HttpSignatures.AcceptedIffTargetMatches | app/lib/signed_request.rb:28-38 | with a key that fits the signed string only, it is accepted if and only if moreover the signed target is the request's, with the query string or without |
| HttpSignatures.CreationTimeIsRejected | app/lib/signed_request.rb:122-126 | a request whose signature lists the host and any creation time raises |
| HttpSignatures.CanonicalNameFoundAgain | app/lib/signed_request.rb:142-144 | a name of capitalised parts is found again from its lower-case spelling |
| Streaming.StreamingServer.SubscribeListener | streaming/index.js:308-326 | the registry after adding a listener to a channel |
| Streaming.StreamingServer.UnsubscribeListener | streaming/index.js:332-354 | the registry after taking a listener off a channel |
| Streaming.StreamingServer.StreamFrom | streaming/index.js:929-931 | a listener added to each of the channels |
| Streaming.StreamingServer.SubscribeWebsocketToSystemChannel | streaming/index.js:1335-1363 | a new session with its two system subscriptions |
| Streaming.StreamingServer.SubscribeWebsocketToChannel | streaming/index.js:1252-1274 | the end of a subscribe request's promise chain |
| Streaming.StreamingServer.RemoveSession | streaming/index.js:1291-1309 | the registry after ending one subscription |
| Streaming.StreamingServer.OnWebsocketClose | streaming/index.js:1392-1397 | the registry after the close handler, whatever the order of the keys |
| StreamingRuns.SoundEver | streaming/index.js:308-354 | in every run no list is empty, Redis ends up subscribed to exactly the channels with listeners, no command is redundant, and the registered listeners are those the subscription maps name |
| StreamingRuns.OrderedEver | streaming/index.js:308-354 | in every run each channel's listeners stand in the order in which they subscribed |
| StreamingRuns.KeyRoundTripsIff | streaming/index.js:1393-1397 | the close handler recovers the channel ids from the joined key if and only if none holds a semicolon |
| StreamingRuns.CloseSilences | streaming/index.js:1392-1397 | closing a socket takes all of its session's listeners off every channel |
| StreamingRuns.ClosedStaysSilent | streaming/index.js:1252-1397 | a session closed with no subscribe in flight never registers a listener again |
| StreamingRuns.LateSubscribeLeaks | streaming/index.js:1252-1330 | after a close the session ends with no listener if and only if every subscribe that completes late is followed by an unsubscribe from the same channels |
| Conversations.ConversationRecord.constructor | app/models/account_conversation.rb:75-75 | a record loaded with its columns |
| Conversations.ConversationRecord.SetLastStatus | app/models/account_conversation.rb:114-117 | ids sorted, the last one recorded |
| Conversations.ConversationRecord.Prepare | app/models/account_conversation.rb:79-92 | the columns a worker is about to store |
| Conversations.PreparedStores | app/models/account_conversation.rb:74-117 | storing them turns a row that stands for a conversation into one that stands for the changed conversation |
| Conversations.SaveSucceedsIff | app/models/account_conversation.rb:81-102 | a save goes through exactly when the row is still the one that was read |
| Conversations.LoadFinishesIff | app/models/account_conversation.rb:74-103 | a worker is done without saving exactly if its operation would change no status |
| Conversations.SaveRaisesIff | app/models/account_conversation.rb:74-102 | it raises exactly when it would insert beside a row, which only an add does, and is retried exactly when the row it read has changed |
| Conversations.NobodyRaisesIff | app/models/account_conversation.rb:74-103 | in a run nobody raises if and only if each insert finds no row |
| Conversations.SaveStores | app/models/account_conversation.rb:74-103 | and then it applies the operation on top of everything completed before |
| Conversations.NoUpdateLost | app/models/account_conversation.rb:74-103 | under every interleaving the row holds what the completed operations make in commit order: strictly sorted, the maximum as last status, no row when empty; every completed operation counted once |
| Conversations.ConcurrentFirstAddsRaise | app/models/account_conversation.rb:74-85 | two first adds that both find no row: the second raises and is not stored |
| BulkImports.ProgressIsSafe | app/models/bulk_import.rb:51-59 | at every moment imported is at most processed, and finished only with the total processed |
| BulkImports.AllReturnedFinishes | app/models/bulk_import.rb:51-59 | with as many calls as rows, once all have returned the import is finished |
| BulkImports.CountsAtEnd | app/models/bulk_import.rb:51-59 | once all have returned every call is counted and every imported row counted as imported |
| BulkImports.OtherCountsMiss | app/models/bulk_import.rb:51-59 | with any other number of calls there is an interleaving that never finishes it |
| BulkImports.FinishesIff | app/models/bulk_import.rb:51-59 | every interleaving finishes the import if and only if there are as many calls as rows |
| CleanupPolicies.CleanupStore.constructor | app/models/account_statuses_cleanup_policy.rb:97-99 | an account with its policy and cursor |
| CleanupPolicies.CleanupStore.RecordLastInspected | app/models/account_statuses_cleanup_policy.rb:93-95 | the cursor is set |
| CleanupPolicies.CleanupStore.InvalidateLastInspected | app/models/account_statuses_cleanup_policy.rb:101-115 | the cursor is lowered to an unmarked post of the account that the policy kept for the mark |
| CleanupPolicies.CleanupStore.UpdatePolicy | app/models/account_statuses_cleanup_policy.rb:119-126 | saving a widened policy drops the cursor |
| CleanupPolicies.CleanupStore.DiscardEach | app/services/account_statuses_cleanup_service.rb:16-21 | the chosen posts discarded in ascending order, the last one remembered |
| CleanupPolicies.CleanupStore.RunCleanup | app/services/account_statuses_cleanup_service.rb:7-26 | the account after one run, unchanged if the policy is disabled |
| CleanupPolicies.CleanupDeletesOldest | app/models/account_statuses_cleanup_policy.rb:59-91 | a run deletes the oldest deletable posts up to the cut-off, as many as the budget allows, and nothing else |
| CleanupPolicies.DeletedIff | app/models/account_statuses_cleanup_policy.rb:59-194 | a post is deleted if and only if it lies between cursor and cut-off, has nothing that the policy keeps, is below every threshold, and the budget reaches it |
| CleanupPolicies.CutoffIs | app/models/account_statuses_cleanup_policy.rb:80-89 | the cut-off is the newest post old enough and not below the cursor, or the 5000th such post |
| CleanupPolicies.EditDropsCursorIff | app/models/account_statuses_cleanup_policy.rb:119-126 | saving a policy drops the cursor if and only if some post would lose its protection |
| CleanupPolicies.UnmarkMovesCursor | app/models/account_statuses_cleanup_policy.rb:101-115 | each of the three marks taken away moves the cursor back exactly under its own setting |
| CleanupPolicies.CleanupCursorSoundIff | app/services/account_statuses_cleanup_service.rb:16-23 | after a run nothing below the new cursor is deletable if and only if the budget was positive or nothing was deletable up to the cut-off |
| CleanupPolicies.CursorSoundThroughoutIff | app/models/account_statuses_cleanup_policy.rb:59-126 | for any policy and its edits, nothing below the cursor is deletable at any moment of a history if and only if no post dated back, no change of a post and no run without budget breaks it |
| CleanupPolicies.CursorSoundEver | app/models/account_statuses_cleanup_policy.rb:59-126 | while the policy has no popularity thresholds nothing below the cursor is deletable, at every moment, if and only if each post dated back, each edit of a post and each run without budget keeps it so |
| CleanupPolicies.PlainHistoryKeepsSound | app/models/account_statuses_cleanup_policy.rb:59-126 | in particular over every history of posts in the order of their ids, marks, popularity changes, policy edits, expiries and runs with a budget |
| CleanupPolicies.ChangePostIff | app/services/update_status_service.rb:113-137 | a post that comes, or whose columns or counts change, keeps the cursor sound if and only if it is not below it or is kept |
| CleanupPolicies.PublishedDirectPostIsMissed | app/services/update_status_service.rb:225-232 | under the default policy a direct post that a run has passed is deletable below the cursor once it is made public |
| CleanupPolicies.BackdatedPostIsMissed | app/services/albutts/publish_photo_batch.rb:100-112 | and so is a post published under a past id after a run |
| CleanupPolicies.InterruptedRunIff | app/services/account_statuses_cleanup_service.rb:10-23 | a run that other events interrupt can finish at any moment with a sound cursor if and only if it had a budget, or nothing to delete, and each event leaves what it passes kept |
| CleanupPolicies.UnpinDuringRunIsMissed | app/services/account_statuses_cleanup_service.rb:16-23 | an unpin of a post that the run is passing leaves it deletable below the cursor |
| CleanupPolicies.UnmarkedPostIsSeenAgain | app/models/account_statuses_cleanup_policy.rb:101-115 | a post unpinned, unfavourited or unbookmarked is either kept otherwise or no longer below the cursor |
| CleanupPolicies.CountsChangeIff | app/models/account_statuses_cleanup_policy.rb:167-172 | a change of popularity keeps the cursor sound if and only if the post is above it or kept otherwise |
| CleanupPolicies.DropPollIff | app/services/update_status_service.rb:114-118 | so does an edit that drops the poll |
| EmojiFormatter.Format | app/lib/emoji_formatter.rb:36-66 | the emitted pieces concatenate to the text, and the replaced spans are exactly those from an opening colon to the next one around a known shortcode |
| EmojiFormatter.EmitShortcode | app/lib/emoji_formatter.rb:54-57 | the text since the last replacement and the shortcode are emitted |
| EmojiFormatter.ReplacedSpansApart | app/lib/emoji_formatter.rb:6-62 | replaced spans are apart, colon-free inside, and bounded by the ends or by neither letters, digits nor colons |
| EmojiFormatter.StrayColonHidesShortcode | app/lib/emoji_formatter.rb:47-52 | a shortcode after a stray opening colon is left as text |
| Mates.FollowTable.constructor | app/models/follow.rb:66-70 | no follows, all counters zero |
| Mates.FollowTable.Create | app/models/follow.rb:66-70 | the follow and the counters after it is created |
| Mates.FollowTable.Destroy | app/models/follow.rb:72-76 | the follow and the counters after it is destroyed |
| Mates.FollowTable.UpdateMatesCounters | app/models/follow.rb:84-100 | both mates counters change if and only if the opposite follow exists |
| Mates.AccurateEver | app/models/follow.rb:46-100 | without self-follows, in every run the counters are the degrees and the number of mutual follows |
| MatesTransactions.CommittedAccurateIff | app/models/follow.rb:46-100 | in every interleaving of transactions, committed or rolled back, the committed state is that of the committed changes one after the other, and without self-follows its counters are right if and only if no follow was destroyed after its row was gone |
| MatesTransactions.DestroyedTwice | app/models/concerns/account/interactions.rb:100-103 | destroying one follow twice leaves its follower's counter at minus one |
| MatesTransactions.CommitKeepsAnswers | app/models/follow.rb:84-100 | no commit changes what another transaction's lookup of the opposite follow found |
| MatesTransactions.DeadlockIff | app/models/follow.rb:66-76 | transactions can wait for each other if and only if those that hold their follower's counters include a circle of follows |
| MatesTransactions.DeadlockBlocks | app/models/follow.rb:66-76 | and then none of them can go on |
| MatesTransactions.OppositesWaitIff | app/models/follow.rb:66-76 | two of them wait for each other if and only if their follows are opposite |
| MatesTransactions.OppositeFollowsDeadlock | app/models/follow.rb:66-70 | and two people who follow each other at once get there |
| Mates.FollowAccurateIff | app/models/follow.rb:66-100 | creating a follow keeps the counters right if and only if it is not of oneself |
| Mates.UnfollowAccurateIff | app/models/follow.rb:72-100 | and so for destroying one |
| Mates.MatesSumToTwicePairs | app/models/follow.rb:78-100 | all mates counters together are twice the number of mutual pairs |
| Freethedream.View | app/models/freethedream_document.rb:92-124 | the two loops compute the view |
| Freethedream.CollectProjects | app/models/freethedream_document.rb:94-100 | the projects of one person's drops, a later key winning |
| Freethedream.ViewKeepsRunners | app/models/freethedream_document.rb:102-108 | what is hidden never changes which projects there are or who runs one |
| Freethedream.ViewForIdempotent | app/models/freethedream_document.rb:92-124 | the view of a view is the view |
| Freethedream.ViewHidesOthersBusiness | app/models/freethedream_document.rb:86-91 | another person sees exactly the claims on open projects or on their own, no dismissals, and only edits and logos from runners |
| Freethedream.CollectedProjects | app/models/freethedream_document.rb:93-100 | the projects are those that somebody suggested, as suggested last |
| Freethedream.ViewShows | app/models/freethedream_document.rb:86-124 | what anyone, the owner included, sees of a document, told from all documents: drops, follows, requests, entries with their contents, and nothing else |
| Freethedream.ShownClaimsInOrder | app/models/freethedream_document.rb:113-116 | requests are left out one by one and keep their order |
| Tracklists.BoothSet.SetTracklistText | app/models/booth_set.rb:131-133 | the list becomes what the lines parse to; setting a list's own text leaves it unchanged if its entries survive being printed |
| Tracklists.ParseLines | app/models/booth_set.rb:131-133 | the loop keeps the lines that parse, parsed, in order |
| Tracklists.SplitsAtJointIff | app/models/booth_set.rb:147-147 | a name is split where it was joined if and only if no spaced dash starts inside the artist, or inside a lone title |
| Tracklists.TimeBack | app/models/booth_set.rb:159-163 | a printed time is read back, hours or not |
| Tracklists.StartBack | app/models/booth_set.rb:128-128 | a printed start is taken off the line, with a separator the name begins with |
| Tracklists.AnyStartReads | app/models/booth_set.rb:119-128 | a time with or without brackets and with any of five separators is taken off the name |
| Tracklists.AnyDashReads | app/models/booth_set.rb:129-157 | a hyphen, an en dash or an em dash parts artist and title |
| Tracklists.NoNameNoEntry | app/models/booth_set.rb:143-145 | a blank line, or a time alone, is no entry |
| Tracklists.LineReadBackIff | app/models/booth_set.rb:135-157 | a printed entry is read back as itself if and only if its name begins with no time, or after a start with no separator, and its first spaced dash joins artist and title |
| Tracklists.PlainNamesSurvive | app/models/booth_set.rb:128-157 | in particular if the artist, or a lone title, has no dash and the name starts with no digit, bracket or separator |
| Tracklists.TracklistReadBack | app/models/booth_set.rb:131-141 | a list of such one-line entries is read back from its text unchanged |

## Left out

- Redis, the database and the job queue themselves: sorted sets are sets of ids or maps, sets and rows are values, and each command or statement is one atomic step; Redis scores are exact integers here, not floating-point numbers.
- Other writers between the commands of one feed operation: feed operations run one after another.
- `filter_from_home` and the crutches queries: an arbitrary fixed predicate on ids; push notifications and streaming updates of feeds are not part of this model.
- List feeds, tag feeds and `clear_from_home`: they use the same adds, removals and trims.
- FeedPopulate.PopulateKeepsNewest: posts that are inserted without aggregation only, of which the feed tracks no reblog; with aggregated reblogs the outcome depends on the order of the accounts.
- FeedPopulate.StepMissesOnlyOld: the same posts.
- FeedPopulate.PopulateMissesOnlyOld: the same posts.
- FeedPopulate.MergeKeepsNewest: the same posts.
- FeedPopulate.TimelyScoreCovers: that an account's last-status time is not before the second any post it offers was made in is assumed; it is set when a post is counted, so a direct post made public later may break it.
- FeedRuns.NoDuplicatesNearTheTopEver: reblogs of answers are set apart, because they are never tracked.
- FeedUnmerge.UnmergeClearsAccount: deleted rows that the timeline still lists are not found by the query and stay.
- JsonLd.PatchForForwarding: works on values; two hashes of one document are never the same object. Floating-point numbers are not modelled.
- JSON-LD expansion and compaction: represented only by the artefacts the patch documents.
- HttpSignatures.OwnSignatureVerifies: the key pair and Base64 are one function from a string to its signature text; digest, time window and strength checks are not part of this model; case conversion is for ASCII letters.
- `HttpMessageSignature`: it delegates to a library.
- StreamingRuns.SoundEver: event-source connections and the messages themselves are left out; channel ids are assumed free of semicolons, as ids and normalised hashtags are.
- Conversations.NoUpdateLost: validation failures other than the unique index, and the streaming push after a commit, are left out.
- BulkImports.FinishesIff: row deletion and the job's own retries are left out.
- EmojiFormatter.Format: one text node; parsing the document and the image tag are left out, and letters and digits are a given class of characters.
- Mates.AccurateEver: the counters' clamping at zero when read never applies.
- MatesTransactions.CommittedAccurateIff: the database's isolation is taken as given: an updated row stays locked until its transaction ends, and a statement sees what was committed before it; the resolution of a deadlock is a rollback.
- Freethedream.View: the fields of a drop that the view never looks at are one value; cleaning of stored documents is left out.
- Tracklists.LineReadBackIff: ASCII whitespace; validation of stored lists is assumed (start up to 24 hours, title present).
- Controllers, mailers, serializers, rendering and routing: no deep state.
