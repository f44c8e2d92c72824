# mmw-agent: verified models of the stateful cores

mmw-agent runs beside an Xray core and an nginx: it keeps their configuration, limits the
connections and the speed of their users, and talks to its master over an encrypted channel. This
project models the parts of it that keep state across requests, restarts and connections, and
proves what they keep.

| part | modules | shape |
|---|---|---|
| Secure channel | `Words`, `SecureChannel`, `Delivery` | classes for the replay window and the session; a network as a run of events |
| Connection quota | `ConnQuota` | interleaved atomic operations on shared counters |
| Connection registry | `ConnRegistry` | classes; sets of interrupt functions with object identity |
| Rate limiter | `RateLimiter`, `RateLimiterRuns` | classes; shared token buckets changed in place |
| Config transaction | `ConfigTxn`, `ConfigTxnRuns` | a class over files; a failure or a crash possible at every write |
| Restart merge and rules | `Json`, `Seqs`, `Routing`, `ConfigMerge` | loops proved against functions, stable sorting |
| De-duplication, takeover, reordering | `Dedupe`, `Takeover`, `Reorder` | loops with index tables proved against functions |
| Automatic speed limit | `SpeedMonitor`, `SpeedHistory`, `SharedStreak` | a class per monitor; its state against the whole history |
| nginx scanner, log tail | `NginxConfig`, `TailLog` | scanning loops against declarative definitions |

`dafny verify dfyconfig.toml` checks everything.

How the model is set up:

- The AEAD, the rule signature, the JSON printer and the config normaliser are parameters; the AEAD
  is only assumed to open what it sealed, and to add its tag. The content hash is free of
  collisions.
- 64-bit words and bytes are bounded integers with their own OR, AND, XOR and truncating shift
  (`Words`), so the bitmap code reads as in the source.
- What the outside does (a write, a restart, a config check succeeding, failing or being cut off
  by a crash; which envelopes arrive; which connection runs next) is an argument, and the theorems
  hold for all of it.
- Imperative parts are methods proved equal to a function or given their full new state; the
  theorems are lemmas about those functions, or methods that run a whole script of operations.

Where the code differs from what its comments or interface promise, the code is modelled as it is, and
a lemma gives the exact condition or a family of inputs:

- `ConfigTxnRuns.PrepareRepeatIff`: repeating `prepare` is idempotent only for configs that
  normalisation leaves alone. `ActivateRetryAfterCrash`, `AbortStrandsIff`, `CommittedUndoneIff`,
  `RollbackReplacesIff` and `UnreadableMetaIff` describe the other corners of the transaction.
- `Routing.AddSurvivesRestartIff`: a rule added at run time keeps its place across a restart only
  if the template has no rule of its class.
- `RateLimiterRuns.OldAndNewConnection`: the comment in internal/limiter/limiter.go:256-262 promises
  that a sync reaches every open connection. It does exactly as long as no collection of the online
  users has found the user neither connected anew since the collection before nor limited
  automatically; such a collection takes the connection's bucket out of the hub for good. Two
  collections in a row do (`SecondCollectForgets`), and for a bucket found by a lookup one is enough
  (`LookupThenRun`).
- `ConfigMerge.ConfigStableIff`: restarts leave the config alone only for templates whose
  inbounds and outbounds are all tagged and whose rules are all objects (and sorted, on the first start).
- `Dedupe.NoUserLostIff`: users of a copy are lost, neither they nor anybody who matches them being
  left, exactly when the first copy of its tag has no settings. Somebody who matches may only share
  an email: `KeySurvivesIff` says when a user's own key is kept, `EmailOnlyReplaces` shows two keys
  that are not, and `KeysSurvive` that all are if every entry carries one.
- `ConnQuota.RefusedWithNothingLive`: a connection can be refused although its group has no lease.
- `SharedStreak.AppliedIffFired`: several sustained rules share one streak, which begins where the
  last of them was exceeded and goes on while all of them are.
- `TailLog.TailTruncates`: files ending in a blank line can lose the start of the first line shown.

## Model

| member | source | states |
|---|---|---|
| Words.ShiftBit | internal/securechan/securechan.go:123-130 | Shifting a 64-bit word left by any count moves bit j to j + count and clears the bits below |
| Words.BigEndianRoundTrip | internal/securechan/securechan.go:221-236 | The number read from the header is the number written to it, for every number that fits |
| Words.BigEndianBits | internal/securechan/securechan.go:217-221 | Bit k of byte i of the encoding is bit 8 * (width - 1 - i) + k of the number: the most significant byte comes first |
| Words.XorCancels | internal/securechan/securechan.go:260-262 | XOR with the same base undoes itself |
| Words.XorBit | internal/securechan/securechan.go:260-262 | Bit k of the XOR is set exactly when the two bits k differ |
| SecureChannel.JumpRepresents | internal/securechan/securechan.go:123-132 | After a jump of any size the shifted bitmap stands for the accepted numbers and the new one |
| SecureChannel.MarkRepresents | internal/securechan/securechan.go:134-142 | Marking a late number keeps the bitmap standing for the accepted numbers |
| SecureChannel.ReplayWindow.Check | internal/securechan/securechan.go:119-144 | True exactly when the number is non-zero, never accepted before and less than 64 behind every accepted one; the set of accepted numbers grows by it and by nothing else |
| SecureChannel.MakeNonce | internal/securechan/securechan.go:255-264 | The loop leaves the first four bytes of the base and turns over each later bit where the big-endian number has its bit |
| SecureChannel.NoncesApart | internal/securechan/securechan.go:255-264 | Nonces with these bits, for one base, are equal only if the 64-bit numbers are |
| SecureChannel.NonceInjective | internal/securechan/securechan.go:255-264 | For any base, two 64-bit numbers have the same nonce only if they are equal |
| SecureChannel.Session.constructor | internal/securechan/securechan.go:166-183 | Master and agent take the four key outputs in mirrored directions |
| SecureChannel.Session.Encrypt | internal/securechan/securechan.go:212-225 | The counter advances by one modulo 2^64 and the envelope frames the text sealed under that number |
| SecureChannel.Session.Decrypt | internal/securechan/securechan.go:228-253 | Answers and accepted numbers for every envelope, malformed, replayed and unauthentic ones included |
| SecureChannel.EnvelopeLayout | internal/securechan/securechan.go:211-225 | Byte by byte: version 1, the number most significant byte first, and the text sealed under the nonce with the bits of that number |
| SecureChannel.ReceiveMeaning | internal/securechan/securechan.go:227-253 | From the bytes of any envelope: below 25 bytes and other versions are rejected without a trace; else the number in the header is judged against the last 64, and what is taken is opened under that number's nonce |
| Delivery.EnvelopeOpens | internal/securechan/securechan.go:211-253 | An envelope made by Encrypt passes the header checks of Decrypt, gives back its number, and opens to its text |
| Delivery.AtMostOnceUnchanged | internal/securechan/securechan.go:212-253 | Over any network that drops, duplicates and reorders, every delivery is the text sent under its index and no message is delivered twice |
| Delivery.DeliveredExactlyWhen | internal/securechan/securechan.go:238-243 | With fewer than 2^64 messages, an arriving envelope is delivered exactly when it was not delivered yet and is less than 64 behind every delivered one |
| Delivery.NothingLostWithinWindow | internal/securechan/securechan.go:113-144 | If no arrival trails an earlier one by 64 or more, the delivered messages are exactly those that arrived |
| Delivery.Exchange | internal/securechan/securechan.go:148-253 | Two sessions derived from the same keys, both sending and receiving over any script: each direction delivers what the channel of the lemmas does on its own events |
| Delivery.NonceReuse | internal/securechan/securechan.go:213-215 | Two messages of a session share a nonce exactly when their positions agree modulo 2^64 |
| Delivery.WireNonces | internal/securechan/securechan.go:212-225 | Over any run two messages on the wire are sealed under one nonce exactly when their positions agree modulo 2^64 |
| ConnQuota.CountersExact | internal/limiter/limiter.go:160-200 | At every moment of every interleaving: quota counter = live leases + attempts not yet undone, statistics = held leases, each refusal reported once, clamp to zero never reached |
| ConnQuota.NeverAboveLimit | internal/limiter/limiter.go:169-182 | A group whose attempts find positive limits of at most max never has more than max live leases, however the attempts interleave |
| ConnQuota.RefusedExactlyWhen | internal/limiter/limiter.go:170-176 | An attempt is refused exactly when the limit is positive and live leases plus pending undos reach it |
| ConnQuota.RefusedWithNothingLive | internal/limiter/limiter.go:171-175 | With limit 1, an attempt refused while its group has no lease |
| ConnQuota.StepNeverClamps | internal/dispatcher/default.go:150-168 | With one release per granted lease no step leads to a clamp |
| ConnQuota.ComesThrough | internal/limiter/limiter.go:169-200 | However the others interleave, three turns of its own bring an attempt under way to granted or refused, and one brings a released one to its end |
| ConnQuota.CloseReleases | internal/dispatcher/default.go:162-165 | Closing the connection of a held lease and one more turn end it |
| ConnQuota.SettledCounts | internal/limiter/limiter.go:160-200 | Once every attempt is granted, refused or closed, quota and statistics are the numbers of leases held |
| ConnQuota.GrantedIff | internal/limiter/limiter.go:169-182 | An attempt begun then is granted exactly when it has no limit or its group holds fewer leases than the limit |
| ConnRegistry.Registry.TrackConn | internal/limiter/limiter.go:85-104 | Tracks the connection under a handle never issued before and changes nothing else |
| ConnRegistry.Registry.Cleanup | internal/limiter/limiter.go:96-104 | Untracks its own connection only, early, late or repeated, even after the group was cut and tracked anew |
| ConnRegistry.Registry.KickConnGroup | internal/limiter/limiter.go:107-123 | Calls each tracked, not cleaned connection of the group exactly once and no other |
| ConnRegistry.RunAll | internal/limiter/limiter.go:85-123 | Over any run each operation calls exactly the connections tracked before it in the group it cuts and neither cleaned up nor cut since, each once; the handles issued and those live at the end are exactly those the run says |
| ConnRegistry.CalledOnce | internal/limiter/limiter.go:95-123 | A connection is called at most once in a run and never after its cleanup |
| ConnRegistry.CalledIff | internal/limiter/limiter.go:85-123 | A tracked connection is called exactly when its group is cut at least once before its cleanup |
| ConnRegistry.KickRemoved | internal/limiter/limiter.go:299-301 | Cutting several groups calls exactly their live connections, once each |
| RateLimiter.CalcBurst | internal/limiter/limiter.go:523-532 | A quarter of the rate, between 64 KiB and 256 KiB |
| RateLimiter.DetermineRate | internal/limiter/limiter.go:535-549 | The smaller of the limits that are set, 0 exactly when none is |
| RateLimiter.Limiter.AddInboundLimiter | internal/limiter/limiter.go:239-252 | A new inbound has the listed users and an empty hub |
| RateLimiter.Limiter.SyncInboundLimiter | internal/limiter/limiter.go:266-317 | Every bucket stays the same object; those of listed users with a rate run at it, all others are untouched; the removed groups are given |
| RateLimiter.RemovedExactly | internal/limiter/limiter.go:125-130 | A group is removed exactly when some previous user is in it, by connection group or, without one, by email, and no listed user is |
| RateLimiter.StoreKeepsOthers | internal/limiter/limiter.go:326-328 | Storing a list of users keeps every entry it does not list and adds no other key |
| RateLimiter.StoreHasListed | internal/limiter/limiter.go:294-296 | Under a listed key the last entry listed with it is found |
| RateLimiter.Limiter.UpdateInboundLimiter | internal/limiter/limiter.go:319-343 | Users are merged in, every bucket stays the same object, those with a rate run at it, all others are untouched |
| RateLimiter.Limiter.GetUserBucket | internal/limiter/limiter.go:349-401 | The hub's bucket if there is one, else a new one at the static rate, which the hub then holds |
| RateLimiter.Limiter.GetOnlineUsers | internal/limiter/limiter.go:409-449 | Reports and forgets the online addresses; drops exactly the buckets of users neither online nor automatically limited |
| RateLimiter.Limiter.SetUserSpeed | internal/limiter/limiter.go:473-506 | Marks or unmarks the user and changes the rate of the hub's bucket in place, back to the static rate for 0; no other bucket changes |
| RateLimiter.Limiter.LookupBucketByEmail | internal/limiter/conn.go:84-120 | A bucket of an inbound that has a limited entry of the user, created at the static rate if missing; none only when every inbound has no entry of the user or one without a limit (node limits alone do not count) |
| RateLimiterRuns.Replay | internal/limiter/limiter.go:225-506 | Over any run users, limits, marks and who is online move as a function of the operations; the hub holds the very same bucket exactly as long as no collection drops it; and it runs at the rate last written into it until then, by a push, an automatic limit or its lifting |
| RateLimiterRuns.QuietWritesNothing | internal/limiter/limiter.go:303-343 | A run without static rate for the user and without change of the automatic one writes nothing into the bucket |
| RateLimiterRuns.LimitThenRun | internal/limiter/limiter.go:471-486 | After limiting a user and any run that does not lift the limit the hub holds the same bucket, at the automatic rate or the one the run wrote last; at the automatic rate if the run is quiet |
| RateLimiterRuns.LimitRunRestore | internal/limiter/limiter.go:471-506 | Limit, any such run, lift: the hub holds the same bucket, which ends at the user's static rate of that moment, unlimited without one |
| RateLimiterRuns.LimitThenSync | internal/limiter/limiter.go:303-316 | A sync while the limit is on stores the configuration and keeps the automatic rate exactly when it has no static rate for the user, or the same one |
| RateLimiterRuns.MarkedKeeps | internal/limiter/limiter.go:227-230 | While the automatic limit of a user is on, no collection drops the user's bucket |
| RateLimiterRuns.DroppedIffForgets | internal/limiter/limiter.go:409-449 | A bucket is dropped exactly by a collection that finds its user neither limited automatically nor seen since the collection before |
| RateLimiterRuns.SecondCollectForgets | internal/limiter/limiter.go:409-449 | A user without automatic limit is forgotten by the first collection if not online, and by the second in a row in any case |
| RateLimiterRuns.ConnectThenRun | internal/limiter/limiter.go:349-449 | A connection gets the hub's bucket, or a new one; after any run the hub holds it exactly when no collection of the run forgot its user |
| RateLimiterRuns.LookupThenRun | internal/limiter/conn.go:84-120 | The same for a bucket found by a lookup, which does not make its user online |
| RateLimiterRuns.SyncThenConnect | internal/limiter/limiter.go:266-401 | After a sync with distinct emails the configuration is the new one and a new connection of a listed user with a rate runs at it, in the bucket the hub held if it held one |
| RateLimiterRuns.SyncAround | internal/limiter/limiter.go:254-317 | A sync with a rate for the user and a new connection: the hub's bucket is the new connection's and runs at the rate; a bucket the hub does not hold is left alone |
| RateLimiterRuns.OldAndNewConnection | internal/limiter/limiter.go:254-317 | After a connection, any run, a sync with a rate for its user and another connection, both share the hub's bucket, running at that rate, exactly when no collection of the run forgot the user; the limiter's other state is that of the five steps |
| RateLimiterRuns.SyncAndKick | internal/limiter/limiter.go:266-317 | A sync stores the configuration, pushes the rates into the same buckets and cuts exactly the live connections whose group some previous user was in, by connection group or else by email, and no listed user is in |
| RateLimiterRuns.StoreHolds | internal/limiter/limiter.go:295-297 | With distinct emails each listed user is found, and alone, under the email |
| RateLimiterRuns.PushedOwnRate | internal/limiter/limiter.go:306-316 | With distinct emails each listed user's bucket is left at the user's own rate |
| ConfigTxn.Handler.Prepare | internal/handler/xray_config_transaction.go:189-254 | Answer and files after prepare for every failure and crash point |
| ConfigTxn.Handler.Activate | internal/handler/xray_config_transaction.go:302-354 | Answer and files after activate, its own undo included |
| ConfigTxn.Handler.Rollback | internal/handler/xray_config_transaction.go:356-384 | Answer and files after rollback |
| ConfigTxn.Handler.Commit | internal/handler/xray_config_transaction.go:139-161 | Answer and files after commit |
| ConfigTxn.Handler.Abort | internal/handler/xray_config_transaction.go:162-176 | Answer and files after abort |
| ConfigTxnRuns.PrepareSucceedsIff | internal/handler/xray_config_transaction.go:189-254 | Prepare succeeds exactly for text that is not blank and is accepted, with no readable transaction, a readable live config that is the expected one, and all writes done; and what files it leaves |
| ConfigTxnRuns.PrepareKnown | internal/handler/xray_config_transaction.go:194-202 | For a known operation prepare writes nothing: a repeat exactly for the stored candidate in the prepared or activated state, else a conflict |
| ConfigTxnRuns.RefusalsTouchNothing | internal/handler/xray_config_transaction.go:102-187 | Prepare, commit and abort leave the live config alone; refusals leave everything alone; unreadable metadata is no transaction |
| ConfigTxnRuns.StateSaved | internal/handler/xray_config_transaction.go:89-96 | An answer that names a state leaves the metadata in it |
| ConfigTxnRuns.ActivateAnswers | internal/handler/xray_config_transaction.go:302-354 | Activation succeeds exactly from the prepared state with everything readable, the live config as prepare read it, and write, restart and saving done; it is a repeat exactly in the activated state |
| ConfigTxnRuns.FailedRestart | internal/handler/xray_config_transaction.go:332-345 | When the candidate will not start, the old bytes are live again exactly if the backup was read and written back (or is the candidate), the answer says so exactly if the second restart succeeded, and the operation can then be activated again |
| ConfigTxnRuns.RollbackAnswers | internal/handler/xray_config_transaction.go:356-384 | Rollback succeeds exactly when metadata and backup are readable, the live config reads as the old one or is written back and restarted, and the state is saved |
| ConfigTxnRuns.CommitAnswers | internal/handler/xray_config_transaction.go:139-161 | Commit succeeds exactly for an activated or committed operation whose candidate is live, if the state is saved and nothing crashes; without its backup it cannot be rolled back |
| ConfigTxnRuns.NextKeepsInv | internal/handler/xray_config_transaction.go:132-187 | Every action, cut off anywhere, keeps each uncommitted transaction's backup, candidate and hashes those of its prepare, provided a prepare can read its metadata |
| ConfigTxnRuns.Recoverable | internal/handler/xray_config_transaction.go:98-101 | After any run with any crashes, an uncommitted transaction rolls back to exactly the bytes its prepare read |
| ConfigTxnRuns.RollbackWithUnreadableConfig | internal/handler/xray_config_transaction.go:367-377 | When the live config cannot be read, rollback restores exactly unless those bytes were empty and others are live |
| ConfigTxnRuns.CommittedUndoneIff | internal/handler/xray_config_transaction.go:154-160 | A committed transaction can still be rolled back exactly while its backup is there |
| ConfigTxnRuns.NoLostUpdate | internal/handler/xray_config_transaction.go:316-353 | In any interleaving, an activation that is not a repeat replaces exactly the bytes its own prepare read |
| ConfigTxnRuns.SecondActivateRefused | internal/handler/xray_config_transaction.go:321-324 | Of two operations prepared on the same bytes the second is refused, and touches nothing, while the first one's config is live |
| ConfigTxnRuns.ActivateSucceedsIff | internal/handler/xray_config_transaction.go:302-353 | With nothing going wrong, a prepared operation activates exactly while the live config reads as its prepare read it |
| ConfigTxnRuns.RollbackReplacesIff | internal/handler/xray_config_transaction.go:367-377 | Rollback leaves the live config alone exactly while it reads as prepare read it; anything else, also another writer's bytes, is replaced |
| ConfigTxnRuns.PrepareRepeatIff | internal/handler/xray_config_transaction.go:194-202 | A repeated prepare is answered as a repeat exactly when normalising leaves the config alone, else as a conflict |
| ConfigTxnRuns.ActivateRetryAfterCrash | internal/handler/xray_config_transaction.go:321-351 | After a crash behind the config write, a retry is refused exactly when the candidate differs from the old bytes; rollback still works |
| ConfigTxnRuns.UnreadableMetaIff | internal/handler/xray_config_transaction.go:194-243 | A prepare that cannot read existing metadata costs the operation its way back exactly when it gets to write the backup while the live config is not what the first prepare read |
| ConfigTxnRuns.AbortStrandsIff | internal/handler/xray_config_transaction.go:162-176 | An abort is accepted in every state but activated; the old bytes are live afterwards exactly if they were before, and no rollback finds the operation any more |
| ConfigTxnRuns.AbortAfterCrashStrands | internal/handler/xray_config_transaction.go:162-176 | Aborting after a crash behind the config write leaves the candidate live and the operation unknown |
| ConfigTxnRuns.Serve | internal/handler/xray_config_transaction.go:102-187 | Serving a list of requests leaves the disk the run describes |
| Routing.PriorityExact | internal/handler/management_handler.go:6321-6348 | The exact class of every rule, read off its outboundTag and marktag |
| Routing.Priority | internal/handler/management_handler.go:6321-6348 | Classes lie between -1 and 4; what is not an object is in class 4 |
| Routing.PriorityOrder | internal/handler/management_handler.go:6301-6348 | Disguise site, port forwards, user and shared routed rules by their marktag forms, and unmarked rules have the classes -1, 0, 1, 2 and 4 |
| Routing.StableSortUnique | cmd/mmw-agent/main.go:1205-1212 | Two sorted lists with the same classes are equal: a stable sort is unique |
| Routing.StableSortCorrect | cmd/mmw-agent/main.go:1208-1212 | Insertion sort by class is a stable sort and keeps the length |
| Routing.SortStable | cmd/mmw-agent/main.go:1208-1212 | The sorting loop gives the stable sort |
| Routing.MergeRules | cmd/mmw-agent/main.go:1173-1213 | The loops compute the merge of the rules |
| Routing.MergedMembers | cmd/mmw-agent/main.go:1189-1212 | The result holds the template's rules and exactly the existing rules it does not replace |
| Routing.ReplacedExactly | cmd/mmw-agent/main.go:1189-1204 | An existing object rule that is not the template's stays exactly when no template rule has its signature and no template object its non-empty marktag; other items stay |
| Routing.MarkedByTemplate | cmd/mmw-agent/main.go:1197-1199 | Every merged rule whose marktag a template object carries is a template rule |
| Routing.StayInOrder | cmd/mmw-agent/main.go:1189-1212 | Each class of the result is the template's rules of it followed by the existing ones that stay, both in their order |
| Routing.SurvivorsOfMerge | cmd/mmw-agent/main.go:1191-1204 | Filtering a merge result leaves, class by class, the template's non-objects and the first survivors |
| Routing.RulesStableIff | cmd/mmw-agent/main.go:1173-1213 | Merging the rules again changes nothing exactly when all template rules are objects |
| Routing.RoutingStableIff | cmd/mmw-agent/main.go:1153-1215 | The same for the whole block, with the exact condition when there was no block yet |
| Routing.MergeRoutingBlock | cmd/mmw-agent/main.go:1153-1215 | The copying loops over the existing and the template's fields, in any order, compute the merged block: the template's value wins in every field but the rules |
| Routing.AddRule | internal/handler/management_handler.go:3444-3456 | The loop inserts before the first object rule that is not of a smaller class |
| Routing.AddRuleOrdered | internal/handler/management_handler.go:3442-3456 | Insertion keeps a sorted list of objects sorted, puts the new rule first in its class and keeps the order of all others |
| Routing.AddedSortedIff | internal/handler/management_handler.go:3442-3456 | For any sorted list insertion keeps it sorted exactly when it passes over no item that is not an object, or the rule is of the last class |
| Routing.AddSurvivesRestartIff | internal/handler/management_handler.go:6317-6320 | After any merge, an added rule stays where it is across the next merge exactly when the template's rules are objects, none of them filters it or is of its class, and insertion passed over no item that is not an object (but in the last class) |
| ConfigMerge.MergeTaggedArray | cmd/mmw-agent/main.go:1121-1149 | The loops compute the template's items followed by the existing items with other tags |
| ConfigMerge.TaggedKeepsOwn | cmd/mmw-agent/main.go:1119-1149 | The template is a prefix of the result; an existing item is kept exactly when it has no tag or no template item has its tag |
| ConfigMerge.OwnKeepOrder | cmd/mmw-agent/main.go:1136-1148 | The items kept follow the template in their order |
| ConfigMerge.TemplateWins | cmd/mmw-agent/main.go:1098-1116 | Field by field: the template's value wins, its absence leaves the existing one, and only inbounds, outbounds and routing are merged |
| ConfigMerge.TaggedStableIff | cmd/mmw-agent/main.go:1121-1149 | Merging again changes nothing exactly when all template items are tagged |
| ConfigMerge.MergeXrayConfig | cmd/mmw-agent/main.go:1098-1116 | The loop over the template's fields computes the merged config in any order |
| ConfigMerge.ConfigStableIff | cmd/mmw-agent/main.go:1083-1117 | A second restart leaves the config as the first wrote it exactly for templates with tagged items and object rules (sorted when no routing existed) |
| Dedupe.MatchMeaning | internal/handler/management_handler.go:2971-3013 | Credential matching is symmetric; two full credentials match by the primary key alone |
| Dedupe.MatchByProtocol | internal/handler/management_handler.go:2988-3013 | For each protocol by its own key field: two entries that both have it match by it, others by a shared email |
| Dedupe.MergeInboundClients | internal/handler/management_handler.go:2138-2183 | The loops compute the merged inbound |
| Dedupe.MergeLosesNoneIff | internal/handler/management_handler.go:2138-2183 | Merging a copy loses none of its users exactly when the survivor has settings or the copy has no users |
| Dedupe.MergeKeeps | internal/handler/management_handler.go:2138-2183 | Merging removes no entry of the survivor and changes nothing but its settings |
| Dedupe.MergedByProtocol | internal/handler/management_handler.go:2144-2160 | For each protocol by the name of its array: every entry of the copy's array is in the survivor's, or matches one there; under other protocols nothing moves |
| Dedupe.AddedAreNew | internal/handler/management_handler.go:2166-2181 | What is added are entries of the copy, in their order, none of which matched anybody present by then |
| Dedupe.KeptExactly | internal/handler/management_handler.go:2097-2134 | The items without a tag and the first of each tag remain, in their order, changed in their settings at most |
| Dedupe.DedupedIsFirsts | internal/handler/management_handler.go:2088-2134 | The untagged items and the first item of each tag remain, in order, outbounds unchanged, inbounds but for their settings |
| Dedupe.DedupeIdempotent | internal/handler/management_handler.go:2097-2134 | Each non-empty tag remains once, and a second pass changes nothing |
| Dedupe.NoUserLost | internal/handler/management_handler.go:2090-2096 | Every tagged copy has a survivor of its tag that, if it has settings, has each of the copy's users of a known protocol or somebody with the same identity |
| Dedupe.NoUserLostIff | internal/handler/management_handler.go:2090-2134 | For every tagged copy of a known protocol, the survivor of its tag covers its users exactly when the first copy of the tag has settings or this copy has no users |
| Dedupe.NoUserLostByProtocol | internal/handler/management_handler.go:2090-2160 | Over the whole list, for each protocol by the name of its array: with settings on the first copy every entry of every copy is in the survivor's array, or matches one there |
| Dedupe.KeySurvivesIff | internal/handler/management_handler.go:2153-2183 | A primary key is in the merged list exactly when it was in the survivor's, or an entry of the copy brings it while no entry without a key has that entry's email |
| Dedupe.EmailOnlyReplaces | internal/handler/management_handler.go:2971-3013 | An entry with an email only swallows two full credentials with that email |
| Dedupe.KeysSurvive | internal/handler/management_handler.go:2097-2183 | If every entry of every copy of a tag carries the primary key and the first copy has settings, every key of every copy is in the survivor |
| Dedupe.SettingsOfSurvivor | internal/handler/management_handler.go:2093-2094 | The survivor has settings exactly when the first copy has |
| Dedupe.DedupeTaggedArrayInPlace | internal/handler/management_handler.go:2097-2134 | The loop with its table of seen tags leaves the de-duplicated array under its key, every other field as it was, and counts what went |
| Takeover.BaseKeepsPlaces | internal/handler/external_xray.go:220-252 | Every base item keeps its place, replaced by the overlay's last item of its tag if it is the last of that tag, else itself |
| Takeover.OverlayWins | internal/handler/external_xray.go:244-249 | Under each overlay tag the overlay's last item ends up |
| Takeover.OverlaidLength | internal/handler/external_xray.go:233-251 | What is appended: the untagged items and the first of each tag the base does not have |
| Takeover.NewItemPlace | internal/handler/external_xray.go:233-251 | Each appended item has its place by the number appended before it, and there stands itself without a tag, the overlay's last item of its tag with one |
| Takeover.OverlayIdempotentIff | internal/handler/external_xray.go:176-178 | Merging the same fragment again changes nothing exactly when all its items are tagged |
| Takeover.MergeTaggedArray | internal/handler/external_xray.go:224-252 | The loops with the index table compute the merge |
| Reorder.ReorderPermutes | internal/handler/management_handler.go:3262-3282 | For any list of requested tags the result is a permutation of the outbounds |
| Reorder.MovedExactlyWhen | internal/handler/management_handler.go:3264-3275 | An outbound moves to the front exactly when its non-empty tag is requested more often than it occurs before it |
| Reorder.PickedIff | internal/handler/management_handler.go:3250-3275 | The k-th outbound of a tag is picked exactly when the tag is requested more than k times |
| Reorder.ServedInOrder | internal/handler/management_handler.go:3262-3275 | The picked outbounds come first, in the order of the requests that picked them |
| Reorder.RestInOrder | internal/handler/management_handler.go:3276-3282 | Behind them are exactly those not picked, in their order |
| Reorder.ReorderOutbounds | internal/handler/management_handler.go:3252-3282 | The queues compute the picked items in request order followed by the rest in their order |
| SpeedMonitor.Monitor.Evaluate | internal/embedded/monitor.go:64-126 | Each user's state and limits move by the same step whatever order the users are visited in; absent users are forgotten once no limit is pending |
| SpeedMonitor.Monitor.EvaluateRules | internal/embedded/monitor.go:102-116 | The loop tries the rules in order up to the first that leaves the user limited |
| SpeedMonitor.Monitor.EvaluateRule | internal/embedded/monitor.go:128-172 | One rule's effect on the state, and whether it limits |
| SpeedMonitor.LimitLength | internal/embedded/monitor.go:174-190 | A limit ends as many seconds after the evaluation as its rule says; rules of other types do nothing |
| SpeedMonitor.WindowMeaning | internal/embedded/monitor.go:147-155 | The window holds the events of the last so many seconds, in their order |
| SpeedHistory.AppliedIffFires | internal/embedded/monitor.go:128-172 | With a single rule a limit is applied exactly where the full history of evaluations says: after a long enough unbroken streak, or with enough streak ends in the window |
| SpeedHistory.SustainedNeedsStreak | internal/embedded/monitor.go:128-141 | A sustained limit is applied only after an unbroken over-threshold streak of at least the rule's seconds |
| SpeedHistory.BurstEventsExact | internal/embedded/monitor.go:143-172 | The burst events kept are all streak ends since the last limit or absence, cut to the window |
| SpeedHistory.StateAgrees | internal/embedded/monitor.go:91-125 | After every evaluation the streak start, limit end and burst events are those of the history |
| SharedStreak.PassOutcome | internal/embedded/monitor.go:102-141 | One pass over any number of sustained rules: the first rule the streak is due for limits, if it and all before it are exceeded; otherwise the streak goes on if all are exceeded, begins now if the last is, and ends if not |
| SharedStreak.AppliedIffFired | internal/embedded/monitor.go:64-141 | With any number of sustained rules a limit is applied exactly where the full history says: a streak that began where the last rule was exceeded, with all rules exceeded since, is long enough for a rule up to which all are exceeded now |
| SharedStreak.StateAgrees | internal/embedded/monitor.go:64-141 | After every evaluation the shared streak start and the limit end are those of the history |
| SharedStreak.SharedStreakStarves | internal/embedded/monitor.go:102-111 | While the last rule is never exceeded no rule limits, however long the others are exceeded |
| SharedStreak.SharedStreakBorrowed | internal/embedded/monitor.go:128-141 | Of two rules, the first not exceeded at the first evaluation and both at the second, one limits exactly when the time between is enough for either, the first exactly when it is enough for it |
| SharedStreak.MixedPass | internal/embedded/monitor.go:102-172 | Burst rules move the streak as sustained ones do: a pass over any mix that limits nothing leaves it going on, begun now or ended by the same law, and one that limits leaves none |
| SharedStreak.MixedStateAgrees | internal/embedded/monitor.go:64-172 | With rules of both kinds in any order the streak kept began at the earliest evaluation where the last rule was exceeded with all exceeded since, and no limit, absence or pending limit between |
| NginxConfig.ScanBlock | internal/handler/nginx_control.go:133-168 | The scanner returns the brace that closes the opened block outside quotes and comments, and fails exactly when there is none |
| NginxConfig.NginxHTTPBlockEnd | internal/handler/nginx_control.go:127-169 | The same for the leftmost http opener |
| NginxConfig.FindOpenerExact | internal/handler/nginx_control.go:128-132 | The opener is that of the leftmost match of blanks, http, blanks, brace from a line start; none exactly when nothing matches |
| NginxConfig.CommentSpan | internal/handler/nginx_control.go:138-143 | A comment lasts to the end of its line |
| NginxConfig.QuoteOpens | internal/handler/nginx_control.go:154-158 | In plain text each quote character opens a string of its own kind |
| NginxConfig.PlainStays | internal/handler/nginx_control.go:154-166 | Everything but comment signs and quotes leaves plain text plain |
| NginxConfig.DepthCounts | internal/handler/nginx_control.go:159-166 | The depth is the number of opening braces in plain text less that of closing ones |
| NginxConfig.StringSpan | internal/handler/nginx_control.go:144-153 | A quoted string lasts to its closing quote, escapes skipped, and nothing in it counts |
| NginxConfig.AddNginxManagedInclude | internal/handler/nginx_control.go:171-181 | Inserts the directive, on a line of its own, before the closing brace, and fails exactly when there is no http block |
| NginxConfig.FindOpenerLocal | internal/handler/nginx_control.go:128-132 | Texts that agree up to the opener found in one have the same opener |
| NginxConfig.IncludeStaysInBlock | internal/handler/nginx_control.go:171-181 | Afterwards the scanner finds the same block with its end moved by the inserted length, the insertion being plain text at depth 1 |
| TailLog.TailLogFile | internal/handler/management_handler.go:1510-1549 | The loops return the last n lines of the part read, and end |
| TailLog.JoinSplit | internal/handler/management_handler.go:1544-1548 | Joining undoes splitting |
| TailLog.JoinLastIsCut | internal/handler/management_handler.go:1544-1548 | Splitting, keeping the last n lines and joining is cutting the text at one place |
| TailLog.LastLinesMeaning | internal/handler/management_handler.go:1540-1548 | The last n lines of a file are its text without the newlines at the end, from behind the n-th newline from the end, or all of it |
| TailLog.TailCorrectIff | internal/handler/management_handler.go:1525-1548 | Reading backwards gives the last n lines of the file exactly when the part read is enough |
| TailLog.TailCorrect | internal/handler/management_handler.go:1509-1549 | It does for every file not ending in a blank line, every n and every chunk size |
| TailLog.TailTruncates | internal/handler/management_handler.go:1528-1543 | A family of files ending in a blank line whose first requested line is cut, for every chunk size above 4 |

## Left out

- Key exchange, signatures, HKDF and AES-GCM: library code; the channel is proved over any AEAD that
  opens what it sealed. Forged envelopes, which can move the window before authentication fails, are
  outside the delivery theorems.
- HTTP handlers, JSON text, file permissions, processes, timers and gRPC: outside the model, or
  reduced to success, failure and crash.
- ConnQuota.CountersExact: does not model attempts of users without a configuration entry, which
  are let through uncounted, nor counters reaching 2^63.
- Finer interleavings inside the registry and the hub: each of their methods is one step; a
  connection tracked while its group's set is being exchanged is not covered.
- RateLimiter.Limiter.SyncInboundLimiter: the hub is a map carried over from the old inbound
  record, not a container shared with it; the buckets in it are shared objects. Emails are taken not
  to contain the separator of the composite key. A user configured under several uids may be looked
  up by any of them.
- RateLimiterRuns.Replay: runs in which the inbound itself is added anew or deleted are not covered,
  as both give up the hub.
- Float rates: a bucket's rate is an integer or unlimited, and whether a threshold is exceeded is
  an input of the monitor.
- SpeedHistory.AppliedIffFires: for a single rule and a clock that advances between evaluations. The
  restore timer is not modelled.
- SharedStreak.AppliedIffFired: for sustained rules with positive durations and limit times. With burst
  rules among them `MixedStateAgrees` says what the shared streak is, but not which burst events are
  left after rules with different windows have cut them.
- ConfigTxn.Handler.Abort: removing the directory is one atomic step. Removing it halfway is not
  modelled.
- ConfigTxnRuns.Recoverable: for runs in which prepares can read the metadata of their operation,
  `UnreadableMetaIff` saying what one that cannot does. One config path throughout; the search for
  the path is not modelled.
- Dedupe.NoUserLost: copies of a protocol without a known list of users are taken over or dropped as
  they are, which it says nothing about; lower-casing of protocol names is that of ASCII letters.
- The deep merge of other fields in internal/handler/external_xray.go and the chunked writing of
  internal/limiter/conn.go: they would add only easy members.
- The listen gate, the client's connection loop, back-off, metrics and traffic statistics: easy or
  bound to the network.
