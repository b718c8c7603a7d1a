# Pandion, modelled and proved in Dafny

Pandion creates clusters of cloud nodes, joins them into an encrypted mesh, runs a command on each and destroys
them again. This project models the parts of it in which an error would leave servers running, lose their record,
let traffic through, or run something other than what was asked for, and proves what the program promises about them.

`dafny verify dfyconfig.toml` checks everything. One module per component:

| module | what it models |
|---|---|
| `Provisioning`, `Orchestrator` | a cluster's goroutines as a step machine over provider, record, journal and semaphore; the same steps as methods on mutable objects; teardown, rollback, reap |
| `Provider`, `State`, `Teardown` | the mock provider and the journal as classes with fields; how often a teardown can fail |
| `Lifecycle` | any number of `up`, `down` and `reap` processes with advisory locks, refusals and crashes |
| `EditDistance`, `Pointer`, `Issues` | "did you mean", JSON pointers, and the list of validation issues |
| `JsonComments`, `Shell` | comment stripping against a token grammar; nested quoting against a reader of shell tokens |
| `Firewall` | a description compiled to two ordered chains, with first-match packet semantics |
| `LambdaClient`, `NameCodec` | request throttle, retry and backoff; cluster membership in instance names |
| `Selection`, `Workspace`, `Mesh` | choice of types, regions and offerings; ignore patterns and the pruning walk; address plan, WireGuard and Ethernet meshes, ARP inspection |
| `Prelude`, `Text`, `Sorting` | shared vocabulary |

Code that changes things step by step is written as methods with loops or as classes with fields, each tied by its
contract to a function or predicate; the theorems are about those. What calls into code that is not Pandion's is a
parameter: clock readings, failures, answers of a cloud, glob matching, address matching, lower-casing beyond ASCII.

## Where the code and its documentation differ

The models follow the code. Each difference is stated as a theorem that says exactly when the documented behaviour holds.

- The lifecycle guard is documented to make check-then-create free of races. An unusable lock file is only a warning
  and a failing list counts as "nothing there", so a cluster has one generation of servers exactly when locks can be
  taken and lists do not fail (`Lifecycle.OneGenerationPerCluster`).
- The audit firewall is documented to log everything a lockdown would drop, metadata packets included. A metadata
  packet that a later rule allows is accepted before it comes to the log rule, so the log is complete exactly when
  the metadata block is off (`Firewall.AuditMisses`, `Firewall.AuditComplete`).
- The suggestion for a mistyped key is documented to be the nearest key within a third of the longer of the two, or
  within 2. The code's limit is a third of the mistyped key alone, and one more, counted in bytes. It answers as
  documented exactly when no nearest key is close enough but over that limit and the first nearest one is not within
  it without being close enough (`EditDistance.DocumentedExactly`); whatever the schema, exactly for mistyped keys of
  fewer than six bytes (`EditDistance.DocumentedForShortKeys`). `open_egress_build` gets no suggestion for the
  schema's `open_egress_during_build` (`EditDistance.SchemaKeyMissed`). A wild typo is documented to suggest nothing;
  four emoji suggest `name` (`EditDistance.WildTypo`, `EditDistance.EmojiSuggestsName`). The legal keys come in the
  order of a map walk, which shows exactly when two nearest keys are within the limit (`EditDistance.OrderShows`).
- The throttle is documented to keep a minimum spacing between requests. It spaces the reserved slots; a caller that
  wakes late sends late, so any two requests keep the gap less the lateness and no more (`LambdaClient.DistanceKept`),
  the whole gap exactly when nobody is late (`LambdaClient.GapKeptIffPunctual`), and a window of requests is bounded
  in terms of the lateness (`LambdaClient.SendWindowBound`).
- The backoff is documented to double up to a cap. The shift is one of 64 bits: for every base and a cap that is not
  negative all delays are the documented ones exactly when the last product stays in the word
  (`LambdaClient.DelaysFit`), because the first that leaves it comes out with the other sign; later ones can be right
  again (`LambdaClient.RightAgain`). The client always sets values that fit (`LambdaClient.DefaultFits`).
- Listing by tag is documented to return the instances of a cluster. It compares sanitized ids, so an id lists the
  servers made for every id that sanitizes alike, under its own name: `a_b` lists, and a teardown of it destroys, what
  was made for `a-b` (`NameCodec.ListedForAlike`, `NameCodec.OtherClusterListed`). It returns exactly the cluster when
  nothing was made for another id that sanitizes alike, and only then (`NameCodec.ListsItsOwn`); so for clean ids
  (`NameCodec.CleanListsItsOwn`). An id with nothing left after sanitizing returns exactly the instances that belong
  to no cluster (`NameCodec.BlankIdTakesTheRest`), and a name not written by Pandion can be reported under a cluster
  whose own list does not have it (`NameCodec.FoundAgain`).
- Issue suppression is documented to drop what is nested under an unknown field. It compares rendered paths, so a
  sibling key with a dot or a bracket in its name can be dropped too. For every place, `Issues.HiddenBeside` says
  exactly when another key of the object, unknown, can hide what is at or below a key: when a dot or bracket in the
  path stands behind something other than that key that can be one, or, at the root, the key is a number in brackets
  and so rendered like that number. An unknown key without them hides what is nested in it and what is under a key
  that goes on after its name with one, nothing else (`Issues.HiddenByKey`).
- A trailing slash in an ignore pattern is documented to restrict it to directories. Under every matcher it does
  exactly for patterns without an inner slash (`Workspace.TrailingSlash`); under any one matcher, a pattern with an
  inner slash is restricted only when it hits nothing at all (`Workspace.TrailingSlashUnder`). Such a pattern can also
  hit a directory without hitting the files in it (`Workspace.PathPatternsDiffer`).
- ARP inspection is documented to drop every ARP message whose sender is not known. Messages that are neither requests
  nor replies pass (`Mesh.InspectionIsStrict`).
- Dropping to a user quotes every part but the capabilities, which `--cap-add` passes on unchecked. The words stay
  apart exactly when there is no quote, backslash, blank or operator among them (`Shell.CapsKeptApart`), and no
  expansion changes them exactly when none of their characters is special (`Shell.LiteralAfter`).
- The overlay addresses of more than 253 nodes run into the operator's (`Mesh.OperatorApart`).

## Model

| member | source | states |
|---|---|---|
| Provisioning.StepKeepsInv | internal/orchestrator/orchestrator.go:148-215 | the invariant behind every result below (permits and calls counted, each node's record, journal and server in agreement with its goroutine, distinct servers, error group) survives every enabled step of every goroutine, cancellation included |
| Provisioning.StartInv | internal/orchestrator/orchestrator.go:148-174 | it holds once the plan has been journaled, whatever was journaled before and whether or not the write worked |
| Provisioning.WriteAhead | internal/orchestrator/orchestrator.go:183-194 | when saves have succeeded so far, a node's create call is only ever made with that node journaled past PLANNED, and the journal never says PLANNED again in any continuation, also one whose saves fail |
| Provisioning.JournalNeverMovesBack | internal/orchestrator/orchestrator.go:157-206 | over every schedule, whichever saves fail, no node's journaled phase goes back, once the journal has a record of these nodes, by name, that is not ahead of memory |
| Provisioning.JournaledIsBehind | internal/orchestrator/orchestrator.go:157-173 | while every save has worked it has |
| Provisioning.StartBehind | internal/orchestrator/orchestrator.go:157-173 | at the start it has if and only if the first save worked or an earlier run left a record of nodes with these names, all PLANNED |
| Provisioning.BoundedConcurrency | internal/orchestrator/orchestrator.go:149-181 | in every interleaving at most the limit of create calls, five when none is given, are in flight, and the provider's peak says so too |
| Provisioning.Barrier | internal/orchestrator/orchestrator.go:210-215 | on return nothing is in flight and no permit is held; no error is returned if and only if every node is RUNNING with the id and address of a distinct server of its own tagged with this cluster; the journal equals the record when saves worked |
| Provisioning.OthersUntouched | internal/orchestrator/orchestrator.go:185-194 | provisioning changes no server that was there and adds only servers of its own cluster, also when a create makes a server and then fails |
| Provisioning.Progress | internal/orchestrator/orchestrator.go:173-208 | while a goroutine has not returned some step other than cancellation is enabled: the semaphore cannot deadlock |
| Provisioning.ScheduleEnds | internal/orchestrator/orchestrator.go:173-211 | every schedule is finite, with a bound: no run of the goroutines goes on for ever |
| Orchestrator.Provision.constructor | internal/orchestrator/orchestrator.go:148-171 | planning and the first save put the object in the step machine's start state and leave other clusters' journals alone |
| Orchestrator.Provision.SaveRecord | internal/orchestrator/orchestrator.go:159-169 | a save writes the whole record, atomically, or remembers that a write failed |
| Orchestrator.Provision.CreateStep | internal/orchestrator/orchestrator.go:73-95 | one action of the create loop is one enabled move of the step machine, with its exact effect |
| Orchestrator.Provision.RecordStep | internal/orchestrator/orchestrator.go:183-205 | the same for changes of a node's record and for saves, each its own critical section |
| Orchestrator.Provision.GroupStep | internal/orchestrator/orchestrator.go:178-211 | the same for permits and for the group's collection of results |
| Orchestrator.Orchestrator.UpCluster | internal/orchestrator/orchestrator.go:148-215 | whatever the scheduler chooses, there is a start and a schedule of the step machine from it, all of whose moves were enabled, that has returned in the state the objects show; so the theorems on schedules, write-ahead included, hold of them |
| Orchestrator.Orchestrator.CreateWithRetry | internal/orchestrator/orchestrator.go:73-95 | when a create succeeds, how many dying boots it uses up, and that a failed one leaves the servers as they were |
| Orchestrator.Orchestrator.UpSpec | internal/orchestrator/orchestrator.go:100-138 | a single node is created only after its intent is journaled; a server that was made is never without a record |
| Orchestrator.Orchestrator.DestroyWithRetry | internal/orchestrator/orchestrator.go:511-530 | without cancellation a destroy fails if and only if three failures are still to come, and reports every attempt in order |
| Orchestrator.Orchestrator.DestroyAll | internal/orchestrator/orchestrator.go:468-476 | goes on after failures; reports one if and only if a server of the cluster is left, and how many are left follows from the failures to come |
| Orchestrator.Orchestrator.DestroyListed | internal/orchestrator/orchestrator.go:455-476 | journals the teardown of a record that exists, best effort, and destroys what the provider lists |
| Orchestrator.Orchestrator.VerifyAndClose | internal/orchestrator/orchestrator.go:478-497 | the record goes only after an empty list and a reap that worked |
| Orchestrator.Orchestrator.Down | internal/orchestrator/orchestrator.go:454-498 | success means no server of the cluster, auxiliary resources reaped and no record; an error never removed the record; other clusters' servers and records stay as they are; server counts never grow |
| Orchestrator.Orchestrator.Reap | internal/orchestrator/orchestrator.go:437-450 | the count is that of the teardowns that succeeded, and no error means all of them; the error is the one of the first that failed; what was torn down is gone and every other cluster stays |
| Orchestrator.Orchestrator.DownRepeatedly | internal/orchestrator/orchestrator.go:454-498 | with F destroy failures to come at most F/3 runs fail, and one more run succeeds for good |
| Orchestrator.Orchestrator.UpOrRollBack | cmd/pandion/cluster.go:791-796 | the command's provision-or-tear-down: all up, or, when the rollback succeeds, exactly the servers of before without the cluster's, and no record |
| Orchestrator.RollbackLeavesNothing | cmd/pandion/cluster.go:791-796 | after any schedule, also one with creates that made a server and then failed, tearing down what is tagged restores the servers of all other clusters and nothing else |
| Teardown.Converges | internal/orchestrator/orchestrator.go:468-476 | repeated teardowns of k servers with F failures to come: at most F/3 fail and then none is left |
| Teardown.SuccessIsFinal | internal/orchestrator/orchestrator.go:454-498 | after the first success every further teardown succeeds |
| State.Store.Save | internal/state/state.go:65-77 | a save stamps the record and replaces the stored one whole, or changes nothing |
| State.Store.Load | internal/state/state.go:80-90 | reads the record stored under the id, or none |
| State.Store.Close | internal/state/state.go:93-99 | removes the record; removing an absent one is success |
| Provider.Mock.BeginCreate | internal/provider/mock/mock.go:207-219 | the first critical section: in flight, peak tracked, the injected outcome decided |
| Provider.Mock.EndCreate | internal/provider/mock/mock.go:224-260 | the second: a transient failure before any other, a GPU that is not offered last and after an id is used up, or one new server with the next id, name, tag and address |
| Provider.Mock.DestroyServer | internal/provider/mock/mock.go:263-277 | fails exactly while injected failures are left; otherwise the id is gone, absent before or not |
| Provider.Mock.ListByTag | internal/provider/mock/mock.go:280-290 | the servers with the tag, each once, in some order |
| Lifecycle.OneGenerationPerCluster | cmd/pandion/main.go:271-282 | for every history of any number of processes, crashes included: all servers of a cluster come from one `up` if and only if locks can be taken and lists work |
| Lifecycle.MutualExclusion | internal/flock/flock.go:52-86 | when locks can be taken at most one process is past the locks of a cluster, and it holds the lock, whether or not lists work |
| Lifecycle.ExclusiveWithLocks | internal/flock/flock.go:52-86 | in all histories at most one process is past a cluster's locks if and only if locks can be taken |
| Lifecycle.DestroysOnlyItsOwnOrAbandoned | cmd/pandion/main.go:905-912 | when locks can be taken, a server is destroyed only by the process that made it or after that one has ended |
| Lifecycle.UnusableLocksBreakIt | cmd/pandion/main.go:1726-1739 | with lock files that cannot be opened two `up`s of one id create two generations |
| Lifecycle.FailingListsBreakIt | cmd/pandion/main.go:1756-1768 | with a list that fails an `up` goes over a running cluster |
| Lifecycle.StepKeepsInv | cmd/pandion/main.go:1648-1682 | the invariant about locks held, servers seen and makers survives every step of every process |
| EditDistance.Levenshtein | internal/config/validate_locate.go:215-234 | filling one row after the other computes the recurrence |
| EditDistance.DistanceIsShortest | internal/config/validate_locate.go:215-244 | the recurrence is the least length of an insert, delete and substitute script from one string to the other |
| EditDistance.Metric | internal/config/validate_locate.go:215-244 | zero only for equal strings, symmetric, triangle inequality |
| EditDistance.NearestKey | internal/config/validate_locate.go:196-213 | the first key of least distance if that is within the limit and below 2^30, else nothing |
| EditDistance.OrderShows | internal/config/validate_locate.go:114-119 | the order of the legal keys shows if and only if two different nearest keys are within the limit |
| EditDistance.DocumentedExactly | internal/config/validate_locate.go:194-213 | for each list of legal keys: if and only if no nearest key is close enough but not taken, and the first nearest is not taken without being close enough |
| EditDistance.DocumentedForShortKeys | internal/config/validate_locate.go:194-213 | every answer is the documented one, whatever is legal, if and only if the mistyped key has fewer than six bytes |
| EditDistance.CapDecides | internal/config/validate_locate.go:197-203 | the 2^30 the search starts from decides for some key if and only if the limit reaches it |
| EditDistance.PartLeftOutMissed | internal/config/validate_locate.go:204-212 | so does every key with a part left out that is over the limit; it is within the documented distance when the part is at most half of what is left |
| EditDistance.SchemaKeyMissed | internal/config/validate_locate.go:204-212 | a key of the schema with its middle word left out gets no suggestion, whatever else is legal and no nearer, though the documentation promises one |
| EditDistance.NothingInCommon | internal/config/validate_locate.go:215-234 | strings without a common character are as far apart as the longer one is long |
| EditDistance.WildTypo | internal/config/validate_locate.go:194-213 | a key without a common character is suggested if and only if both have no more characters than the limit; the documentation allows two |
| EditDistance.EmojiSuggestsName | internal/config/validate_locate.go:194-213 | four emoji are answered with `name`, with which they share no character |
| Pointer.SplitSlash | internal/config/validate_locate.go:168-178 | the pieces between slashes |
| Text.SplitJoin | internal/config/validate_locate.go:168-178 | splitting undoes joining of pieces without the separator |
| Text.JoinSplit | internal/config/validate_locate.go:168-178 | joining undoes splitting, and the pieces have no separator |
| Pointer.ReplaceAll | internal/config/validate_locate.go:180-192 | left-to-right replacement of non-overlapping occurrences |
| Pointer.TwoPassesAreOne | internal/config/validate_locate.go:159-161 | the two replacements in this order are the one-pass decoder of section 4 of RFC 6901 |
| Pointer.RoundTrip | internal/config/validate_locate.go:153-165 | the pointer built by section 3 of RFC 6901 from any tokens splits into the non-empty ones: into all of them if and only if none is empty |
| Pointer.SplitPointer | internal/config/validate_locate.go:153-165 | the loop computes that |
| Issues.UnderIsBelow | internal/config/validate_errors.go:168-197 | for plain segments the prefix test on rendered paths is the prefix relation on the segments, and no two places are rendered alike |
| Issues.NothingLost | internal/config/validate_errors.go:156-180 | every issue has a kept one at its path or above it, through chains of unknown fields |
| Issues.NoPlaceLost | internal/config/validate_errors.go:156-197 | the same about the places, for plain segments |
| Issues.NothingTwice | internal/config/validate_errors.go:156-180 | no two kept issues share a path other than the root, and none is below an unknown field |
| Issues.KeptInOrder | internal/config/validate_errors.go:156-180 | exactly the issues to keep are kept, in the order they came |
| Issues.DedupedAgain | internal/config/validate_errors.go:156-180 | a second pass drops nothing |
| Issues.IsDescendant | internal/config/validate_errors.go:163-172 | the inner loop finds an unknown field above the path if and only if there is one |
| Issues.DedupeIssues | internal/config/validate_errors.go:156-180 | the loops with the set of seen paths compute that list |
| Issues.DottedSiblingHidden | internal/config/validate_errors.go:168-171 | at every place, an unknown field hides every sibling whose key goes on after its name with a dot or a bracket |
| Issues.HiddenBeside | internal/config/validate_errors.go:168-197 | at every place and for every key, numbers and empty ones included: another key of the object, unknown, can hide what is at or below the key if and only if a dot or bracket in the path stands behind something else that can be a key, or, below the key at the root, the key is a number in brackets |
| Issues.DeepStop | internal/config/validate_errors.go:168-197 | two segments below a key that is no index there always is such a dot or bracket |
| Issues.IndexNeverHidden | internal/config/validate_errors.go:168-197 | below any object but the root nothing beside an index hides it or what is below it |
| Issues.HiddenByKey | internal/config/validate_errors.go:168-197 | an unknown key without dots and brackets hides, at any depth of its object, exactly what is nested in it and what is under a key that goes on after its name with a dot or a bracket |
| JsonComments.OneReading | cmd/pandion/debug.go:295-339 | the token grammar is unambiguous and total: each text, unterminated literals and comments included, has one reading |
| JsonComments.PassStrips | cmd/pandion/debug.go:298-339 | the pass emits the non-comment tokens of that reading in order with each line comment's newline, literals unchanged, and reports a comment if and only if there is one |
| JsonComments.StripTwice | cmd/pandion/debug.go:298-339 | stripping again changes and finds nothing; finding nothing means changing nothing; finding something makes it shorter |
| JsonComments.CleanedGrammatical | cmd/pandion/debug.go:298-339 | removing comments joins no characters into a new comment or literal |
| JsonComments.StripJsonComments | cmd/pandion/debug.go:298-339 | the index-moving loop computes that |
| Shell.QuoteIsOneWord | cmd/pandion/main.go:424-426 | for every string, its quoted form is read as one word and that word is the string (sections 2.2.1, 2.2.2 and 2.3 of the POSIX.1-2017 Shell Command Language) |
| Shell.TakesQuote | cmd/pandion/main.go:424-426 | inside any unquoted context the quoted form adds exactly its characters, all literal, whatever comes after |
| Shell.InnerReads | cmd/pandion/cluster.go:94-99 | the login shell reads `cd`, the directory, `&&` and then has exactly the command left; a blank directory leaves the command alone |
| Shell.RunAsReads | cmd/pandion/cluster.go:94-109 | root, `runuser` and `setpriv` forms read back as their argument vectors with the login shell's command as one last word, when nothing in the capabilities is a quote or ends a word |
| Shell.LoggedReads | cmd/pandion/cluster.go:1110 | the session reads the command's own tokens, then the redirections and the exit code, in which `$?` is still active |
| Shell.LaunchReads | cmd/pandion/cluster.go:1111-1112 | the node's shell reads its three commands, the session's command one word of the last |
| Shell.LayersUndone | cmd/pandion/cluster.go:1106-1113 | the three layers together, for every user, directory and command, under that condition on capabilities that are written |
| Shell.CapsKeptApart | cmd/pandion/cluster.go:80-109 | for a user other than root, the session's shell finds the intended words if and only if nothing in the capabilities is a quote or ends a word |
| Shell.LiteralAfter | cmd/pandion/cluster.go:106-108 | an option with an unquoted value stands for itself if and only if no character of the value is special; then the value is unbroken too |
| Firewall.InputChain | internal/firewall/nftables.go:108-138 | the builder writes the input rules in this order |
| Firewall.OutputChain | internal/firewall/nftables.go:140-180 | the builder writes the output rules in this order, the metadata block before any allowance but loopback |
| Firewall.NFTables | internal/firewall/nftables.go:86-184 | the whole ruleset, with the allowed networks sorted in a copy |
| Firewall.InputMeaning | internal/firewall/nftables.go:108-138 | enforced, a packet comes in if and only if one of the declared reasons holds; in audit all come in and exactly the others are logged |
| Firewall.OutputMeaning | internal/firewall/nftables.go:140-180 | enforced, a packet leaves if and only if it is loopback, or not blocked metadata and allowed for a reason; in audit all leave and exactly those without a reason are logged |
| Firewall.MetadataUnreachable | internal/firewall/nftables.go:144-148 | with the block enforced no packet to the metadata service leaves but over loopback, whatever is allowed |
| Firewall.AuditMisses | internal/firewall/nftables.go:144-179 | the dry run of a lockdown observes a packet rightly if and only if it is not a blocked metadata packet with a reason to leave |
| Firewall.AuditComplete | internal/firewall/nftables.go:175-179 | it is right about all packets if and only if metadata is not blocked |
| Firewall.AllowOrderIsHidden | internal/firewall/nftables.go:92-99 | the ruleset depends on the allowed networks only as a multiset |
| Sorting.SortedIsUnique | internal/firewall/nftables.go:93-94 | any sort of the same elements gives the same slice |
| LambdaClient.Lambda.Reserve | internal/provider/lambda/lambda.go:446-450 | the critical section reserves max(now, previous slot + gap), for any clock reading of any caller, and keeps the slots spaced |
| LambdaClient.Lambda.Throttle | internal/provider/lambda/lambda.go:442-460 | other callers reserving meanwhile, a caller goes on no earlier than its own slot, or gives up; no gap means no throttling |
| LambdaClient.WindowBound | internal/provider/lambda/lambda.go:440-450 | a window of length W holds at most W/gap + 1 slots |
| LambdaClient.SendWindowBound | internal/provider/lambda/lambda.go:440-460 | a window of length W holds at most (W + lateness)/gap + 1 requests |
| LambdaClient.DistanceKept | internal/provider/lambda/lambda.go:440-460 | the distances that any two requests keep in all cases are those up to the gap less the lateness |
| LambdaClient.GapKeptIffPunctual | internal/provider/lambda/lambda.go:84-87 | for all slots and requests, any two requests keep the gap in all cases if and only if nobody wakes late |
| LambdaClient.ShiftsFit | internal/provider/lambda/lambda.go:521-527 | for every base and number of retries, all shifts are products if and only if the last product is in the word |
| LambdaClient.DelaysFit | internal/provider/lambda/lambda.go:521-527 | for every base, every cap that is not negative and every number of retries, all delays are min(base * 2^attempt, max), as documented, if and only if the last product is in the word |
| LambdaClient.RightAgain | internal/provider/lambda/lambda.go:521-527 | a base and cap whose delay is wrong on the second attempt and right on the third |
| LambdaClient.DefaultFits | internal/provider/lambda/lambda.go:126-128 | the client's own retries, base and cap fit |
| LambdaClient.BackoffDelay | internal/provider/lambda/lambda.go:526-530 | for every base, cap, attempt and draw the wait is between max(m, retryAfter) and max(m + m/2, retryAfter) for the capped 64-bit shift m, if m + m/2 is in the word; the draw panics if and only if m is below -1 |
| LambdaClient.Lambda.Do | internal/provider/lambda/lambda.go:412-433 | for every number of retries, base and cap: at most maxRetry + 1 requests, each from its own reserved slot and not before it; only busy answers are tried again, after the documented backoff when the delays fit the word; success, failure and exhaustion as the answers say, a panic only when they do not fit |
| NameCodec.SanitizeClean | internal/provider/lambda/lambda.go:69-72 | only kept characters and single hyphens, none at an edge |
| NameCodec.SanitizeFixes | internal/provider/lambda/lambda.go:69-72 | the fixed points are exactly those strings, so it is idempotent, however characters beyond ASCII are lower-cased |
| NameCodec.NameRoundTrip | internal/provider/lambda/lambda.go:50-66 | for all clusters and nodes the cluster read back from the name is the sanitized one |
| NameCodec.FilterLive | internal/provider/lambda/lambda.go:357-370 | filtering in the slice itself leaves the live instances in order |
| NameCodec.ListByTag | internal/provider/lambda/lambda.go:236-248 | the loop selects the instances whose cluster is the sanitized id |
| NameCodec.ListAllTagged | internal/provider/lambda/lambda.go:252-264 | the loop selects the instances of any cluster |
| NameCodec.AllIsUnion | internal/provider/lambda/lambda.go:236-264 | the lists of distinct non-empty sanitized ids are disjoint parts of the list of all and make it up |
| NameCodec.ClustersMakeUpAll | internal/provider/lambda/lambda.go:50-66 | for names written by `serverName` or foreign ones, the clusters that occur do |
| NameCodec.FoundAgain | internal/provider/lambda/lambda.go:243-260 | a reported instance is in the list of the cluster it is reported under if and only if that is sanitized |
| NameCodec.BlankIdTakesTheRest | internal/provider/lambda/lambda.go:243 | an id that sanitizes to nothing selects exactly the instances of no cluster |
| NameCodec.IdTakesItsOwn | internal/provider/lambda/lambda.go:243-260 | an id with something left after sanitizing selects only instances reported among all, there under the sanitized id |
| NameCodec.ListedForAlike | internal/provider/lambda/lambda.go:50-72 | a server made for one id is listed for another if and only if both sanitize alike |
| NameCodec.ListsItsOwn | internal/provider/lambda/lambda.go:234-248 | for all servers made and every id, the list is exactly the servers made for it if and only if none was made for another id that sanitizes alike |
| NameCodec.CleanListsItsOwn | internal/provider/lambda/lambda.go:234-248 | for clean ids the list is exactly the cluster's own servers |
| NameCodec.OtherClusterListed | internal/provider/lambda/lambda.go:236-248 | asked for `a_b` it returns what was made for `a-b`, labelled `a_b` |
| Workspace.Ignore.constructor | internal/workspace/workspace.go:48-58 | the built-in patterns and the useful lines, in order |
| Workspace.Ignore.Match | internal/workspace/workspace.go:65-103 | the loops over patterns and segments decide whether some pattern hits |
| Workspace.Archiver.Visit | internal/workspace/workspace.go:179-227 | one place of the walk: nothing for what is ignored or special, else its entry and, for a directory, what it holds |
| Workspace.Archiver.Archive | internal/workspace/workspace.go:170-238 | the entries written and the number of files among them |
| Workspace.WalkIsFilter | internal/workspace/workspace.go:179-227 | the pruning walk writes, in order, exactly the files and directories with nothing ignored on the way to them |
| Workspace.MatchAloneDecides | internal/workspace/workspace.go:84-100 | without path patterns that is the same as asking the matcher about each place alone |
| Workspace.MorePatternsShrink | internal/workspace/workspace.go:190-195 | more patterns never bring a file in |
| Workspace.GitStaysOut | internal/workspace/workspace.go:49 | nothing at or below a `.git` is written, whatever the lines say |
| Workspace.PathPatternsDiffer | internal/workspace/workspace.go:69-82 | a path pattern can hide a file the matcher lets through, and with a slash at its end hit what is not a directory |
| Workspace.TrailingSlash | internal/workspace/workspace.go:65-103 | a pattern with a slash at its end hits only directories and what is below them, under every matcher, if and only if it has no inner slash |
| Workspace.TrailingSlashUnder | internal/workspace/workspace.go:65-103 | under any one matcher it does if and only if the pattern has no inner slash or hits nothing |
| Selection.SelectCandidates | internal/provider/hetzner/selecttype.go:26-51 | the types that meet the need, all of them, cheapest first |
| Selection.SelectionIgnoresOrder | internal/provider/hetzner/selecttype.go:37-45 | for every catalog, repeated names included, its order does not show |
| Selection.OrderLocations | internal/provider/hetzner/selecttype.go:58-81 | the loops with their maps compute the order |
| Selection.StrictLocations | internal/provider/hetzner/selecttype.go:65-73 | strict: exactly the preferred locations that exist, each once, as given when nothing has to go |
| Selection.AllLocations | internal/provider/hetzner/selecttype.go:74-80 | otherwise the strict list comes first and every location comes once: a permutation |
| Selection.SearchPlan | internal/provider/hetzner/selecttype.go:98-115 | the nested loops write the plan |
| Selection.PlanIsProduct | internal/provider/hetzner/selecttype.go:98-115 | each type is planned with each location exactly once and nothing else is |
| Selection.PlannedBefore | internal/provider/hetzner/selecttype.go:103-113 | everything of an earlier row or place stands before a pair |
| Selection.Search | internal/provider/hetzner/hetzner.go:176-208 | lands on the first pair that does not lack capacity: in RegionFirst no earlier region has any candidate and no earlier candidate is to be had in its own; exhausted only when all lack it |
| Selection.CreateServer | internal/provider/hetzner/hetzner.go:89-208 | candidates, locations and search together; an explicit region request never lands elsewhere |
| Selection.RegionIsPreferred | internal/provider/lambda/lambda.go:283-295 | the region is available, and the earliest preferred one that is |
| Selection.PickRegion | internal/provider/lambda/lambda.go:283-295 | the nested loops compute it |
| Selection.GpuOfferings | internal/provider/lambda/gpu.go:23-52 | the offerings of every catalog, cheapest first |
| Selection.ResolveGpuType | internal/provider/lambda/gpu.go:57-72 | the cheapest offering that satisfies the request and has an acceptable region, or none when there is none |
| Selection.ResolveIgnoresOrder | internal/provider/lambda/gpu.go:147-167 | the order in which the map is walked does not show in the type and its price, nor, with distinct names, in the offer |
| Selection.RegionsIgnoreOrder | internal/provider/lambda/gpu.go:159-163 | nor does the order of an entry's regions |
| Mesh.HostsApart | cmd/pandion/cluster.go:715-752 | different hosts have different overlay addresses, segment addresses and hardware addresses, as written |
| Mesh.OperatorApart | cmd/pandion/cluster.go:369 | no node has the operator's address if and only if there are at most 253 |
| Mesh.AddressFits | cmd/pandion/cluster.go:471-482 | a host's address, computed in 32 bits, lies in the subnet if and only if its number is below the subnet's size |
| Mesh.PlanNodes | cmd/pandion/cluster.go:707-752 | the loop fills the plan with host numbers from one |
| Mesh.PlanApart | cmd/pandion/cluster.go:707-752 | a plan of at most 253 nodes keeps all of them, the operator and the flooding address apart |
| Mesh.FormMesh | cmd/pandion/cluster.go:921-935 | the nested loops write each node's peer commands |
| Mesh.FullMesh | cmd/pandion/cluster.go:921-935 | carried out, they route each other node's address to its key, the operator's to the operator's, and nothing else |
| Mesh.InjectFdb | cmd/pandion/cluster.go:943-955 | the nested loops write each node's forwarding entries |
| Mesh.BroadcastOnce | internal/overlay/l2.go:95-100 | a broadcast goes to every other node once and never to its sender; a frame for a node goes there only |
| Mesh.WriteDaiRules | internal/overlay/l2.go:107-124 | the builder writes the ARP rules |
| Mesh.AdmitsSender | internal/overlay/l2.go:107-124 | which ARP messages pass, for every list of bindings |
| Mesh.InspectionIsStrict | internal/overlay/l2.go:102-105 | on the segment a message passes if and only if its sender is known, exactly for requests, replies and known senders |
| Mesh.NobodySpeaksForAnother | internal/overlay/l2.go:102-124 | a request or reply with a node's address passes if and only if it has that node's hardware address |

## Left out

- Cloud, SSH, tmux, TLS and key generation: foreign calls; a provider is a map of servers with an outcome per call.
- Real time: clock readings and time stamps are parameters, sleeps only order events; saturation of durations at 292 years.
- Files and encodings: the journal and the lock files are map entries with atomic replacement and one owner; JSON, YAML, tar and gzip are not modelled, nor is the mock's own persistence.
- Provider.Mock.EndCreate: does not model the GPU fields of a created server, because no result depends on them; whether the GPU asked for is offered is a parameter.
- The lock object's file handle and recorded process id: a lock is held by at most one process until it ends.
- Identical ids at two providers and the manifest check for them; the `-f` path that renames the id after locking; `gcOrphanJournals`.
- Grouping and ages in `ReapPlan`, status, prices, budgets, prompts, tables, receipts, completion.
- The selectors of the other cloud providers, which repeat the ones modelled.
- JSON Schema validation and locating issues in YAML: issues are given with their paths.
- JsonComments.StripJsonComments: models bytes as characters; every character it looks at is a single byte.
- EditDistance.NearestKey: models strings as characters and their length in bytes by a count per character; strings that are not valid UTF-8 are not modelled.
- Shell.LayersUndone: does not model expansions, here-documents or aliases in the user's command, because that command is handed on unread.
- `dockerRun`, which nests quotes in the same way as `runAs`; `mergeLaunchJSON` and the rest of the debugger set-up.
- Firewall.NFTables: models rules as values, not as text; how an address in a rule covers an address of a packet is a parameter, and nftables' own rejection of overlapping intervals is not modelled.
- NameCodec.FilterLive: models whether an instance is on its way out as a flag, not as a status text.
- Workspace.Ignore.Match: takes glob matching as a parameter, because it is the Go library's; only the results that need it assume that `.git` matches itself.
- Errors while walking a directory or reading a file, which end the archive.
- Selection.CreateServer: models prices and memory as real numbers and each attempt's outcome as given for its pair; waiting for the server to boot is not modelled.
- Selection.ResolveGpuType: takes the comparison of model names and the parsing of descriptions as given.
- Shell.CapsKeptApart: takes the capability list as rendered; joining the names with commas and lower-casing them is not modelled.
- Issues.UnderIsBelow: holds for plain segments; for other keys the exact conditions are Issues.HiddenBeside and Issues.HiddenByKey, about unknown keys of the object a key is in.
- Mesh.PlanNodes: keys, names and public addresses are given; distinct keys and names are hypotheses of the results.
