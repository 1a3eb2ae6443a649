# Verified models of OtterIO's stateful cores

OtterIO is an S3-compatible object store written in Go. This project models the parts of it that keep state across
steps, or that two pieces of code must agree on, and proves what they promise for every input, every failure of a
storage call and every run.

| file | models |
|---|---|
| `IamGraph`, `IamPlans`, `IamRequests` | the native IAM graph in memory and on disk, and what each request checks and does |
| `IamAcceptance` | when each request is accepted, what its refusals tell, and what a revision proves |
| `IamSafety`, `IamLinks`, `IamEffects`, `IamImpact` | what every request keeps, when it takes a parent away, what it has done once committed, and what its impact report covers |
| `IamRuns`, `IamTokens`, `IamChanges`, `IamReturns`, `IamInstances` | what holds over all interleavings of requests and issued temporary credentials, what relationship tokens prove in them, which changes a token sees, when it becomes valid again, and runs in which a property fails |
| `IamLoad`, `IamSys` | what a restart loads, and the IAM subsystem as an object with mutable maps, a failing store and its request handlers |
| `CanonicalJson`, `JsonPlaces`, `IamImage` | canonical JSON of the graph, which of its arrays may be written in any order, and the fingerprint built from it |
| `Transition`, `TransitionEnds` | moving object versions to a remote tier, with crashes, retries, late uploads and deletions, and how moves and deletions end |
| `StoredVersion`, `Restore` | temporary restores of moved versions: the metadata they rebuild, their header and their deadline |
| `ConfigXml`, `ConfigLanguage`, `ConfigJson` | the validators of conditional bucket configuration, and the configurations they accept in their own words |
| `Bitrot` | the interleaved hash and shard format: sizes, writer, verifier, reader |
| `HealQueue`, `HealingTracker` | heal results waiting for a client, heal sequences by path, progress of a drive being healed |
| `UrlEncode` | the encoder of names in listings |
| `Lex`, `Text`, `Bytes`, `Options` | byte order of strings and sorting, white space, bytes, optional values |

## How the IAM part is built

A request under the store lock is a list of steps. Each step is one persistence call followed by its update in memory,
and any call may fail without effect. `IamRequests.Plan` gives the checks of every request, in the order of the code,
and the steps it asks for. `IamSys.IamSystem` is the same subsystem as an object whose methods loop over maps and may
stop at any call; every handler is proved to perform a prefix of its plan, the whole plan when it reports success.
Everything else is proved about plans and about runs of plan prefixes. What a plan asks for is said a second time without
it: `IamAcceptance.AcceptedExactly` says when there is one, `IamEffects.CommittedEffect` what it has done.

The digest in a token is a keyed hash of the canonical bytes of the graph. The token results assume that this hash and
the hash that seals a token do not collide on texts, and nothing about graphs: that equal bytes mean equal graphs, up to
the order of set-like lists, is proved in `IamImage.FingerprintExact`. `IamTokens.ServerIsCollisionless` and
`IamTokens.WriterExists` show that the assumptions can be met.

## What was found

- Several requests do not move the identity epoch, among them membership edits of groups, bindings and the status of
  groups and service accounts, so two of them in a row can make a relationship token valid again.
  `IamReturns.TokensReturnExactly` says exactly when, for any two requests, `IamReturns.MembershipRoundTrip` for adding
  and removing members, and `IamInstances.TokenReturns` gives a run from the empty store.
- Deleting a user removes direct children only. A temporary credential can be saved after its parent was deleted, and
  the parent's name can then be taken by a service account of another user; deleting that user leaves the credential
  without its parent and does not report it. `IamLinks.NoneOrphanedExactly` and `IamImpact.ImpactReportsExact` say
  exactly when this is so, `IamInstances.OrphaningRun` gives the run, and `IamLinks.RequestKeepsTwoTier` shows that
  native requests alone never get there.
- If the store fails between the two records of an issued temporary credential, a mapping is left without an owner:
  `IamRuns.IssueKeepsInvariantExactly`.
- A restart drops expired users and keeps the groups that list them, and it goes on when deleting an expired record
  fails: `IamLoad.RestartKeepsInvariantExactly`.
- Completing a restore loses the `expires` and `last-modified` entries of the version's metadata, because they are
  hidden from the metadata that is written back. `Restore.RunDropsEntry` says that they are gone exactly from the first
  completed restore on, `Restore.RunKeepsEntry` that every other foreign entry stays. A version without an ETag can
  never be restored: `StoredVersion.WriteBackExactly`.
- The restore handler reads the clock before the reservation does. Around midnight UTC the worker it starts and the
  scanner's recovery write deadlines a day apart. `Restore.DeadlinesAgreeExactly` says exactly when they agree, and
  `Restore.DeadlinesDisagreeAcrossMidnight` gives two runs.
- An upload that takes effect after its worker has been given up on can make two uploads take effect for one version.
  `Transition.LateUploadRepeats` reaches it from every state with such an upload, `Transition.AtMostOneUpload` bounds it
  for all runs. What a completed version refers to is right even then.
- Removing a bucket from the queue of a healing tracker while ranging over that queue fails when the name is last and
  occurs before, and otherwise passes over the entry after each removal. `HealingTracker.RangeExact` says so for all
  queues; with distinct names one entry is removed.
- A status request whose response cannot be encoded drops the heal results it took. `HealQueue.DeliveredThenPending`
  shows that this is the only way to lose a result.
- A forced heal start forgets an ended sequence on its path even when it is then refused: `HealQueue.ForcedStartForgets`.

## Model

| member | source | states |
|---|---|---|
| `IamSafety.EveryExitKeepsInvariant` | cmd/admin-iam-relationship-users.go:115-231 | after any number of completed persistence calls of any request, group lists and the membership index agree, members are existing regular users, mappings have owners, and memory equals the disk image; orphaned credentials and chains of parents are allowed |
| `IamSafety.DeletionEffect` | cmd/admin-iam-relationship-users.go:135-200 | on every graph, also where group lists and the index had diverged, a completed deletion removes the user, what hangs below, their mappings and index entries, strikes the user from every member list and changes nothing else; the user is left in neither representation |
| `IamSafety.DeleteChain` | cmd/admin-iam-relationship-users.go:135-200 | every step of the cascade groups, children, target is admissible when it is reached |
| `IamSafety.PlanChain` | cmd/admin-iam-relationship-groups.go:108-244 | every request that passes its checks asks only for steps whose conditions hold when they are reached |
| `IamPlans.StepKeeps` | cmd/admin-iam-relationship-users.go:149-231 | one persistence call with its memory update keeps the whole invariant, for all nine kinds of step |
| `IamPlans.ChainPrefixKeeps` | cmd/admin-iam-relationship-users.go:149-200 | stopping anywhere in an admissible list of steps keeps the invariant |
| `IamLoad.RestartReloads` | cmd/iam.go:464-581 | loading a disk image gives back the users, groups, mappings and memberships that were in memory, except what has expired; of an expired credential only a mapping whose deletion failed comes back; only the epoch and index entries without groups are lost |
| `IamLoad.RestartKeepsInvariantExactly` | cmd/iam.go:464-581 | a restart keeps the invariant exactly when no group lists a user that has expired by then, every live record carries its access key, and every deletion of an expired record succeeded |
| `IamLoad.SurvivesExactly` | pkg/auth/credentials.go:122-128 | a credential is there after a restart exactly when it has no expiry or one not before the time of the restart |
| `IamLinks.NoneOrphanedExactly` | cmd/admin-iam-relationship-users.go:120-200 | on every graph, no exit of a request leaves a credential without a parent that was present, exactly when no child of a deleted user and no deleted service account has children of its own |
| `IamLinks.RequestKeepsTwoTier` | cmd/admin-iam-relationship-users.go:120-200 | where every linked credential hangs directly below an unlinked one or the root account, every exit of every request keeps it so and orphans nobody |
| `IamEffects.CommittedEffect` | cmd/admin-iam-relationship-users.go:201-231 | on every graph a committed request has exactly its effect: who is in which group and which list, which credentials exist with which fields, which policies are mapped, how the epoch moved, and nothing else |
| `IamEffects.GroupCommitted` | cmd/admin-iam-relationship-groups.go:164-218 | adding, removing, enabling, disabling and deleting change memberships and status as named, for all users and groups |
| `IamEffects.BindingCommitted` | cmd/iam.go:1858-1922 | the target's direct policies become exactly the named ones and no other mapping changes |
| `IamEffects.ServiceCommitted` | cmd/admin-iam-relationship-service-accounts.go:251-286 | status, secret, session token or existence of the one service account changes, nothing else |
| `IamRuns.DisabledHoldsNothing` | cmd/iam.go:1989-2043 | from the commit that disables a user on, evaluation grants that name nothing in every state of the run until the name is enabled or made anew |
| `IamImpact.ImpactReportsExact` | cmd/admin-iam-relationships.go:76-147 | on every graph, once a relationship mutation has committed, every credential whose effective policies changed, through its mapping, a group or its parent, is in the report exactly when nothing two levels below the target can see the change |
| `IamImpact.TwoTierCovers` | cmd/admin-iam-relationships.go:76-147 | in two tiers that is always so |
| `IamImpact.ReportSorted` | cmd/admin-iam-relationships.go:120-147 | a report is sorted and has no duplicates |
| `IamImpact.DeletionReportExact` | cmd/admin-iam-relationship-users.go:115-200 | the report of a user deletion is exactly the set of keys removed from the user map, and covers everyone affected exactly when nothing hangs below a child |
| `IamImpact.GroupReportSound` | cmd/admin-iam-relationship-groups.go:221-236 | the union of the reports before and after a group edit covers everyone affected |
| `IamImpact.BindReportExact` | cmd/admin-iam-relationship-mutations.go:79-97 | a binding change is covered by the report taken before it exactly when no credential below a child of the user sees the change |
| `IamImpact.StatusReportSound` | cmd/admin-iam-relationship-users.go:201-231 | the union of the reports before and after a status change covers everyone affected |
| `IamImpact.ServiceReportExact` | cmd/admin-iam-relationship-service-accounts.go:209-286 | a change of a service account affects nobody else exactly when nothing hangs below it, or the change does not turn the validity of an account that is granted something |
| `IamRuns.RunKeepsInvariant` | cmd/admin-iam-relationship-users.go:81-239 | the invariant holds in every state of every interleaving of requests, issued temporary credentials and partial failures, unless the store fails between the two records of an issued credential |
| `IamRuns.HistoryKeepsInvariantExactly` | cmd/iam.go:864-903 | where credentials may be issued under any key, in use or not, the invariant holds up to a state exactly when each of them so far did nothing, replaced a temporary credential, or took a new key and was saved whole |
| `IamRuns.IssueKeepsInvariantExactly` | cmd/iam.go:864-903 | whatever the key, issuing a temporary credential keeps the invariant exactly when no call completed, when it replaces a temporary credential, or when the key is new and not just the mapping was saved |
| `IamRuns.RunKeepsTwoTier` | cmd/admin-iam-relationship-users.go:120-200 | in every run whose issued credentials still have their parents no request takes a present parent away |
| `IamInstances.OrphaningRun` | cmd/admin-iam-relationship-users.go:125-200 | a run from the empty store in which a credential is issued for a user just deleted, the name goes to a service account of another user, and deleting that user strips the credential of a present parent without reporting it |
| `IamTokens.ServerIsCollisionless` | cmd/admin-iam-relationships.go:48-72 | digests that are a keyed hash of the canonical bytes meet the assumption of the results below as soon as the hashes do not collide |
| `IamTokens.DraftAcceptedExactly` | cmd/admin-iam-relationships.go:206-212 | a token is accepted exactly in graphs with the fingerprint it was issued for, for the same target and expiry, inside its window |
| `IamTokens.TokensEqualExactly` | cmd/admin-iam-relationships.go:48-72 | two graphs give one token exactly when they have one fingerprint |
| `IamTokens.CommitsOnlyWhereIssued` | cmd/admin-iam-relationship-users.go:104-118 | in any interleaving a request that brings a token, creations of service accounts included, commits only where the canonical graph, epoch included, is the one its token was issued for, under the same kind and target, and the lists of policy names are the same |
| `IamTokens.RunJoinable` | cmd/admin-iam-bindings.go:163-187 | every state of a run holds mappings whose stored text determines their names |
| `IamChanges.FingerprintKeptExactly` | cmd/admin-iam-relationships.go:48-72 | a request cut anywhere, or an issued credential, leaves the fingerprint as it was exactly when nothing was done or it asked for what was so already: members already listed and indexed, the same status, token or mapping text; whatever moves the epoch, creates, deletes or rotates changes it |
| `IamChanges.ChangeRefusesOtherDrafts` | cmd/admin-iam-relationships.go:48-72 | along a run, once an event that is not silent has happened, cut short or not, every draft issued before it is refused for as long as nothing further shows |
| `IamTokens.EpochKillsTokens` | cmd/admin-iam-bindings.go:285-294 | once a step moved the epoch, earlier tokens are refused for the rest of the run, fewer than 2^64 moves on, whatever request brings them |
| `IamTokens.DeletionKillsTokens` | cmd/admin-iam-relationship-users.go:162-199 | no token issued before a user deletion is accepted again by any request that brings one, even after the user is created anew |
| `IamReturns.PairReturnsExactly` | cmd/admin-iam-relationships.go:48-72 | two committed requests in a row, of any kinds, bring the first fingerprint back exactly when neither moves the epoch and either both work on one record and leave it as it was, or both asked for what was so |
| `IamReturns.TokensReturnExactly` | cmd/admin-iam-relationships.go:48-72 | along a run, the tokens of a state are valid again after the next two requests exactly under that condition, which speaks of the state and the two requests alone |
| `IamReturns.MembershipRoundTrip` | cmd/admin-iam-relationship-groups.go:185-218 | in a run of two committed requests that add members to a group and remove them again, the tokens of the first and the last state agree exactly when every one of them already had an index entry and the group listed its members without repetition |
| `IamInstances.TokenReturns` | cmd/admin-iam-relationship-groups.go:185-218 | a run from the empty store in which an old token is valid again after a membership was granted and withdrawn |
| `IamRuns.ServiceCreatedUnderSameParent` | cmd/admin-iam-service-account-create.go:31-100 | a service account is created only if, fewer than 2^64 epoch moves apart, nothing moved the epoch since its proof was captured, and its parent is byte for byte the captured one, whether or not a relationship revision was put into the proof in between |
| `IamRequests.CanonicalNamesAccepts` | cmd/admin-iam-bindings.go:74-86 | a list of names is accepted exactly when it has at most a hundred valid distinct names, and then becomes their sorted enumeration |
| `IamRequests.MembersCheck` | cmd/admin-iam-relationship-groups.go:153-161 | members are accepted exactly when all are existing regular users |
| `IamAcceptance.AcceptedExactly` | cmd/admin-iam-relationship-users.go:81-134 | every request, of all eleven kinds, gets past its checks exactly under conditions on the graph, the time and the request that are written out with their bounds: names, secrets, draft window, sizes, targets, members, children, parents, documents and revisions |
| `IamAcceptance.CaptureExactly` | cmd/admin-iam-service-account-create.go:31-52 | what is captured before a service account is created, and exactly for which parents |
| `IamAcceptance.ErrorsTell` | cmd/admin-iam-bindings.go:163-187 | a refusal tells the truth: what it names as missing is missing, what it names as existing exists, and no refused check is reported as a failure of the store |
| `IamAcceptance.UnauthorizedLearnNothing` | cmd/admin-iam-relationship-users.go:96-103 | without permission the answer is the same refusal whatever the graph holds |
| `IamAcceptance.DraftConflictExactly` | cmd/admin-iam-relationships.go:206-212 | a draft is in conflict exactly when it is outside its thirty seconds or not the token of the graph |
| `IamAcceptance.RevisionConflictExactly` | cmd/admin-iam-bindings.go:163-187 | a replacement of bindings is in conflict exactly when only its revision is not current |
| `IamAcceptance.RevisionsEqualExactly` | cmd/admin-iam-bindings.go:88-150 | two revisions are equal exactly for one target with the same direct policies, credential, memberships and group records |
| `IamAcceptance.RevisionStillCurrent` | cmd/admin-iam-bindings.go:163-187 | compare and swap over any interleaving: a replacement, binding or secret change that carries a revision read in some state gets past its checks only where its target is bound as it was in that state |
| `IamAcceptance.SelfRotationNeedsSecret` | cmd/admin-self-credentials.go:188-238 | a user changes their own secret only while it is the one they signed with |
| `IamAcceptance.GrantedExactly` | cmd/iam.go:1989-2043 | a policy is granted by the own mapping, else the parent's, or by a group of the index that is not disabled |
| `IamAcceptance.PolicyGetExactly` | cmd/iam.go:1989-2043 | only a credential that is on, long enough and not expired is granted anything |
| `IamAcceptance.Utf8LenJoins` | cmd/admin-iam-bindings.go:70-72 | lengths in bytes add up |
| `IamAcceptance.Utf8LenOne` | cmd/admin-iam-bindings.go:70-72 | a character takes one to four bytes, by its code point |
| `Lex.LeExactly` | cmd/admin-iam-bindings.go:74-86 | the order of names: a prefix comes first, otherwise the first difference decides |
| `IamSys.HandlersKeepInvariant` | cmd/admin-iam-relationship-users.go:81-239 | whatever a handler did and returned, the invariant holds afterwards |
| `IamSys.IamSystem.MutateUser` | cmd/admin-iam-relationship-users.go:81-239 | performs a prefix of the plan, all of it on success, and reports the affected keys; anything done and not confirmed is reported as committed |
| `IamSys.IamSystem.DeleteCascade` | cmd/admin-iam-relationship-users.go:135-200 | the loops over groups and children and the final calls are the deletion plan, cut where a call failed |
| `IamSys.IamSystem.MutateGroup` | cmd/admin-iam-relationship-groups.go:108-244 | performs a prefix of the plan, all of it on success, with the union of both impact reports |
| `IamSys.IamSystem.MutateServiceAccount` | cmd/admin-iam-relationship-service-accounts.go:175-295 | performs a prefix of the plan, all of it on success |
| `IamSys.IamSystem.ReplaceRelationshipBindings` | cmd/admin-iam-relationship-mutations.go:34-99 | changes the mapping only if both revisions are current |
| `IamSys.IamSystem.ReplaceNativeBindings` | cmd/admin-iam-bindings.go:163-187 | changes the mapping only if the target's revision is current, and returns the new one; what a current revision means is `IamAcceptance.RevisionStillCurrent` |
| `IamSys.IamSystem.RotateUserSecret` | cmd/admin-iam-relationship-user-secret.go:22-85 | sets the secret only if both revisions are current, and moves the epoch |
| `IamSys.IamSystem.RotateNativeSecret` | cmd/admin-iam-bindings.go:400-429 | sets the secret of an existing regular user and moves the epoch; the method does its plan or a prefix of it, and what the plan amounts to is `IamEffects.CommittedEffect` |
| `IamSys.IamSystem.RotateSelfSecret` | cmd/admin-self-credentials.go:188-238 | sets the caller's own secret if the expected one is current, without moving the epoch; the method does its plan or a prefix of it, and what the plan amounts to is `IamEffects.CommittedEffect` |
| `IamSys.IamSystem.CreateNativeUser` | cmd/admin-iam-bindings.go:269-330 | creates the user or refuses, with nothing else changed; the method does its plan or a prefix of it, and what the plan amounts to is `IamEffects.CommittedEffect` |
| `IamSys.IamSystem.CreateNativeGroup` | cmd/admin-iam-bindings.go:269-330 | creates the group with the named members in both representations or refuses |
| `IamSys.IamSystem.CreateServiceAccount` | cmd/admin-iam-service-account-create.go:53-100 | checks draft, proof, parent and key in the order of the code, then saves the minted credential below the proved parent or refuses |
| `IamSys.IamSystem.NativeRelationships` | cmd/admin-iam-relationships.go:76-147 | the loops compute the sorted keys reached from the target, with the errors in order |
| `IamSys.IamSystem.SetPolicies` | cmd/iam.go:1858-1922 | checks that the documents exist, then sets or clears the mapping on disk and in memory |
| `IamSys.IamSystem.constructor` | cmd/iam.go:464-470 | starts from an empty graph and an empty disk |
| `IamSys.IamSystem.Restart` | cmd/iam.go:464-581 | reading the store kind by kind, with expired records deleted on the way and each deletion free to fail, gives the loaded graph and the purged disk |
| `IamSys.IamSystem.LoadUsers` | cmd/iam-object-store.go:415-482 | finds the live identities of one kind and deletes the expired ones with their mappings, going on where a deletion fails |
| `IamSys.IamSystem.BuildMemberships` | cmd/iam.go:2444-2465 | from any index, empty or not, adds exactly the listed memberships group by group and keeps what was there |
| `IamSys.IamSystem.IssueTemporary` | cmd/iam.go:864-903 | saves the mapping, then the identity, and stops where a call fails |
| `CanonicalJson.CanonicalBytesExact` | cmd/admin-iam-relationships.go:218-263 | two trees get the same canonical bytes exactly when they differ only in the order of arrays at set paths, at any depth; which paths these are is `JsonPlaces.RearrangementShowsExactly` |
| `CanonicalJson.CanonicalIsEquivalent` | cmd/admin-iam-relationships.go:241-254 | canonicalising reorders arrays at set paths and leaves every other array in its order |
| `CanonicalJson.CanonicalIdempotent` | cmd/admin-iam-relationships.go:218-263 | canonicalising twice is canonicalising once |
| `CanonicalJson.EncodeInjective` | cmd/admin-iam-relationships.go:243-248 | different trees have different texts, escapes and nesting included, so sorting by text is sorting by value |
| `CanonicalJson.EscapeExactly` | cmd/admin-iam-relationships.go:262 | which characters of a text stand for themselves, and how quotes, backslashes, line ends and tabs are written |
| `JsonPlaces.RearrangementShowsExactly` | cmd/admin-iam-relationships.go:265-274 | for every tree and every place in it, rearranging the array there leaves the canonical bytes as they were exactly when the place is one of the five written out, or every item is as the one it replaces but for such arrays inside it |
| `JsonPlaces.StatementSetsForgotten` | cmd/admin-iam-relationships.go:269-274 | the actions, resources and condition values of any statement of any policy may be written in any order |
| `JsonPlaces.MemberSetsForgotten` | cmd/admin-iam-relationships.go:266-268 | so may the groups of a credential and the members of a group |
| `JsonPlaces.StatementOrderShows` | cmd/admin-iam-relationships.go:214-217 | another order of the statements shows, unless each is as the one it replaces |
| `JsonPlaces.OtherTextsShow` | cmd/admin-iam-relationships.go:214-217 | a list of texts at any other place keeps its order |
| `IamImage.FingerprintExact` | cmd/admin-iam-relationships.go:48-72 | for all graphs that can be written as JSON, the bytes hashed agree exactly when epochs, credentials, groups, stored mapping texts, policies and memberships agree up to the order of group and member lists |
| `IamImage.BytesTellApart` | cmd/admin-iam-relationships.go:48-72 | the same record by record: the bytes agree exactly when the epochs agree as 64-bit numbers and every credential, group, stored mapping text, policy and membership does, field by field |
| `IamImage.JoinedInjective` | cmd/admin-iam-bindings.go:183 | policy names joined with commas can be told apart again when none is empty or holds a comma |
| `IamImage.PrintedMappingsInjective` | cmd/admin-iam-bindings.go:183 | so mappings of such names are determined by their stored texts |
| `Transition.CompleteIsReadable` | cmd/bucket-lifecycle.go:421-509 | in every run with crashes, retries, stale stats, lost acknowledgements and late uploads, a complete version that is not being deleted refers to a stored remote object with its content and the marker of its key |
| `Transition.RecoveryAlwaysMatches` | cmd/bucket-lifecycle.go:467-508 | whatever a retry finds under the bound key passes its identity check |
| `Transition.KeyIsKept` | cmd/bucket-lifecycle.go:354-417 | between any two states of a run in which a version exists throughout, a bound key stays the same and a complete reference stays complete |
| `Transition.SendsReuseKey` | cmd/bucket-lifecycle.go:421-466 | every upload sent for the version after its key was bound carries that key, its marker and the content of the version |
| `Transition.AtMostOneUpload` | cmd/bucket-lifecycle.go:467-508 | for every key of every run, the uploads that took effect are at most one more than the late uploads and stale stats on that key |
| `Transition.OneUploadPerVersion` | cmd/bucket-lifecycle.go:467-508 | for as long as a version exists, at most one upload takes effect for it if no late upload or stale stat concerned it |
| `Transition.LateUploadRepeats` | cmd/bucket-lifecycle.go:467-508 | from any reachable state with an unlanded upload nobody waits for, its version free, pending and not being deleted, and no effect on the key, some continuation reaches two effects with one disturbance |
| `Transition.StaleStatRepeats` | cmd/bucket-lifecycle.go:467-508 | from any reachable state with such a version, one stale stat can cost one more effect |
| `Transition.LateUploadInstance` | cmd/bucket-lifecycle.go:467-508 | a run from the start that ends with two effects on one key |
| `Transition.RunKeeps` | cmd/bucket-lifecycle.go:354-509 | the inductive invariant: each key belongs to the one version it was bound for, lock holders see current records, completed versions are stored |
| `Transition.RemoveKeeps` | cmd/transition-reference.go:162-226 | removing the remote object of a version being deleted takes nothing from any other version; that it is removed is `TransitionEnds.DeletionRemovesRemote` |
| `TransitionEnds.DeletionRemovesRemote` | cmd/transition-reference.go:162-226 | in every run, when the record of a version goes, the object a complete version refers to, the one found for a pending one, or anything at all if none was found, is no longer stored, unless an upload to the key landed since the lookup |
| `TransitionEnds.IntentBeforeRemoval` | cmd/transition-reference.go:200-221 | whenever a remote object is removed the intent to delete is durable, and no other key is touched |
| `TransitionEnds.DeletionCompletes` | cmd/transition-reference.go:162-226 | from every reachable state a free version can be deleted together with what it refers to |
| `TransitionEnds.MoveBegins` | cmd/bucket-lifecycle.go:354-417 | a version not moved yet can be bound to a key nothing was ever bound to |
| `TransitionEnds.MoveCompletes` | cmd/bucket-lifecycle.go:421-509 | from every reachable state a bound version can be completed: what its key holds is committed without another upload, otherwise one upload takes effect, and the content can be read back |
| `Restore.HeaderRoundTrip` | cmd/bucket-lifecycle.go:776-802 | parsing undoes both printed forms of the restore header, whatever text the date has |
| `Restore.DeadlinePrintable` | pkg/bucket/lifecycle/lifecycle.go:360-373 | the cap keeps every deadline printable and not before the day of the request, whatever the number of days |
| `Restore.DeadlineExactly` | pkg/bucket/lifecycle/lifecycle.go:360-373 | for every printable time and every positive number of days the deadline is a midnight, more than that many and at most one more day away, or the midnight of 31 December 9999 when that comes first |
| `Restore.HeaderText` | cmd/bucket-lifecycle.go:849 | the two texts of the restore header |
| `Restore.ServerTextFaithful` | cmd/bucket-lifecycle.go:746-767 | the header text over a library that reads back printable times, 64-bit numbers, references and parts satisfies everything the protocol relies on |
| `StoredVersion.RebuiltManaged` | cmd/bucket-lifecycle.go:718-767 | the write sets tag, header, reference and parts from what was read, also where the old metadata kept the tag under its legacy name |
| `StoredVersion.RebuiltEntry` | cmd/bucket-lifecycle.go:718-767 | every other entry is carried over, tags included, except `expires` and `last-modified`, which are lost, and a missing content type, which is guessed |
| `StoredVersion.RebuiltClass` | cmd/bucket-lifecycle.go:718-726 | the storage class written back: the own one unless standard, else that of the reference, of the rule, or the standard one |
| `StoredVersion.WriteBackExactly` | cmd/xl-storage.go:2147-2163 | past the length and part checks and the check of the storage layer, the write goes through exactly when the copy has the length of the version, the version has a tag, and its parts add up |
| `StoredVersion.WriteBackKeeps` | cmd/erasure-object.go:797-870 | the version written reads back as the one it replaces, logical parts included |
| `Restore.RunKeepsIdentity` | cmd/bucket-lifecycle.go:808-863 | through every run of reservations, completions, recoveries and expiries, although each completion builds the metadata anew, the version reads back with the same modification time, size, tag, transition status, remote reference, intended deletion and logical parts |
| `Restore.RunKeepsEntry` | cmd/bucket-lifecycle.go:745-751 | through every run an entry restores do not manage keeps its value |
| `Restore.RunDropsEntry` | cmd/object-api-utils.go:264-269 | `expires` and `last-modified` have their value up to the first completed restore and none after it |
| `Restore.ReservedIsOngoing` | cmd/bucket-lifecycle.go:879-916 | a granted reservation is visible as ongoing |
| `Restore.OngoingIsStable` | cmd/bucket-lifecycle.go:879-916 | while a reservation is open only its completion changes the version |
| `Restore.ReservationsAlternate` | cmd/bucket-lifecycle.go:879-916 | between two reservations there is a completion, so at most one is open |
| `Restore.BeginExactly` | cmd/bucket-lifecycle.go:879-916 | exactly when a restore can be asked for, that a copy not expired is only extended, and which header is left |
| `Restore.FinishRequestExactly` | cmd/bucket-lifecycle.go:808-832 | exactly when the worker of a request succeeds |
| `Restore.ExpireExactly` | cmd/data-scanner.go:1090-1096 | a restored copy is dropped exactly when its deadline has passed, no restore is running and no deletion is intended |
| `Restore.CopyLasts` | cmd/data-scanner.go:1090-1096 | before its deadline nothing touches a restored copy but another request for it |
| `Restore.RecoveryKeepsDeadline` | cmd/bucket-lifecycle.go:452-464 | however late, recovery goes through exactly when the copy fits the version, and writes a deadline that can be read back and lasts the days that were asked for, counted from the reservation |
| `Restore.DeadlinesAgreeExactly` | cmd/object-handlers.go:4023-4052 | after a reservation, the worker of the request and recovery leave the same version behind exactly when the copy does not fit, both clock readings fall on one day or the deadline is capped for both |
| `Restore.DeadlinesDisagreeAcrossMidnight` | cmd/object-handlers.go:4023-4052 | two runs from one reservation around midnight, one finished by the worker and one by recovery, end with deadlines a day apart |
| `Restore.ReservableInstance` | cmd/bucket-lifecycle.go:879-916 | a version such runs can start from, with an `expires` entry, and a copy that fits it |
| `ConfigXml.AcceptsExactly` | cmd/bucket-config-validation.go:211-324 | the validator accepts a token stream exactly when it is the stream of a document the recursive schema accepts |
| `ConfigXml.DocumentAccepted` | cmd/bucket-config-validation.go:197-324 | for every document, acceptance of its tokens is acceptance by the schema: allowed and repeated children, scalars, attributes, prolog, Filter, And, Tag, Days and Date, tags against delete markers |
| `ConfigLanguage.LifecycleAcceptedExactly` | cmd/bucket-config-validation.go:182-324 | for every document, the validator accepts it exactly when it is a lifecycle configuration as written out with all names and bounds: which elements hold which, how often, days or date, one prefix and tags in a conjunction, one condition in a filter, tag keys of 1 to 128 and values of at most 256 characters, no tag on a rule that removes delete markers |
| `ConfigLanguage.VersioningAcceptedExactly` | cmd/bucket-config-validation.go:197-203 | the same for versioning configurations |
| `ConfigLanguage.OrdinaryRuleAccepted` | cmd/bucket-config-validation.go:182-324 | a family of ordinary rules that are accepted |
| `ConfigLanguage.DaysOrDateAccepted` | cmd/bucket-config-validation.go:285-288 | no accepted configuration has an expiration or transition with both days and a date |
| `Text.SpaceExactly` | cmd/bucket-config-validation.go:309 | which ASCII characters are white space |
| `Text.TrimExactly` | cmd/bucket-config-validation.go:309 | trimming takes the white space off both ends and nothing else |
| `ConfigXml.RulesJudgedAlone` | cmd/bucket-config-validation.go:288-310 | a lifecycle configuration is accepted exactly when it is with each of its children alone, so nothing leaks between rules |
| `ConfigXml.ValidXml` | cmd/bucket-config-validation.go:211-324 | the loop with its stack returns true exactly for the streams of acceptable documents that end without a decoding error |
| `ConfigXml.Validate` | cmd/bucket-config-validation.go:225-322 | the loop is the machine, token by token |
| `ConfigXml.FinishedExact` | cmd/bucket-config-validation.go:266-297 | the checks at an end tag are the schema's rules for the element, and what is passed up is what the schema says of it |
| `ConfigJson.DecodesExactly` | cmd/bucket-config-validation.go:81-134 | for every token stream, decoding yields a value and a rest exactly when the stream starts with a tree without repeated names and without values deeper than 32, and then it is that tree's value |
| `ConfigJson.DecodeTree` | cmd/bucket-config-validation.go:81-134 | decoding the tokens of any tree succeeds exactly for such trees and reads exactly their tokens |
| `ConfigJson.FitsExactly` | cmd/bucket-config-validation.go:82-84 | a tree is within the limit exactly when no value lies thirty-three levels below the root |
| `ConfigJson.Reader.DecodeUnique` | cmd/bucket-config-validation.go:81-134 | the recursive reader with its loops computes that function and terminates |
| `Bitrot.ShardFileSize` | cmd/bitrot.go:142-161 | the exact size of the encoding; -1 exactly for invalid arguments or a size beyond 64 bits; no intermediate overflow |
| `Bitrot.EncodedLength` | cmd/bitrot.go:142-161 | the length of the encoding of a payload depends on its length alone |
| `Bitrot.CeilFrac` | cmd/utils.go:701-716 | the ceiling of the fraction for every sign, and zero for a zero denominator |
| `Bitrot.CreateSizeExact` | cmd/bitrot-streaming.go:91-97 | the size announced at creation, with wrap-around, is the size of the encoding exactly when the size function does not refuse |
| `Bitrot.Verify` | cmd/bitrot.go:164-221 | accepts exactly when the first bytes are the encoding of some payload of the given length, or, for whole-file algorithms, when size and sum match |
| `Bitrot.Frames` | cmd/bitrot.go:194-219 | the loop with its shrinking shard size reads the frames of the encoding and no others |
| `Bitrot.StreamingWriter.Write` | cmd/bitrot-streaming.go:50-62 | appends hash and chunk, nothing for an empty chunk, a prefix of both on failure |
| `Bitrot.WrittenIsEncoded` | cmd/bitrot-streaming.go:50-62 | writing a payload shard by shard produces its encoding |
| `Bitrot.WrittenVerifies` | cmd/bitrot.go:164-221 | every output of the writer verifies, whatever follows it in the file |
| `Bitrot.FrameAt` | cmd/bitrot-streaming.go:50-62 | where things are: every shard stands behind its own hash, after all shards before it and their hashes of 32 bytes |
| `Bitrot.StreamingReader.ReadAt` | cmd/bitrot-streaming.go:127-170 | the reader's state, buffer and outcome after one call, all error cases included |
| `Bitrot.SectionIsEncoded` | cmd/bitrot-streaming.go:134-144 | start and end offsets cut the stream at the encoding of the payload between them |
| `Bitrot.OffsetsFit` | cmd/bitrot-streaming.go:134-144 | in a file whose size is a 64-bit number no offset the reader computes overflows |
| `Bitrot.ReadsReturnPayload` | cmd/bitrot-streaming.go:127-185 | any number of reads in a row from any offset between shards returns exactly the payload from there |
| `Bitrot.ReadsServeOnlyFrames` | cmd/bitrot-streaming.go:127-185 | over any file at all, reads in a row return some bytes exactly when these have the length asked for and the file holds the very frames that encode them at the corresponding offset, so damaged data is never returned |
| `Bitrot.ReachedExact` | cmd/bitrot-streaming.go:168-169 | reads in a row advance by whole shards, up to the end |
| `HealQueue.TakenThenPending` | cmd/admin-heal-ops.go:338-382 | in every run what was taken followed by what is pending is every accepted result in order, numbered from one without gap or repeat, and at most 1000 are pending |
| `HealQueue.DeliveredThenPending` | cmd/admin-heal-ops.go:356-381 | what was delivered followed by what is pending is everything accepted exactly when no failed response held results |
| `HealQueue.LossInstance` | cmd/admin-heal-ops.go:356-381 | one result and one failed response lose it |
| `HealQueue.DeliveredInOrder` | cmd/admin-heal-ops.go:356-381 | each delivered item is the accepted result of its number, and numbers only grow, even when results are lost |
| `HealQueue.Sequence.Push` | cmd/admin-heal-ops.go:596-652 | adds the result with the next number unless 1000 are pending |
| `HealQueue.Sequence.Pop` | cmd/admin-heal-ops.go:338-382 | hands out all results and remembers the last number, also when the response cannot be encoded |
| `HealQueue.PathsStayApart` | cmd/admin-heal-ops.go:278-332 | in every run of starts, ends and removals, of two sequences registered and running neither path begins with the other |
| `HealQueue.LaunchExactly` | cmd/admin-heal-ops.go:278-312 | exactly when a start is admitted |
| `HealQueue.ForcedStartReplaces` | cmd/admin-heal-ops.go:281-309 | in every run a forced start on the path of a running client sequence always takes its place |
| `HealQueue.ForcedStartForgets` | cmd/admin-heal-ops.go:281-309 | a forced start can forget an ended sequence and be refused |
| `HealQueue.Registry.Launch` | cmd/admin-heal-ops.go:278-332 | a forced start stops what is on its path first, and waits forever on the background sequence; otherwise a path already running is refused, then any overlap with a running sequence; else the sequence is registered |
| `HealingTracker.QueueIsListedExceptHealed` | cmd/background-newdisks-heal-ops.go:176-209 | in every run over lists of distinct names the queue is what was last listed without what is healed, in the order of the list |
| `HealingTracker.QueuedAndHealedPartition` | cmd/background-newdisks-heal-ops.go:176-209 | queued and healed are disjoint and cover the list, and no removal goes out of bounds |
| `HealingTracker.RangeExact` | cmd/background-newdisks-heal-ops.go:191-196 | for every queue, the loop fails exactly when the name is last and occurs before, and otherwise removes with skips |
| `HealingTracker.RemovesExactlyOne` | cmd/background-newdisks-heal-ops.go:191-196 | from distinct names exactly the named entry goes and the order stays |
| `HealingTracker.RepeatedNamesPanic` | cmd/background-newdisks-heal-ops.go:191-196 | a queue on which the loop fails and one on which it leaves a copy |
| `HealingTracker.ResumeRestores` | cmd/background-newdisks-heal-ops.go:176-189 | resuming restores the totals of the last finished bucket, whatever came in between |
| `HealingTracker.Tracker.BucketDone` | cmd/background-newdisks-heal-ops.go:185-197 | records totals and bucket, and edits the array in place as the range over it does |
| `HealingTracker.Tracker.SetQueuedBuckets` | cmd/background-newdisks-heal-ops.go:201-209 | queues the listed names that are not healed, in order |
| `HealingTracker.Tracker.IsHealed` | cmd/background-newdisks-heal-ops.go:166-173 | finds exactly the healed names |
| `UrlEncode.Encode` | cmd/api-utils.go:40-94 | all three paths yield the byte-wise encoding, in a buffer filled to its end and no further |
| `UrlEncode.EncodedLength` | cmd/api-utils.go:40-62 | the precomputed buffer size is the length of the encoding |
| `UrlEncode.DecodeUndoesEncode` | cmd/api-utils.go:24-94 | plus and percent decoding undoes the encoding of every byte string |
| `UrlEncode.EncodeInjective` | cmd/api-utils.go:24-94 | different byte strings have different encodings |
| `UrlEncode.ByteExactly` | cmd/api-utils.go:24-35 | each byte becomes itself for letters, digits and five signs, a plus sign for a space, and otherwise a percent sign and two upper-case digits |
| `UrlEncode.EncodeJoins` | cmd/api-utils.go:76-93 | the encoding is byte by byte |
| `UrlEncode.TildeIsEscaped` | cmd/api-utils.go:37-40 | a tilde is escaped and a slash is not |

## Left out

- Legacy IAM operations that bypass the native engine, and other stores than the object store.
- Policy evaluation, permission guards and claims of session tokens: their verdicts are parameters (`authorized`, `claims`, `signed`, `contained`).
- Keyed hashing itself: the two hashes are assumed not to collide on texts.
- IamImage.FingerprintExact: does not tell a nil list from an empty one, and takes a policy document as one value whose image tells it apart.
- IamLoad.RestartReloads: one clock reading for the whole load; documents come back unchanged. Loading into a running server's maps, re-signing of session tokens after a change of the root key, and quarantined mapping files are not modelled.
- IamSys.IamSystem.Restart: as `IamLoad.RestartReloads`.
- IamRuns.RunKeepsInvariant: temporary credentials are issued under fresh keys, see `IamRuns.HistoryKeepsInvariantExactly` for others, and with cleanly joined policy names. When saving the mapping fails the code releases its lock twice; the model stops there.
- IamRuns.RunKeepsTwoTier: takes it of each issued credential that its parent is still there, because the code does not look; see `IamInstances.OrphaningRun`.
- IamChanges.ChangeRefusesOtherDrafts: speaks of the time until something further shows; a later change can bring the fingerprint back, see `IamReturns.TokensReturnExactly`. Once the epoch has moved, `IamTokens.EpochKillsTokens` has no such end.
- `CanonicalJson` works on values: each array belongs to one place in the tree, so the update in place of the code has no aliasing to capture. Decoding and number formatting of the JSON library are not modelled.
- IamSys.IamSystem.CreateServiceAccount: takes the minted credential as given; key generation and the session policy are not modelled.
- Choice of objects by lifecycle rules, tier names and pins, and versions left pending without a reference by older releases; the model lets any version be picked at any time.
- Select requests of restores, events, object locks, and versions in the metadata format of older releases.
- StoredVersion.WriteBackKeeps: a version without any part, which the code does not write, gains one.
- Transition.AtMostOneUpload: bounds the effects by the late uploads and stale stats on the key instead of by one, because the code cannot rule these out; see `Transition.LateUploadRepeats` and `Transition.StaleStatRepeats`.
- Transition.CompleteIsReadable: leaves out versions whose deletion has begun, since their remote object goes first.
- `validConditionalBucketPolicy` and the remaining request parsing around the two validators.
- ConfigXml.ValidXml: starts from the tokens of Go's decoder, which pairs tags and resolves namespaces.
- Bitrot.StreamingReader.ReadAt: takes the file as one byte string, whether inline or on disk, and an open that may fail; offsets are unbounded integers, which `Bitrot.OffsetsFit` shows to be within 64 bits for files of 64-bit size.
- Writing and reading of whole-file checksums, and erasure coding around the shards.
- HealQueue.Sequence.Push: one pass of its waiting loop; timers, stop signals and the lock held while waiting are not modelled.
- HealQueue.Registry.Launch: is one step, though the code takes its lock anew after the stop or the first look-up; a stop in between is the event `Remove`.
- HealQueue.PathsStayApart: speaks of registered sequences, not of goroutines that outlive their entry, and compares paths case-sensitively.
- Persistence of the healing tracker, and the listing and healing of objects.
- HTTP handlers, request signatures, audit logs and metrics.
