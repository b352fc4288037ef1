# Access policy and sign-in: a verified model

access-roster decides who is in which group and what a token may say (`policy/`), and its client,
`accessctl`, keeps one sign-in per installation alive on a laptop and rewrites a few files there
(`cmd/accessctl/`). This project models both in Dafny and proves what they promise.

| part | modules |
|---|---|
| one sign-in shared by many processes: peek, lock, read again, exchange, save | `Sessions`, `Protocol`, `RefreshSafety`, `RefreshTheorems`, `CacheTheorems`, `CallerTheorems` |
| names, grants, role ladders and their cycle search | `Text`, `Grants`, `Ladders` |
| the vocabulary: what a grant may mean, wildcard expansion, and what a groups key stands for | `Vocabularies`, `Policies`, `Meanings` |
| claim fragments: merging, the load-time conflict check, the same in the heap, and what an evaluation makes of them | `Fragments`, `Merging`, `ClaimPaths`, `FragmentCheck`, `ClaimTables`, `HeldClaims` |
| evaluation: seed, inheritance, provenance, lifetimes | `Evaluation`, `Granting`, `Entitlements`, `Evaluator` |
| what a token carries: scoping, unread keys, the delimiter rewrite | `Scoping`, `UnreadKeys`, `Delimiters` |
| many files folded into one policy | `Layers`, `LayerOrder`, `LayerEntries` |
| the access document and its overlay | `AccessDocuments` |
| how long a refresh chain may live | `AbsoluteLimits` |
| the block in the AWS configuration | `ConfigBlock`, `ConfigRuns`, `CloudProfiles` |
| the managed known_hosts file | `KnownHosts`, `KnownHostsRuns`, `KnownHostsOverTime` |

Code that works by steps is a method, in a class where it updates fields, and its contract ties it to a
specification function or predicate; what is promised is then proved about that specification. Every such
specification is also tied to the declared data itself, in words that do not use it: `Meanings` says what a
grant, a wildcard and a groups key mean in terms of the vocabulary's tables, `Entitlements` who holds what in
terms of the proof, the groups and the ladders, `ClaimPaths` where a scalar is in terms of the keys that lead
to it, and `LayerEntries` what a directory loads in terms of its files' entries. The claim tables, which Go keeps as maps updated in place, are modelled twice: as values in `Fragments`, and
as objects in the heap in `ClaimTables`, where each method is tied to the value it computes and says
which objects it leaves alone.

## How the refresh protocol is modelled

A state holds the clock, the session file, the lock table, the expiry of every cached credential, the
issuer's one live refresh token, every process with its program counter, and a log of every request that
reached the issuer and of every credential minted for a cache. A step is one atomic action
of one process, a tick of the clock, a new process, or a sign-in; a run is any sequence of enabled steps,
so every interleaving of any number of processes is covered. A command may hold a certificate lock and a
cache lock around its session refresh, always in that order. The issuer's side is what
`cmd/accessctl/commands.go:31-39` says of it: presenting a refresh token may rotate it, and then only the
new one is accepted (section 6 of RFC 6749; rotation is described in its section 10.4). Which tokens it
issues, and for how long, is left open.

Freedom from deadlock holds of every run, faults and all. The safety theorems are about runs without the
faults `RefreshSafety.Faulty` lists, and each of those is a step of the model with its own lemma about what
it costs:

* a caller that cannot take the session lock works without it (`RefreshTheorems.UnlockedPairIsRefused`);
  one that cannot take a cache's or a certificate's does no harm;
* the read under the lock fails after the file has changed, so the token read before the lock is spent
  (`RefreshTheorems.StaleReadIsRefused`);
* a sign-in, which takes no lock, lands between an exchange and its save
  (`RefreshTheorems.SignInIsOverwritten`);
* the answer never arrives (`RefreshTheorems.LostAnswerSignsOut`), or the process dies or cannot write
  before saving it (`RefreshTheorems.PostOpensWindow`, `RefreshTheorems.WindowCloses`).

## Where the code promises more than it keeps

* The cycle search answers "no cycle" with the empty string, so cycles through a role whose name is empty
  may go unreported. With the empty name on no cycle the answer is exact (`Ladders.CycleIsExact`). With it on
  one and every cycle passing through it, the answer is always "no cycle" (`Ladders.EmptyNameHidesCycles`),
  because that name sorts first and the search that starts there closes there. What remains, a ladder
  with one cycle through the empty name and another that avoids it, depends on the order the implies
  lists are written in: the first back edge met decides which cycle is named.
* The conflict check at load compares scalars only. Fragments that disagree about being a map, a list or
  a scalar at one path are accepted, and then do not merge: `FragmentCheck.KindsSlipThrough`.
  `FragmentCheck.AcceptedAlwaysFolds` gives the exact condition.
* The delimiter check visits the names groups keys stand for and not the ones those imply, so two held
  groups can be spelled alike in a token: `Delimiters.ImpliedNameCollides`. They cannot exactly when the
  rewrite is injective on everything the keys lead to: `Delimiters.DistinctExactly`.
* A key that is reported as read by nothing may still open a door through an implied role:
  `Scoping.ReportedKeyOpensADoor`. Deleting a key changes nobody's verdict when everything that matches it
  is covered by another key that leads as far, and, where each of its grounds can be satisfied without
  more than it covers, exactly then: `Scoping.DeletionIsSafeExactly`.
* Removing one block from a configuration file may bring its two sides together into another opening
  marker, and profiles that carry a closing marker leave a remainder behind:
  `ConfigRuns.SidesMeet`. `ConfigRuns.SecondRunReplacesFirst` is an equivalence.
* A known_hosts pattern may hold white space that validation does not refuse but reading back splits on,
  and two entries may have the same patterns; either loses a line when fetches fail. For any list of
  valid entries `KnownHostsOverTime.KeptExactly` is an equivalence.

## Model

| member | source | states |
|---|---|---|
| Sessions.RewrittenIsJudgeable | cmd/accessctl/commands.go:86-164 | after a mint the file holds the access token just granted with its own expiry when the answer gives a lifetime, and none otherwise; it holds the rotated refresh token; and its access token reads as live exactly until its granted lifetime is within a minute |
| Sessions.SessionFile.Mint | cmd/accessctl/commands.go:126-165 | what an answer does to the file, field by field: the access token is the granted one with its expiry or is cleared, the refresh token is the rotated one, and there is one write exactly when something changed |
| RefreshSafety.OwnersPreserved | cmd/accessctl/cache_lock.go:25-44 | every step, the unsynchronised fallback and every other fault included, keeps each lock's owner inside the section it guards |
| RefreshSafety.LocksPreserved | cmd/accessctl/cache_lock.go:25-44 | mutual exclusion at a slot survives every step but the fallback at that very slot, whatever happens at the others |
| RefreshSafety.OneInSession | cmd/accessctl/commands.go:56-73 | no two processes are between the read under the session lock and its release |
| RefreshSafety.InvPreserved | cmd/accessctl/commands.go:41-79 | every step but a fault keeps the whole invariant of locks, session and log |
| RefreshSafety.NeverRefused | cmd/accessctl/commands.go:118-124 | a process about to spend a refresh token holds the live one |
| RefreshTheorems.EveryRefreshSpendsTheLiveToken | cmd/accessctl/commands.go:31-79 | in every fault-free run of any number of processes each request carries the issuer's one live token, and whenever the session lock is free the file holds that token, with the access token and expiry the last answer of this sign-in granted |
| RefreshTheorems.EveryRequestIsLogged | cmd/accessctl/commands.go:86-124 | the log of a run is every request its processes made to the issuer, in order, and nothing else |
| RefreshTheorems.ExchangesAreSpaced | cmd/accessctl/commands.go:57-66 | exchanges of one sign-in are at least the granted lifetime less the margin apart, summed over any stretch of the log |
| RefreshTheorems.OneExchangePerLifetime | cmd/accessctl/credentials.go:91-122 | however many callers find the session spent at once, one exchange happens per granted token lifetime |
| CacheTheorems.OneMintPerLifetime | cmd/accessctl/kube_cache.go:38-94 | over any run in which a cache can be locked, whatever else fails: a reader finds the last credential that could be kept and is offered it until its margin, and none was minted while one was still offered |
| CacheTheorems.OnlyFillsMint | cmd/accessctl/credentials.go:98-115 | no step but the fill changes a cached credential or counts as a mint |
| CallerTheorems.WarmCallerIsDone | cmd/accessctl/credentials.go:85-90 | a caller that finds what it asks for still offered takes no lock, asks nobody and changes nothing |
| CallerTheorems.ColdCallerIsServed | cmd/accessctl/credentials.go:91-122 | a caller of any kind that finds everything spent and nobody in its way ends well: one request with the live token, the granted session in the file, what was minted in its certificate and cache, every lock released and nothing else changed |
| RefreshTheorems.SomebodyCanMove | cmd/accessctl/pg.go:231-268 | after any run at all, faults included, while a process is unfinished some process has a step that is no fault: certificate, cache and session locks are nested in that order |
| RefreshTheorems.FollowOwners | cmd/accessctl/bao.go:242-288 | following lock owners from any unfinished process ends at one that can move |
| RefreshTheorems.EveryStepCounts | cmd/accessctl/bao.go:242-288 | every step of a process, faults included, brings it nearer its end and leaves every other process as it was; no process takes more than 31 |
| RefreshTheorems.RunKeepsTokens | cmd/accessctl/commands.go:139-147 | after any run, faults included, nobody holds a token that was never issued |
| RefreshTheorems.SignedOutForGood | cmd/accessctl/commands.go:31-39 | once the live token is nowhere on the laptop, no request is accepted until somebody signs in, whatever the processes do |
| RefreshTheorems.LostAnswerSignsOut | cmd/accessctl/commands.go:112-133 | a rotating answer that never arrives always ends the session |
| RefreshTheorems.PostOpensWindow | cmd/accessctl/commands.go:139-147 | the moment a rotating answer is received, the only copy of the session is in one process's memory |
| RefreshTheorems.WindowStaysOpen | cmd/accessctl/commands.go:139-162 | and stays there whatever every other process does |
| RefreshTheorems.WindowCloses | cmd/accessctl/config.go:341-367 | it ends by a save, which keeps the session, or by a crash or a failed write, which always loses it |
| RefreshTheorems.SignInIsOverwritten | cmd/accessctl/login.go:84 | a sign-in leaves its own refresh token as the live one and no access token; between an exchange and its save it is overwritten by the older session and lost |
| RefreshTheorems.StaleReadIsRefused | cmd/accessctl/commands.go:60-69 | when the read under the lock fails, the request is refused exactly when another process rotated the token in between |
| RefreshTheorems.UnlockedPairIsRefused | cmd/accessctl/cache_lock.go:29-40 | two callers that could not take the lock spend the same token, and the second is refused |
| Grants.SplitName | policy/policy.go:159-170 | a grant of three proper segments is read back from its name |
| Grants.NameSplit | policy/policy.go:159-170 | what a name splits into spells that name |
| Ladders.Walk.Visit | policy/vocabulary.go:227-245 | one call of the three-colour search: a hit names a role on a cycle; otherwise the role is black, black stays closed and acyclic, and the uncoloured set shrinks |
| Ladders.CycleInRoles | policy/vocabulary.go:221-252 | a name returned is on a cycle; none returned means acyclic, or the empty name on a cycle; and with every cycle through the empty name none is returned |
| Ladders.CycleIsExact | policy/vocabulary.go:221-252 | with the empty name on no cycle: no name returned exactly when the graph is acyclic |
| Ladders.EmptyNameHidesCycles | policy/vocabulary.go:221-252 | with the empty name on a cycle and every cycle through it, the answer is that there is none |
| Ladders.EmptyNameOnItself | policy/vocabulary.go:221-252 | there is such a ladder: a role with an empty name that implies itself |
| Vocabularies.Validate | policy/vocabulary.go:152-216 | accepts nothing incoherent, and a ladder with cycles only with the empty name on one; accepts every coherent vocabulary whose cycles, if any, all pass through the empty name; so with that name on no cycle, exactly the coherent and cycle-free ones |
| Vocabularies.ValidateThing | policy/vocabulary.go:156-213 | the same for one thing and its ladder |
| Vocabularies.Expand | policy/vocabulary.go:327-400 | sorted and without repeats, exactly the names a wildcard reaches, over or ignoring sensitive scopes |
| Vocabularies.SweepIsWhatFits | policy/vocabulary.go:261-361 | a grant is in a wildcard's expansion exactly when it matches the wildcard, passes `fits` and is outside sensitive scopes; ignoring sensitivity drops exactly the last condition |
| Vocabularies.EmptyWhy | policy/vocabulary.go:410-457 | the sweep of three flags and a set gives the reason the specification names |
| Vocabularies.EmptyReasonIsTrue | policy/vocabulary.go:402-457 | whenever a checked wildcard expands to nothing, the reason given is true, and the sensitive scopes listed are exactly the ones it could have reached |
| Meanings.FitsMeans | policy/vocabulary.go:261-280 | a grant is accepted exactly when its scope and thing are declared, the thing has the scope and the role, and the role is valid in the scope; each refusal is true |
| Meanings.CoherentMeans | policy/vocabulary.go:152-216 | apart from cycles, validation asks exactly this of the declared tables: things with declared scopes and some role, roles only in scopes of their thing, and no role implying one that is missing or not valid wherever it is |
| Meanings.CheckWildcardMeans | policy/vocabulary.go:290-309 | whatever a wildcard's own check says is missing is missing |
| Meanings.SweepMeans | policy/vocabulary.go:327-400 | for any vocabulary, coherent or not, a sweep is exactly the names of the grants it covers |
| Meanings.EmptyMeans | policy/vocabulary.go:402-457 | each reason for an empty expansion is given exactly when it is the first that is true |
| Policies.TargetsAreSorted | policy/vocabulary.go:534-543 | those names are listed in order and none twice |
| Meanings.TargetsMean | policy/vocabulary.go:490-543 | the targets of any key are exactly the names it stands for, read off the tables |
| Meanings.AcceptedMeans | policy/vocabulary.go:490-528 | a key is accepted exactly when it stands for something, and one without a wildcard has itself as its only target |
| Meanings.WildcardStandsFor | policy/vocabulary.go:501-528 | under a coherent vocabulary an accepted wildcard has as targets exactly the grants with its role, on its scope and thing, that belong to the vocabulary and are in no sensitive scope |
| Meanings.WildcardAccepted | policy/vocabulary.go:501-528 | a wildcard is accepted exactly when it names a role, a declared scope or any, and there is something for it to stand for |
| Meanings.RefusalIsTrue | policy/vocabulary.go:490-528 | a key is refused for a reason that is true of it |
| Merging.MergeFragmentByKey | policy/merge.go:13-32 | a merge succeeds exactly when every shared key merges, holds both sides' keys, and each value is the incoming, the held or the merged one |
| Merging.FailsHalfway | policy/merge.go:13-32 | a merge that fails stops at the first key in order that does not merge, with exactly the keys before it merged |
| Merging.UnionView | policy/merge.go:81-91 | a list union shows every printed form of either list, once |
| Merging.UnionKeepsTheLast | policy/merge.go:81-91 | of the items of both lists that print alike a union keeps the last |
| Merging.ScalarsMerge | policy/merge.go:71-76 | a scalar merges with anything that prints as it does, and stays |
| Fragments.PrintMeans | policy/merge.go:81-91 | a list prints as its items and a table as its entries in key order, with single spaces between them |
| Merging.MergeIsJoin | policy/merge.go:50-77 | values that agree merge, and the result says exactly what either says, at every depth |
| Merging.MergeFragmentIsJoin | policy/merge.go:13-32 | the same for whole fragments |
| Merging.MergesBothWays | policy/merge.go:50-77 | two values merge in both orders exactly when they agree |
| Fragments.JoinSwap | policy/merge.go:50-77 | joining two fragments to a third gives the same in either order |
| Merging.JoinAllPermutes | policy/evaluate.go:289-300 | the join of a family does not depend on its order |
| Merging.FoldOrderDoesNotShow | policy/evaluate.go:289-300 | folding an agreeing family in any order succeeds and reads the same |
| ClaimPaths.LeavesMean | policy/merge.go:119-140 | the walk meets a scalar exactly where a sequence of keys leads to it, under that sequence's spelling, and enters no list |
| ClaimPaths.FunctionalMeans | policy/policy.go:1072-1092 | no path has two printed forms exactly when no two scalars whose keys are spelled alike print differently |
| ClaimPaths.PlainClash | policy/policy.go:1072-1092 | with keys that are neither empty nor dotted that means the very same keys |
| FragmentCheck.Walk.Scalars | policy/merge.go:119-140 | the walk over one fragment records every dotted path with its printed scalar, and stops exactly at a path given two |
| FragmentCheck.Walk.Visit | policy/policy.go:1076-1088 | one scalar met: recorded, or refused exactly when its path already has another printed form |
| FragmentCheck.CheckFragments | policy/policy.go:1072-1092 | accepts exactly when no two groups have scalars of different printed form under keys that are spelled alike; with keys that are neither empty nor dotted, under the same keys |
| FragmentCheck.AcceptedMergesIffSameKinds | policy/policy.go:1072-1092 | once accepted, two fragments merge both ways exactly when they agree on map, list or scalar at each path |
| FragmentCheck.AcceptedAlwaysFolds | policy/evaluate.go:293-298 | once accepted, no fold over any subset in any order ever fails, exactly when all kinds agree |
| FragmentCheck.AcceptedOrderDoesNotShow | policy/evaluate.go:289-300 | two orders of the same groups then give claims that read the same |
| FragmentCheck.KindsSlipThrough | policy/policy.go:1072-1092 | a list against a scalar at one path is accepted and never merges |
| ClaimTables.CloneNode | policy/merge.go:98-116 | a copy reads the same and shares no map with its original |
| ClaimTables.UnionNodes | policy/merge.go:81-91 | the two loops of union give the specified list, over heap values |
| ClaimTables.MergeInto | policy/merge.go:13-32 | writes into the destination and no other map there was, so every source fragment stays as it was; the destination then reads as the merge of the two values, also where it stopped at a conflict |
| ClaimTables.MergeEach | policy/merge.go:14-31 | its loop over the source's keys, one by one, stopping at the first conflict |
| ClaimTables.MergeNode | policy/merge.go:50-77 | merging two values changes nothing that existed; a table merged into a table is a new one |
| ClaimTables.FoldHeld | policy/evaluate.go:289-300 | the fold over the held groups modifies no fragment of the policy and reads as the fold of their values |
| HeldClaims.HeldNeverConflict | policy/evaluate.go:293-298 | on claims the load-time check accepts and whose kinds agree, no fragment of a held group is ever abandoned, whichever groups are held |
| HeldClaims.ClaimsRead | policy/evaluate.go:289-314 | the result's claims then read as the join of the held groups' fragments, with the groups' names joined to a list under their key or in place of anything else there |
| HeldClaims.NamesAreThere | policy/evaluate.go:302-312 | under "groups" the claims list exactly the held names and what the fragments list there; every other key is as the fragments together say |
| HeldClaims.NothingIsLost | policy/evaluate.go:293-298 | that join says everything each held group's fragment says, at every depth |
| HeldClaims.JoinSaysNoMore | policy/merge.go:50-77 | whatever says all that either side does says the join: it adds nothing |
| HeldClaims.TogetherIsLeast | policy/evaluate.go:293-298 | so the claims say the least that says everything the held groups' fragments do |
| HeldClaims.PutGroups | policy/evaluate.go:302-312 | the names go into the claims in the heap as they do in the value |
| HeldClaims.FillClaims | policy/evaluate.go:289-314 | the whole end of an evaluation in the heap: a new map that reads as the result's claims, and nothing the policy keeps is changed |
| Evaluation.MatchedMeans | policy/evaluate.go:229-245 | a key matches exactly by a confirmed member with authority, or by a satisfied matcher |
| Entitlements.LowerMeans | policy/evaluate.go:210-213 | two addresses are compared letter by letter, whatever their case |
| Entitlements.MatchedIsOpened | policy/evaluate.go:229-245 | a key matches exactly when a member of it is reported, in any case, by an answer with authority, or a matcher of it is satisfied |
| Entitlements.ViaMeans | policy/evaluate.go:231-242 | what is recorded as having opened a key is every reported member and then the text of every satisfied matcher, each as often as listed and in order |
| Entitlements.ImpliedNamesMean | policy/evaluate.go:269-279 | a held name implies exactly the names that have its scope and thing and a role its own role lists on the ladder |
| Entitlements.ImpliedCount | policy/evaluate.go:278-285 | and each as often as the ladder lists it |
| Evaluation.HeldIsClosed | policy/evaluate.go:225-287 | what is held contains every matched key's targets and is closed under implies on the same scope and thing (`Entitlements.ClosedIsClosed` reads that off the ladder) |
| Evaluation.HeldIsLeast | policy/evaluate.go:225-287 | and is contained in every set that is |
| Entitlements.HeldIsEntitled | policy/evaluate.go:209-287 | what is held is the least set that has every name an opened key stands for and, with a grant, the same grant with every role it implies, all of it read off the proof and the tables |
| Evaluator.SeedHeld | policy/evaluate.go:225-252 | the seed holds exactly the direct reasons, in key order, and the frontier each name once |
| Evaluator.AddTargets | policy/evaluate.go:246-251 | one matched key adds one reason to each of its targets and queues the names that had none |
| Evaluator.Spread | policy/evaluate.go:278-285 | one name worked off adds one reason per implied role and queues the names not reached before |
| Evaluator.Inherit | policy/evaluate.go:262-287 | the worklist ends on every vocabulary, cyclic ones included, having worked each held name off once |
| Evaluator.LifetimeOf | policy/evaluate.go:333-346 | the least declared lifetime among the groups, the default only when none declares one |
| Evaluator.Evaluate | policy/evaluate.go:209-318 | on the result itself: the groups, sorted, are the least set with every name an opened key stands for and every role those imply; the reasons are counted exactly, direct and inherited; on accepted claims no held fragment is abandoned and the claims read as all of them together with the names; the lifetime is the shortest declared |
| Granting.ReasonsAreSound | policy/evaluate.go:245-287 | every reason is real: its key matched and stands for the group, or its parent is held and implies it |
| Granting.DirectReasonsAreComplete | policy/evaluate.go:245-252 | one direct reason for each matched key that stands for the group, none otherwise |
| Granting.InheritedReasonsAreComplete | policy/evaluate.go:266-286 | from each held parent, exactly as many reasons as its implies list names the group (`Entitlements.ImpliedCount`); none from anything else |
| Granting.ProvenanceIsExact | policy/evaluate.go:245-287 | on the result itself: a direct entry is there once exactly when its key matched, stands for its group and says why, an inherited one as often as its parent, itself in the result, implies it, and no other |
| Entitlements.ResultIsExplained | policy/evaluate.go:245-287 | in the result each implied role has exactly as many inherited entries from each held parent as the ladder lists it, each opened key one direct entry for each name it stands for, and there are no other entries |
| Granting.ParentChainsEnd | policy/evaluate.go:254-287 | without cycles, a walk from any held name to parent after parent is no longer than the ladder and can only stop at a direct reason |
| Granting.AcyclicPathIsShort | policy/vocabulary.go:221-252 | a path in an acyclic ladder repeats no role, so one whose end still implies something is no longer than the ladder |
| Granting.ImpliedFits | policy/vocabulary.go:189-208 | what a fitting grant implies fits: the scope-covering check at load is what makes it so |
| Granting.EveryGrantFits | policy/vocabulary.go:261-280 | under a valid policy every three-segment group ever held fits the vocabulary, direct, by wildcard or inherited |
| Granting.SensitiveGrantsAreNamed | policy/vocabulary.go:349-356 | a held grant in a sensitive scope traces back to a matched concrete key on the same scope and thing whose role reaches it |
| Granting.WildcardsNeverReachSensitive | policy/vocabulary.go:349-356 | nothing a wildcard stands for leads to a grant in a sensitive scope |
| Granting.EvaluationIsMonotone | policy/evaluate.go:229-245 | more members, matchers, directory groups, satisfied matchers or authority never take a group away |
| Scoping.KeepsMeans | policy/scope.go:289-325 | a name is kept exactly when the override keeps all, or its scope and thing are those of a required grant, or its thing is listed; one that is no grant when it or the family before its one colon is listed |
| Delimiters.CheckCollision | policy/groups_delimiter.go:89-104 | accepts exactly when the rewrite keeps all names the keys stand for distinct |
| Delimiters.ValidMeans | policy/groups_delimiter.go:48-74 | a delimiter is accepted exactly when it is not empty and every character is ASCII punctuation other than a hyphen, a colon, a quote and a comma |
| Delimiters.RewriteRestores | policy/groups_delimiter.go:116-121 | replacing the delimiter back restores a name free of its characters |
| Delimiters.RewriteInjective | policy/groups_delimiter.go:116-121 | so two such names are never spelled alike |
| Delimiters.HeldNamesStayDistinct | policy/evaluate.go:278-285 | whatever proofs there can be, distinctness over all that keys with a member or a matcher lead to keeps held groups apart; and exactly that does, once each such key is matched by one of the proofs |
| Delimiters.DistinctExactly | policy/groups_delimiter.go:89-104 | over all proofs: no two groups any two of them hold are spelled alike exactly when the rewrite is injective on that closure |
| Delimiters.FreeNamesStayDistinct | policy/groups_delimiter.go:106-121 | names free of the delimiter's characters are enough for it, implied names included |
| Delimiters.AcceptedWithoutVocabulary | policy/groups_delimiter.go:89-104 | without a vocabulary the check itself is enough for it |
| Delimiters.RewriteGrant | policy/groups_delimiter.go:116-121 | a grant's name is rewritten segment by segment |
| Delimiters.ImpliedNameCollides | policy/groups_delimiter.go:89-104 | a valid policy whose delimiter is accepted and whose caller holds two groups spelled alike |
| Scoping.ScopeGroups | policy/scope.go:272-310 | for a client, a resource or a document audience, by its own requires list and override, without naming the rule's function: the kept names are the held ones it carries and the dropped ones the rest, nothing is dropped where the override keeps all, and no other audience keeps anything; both lists are sorted and hold every name as often as it was held |
| Scoping.RequiresPairs | policy/scope.go:150-158 | the scope and thing of every grant the list requires, and no other |
| UnreadKeys.ConsumedTable | policy/policy.go:1213-1325 | marked table by table, the set of names says of every declared target exactly whether something reads it |
| UnreadKeys.ConsumedMeans | policy/policy.go:1213-1325 | what reads a name, said of the clients, resources, documents, bindings, channels and catalogue alone |
| UnreadKeys.MarkOverridden | policy/policy.go:1244-1270 | every declared target that a client's, a resource's or the document clients' override keeps, and no other name, is added |
| UnreadKeys.MarkOrg | policy/policy.go:1273-1285 | everything an organisation's bindings name is added, and no more |
| UnreadKeys.AllReadsEverything | policy/policy.go:1244-1270 | with an override that keeps all anywhere, no key that stands for a name is reported |
| UnreadKeys.Unconsumed | policy/policy.go:1210-1346 | sorted, exactly the keys that are no rung and no person and stand for no name that anything reads, both said of the declared data |
| Scoping.UnconsumedIsDropped | policy/scope.go:289-310 | a token carries a target of an unread key exactly when the audience requires its scope and thing |
| Scoping.DeletionIsSafe | policy/evaluate.go:376-383 | deleting a reported key changes no verdict on any proof, when nothing its targets imply is read |
| Scoping.NoVocabularyLeadsNowhere | policy/policy.go:1210-1346 | without a vocabulary that proviso always holds |
| Scoping.DeletionIsSafeExactly | policy/evaluate.go:376-383 | whatever proofs there can be, deleting a key changes no verdict on a requires list when the key does not lead to it or each of its grounds is covered by another key that does; and exactly then, if each ground can be satisfied by a proof that satisfies no more than it covers |
| Scoping.IndependentMeansAlone | policy/evaluate.go:229-245 | where matchers can be satisfied in any combination, each ground can be satisfied so |
| Scoping.ReportedKeyOpensADoor | policy/policy.go:1210-1346 | a reported key whose deletion locks out the people it admits |
| Layers.MergeTable | policy/set.go:465-476 | fails exactly at a shared key, and otherwise holds every entry of both |
| Layers.MergeOrg | policy/set.go:423-447 | one organisation's bindings merged: refused exactly when both list members or share a team |
| Layers.MergeGitHub | policy/set.go:423-447 | the same over all organisations, in name order, stopping at the first clash |
| Layers.MergeSlack | policy/slack.go:278-292 | workspaces merged channel by channel, refused exactly at a shared channel |
| Layers.Loading.MergeTables | policy/set.go:390-417 | the five tables merged whole: the new state holds both sides' entries, or one key is in both |
| Layers.Loading.MergeLayer | policy/set.go:351-454 | succeeds exactly when nothing the two layers say clashes, and then the policy is both together |
| Layers.LoadDeclared | policy/set.go:288-320 | a file is its own layer; a directory is the fold of its YAML files, refused when one cannot be read, when two clash and when there is none |
| LayerOrder.StepsSwap | policy/set.go:300-316 | two files fold in either order with the same outcome, failure included |
| LayerOrder.OrderDoesNotShow | policy/set.go:300-316 | any two orders of the same files fail together or give the same policy, up to the order of ignore lists |
| LayerEntries.EveryEntryIsThere | policy/set.go:351-454 | when a directory loads, its policy says exactly what some file says, entry by entry down to teams and channels: nothing is lost, overwritten or made up |
| LayerEntries.LoadsWithoutClashes | policy/set.go:351-454 | files fold exactly when each has version 1 and no two of them have entries in one place, whatever the order and however many lie between |
| LayerEntries.ListingInParts | policy/set.go:302-316 | the layers of a directory are those of its entries, one after the other |
| LayerEntries.ListingOfOne | policy/set.go:302-316 | a YAML file that can be read is one layer, and anything else listed is none |
| LayerOrder.AppendNewInParts | policy/set.go:433-437 | accounts to ignore are added one by one and in order |
| LayerOrder.AppendNewOne | policy/set.go:433-437 | each unless it is there already |
| AccessDocuments.TableOf | policy/access.go:296-304 | fails exactly when a name is listed twice, and otherwise holds each listed entry and nothing else |
| AccessDocuments.GroupsOf | policy/access.go:337-369 | the same for groups, each with its matchers in the order emails, jobs, service accounts, roles |
| AccessDocuments.ListMatchers | policy/access.go:347-366 | one matcher for each address, in order, asking for that address, and then all of the other three kinds |
| AccessDocuments.WorkspacesOf | policy/access.go:371-393 | the same for workspaces, down to their channels |
| AccessDocuments.OrgsOf | policy/access.go:395-417 | the same for organisations, down to their teams |
| AccessDocuments.VocabularyOf | policy/access.go:419-444 | the same for scopes, things and their roles |
| AccessDocuments.ThingsOf | policy/access.go:430-442 | each listed thing with exactly its listed roles |
| AccessDocuments.ClientsOf | policy/access.go:446-467 | the same for clients, which also need a name |
| AccessDocuments.DerivePolicy | policy/access.go:289-335 | succeeds exactly when no list repeats a name and every client has one, and then the tables say what the lists say and nothing else |
| AccessDocuments.AddOverlayGroups | policy/access.go:269-276 | overlay matchers come after a group's own, and a group only the overlay names is created |
| AccessDocuments.ListedOnce | policy/access.go:289-335 | two tables that list the same rows are the same table |
| AccessDocuments.DocumentPolicy | policy/access.go:263-287 | refused exactly for a repeated name, a nameless client or an overlay client the lists declare; otherwise the lists' policy with the overlay on top |
| AccessDocuments.OverlayMeans | policy/access.go:269-285 | a group an overlay names has its own members and its own matchers before the overlay's; clients are added; nothing else differs |
| AccessDocuments.OverlayTakesNothingAway | policy/access.go:269-276 | for every caller, everything held without the overlay is held with it |
| AccessDocuments.OverlayAddsOnlyItsOwn | policy/access.go:269-276 | a group is held with the overlay exactly when it is without, or a key one of the overlay's own matchers opens leads to it |
| AbsoluteLimits.EffectiveAbsolute | policy/resource.go:225-242 | the loop, with its zero for nothing seen yet, computes the limit of the history |
| AbsoluteLimits.AbsoluteFor | policy/resource.go:199-213 | of a cap and a ceiling, the lesser; the ceiling is the limit of the installation, or for a read-only resource seven days where that is longer |
| AbsoluteLimits.EffectiveIsTheMinimum | policy/resource.go:225-242 | the limit is exactly the least contribution |
| AbsoluteLimits.TouchingMoreNeverLengthens | policy/resource.go:215-242 | a chain that touched more never lives longer |
| AbsoluteLimits.OnlyWhatWasTouchedMatters | policy/resource.go:225-242 | neither order nor repetition of the history matters |
| AbsoluteLimits.LongerOnlyWhenAllAgree | policy/resource.go:190-242 | at most the longer of the installation's limit and seven days, and above the installation's exactly when every resource touched is declared, read-only and longer |
| AbsoluteLimits.AcceptedIsNeverClamped | policy/resource.go:180-213 | for a cap within the ceiling, the start-up check accepts exactly the rows that are not clamped |
| AbsoluteLimits.AcceptedLimitIsAsDeclared | policy/resource.go:119-129 | over accepted rows the limit is the least of what they declare, unclamped |
| ConfigBlock.KeepsBefore | cmd/accessctl/config_writers.go:199-219 | what stripping leaves is nothing or ends in exactly one newline, and keeps everything before the first opening marker but blanks at its end |
| ConfigBlock.CutBlock | cmd/accessctl/config_writers.go:199-203 | a block whose markers are the first there are goes, whatever is in it, and all before and after it stays |
| ConfigRuns.StrippingUndoesWriting | cmd/accessctl/config_writers.go:175-219 | stripping what a run wrote gives back what it kept, exactly when that opens no further block and the profiles carry no closing marker |
| ConfigRuns.SecondRunReplacesFirst | cmd/accessctl/config_writers.go:175-178 | a later run leaves the file as if the earlier had not happened, under exactly that condition; with the same profiles, writing twice is writing once |
| ConfigRuns.OnlyTheLastRunShows | cmd/accessctl/config_writers.go:183-194 | after any number of runs the file is what the last alone would have made of the original, and the text outside the block is untouched |
| ConfigRuns.ProfilesComeBack | cmd/accessctl/config_writers.go:175 | between the first opening marker of a written file and the closing marker after it are exactly the profiles |
| ConfigRuns.BlocksDoNotCommute | cmd/accessctl/config_writers.go:199-219 | no text ending in a block equals itself with another block moved in front |
| ConfigRuns.NoBlock | cmd/accessctl/config_writers.go:199-219 | a text without a block keeps everything but trailing blanks |
| ConfigRuns.TidyingMeans | cmd/accessctl/config_writers.go:211-218 | the blanks that go from the end are newlines, tabs and spaces, and no others |
| ConfigRuns.HalfABlock | cmd/accessctl/config_writers.go:203-209 | a block that never closes takes what follows it along, and nothing before it |
| ConfigRuns.OneBlock | cmd/accessctl/config_writers.go:199-219 | around one block that ends its line everything survives but trailing blanks, and no marker appears at the seam |
| ConfigRuns.SidesMeet | cmd/accessctl/config_writers.go:199-219 | a text with one block whose two sides meet in an opening marker, over which a second run does not replace the first |
| CloudProfiles.AwsConfig | cmd/accessctl/config_writers.go:136-178 | the run: a profile for each audience that names a cloud role, and the file untouched when none does |
| CloudProfiles.ProfileMeans | cmd/accessctl/config_writers.go:139-153 | the text of a profile, for an audience that names an account and a role |
| CloudProfiles.OnlyRolesHaveProfiles | cmd/accessctl/config_writers.go:140-147 | only such an audience has one |
| CloudProfiles.ProfilesInParts | cmd/accessctl/config_writers.go:139-156 | profiles are written audience by audience |
| CloudProfiles.ProfileOfOne | cmd/accessctl/config_writers.go:139-147 | an audience without a profile is passed over |
| CloudProfiles.ConfiguringAgainReplaces | cmd/accessctl/config_writers.go:115-181 | with no `#` in what goes into a profile, configuring again leaves nothing of the earlier run |
| KnownHosts.ReadManagedKnownHosts | cmd/accessctl/ssh_known_hosts.go:267-281 | what is read back is each of this file's own lines, trimmed, under its patterns field; nothing else in the file is read, and of repeated patterns the last counts |
| KnownHosts.RenderKnownHosts | cmd/accessctl/ssh_known_hosts.go:292-300 | the header, then every line with its newline, in order |
| KnownHosts.RunSSHKnownHosts | cmd/accessctl/ssh_known_hosts.go:460-490 | a run writes, in the order of the entries, one line for each that was fetched or had one before, and leaves the others out |
| KnownHostsRuns.KeyMeans | cmd/accessctl/ssh_known_hosts.go:157-170 | of any answer, whatever space is in it, the key is its first word, which must be the algorithm, and its second, which must be base64; what follows is left out |
| KnownHostsRuns.NoKeyInAWord | cmd/accessctl/ssh_known_hosts.go:158-161 | an answer of one word or none is no key |
| KnownHostsRuns.SpaceMeans | cmd/accessctl/ssh_known_hosts.go:158 | white space, code point by code point |
| KnownHostsRuns.Base64Means | cmd/accessctl/ssh_known_hosts.go:167-169 | a key field is one or more characters of the standard alphabet and then nothing but padding |
| KnownHostsRuns.ReadLineMeans | cmd/accessctl/ssh_known_hosts.go:269-279 | a line is remembered, without the space around it and under its second word, exactly when it carries the marker and has two words more |
| KnownHostsRuns.LineOfOne | cmd/accessctl/ssh_known_hosts.go:245-258 | one entry: the fetched line, or else the one read under the same patterns, or none |
| KnownHostsRuns.LinesNext | cmd/accessctl/ssh_known_hosts.go:468-476 | the lines of a run are those of its entries, one after the other |
| KnownHostsRuns.EveryEntryHasItsLine | cmd/accessctl/ssh_known_hosts.go:245-258 | when every authority answers, the file has one line for each entry, in order: marker, patterns joined by commas, key |
| KnownHostsRuns.FreshLineReadsBack | cmd/accessctl/ssh_known_hosts.go:125-170 | a fetched line reads back as itself under its own patterns exactly when they hold no white space of any kind |
| KnownHostsRuns.RenderedSplits | cmd/accessctl/ssh_known_hosts.go:283-300 | a rendered file splits into its header and its lines |
| KnownHostsRuns.RenderedReadsBack | cmd/accessctl/ssh_known_hosts.go:260-300 | reading a rendered file gives back every line, the last one where patterns repeat |
| KnownHostsOverTime.ResolvedReadsBack | cmd/accessctl/ssh_known_hosts.go:245-258 | whatever was in the file, each line a run writes for a usable entry reads back under that entry's patterns |
| KnownHostsOverTime.FailureKeepsTheLine | cmd/accessctl/ssh_known_hosts.go:235-258 | an entry whose fetch fails keeps exactly its line, whatever becomes of the others, as long as entries with the same patterns were given the same key |
| KnownHostsOverTime.DistinctAgree | cmd/accessctl/ssh_known_hosts.go:245-258 | which entries that are all different always were |
| KnownHostsOverTime.TwoRunsAreOne | cmd/accessctl/ssh_known_hosts.go:455-490 | two runs leave the file one run would have, given each entry's last good answer |
| KnownHostsOverTime.FailedRunChangesNothing | cmd/accessctl/ssh_known_hosts.go:235-258 | when every fetch fails the file stays as it was, to the byte |
| KnownHostsOverTime.OutagesCostNothing | cmd/accessctl/ssh_known_hosts.go:455-490 | after any number of runs over any file, the same with each entry's last good answer |
| KnownHostsOverTime.SpacedPatternIsLost | cmd/accessctl/ssh_known_hosts.go:131-140 | a pattern with white space validation does not know is found again in no file |
| KnownHostsOverTime.KeptExactly | cmd/accessctl/ssh_known_hosts.go:131-281 | for any list of valid entries all fetched once, a run whose fetches all fail leaves the file as it was exactly when no patterns hold white space of any kind and equal patterns were given equal keys |
| KnownHostsOverTime.ValidationMissesSpaces | cmd/accessctl/ssh_known_hosts.go:131-140 | validation accepts a pattern with a no-break space |
| KnownHostsOverTime.RepeatedPatternsKeepTheLast | cmd/accessctl/ssh_known_hosts.go:267-281 | entries with the same patterns and different keys: after a failed run each has the line of the last of them |

## Left out

- RefreshTheorems.EveryRefreshSpendsTheLiveToken: the issuer is its rotation rule and nothing else, since its code is not part of this model; it does not expire or revoke a session by itself, and after a sign-in only the newest chain of refresh tokens counts as live.
- RefreshTheorems.SomebodyCanMove: file locks are fair neither in the model nor in the original, so this is freedom from deadlock and a bound on each process's own steps, not a promise that a particular waiter gets its turn.
- RefreshTheorems.EveryStepCounts: the issuer answers or fails; a request that never returns is not modelled.
- Sessions.SessionFile.Mint: tokens are numbers with 0 for the empty one, times are whole seconds, and a file is one cell replaced whole by a rename.
- Evaluator.Evaluate: whether a matcher is satisfied is an input, because globs and verified identities are opaque here; lower-casing covers ASCII; the claims are a value, which `HeldClaims.FillClaims` computes in the heap.
- ClaimTables.MergeInto: Go slices are values, so an append that shares a backing array is not modelled; a scalar is known by its kind and printed form.
- Vocabularies.Validate: for a ladder with one cycle through the empty name and another that avoids it, which of the two is met first is left open; it depends on how the implies lists are ordered.
- Policies.TargetsAreSorted: the text of refusals is not modelled, only which one it is.
- Delimiters.HeldNamesStayDistinct: that a key nobody can match keeps its names apart from the rest is not claimed; the equivalence assumes each key with a member or a matcher is matched by some proof.
- Scoping.ScopeGroups: whether a client document is permitted is an input, because it is decided by parsing a URL.
- Scoping.DeletionIsSafe: the proviso about implied roles is sufficient; `Scoping.DeletionIsSafeExactly` is the exact condition.
- Scoping.DeletionIsSafeExactly: which proofs there can be is a parameter, because globs and identities are opaque; the exact half is for keys whose grounds can each be satisfied alone.
- Layers.Loading.MergeLayer: of the tables, one that is nil and one that is empty are the same value here.
- AccessDocuments.DocumentPolicy: matchers arrive ready made except those from addresses; display text, secrets, redirects and signing algorithms are carried along unread and are not fields here.
- AbsoluteLimits.EffectiveAbsolute: the lookup is a table, and no lookup is the empty table.
- ConfigBlock.KeepsBefore: text is characters, so bytes that are not UTF-8 are outside the model.
- CloudProfiles.AwsConfig: reading and writing the file, and asking the issuer for the audiences, are inputs and outputs.
- KnownHosts.RunSSHKnownHosts: fetching is an input, one answer per entry; which source an entry names is not modelled, nor are warnings.
- YAML and JSON decoding, digests, regular expressions other than the base64 one, URL and address parsing.
- The other checks of `Policy.Validate`: client kinds, origins, people, GitHub and Slack shapes.
- The kubectl, AWS, R2 and OpenBAO caches differ here in their margins alone; what is in a cached credential besides its expiry is not modelled.
- HTTP retries, PKI, child processes, browser sign-in, file permissions and temporary files.
- The directory backends, the user interface, deployment and the other commands.
