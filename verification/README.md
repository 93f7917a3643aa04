# A verified model of the agent control plane's core

This project models the parts of the control plane whose promises range over unbounded runs or
unbounded inputs, and proves those promises in Dafny 4.11. `dafny verify dfyconfig.toml` checks all
of it. Code that works step by step is modelled by methods with loops and by classes with mutable
fields, each proved against a specification function; the promises are lemmas about those functions.

| area | files |
|---|---|
| quorum approval store, replicas on a network, the gateway's approval gate | `QuorumStore`, `QuorumOutcomes`, `QuorumConvergence`, `QuorumNetwork`, `QuorumRuns`, `SingleUse`, `ApprovalGateway`, `GatewayRuns`, `GatewayNetwork` |
| policy evaluator, card compiler, linter, finite-state verifier | `PolicyEngine`, `RuleMeaning`, `PolicyCompiler`, `CardMeaning`, `PolicyLinter`, `LinterComplete`, `PolicyVerifier`, `VerifierMeaning`, `SmallModel` |
| delegation macaroons, signatures as free terms | `Macaroon`, `MacaroonTheorems`, `CaveatMeaning` |
| personalized PageRank over the reals | `PageRank`, `PageRankMass`, `PageRankTheorems`, `PageRankConvergence` |
| hash-chained audit ledger, its canonical JSON and Merkle root | `CanonicalJson`, `MerkleTree`, `AuditLedger`, `LedgerMeaning` |
| token bucket in memory and in Redis | `TokenBucket`, `RedisTokenBucket` |
| wiki synchronisation over Markdown files | `Text`, `Markdown`, `WikiSync`, `WikiSyncTheorems`, `WikiMeaning`, `JsonFrontmatter` |
| change log table | `LogTable`, `LogTableLemmas`, `LogTableTheorems`, `LogMeaning` |
| impact map and watch planner | `ImpactMap` |

`Basics` holds shared vocabulary (options, filtering, decimals, the stable sort); `PointwiseJoin`
lifts semilattice laws from values to maps. `QuorumOutcomes`, `CardMeaning`, `RuleMeaning`,
`VerifierMeaning`, `CaveatMeaning`, `LedgerMeaning`, `WikiMeaning` and `LogMeaning` hold the shared
definitions against what callers pass and get, in the words of the inputs; `QuorumRuns` and
`GatewayRuns` read the safety results off the calls of a run.

## What is assumed

Hashes are functions on texts. Where binding or agreement depends on it, they are assumed
collision-free (`CollisionFree`, `Lawful`), and SHA-256 digests are assumed to print in hexadecimal,
so never empty and without a colon (`Hexadecimal`); `PremisesHoldOfSomeHash` shows that the two can
be met together. Macaroon signatures are free terms: a tag can be computed only from the secret, or
by chaining a caveat onto a tag one holds. The YAML library is assumed to read back what it writes,
in text without carriage returns and without a further line that starts with `---` (`RoundTrips`),
and to read its text at all once the program has trimmed it (`TrimLoads`). That trimming loses no
field is a premise of its own, on the frontmatter that is written, and only of the results about
governed keys (`TrimKeeps`; `TrimMayLose` shows that it does not follow). `SomeLibIsLawful` shows
that all of these can be met together.
Random tokens are parameters that differ from all earlier ones; clocks are parameters. Regular
expressions and expression conditions of the policy engine, the condition parser
(`normalizeConditions`), slugs, titles and tag sorting are uninterpreted functions.

## Where the code does less, or other, than it says

Each of these is stated as a lemma about the unchanged code, with the exact condition where there is one.

- The merge of the quorum store is called a monotonic join. It is one on every token's status and
  its map from approver to earliest vote. But `validateAndConsume` writes EXPIRED over CONSUMED or
  REVOKED when it is called past the expiry time, which lowers the status rank
  (`ConsumeGrowsExactly`). No safety result depends on it: EXPIRED, CONSUMED and REVOKED together
  are closed. Merging a record that already has a quorum but still reads PENDING is not idempotent
  in one step (`RepetitionHarmlessExactly`); reachable records are never of that kind.
- The finite-state verifier says nothing about rules with required scopes
  (`RequiredScopesEscape`) or environment conditions without a name (`NamelessEnvironmentEscapes`),
  because its space has no scopes and no absent environment; rules of either kind are safe on all
  requests exactly if they are in a wider finite space that has (`SafeEverywhereExactly`, and
  `EquivalentOverIsSame` for equivalence). Nor does it say anything about requests with an empty
  approval token (`EmptyTokenEscapes`, with the exact condition in `VerifiedWithEmptyTokensExactly`).
- The linter calls a rule dead below a rule with an empty tool list, which matches nothing
  (`EmptyListBreaksDeletion`), and below `ab*` for tool names with a line break, which `.` does not
  match (`LineBreakBreaksDeletion`). `PatternSubsumesExactly`, `MatcherSubsumesExactly` and
  `DeletableExactly` say for which patterns, matchers and rules it is right.
- Compiling a card changes its meaning for tools listed for approval that are not allowed, or
  whose side effect is denied (`FaithfulExactly`), for requests that name no risk level, which the
  compiled rules take for `low` (`ScopeIsMatchExactly`, `UnnamedRiskLevelMatters`), and for other
  glob patterns. For every card and request it keeps the meaning exactly if the interpreter gives
  the verdict that the compiled rules give (`CompiledVerdictHolds`, `CompilePreservesMeaningExactly`).
- The delegate header of a macaroon is not signed: a macaroon whose header was altered is refused,
  yet attenuating it to a new delegate makes it verify (`AlteredHeaderIsRepairedByDelegation`).
- A Merkle leaf with a colon can be split elsewhere without changing the root
  (`BindingExactly`), and a list of two or more leaves shares its root with the level above it
  (`LengthBoundExactly`). This is a weakness of raw leaf lists; accepted ledgers have different
  leaves that are no inner nodes, and their root binds them at any length (`MerkleRootDetermines`).
- Dropping a Redis key at the end of its time to live can be observed for slow rates: with ten
  tokens and one token per ten seconds the key lives 80 seconds, which earn only eight
  (`SlowRateShows`; `RedisAnswersLikeMemory` gives the exact condition).
- A second synchronisation is not quiet when a body holds a carriage return before a Windows line
  end, because normalising twice differs from normalising once (`SecondRunIsQuietExactly`,
  `SettledExactly`). A `push` still overwrites bundle files that only the wiki edited
  (`RestraintHolds`). A governed `id`, `type` or `sensitivity` that is empty or false is replaced
  by its default (`GovernedKeyKeptExactly`), and a governed key that the bundle lacks is taken from
  the wiki, sensitivity and owners included (`GovernedKeysComeFrom`).
- The change log loses entries made of dashes and colons only, entries whose timestamp starts with
  `Timestamp`, and all that is not trimmed, non-empty and free of newlines
  (`LogRoundTripsExactly`).

## Model

| member | source | states |
|---|---|---|
| QuorumStore.QuorumApprovalStore.constructor | packages/core/src/capabilities/quorum-approval-store.ts:66-78 | A new store holds no records; what is not configured has its default, and the given quorums overlay the default ones. |
| QuorumStore.QuorumOfLevel | packages/core/src/capabilities/quorum-approval-store.ts:66-103 | A token asks for the votes given for its risk level; for a level given without a number, or unknown, for the fallback; where nothing is given for two if critical and one if low, medium or high; a number below one counts as one. |
| QuorumStore.QuorumApprovalStore.GenerateToken | packages/core/src/capabilities/quorum-approval-store.ts:80-133 | Exactly one record enters the store under the drawn token: PENDING, without votes, each argument in its own field, created now and expiring after its time to live; every other record stays. |
| QuorumStore.QuorumApprovalStore.GetPendingApprovals | packages/core/src/capabilities/quorum-approval-store.ts:139-151 | Every overdue PENDING record becomes EXPIRED, nothing else changes, and the list holds exactly the requests that are still PENDING. |
| QuorumStore.LiveExactly | packages/core/src/capabilities/quorum-approval-store.ts:139-151 | A record is listed if and only if it is stored under a listed token, PENDING and not past its expiry. |
| QuorumStore.SweepIsExpireAll | packages/core/src/capabilities/quorum-approval-store.ts:140-149 | Visiting the records one after another, in any order, expires exactly the overdue ones. |
| QuorumStore.QuorumApprovalStore.ApproveToken | packages/core/src/capabilities/quorum-approval-store.ts:157-213 | The answer and the whole new store of a vote: refusals by missing, closed or overdue records, self-approval and repeated votes, promotion to APPROVED at quorum. |
| QuorumStore.QuorumApprovalStore.ValidateAndConsume | packages/core/src/capabilities/quorum-approval-store.ts:215-252 | The answer and the whole new store of a consume, with its check order: expiry first, then status, capability, payload hash and votes. |
| QuorumStore.QuorumApprovalStore.RevokeToken | packages/core/src/capabilities/quorum-approval-store.ts:254-271 | Revocation closes every record but a consumed one, and reports whether it did. |
| QuorumStore.QuorumApprovalStore.ExportStateSnapshot | packages/core/src/capabilities/quorum-approval-store.ts:276-287 | The snapshot lists every record exactly once. |
| QuorumStore.QuorumApprovalStore.MergeRemoteSnapshot | packages/core/src/capabilities/quorum-approval-store.ts:295-366 | The loop's whole effect on the store, the number of merged records, and exactly the tokens that became APPROVED. |
| QuorumStore.QuorumApprovalStore.MergeRemoteRecord | packages/core/src/capabilities/quorum-approval-store.ts:303-364 | One turn of the loop joins one record into the store and tells whether it became APPROVED. |
| QuorumStore.QuorumApprovalStore.MergeIntoLocal | packages/core/src/capabilities/quorum-approval-store.ts:318-360 | The joined record: union of votes, higher status, promotion at quorum, first known consumption time. |
| QuorumOutcomes.GeneratedRecord | packages/core/src/capabilities/quorum-approval-store.ts:66-133 | From the settings: a new token has its arguments in their fields, lives fifteen minutes where nothing else is said, and may not be approved by its requester unless that was allowed. |
| QuorumOutcomes.VoteCountsExactly | packages/core/src/capabilities/quorum-approval-store.ts:157-213 | A vote is recorded, once, with its time and cluster, exactly if the record is approved, or pending and not overdue, and the voter is not the requester or may be; nothing else changes. |
| QuorumOutcomes.VoteApprovesExactly | packages/core/src/capabilities/quorum-approval-store.ts:157-213 | The answer and the status after a vote: approved exactly if it was, or if a counting voter finds the quorum complete; expired if it was overdue. |
| QuorumOutcomes.ConsumeSucceedsExactly | packages/core/src/capabilities/quorum-approval-store.ts:215-252 | A consume succeeds exactly on an approved record with its votes, for its capability and payload, not past expiry, and leaves it CONSUMED at this time. |
| QuorumOutcomes.RevokeSucceedsExactly | packages/core/src/capabilities/quorum-approval-store.ts:254-271 | Revoking closes every stored record but a consumed one, and changes nothing else. |
| QuorumOutcomes.QuorumSufficesExactly | packages/core/src/capabilities/quorum-approval-store.ts:80-252 | After votes in time by different people who may vote, a matching consume in time succeeds exactly if as many voted as are required. |
| QuorumOutcomes.MergedStatus | packages/core/src/capabilities/quorum-approval-store.ts:340-351 | The merged record is REVOKED if either is, else CONSUMED if either is, else EXPIRED if either is, else APPROVED if either is or the voters of both together reach the quorum, else PENDING. |
| QuorumOutcomes.MergedConsumptionTime | packages/core/src/capabilities/quorum-approval-store.ts:353-360 | A known consumption time stays, an unknown one is learnt. |
| QuorumOutcomes.LocalVoteStays | packages/core/src/capabilities/quorum-approval-store.ts:320-338 | A local vote that no remote one precedes stays as it is, also at equal times. |
| QuorumOutcomes.MergedTokenClosedAs | packages/core/src/capabilities/quorum-approval-store.ts:295-366 | After any snapshot a token is REVOKED exactly if some known record of it was, else CONSUMED exactly if some was, else EXPIRED exactly if some was. |
| QuorumOutcomes.NewlyApprovedExactly | packages/core/src/capabilities/quorum-approval-store.ts:295-366 | A merge reports a token, once, exactly if it was not APPROVED before and became so along the snapshot. |
| QuorumOutcomes.RevocationArrives | packages/core/src/capabilities/quorum-approval-store.ts:276-366 | A revocation on a replica shows on every replica that merges its export. |
| QuorumOutcomes.ConsumptionArrives | packages/core/src/capabilities/quorum-approval-store.ts:276-366 | So does a consumption, unless a revocation is known. |
| QuorumConvergence.MergeVotesIsMinUnion | packages/core/src/capabilities/quorum-approval-store.ts:318-338 | Merging any two vote lists yields one vote per approver, the earlier of the local and the remote; of several local votes by one approver the last counts, of several remote ones the earliest. |
| QuorumConvergence.DistinctApproversMeaning | packages/core/src/capabilities/quorum-approval-store.ts:318-338 | A vote list and its map of earliest votes have one size exactly when no approver appears twice. |
| QuorumConvergence.MergeRecordIsJoin | packages/core/src/capabilities/quorum-approval-store.ts:318-348 | Seen as status and earliest votes, the merged record is the join of the two, and settled again. |
| QuorumConvergence.JoinCommutes | packages/core/src/capabilities/quorum-approval-store.ts:340-348 | Which side is local does not matter to the joined status and votes. |
| QuorumConvergence.JoinIdempotent | packages/core/src/capabilities/quorum-approval-store.ts:340-348 | Joining a settled record with itself changes nothing. |
| QuorumConvergence.JoinAssociates | packages/core/src/capabilities/quorum-approval-store.ts:340-348 | Grouping does not matter, promotion at quorum included. |
| QuorumConvergence.StoreJoinLaws | packages/core/src/capabilities/quorum-approval-store.ts:295-366 | Joining whole stores of genuine records is commutative, associative and idempotent. |
| QuorumConvergence.MergeAllIsJoin | packages/core/src/capabilities/quorum-approval-store.ts:303-364 | The merge loop computes the join of the store with every record of the snapshot. |
| QuorumConvergence.JoinRecordsLeast | packages/core/src/capabilities/quorum-approval-store.ts:295-366 | What a merge yields is the least upper bound of the store and the merged records. |
| QuorumConvergence.SnapshotsConverge | packages/core/src/capabilities/quorum-approval-store.ts:289-366 | Two batches of snapshots with the same records in any order, grouping and repetition lead one store to the same status and earliest votes for every token. |
| QuorumConvergence.MergeExportIsJoin | packages/core/src/capabilities/quorum-approval-store.ts:276-366 | Merging another store's export is joining that store. |
| QuorumConvergence.ExchangeAgrees | packages/core/src/capabilities/quorum-approval-store.ts:276-366 | Two stores that merge each other's exports agree. |
| QuorumConvergence.RelayIsDirect | packages/core/src/capabilities/quorum-approval-store.ts:276-366 | Merging through a relay that merged the source first adds nothing to merging both directly. |
| QuorumConvergence.RepetitionHarmlessExactly | packages/core/src/capabilities/quorum-approval-store.ts:318-348 | Merging a record a second time changes nothing, under the exact condition on the first merge. |
| QuorumConvergence.ConsumeGrowsExactly | packages/core/src/capabilities/quorum-approval-store.ts:215-252 | A consume keeps the status rank from falling exactly unless it finds a CONSUMED or REVOKED record past its expiry. |
| QuorumConvergence.RevokeAndExpireGrow | packages/core/src/capabilities/quorum-approval-store.ts:139-271 | Revocation and the expiry sweep only raise the status rank and keep the votes. |
| QuorumConvergence.ApproveGrows | packages/core/src/capabilities/quorum-approval-store.ts:157-213 | A vote only raises the status rank and only adds votes. |
| QuorumNetwork.NextKeepsInv | packages/core/src/capabilities/quorum-approval-store.ts:80-366 | Every step of every replica, however configured, keeps the network invariant: all records genuine, every vote backed by a cast ballot, no ballot of a requester where no replica allows self-approval, APPROVED with a quorum, PENDING below it, every consume entitled. |
| QuorumNetwork.RunKeepsInv | packages/core/src/capabilities/quorum-approval-store.ts:80-366 | So does every run, of any number of replicas exchanging snapshots in any order. |
| QuorumNetwork.VotersAreSupporters | packages/core/src/capabilities/quorum-approval-store.ts:157-213 | The votes on a record are as many distinct people who really voted for its token. |
| QuorumNetwork.QuorumSafety | packages/core/src/capabilities/quorum-approval-store.ts:157-252 | In every reachable network every successful consume is on an issued request, with its capability and payload, not past its expiry, and with at least the required number of distinct recorded voters, none of them the requester if no replica allows self-approval. |
| QuorumNetwork.StatusMatchesVotes | packages/core/src/capabilities/quorum-approval-store.ts:157-348 | In every reachable network, self-approval allowed or not, APPROVED and CONSUMED mean enough votes, PENDING too few, all votes cast and by distinct people; the requester is not counted if no replica allows it. |
| QuorumRuns.IssuedAsAsked | packages/core/src/capabilities/quorum-approval-store.ts:80-133 | In every run each issued request repeats the arguments of the generateToken call that asked for it. |
| QuorumRuns.BallotsWereCast | packages/core/src/capabilities/quorum-approval-store.ts:157-213 | In every run each recorded ballot is an approveToken call by that person at that time. |
| QuorumRuns.ConsumeWasBacked | packages/core/src/capabilities/quorum-approval-store.ts:80-366 | In every run a consume that succeeds was asked for by an earlier call with the same capability and payload, is within the time that call gave it, and was backed before by as many different callers of approveToken as its risk level needs, the one who asked not counted if no replica allows self-approval. |
| QuorumRuns.CriticalNeedsTwo | packages/core/src/capabilities/quorum-approval-store.ts:66-366 | If no replica is configured otherwise, no token asked for at critical risk is consumed before two people other than the one who asked called approveToken for it. |
| QuorumRuns.StoredAsAsked | packages/core/src/capabilities/quorum-approval-store.ts:80-366 | Every record on every replica repeats the call that asked for it; its voters are different callers of approveToken, not the one who asked if no replica allows that; approved and consumed mean enough of them, pending too few. |
| QuorumNetwork.ReachableReplicasConverge | packages/core/src/capabilities/quorum-approval-store.ts:276-366 | Two reachable replicas, however configured, that merge each other's exports agree on every token. |
| QuorumRuns.ExchangeRuns | packages/core/src/capabilities/quorum-approval-store.ts:276-366 | After any run two replicas can export and merge once more, and then hold one view of every token: the join of what they knew. |
| QuorumNetwork.OneUsePerReplica | packages/core/src/capabilities/quorum-approval-store.ts:215-366 | In every reachable network two successful consumes of one token are at different replicas. |
| QuorumNetwork.NoUseAfterHearing | packages/core/src/capabilities/quorum-approval-store.ts:215-366 | A replica that merged an export taken after a consume never consumes the token itself, whatever happens in the network before and after. |
| SingleUse.PerformKeepsClosed | packages/core/src/capabilities/quorum-approval-store.ts:139-366 | No operation or merge reopens an EXPIRED, CONSUMED or REVOKED record. |
| SingleUse.ConsumedAtMostOnce | packages/core/src/capabilities/quorum-approval-store.ts:215-252 | Over any run of operations and merges on a replica a token is consumed successfully at most once. |
| SingleUse.NeverAfterClosedMerge | packages/core/src/capabilities/quorum-approval-store.ts:318-348 | And never after the replica merged a CONSUMED or REVOKED record for it. |
| ApprovalGateway.NextKeepsInv | packages/core/src/capabilities/gateway.ts:371-474 | Every step between two awaits of any concurrent call keeps: executed calls that needed approval have spent a token that covers them, and no two calls spent one token. |
| GatewayRuns.ExecutionWasApproved | packages/core/src/capabilities/gateway.ts:371-474 | Whenever the executor ran a call for which a verdict asked for approval, a gate step lies between the two in which the store turned the call's token from an approved record with its votes, for this tool and payload and in time, to CONSUMED. |
| GatewayRuns.OneExecutionPerToken | packages/core/src/capabilities/gateway.ts:426-474 | However calls interleave, two such calls had different tokens. |
| GatewayRuns.OnlyAllowedCallsRun | packages/core/src/capabilities/gateway.ts:322-368 | The executor runs no call without a verdict that allows it, and none with one that denies it. |
| GatewayRuns.FreeCallRuns | packages/core/src/capabilities/gateway.ts:322-371 | A call allowed without approval runs, with or without a token, and leaves the store alone. |
| GatewayRuns.ApprovedCallRunsExactly | packages/core/src/capabilities/gateway.ts:371-474 | A call that needs approval runs after the gate exactly if the store holds an approved record for its token, tool and payload, with its votes and not overdue. |
| GatewayRuns.TokenlessCallAsks | packages/core/src/capabilities/gateway.ts:388-424 | Without a token such a call is refused and a request is filed, at high risk, for its tool and payload, in the name of its agent. |
| GatewayNetwork.RunKeepsInv | packages/core/src/capabilities/gateway.ts:371-474 | With the gateway's store a replica of the network, every interleaving of gateway steps and network actions keeps both invariants, and every consumed record one that the network vouches for. |
| GatewayNetwork.ExecutionHadQuorum | packages/core/src/capabilities/gateway.ts:371-474 | Whenever the executor ran a call for which a verdict asked for approval, some call on the network's stores asked for its token, for this tool and payload, and as many different people as that risk level needs called approveToken for it, the one who asked not counted if no replica allows self-approval. |
| GatewayNetwork.ExecutionsUseDifferentTokens | packages/core/src/capabilities/gateway.ts:426-474 | No two such calls had one token, whatever the other replicas and the network do. |
| PolicyEngine.StarMatchesAll | packages/core/src/policies/engine.ts:96-106 | The translated pattern of a lone star matches every text without a line break. |
| PolicyEngine.WinnerHasLeastPriority | packages/core/src/policies/engine.ts:66-94 | The decision is that of a firing rule of least priority number, and default deny exactly when none fires. |
| PolicyEngine.FirstMatchAt | packages/core/src/policies/engine.ts:66-94 | The first firing rule of a sorted list decides. |
| PolicyEngine.EvaluatePoliciesWithTrace | packages/core/src/policies/engine.ts:271-352 | The tracing evaluator decides like the plain one, records every rule in order, and reports a conflict exactly when a lower firing rule would have decided the other way: between the deciding rule and the first such rule. |
| PolicyEngine.FindConflict | packages/core/src/policies/engine.ts:304-321 | A conflict is found exactly when a later rule opposes the winner, and names the winner and the first such rule, each in its place. |
| RuleMeaning.GlobExactly | packages/core/src/policies/engine.ts:96-106 | A star alone matches everything, a literal itself, and any other pattern exactly the texts that can be cut so that literals stand for themselves and stars for pieces without line breaks. |
| RuleMeaning.MatchesExactly | packages/core/src/policies/engine.ts:108-135 | A matcher matches exactly the requests that are on every list it has; requests without a side effect are not held to the list of side effects. |
| RuleMeaning.WindowsTile | packages/core/src/policies/engine.ts:257-267 | Of two time windows that meet exactly one is open at each hour of the two together, and none at other hours; an open end is no bound. |
| RuleMeaning.ConditionsExactly | packages/core/src/policies/engine.ts:137-162 | When each other kind of condition holds. |
| RuleMeaning.FiresExactly | packages/core/src/policies/engine.ts:74-79 | A rule fires exactly if its matcher matches and no condition fails. |
| RuleMeaning.DecisionCarriesRule | packages/core/src/policies/engine.ts:74-94 | The decision carries the effect, the rule and its obligations; without any rule everything is denied. |
| RuleMeaning.ClashExactly | packages/core/src/policies/engine.ts:304-321 | A conflict is between the first rule to fire and the first behind it that fires with the other effect, each on its own side. |
| PolicyCompiler.AdaptPolicyCardToRules | packages/core/src/policies/adapter.ts:200-305 | The loops that push rules and count priorities up produce the compiled list. |
| PolicyCompiler.CompiledPriorities | packages/core/src/policies/adapter.ts:200-305 | Priorities count up from 100 without gaps, so the compiled order is the evaluation order. |
| PolicyCompiler.CompiledIds | packages/core/src/policies/adapter.ts:200-305 | A compiled rule's id names the card, whether a card rule denies or allows and its number, or the tool list or side effect that it stands for. |
| PolicyCompiler.CapabilityIsGlob | packages/core/src/policy/evaluate.ts:34-47 | On literal names and single trailing stars the interpreter's prefix test and the engine's glob agree. |
| PolicyCompiler.ScopeIsMatchExactly | packages/core/src/policy/evaluate.ts:30-66 | A card's scope and its compiled matcher accept the same requests, except exactly for tools in scope where the card speaks of risk levels and the request names none: `low` is listed, or for an empty level just one of `low` and the empty level. |
| PolicyCompiler.CardRuleStage | packages/core/src/policies/adapter.ts:200-243 | For every card and request the compiled card rules fire exactly when the first card rule whose conditions hold is heard through the compiled matcher, and decide like it. |
| PolicyCompiler.SpecStage | packages/core/src/policies/adapter.ts:245-305 | For any lists the compiled spec denies tools matched as forbidden first, then asks approval, then decides allowed tools by side effect, and denies the rest. |
| PolicyCompiler.CompiledVerdictHolds | packages/core/src/policies/adapter.ts:200-305 | For every card and request the first-match evaluator on the compiled rules gives the verdict of an interpreter that tests scope by the compiled matcher, reads lists as globs, puts the approval list before the allowed tools, and denies where there is no spec. |
| PolicyCompiler.CompilePreservesMeaningExactly | packages/core/src/policies/adapter.ts:200-305 | For every card and request, evaluating the compiled rules agrees with interpreting the card on effect, approval and PII handling exactly if the interpreter's verdict is the compiled verdict. |
| PolicyCompiler.FaithfulExactly | packages/core/src/policies/adapter.ts:200-305 | For plain patterns and a risk level that makes no difference that is: a card rule decides, or the card has a spec and the tool is forbidden, or not listed for approval, or allowed with a side effect that is not denied. |
| PolicyCompiler.UnnamedRiskLevelMatters | packages/core/src/policy/evaluate.ts:30-66 | A card and a request without a risk level on which the interpreter allows and the compiled rules deny. |
| CardMeaning.InterpretedSpec | packages/core/src/policy/evaluate.ts:93-145 | By the card's own fields: the interpreter refuses forbidden tools and tools not allowed, treats read, write and submit as the card's actions for them say, or allows reading and asks approval for the others, and asks approval for listed tools. |
| CardMeaning.CompiledSpec | packages/core/src/policies/adapter.ts:245-305 | The same of the compiled rules, with lists read as patterns and the approval list first, and with the obligations for the card's handling of personal data. |
| CardMeaning.InterpretedRule | packages/core/src/policy/evaluate.ts:29-90 | For a tool among the capabilities, at a listed risk level, the first card rule whose condition holds decides as its effect says, with the card's handling of personal data. |
| CardMeaning.CompiledCardRule | packages/core/src/policies/adapter.ts:200-243 | So it does after compiling, for a tool that matches a capability as a pattern. |
| CardMeaning.RequestStandsFor | packages/core/src/policy/evaluate.ts:45-56 | The request on which conditions are evaluated repeats the context, anonymous and of low risk where that is silent. |
| CardMeaning.WithoutSpec | packages/core/src/policy/evaluate.ts:93-98 | Where no rule decides, a card without a spec allows without requirements, and its compiled rules deny. |
| PolicyLinter.LintPolicyRules | packages/core/src/policies/linter.ts:112-185 | The nested loops report exactly the issues of all ordered pairs, and valid means no error-level issue. |
| PolicyLinter.IssuesFrom | packages/core/src/policies/linter.ts:112-185 | An issue is reported exactly when some rule and a later one have it. |
| PolicyLinter.ReportedIsKilled | packages/core/src/policies/linter.ts:140-176 | A rule reported SHADOWED or REDUNDANT has a rule of higher precedence that subsumes it with no condition or equal conditions. |
| PolicyLinter.KilledIsReported | packages/core/src/policies/linter.ts:140-176 | And every such rule is reported. |
| PolicyLinter.PatternSubsumesSound | packages/core/src/policies/linter.ts:26-40 | On a tool name without line breaks a pattern said to subsume another matches whenever the other does. |
| PolicyLinter.PatternCoversExactly | packages/core/src/policies/engine.ts:96-106 | Of any two glob patterns one matches all that the other matches exactly when it matches the other read as text; only `*` covers `*`. |
| PolicyLinter.PatternSubsumesExactly | packages/core/src/policies/linter.ts:26-40 | A pattern said to subsume another matches all that it matches exactly if it is `*`, or the same, or the other has no line break where the trailing star must cover it. |
| PolicyLinter.MatcherSubsumesSound | packages/core/src/policies/linter.ts:45-93 | A matcher said to subsume another matches each request the other matches, unless an empty list or, for this tool name, a line break comes in between. |
| PolicyLinter.MatcherSubsumesExactly | packages/core/src/policies/linter.ts:45-93 | It matches all requests the other matches exactly if no list of it is empty where the other matches something, and it matches each of the other's tool patterns read as text. |
| PolicyLinter.DeletingDeadIsSafe | packages/core/src/policies/linter.ts:112-185 | Deleting any set of rules, each killed by some rule of the list whose kill holds for the tool name, changes no decision; other rules do not matter. |
| PolicyLinter.DeletingReportedIsSafe | packages/core/src/policies/linter.ts:112-185 | With distinct ids, deleting any set of ids, each reported below a rule whose kill holds for the tool name, changes no decision at any hour. |
| PolicyLinter.PlainReportsHold | packages/core/src/policies/linter.ts:140-176 | Without empty lists and line breaks every report is of that kind. |
| PolicyLinter.DeletingPairExactly | packages/core/src/policies/linter.ts:140-176 | Of two unconditional rules the one reported dead can be deleted without changing any decision exactly if the other's matcher covers its own. |
| PolicyLinter.DeletableExactly | packages/core/src/policies/linter.ts:140-176 | An unconditional rule reported dead below another can be deleted from every list that contains the other, without changing any decision, exactly if the other's matcher covers its own. |
| PolicyLinter.ContradictoryExactly | packages/core/src/policies/linter.ts:118-145 | Two rules are reported contradictory exactly if they stand in this order at one priority, with different effects, equal conditions, and matchers that subsume each other. |
| PolicyLinter.ContradictionTurns | packages/core/src/policies/linter.ts:118-145 | Of two such rules that cover each other both fire on the same requests, and swapping them turns the decision around. |
| PolicyLinter.EmptyListBreaksDeletion | packages/core/src/policies/linter.ts:45-56 | With an empty tool list the deletion can turn an allow into a deny. |
| PolicyLinter.LineBreakBreaksDeletion | packages/core/src/policies/linter.ts:26-40 | So it can for a tool name with a line break. |
| LinterComplete.PatternTestExactly | packages/core/src/policies/linter.ts:26-40 | For literals and literals with one final star, the test holds exactly if every name that the second matches is matched by the first. |
| LinterComplete.MatcherTestExactly | packages/core/src/policies/linter.ts:45-93 | For matchers with such patterns and no empty list or side effect, one subsumes the other exactly if it matches every request that the other matches. |
| LinterComplete.KillsExactly | packages/core/src/policies/linter.ts:118-185 | A rule is reported dead exactly below one of higher precedence, without conditions or with the same ones, that matches every request it matches. |
| LinterComplete.ReportSays | packages/core/src/policies/linter.ts:148-185 | The report is SHADOWED, an error, where the effects differ and REDUNDANT, a warning, where they do not, and names the dead rule before its killer. |
| PolicyVerifier.BuildFiniteStateSpace | packages/core/src/policies/formal-verifier.ts:123-181 | The nested loops list exactly the states over the collected and default tools, agents and environments, the risk levels, side effects and token choices. |
| PolicyVerifier.CollectTools | packages/core/src/policies/formal-verifier.ts:123-142 | The collected tools are exactly the defaults and the samples of the rules' patterns. |
| PolicyVerifier.CollectEnvironments | packages/core/src/policies/formal-verifier.ts:123-154 | The collected environments are exactly the defaults and those the conditions name. |
| PolicyVerifier.VerifyPolicyInvariants | packages/core/src/policies/formal-verifier.ts:187-234 | Verified is reported exactly when every invariant holds in every state of the space; the counterexamples are exactly the failing states with their decisions and the invariants they break, and are counted per invariant. |
| PolicyVerifier.ProvePolicyEquivalence | packages/core/src/policies/formal-verifier.ts:240-276 | Equivalent is reported exactly when the two rule sets agree in every state of their common space. |
| VerifierMeaning.DefaultInvariantsSay | packages/core/src/policies/formal-verifier.ts:62-107 | The default invariants by name: critical requests, submissions, and high or critical writes in production are not allowed outright without approval and token. |
| VerifierMeaning.SpaceByName | packages/core/src/policies/formal-verifier.ts:123-181 | Which requests are in the space: tools, agents and environments by default and from the rules, all risk levels and side effects, one token or none, no scopes. |
| VerifierMeaning.SampleFits | packages/core/src/policies/formal-verifier.ts:133-142 | The sample name made of a pattern holds no star and is matched by the pattern. |
| VerifierMeaning.SampleReplaces | packages/core/src/policies/formal-verifier.ts:133-142 | It is the pattern with every star replaced. |
| VerifierMeaning.CountsPositions | packages/core/src/policies/formal-verifier.ts:187-234 | The count reported for an invariant is the number of its counterexamples. |
| VerifierMeaning.SameOutcomeExactly | packages/core/src/policies/formal-verifier.ts:240-276 | Two decisions are one outcome exactly if both allow or both deny and carry every obligation equally often. |
| SmallModel.SameDecision | packages/core/src/policies/engine.ts:66-162 | A request and its representative in the space get the same decision from every part of the rules. |
| SmallModel.VerifyDefaults | packages/core/src/policies/formal-verifier.ts:62-107 | Running the checker on the default invariants yields the verdict over the space. |
| SmallModel.VerifiedMeansSafeEverywhere | packages/core/src/policies/formal-verifier.ts:62-234 | If no rule requires a scope or asks for an absent environment, the checker reports verified exactly when the three default invariants hold for every covered request, whatever its tool, agent, scopes and environment. |
| SmallModel.SafeEverywhereExactly | packages/core/src/policies/formal-verifier.ts:62-234 | With any required scopes and environment conditions the invariants hold for every covered request exactly when they hold over the space widened by absent environments and named scopes, which implies the checker's verdict. |
| SmallModel.VerifiedWithEmptyTokensExactly | packages/core/src/policies/formal-verifier.ts:62-234 | Over either space: the invariants hold also for requests with an empty token exactly if the check passes and every decision on a state with a token is safe without it. |
| SmallModel.EquivalentMeansSameEverywhere | packages/core/src/policies/formal-verifier.ts:240-276 | For such rules two rule sets are reported equivalent exactly when they agree in effect and obligation types on every request of a known risk level and side effect. |
| SmallModel.EquivalentOverIsSame | packages/core/src/policies/formal-verifier.ts:240-276 | For rules with any required scopes and environment conditions that is agreement over the wider space. |
| SmallModel.RequiredScopesEscape | packages/core/src/policies/formal-verifier.ts:157-178 | A rule with a required scope passes the checker and breaks an invariant; the wider check fails. |
| SmallModel.NamelessEnvironmentEscapes | packages/core/src/policies/formal-verifier.ts:123-154 | So does an environment condition without a name. |
| SmallModel.EmptyTokenEscapes | packages/core/src/policies/engine.ts:137-162 | So does a condition on an approval token, on a request with an empty one. |
| Macaroon.MintRootMacaroon | packages/core/src/identity/delegation-macaroon.ts:138-176 | Minting chains the binding caveat and every initial caveat onto the root tag. |
| Macaroon.VerifyAndAuthorize | packages/core/src/identity/delegation-macaroon.ts:224-388 | The loops over the chain and the caveats give the verdict, the effective delegate and the number of caveats looked at. |
| Macaroon.FoldChain | packages/core/src/identity/delegation-macaroon.ts:262-268 | One pass computes the expected tag and the last non-empty delegate. |
| MacaroonTheorems.AcceptsMeaning | packages/core/src/identity/delegation-macaroon.ts:243-388 | A macaroon is accepted exactly when it is bound, its tag is authentic, its header matches, the caller is its delegate and every caveat is satisfied. |
| MacaroonTheorems.ChainInjective | packages/core/src/identity/delegation-macaroon.ts:105-114 | Chains from roots with one tag have one root and one caveat list. |
| MacaroonTheorems.OnlyExtensionsVerify | packages/core/src/identity/delegation-macaroon.ts:81-114 | Whoever starts from minted macaroons and chains caveats onto known tags gets only verifying macaroons whose header and caveats extend a minted one. |
| MacaroonTheorems.TamperingIsDetected | packages/core/src/identity/delegation-macaroon.ts:254-282 | With its tag kept, a macaroon whose caveats or signed header fields were removed, reordered or edited does not verify. |
| MacaroonTheorems.AttenuatedMintPassesExactly | packages/core/src/identity/delegation-macaroon.ts:138-199 | A mint followed by any attenuations passes the signature and header checks exactly when the root delegate, and the last delegate named, are not empty. |
| MacaroonTheorems.NarrowsForSameDelegate | packages/core/src/identity/delegation-macaroon.ts:181-388 | A caveat that names no delegate verifies exactly when the original does and the caveat is satisfied. |
| MacaroonTheorems.NarrowsForNewDelegate | packages/core/src/identity/delegation-macaroon.ts:181-388 | A caveat that names a delegate verifies for that delegate exactly when it is satisfied and the original, its header set right, verifies for its own. |
| MacaroonTheorems.AttenuationOnlyNarrows | packages/core/src/identity/delegation-macaroon.ts:181-388 | Any attenuation sequence verifies exactly when the original does and every added caveat is satisfied. |
| MacaroonTheorems.AlteredHeaderIsRepairedByDelegation | packages/core/src/identity/delegation-macaroon.ts:181-199 | The header premise is needed: it is not signed, and delegation sets it right again. |
| CaveatMeaning.AcceptedExactly | packages/core/src/identity/delegation-macaroon.ts:224-388 | A macaroon is accepted exactly if its first caveat names a delegate, its tag is chained from the secret, the delegate named last is in its header and may be the caller, and every caveat, field by field, allows the call: tools by name or prefix, risk levels by name with unknown ones read as medium, side effects, expiry and budget. |
| CaveatMeaning.AnswersExactly | packages/core/src/identity/delegation-macaroon.ts:224-388 | What each answer says: delegate and number of caveats, or the reason, with the first caveat that does not allow the call. |
| CaveatMeaning.MintAcceptedExactly | packages/core/src/identity/delegation-macaroon.ts:138-388 | A minted macaroon is accepted exactly if it was minted for someone, the delegate named last may be the caller, and the initial caveats allow the call. |
| PageRank.ComputePersonalizedPageRank | packages/core/src/context/hybrid-retrieval.ts:198-283 | The loops compute seeds, adjacency, the iterations and the final scaling; an empty graph has no scores. |
| PageRank.BuildAdjacency | packages/core/src/context/hybrid-retrieval.ts:223-236 | Edges are added in order, those with an unknown end dropped. |
| PageRankTheorems.OutgoingCounts | packages/core/src/context/hybrid-retrieval.ts:223-236 | A target is listed under a source once for every edge between the two, if both are nodes. |
| PageRank.IterateOnce | packages/core/src/context/hybrid-retrieval.ts:238-269 | One round of the loop computes the new score of exactly the nodes and overwrites the old. |
| PageRankTheorems.StepAt | packages/core/src/context/hybrid-retrieval.ts:249-265 | The new score of a node is its teleport, its part of the dangling mass, and one share per edge that points to it. |
| PageRankTheorems.PersonalizationIsDistribution | packages/core/src/context/hybrid-retrieval.ts:209-221 | Seeds clipped at zero and normalised, or the uniform vector, are non-negative and sum to one. |
| PageRankTheorems.PersonalizationAt | packages/core/src/context/hybrid-retrieval.ts:209-221 | Each node starts with its positive seed weight's share of all positive weights, or with an equal share if there is none. |
| PageRankTheorems.IterateConserves | packages/core/src/context/hybrid-retrieval.ts:238-269 | Every iteration conserves mass: scores stay non-negative and sum to exactly one. |
| PageRankTheorems.StepContracts | packages/core/src/context/hybrid-retrieval.ts:238-269 | One iteration brings any two vectors together by the damping factor in L1 distance. |
| PageRankTheorems.IterateContracts | packages/core/src/context/hybrid-retrieval.ts:238-269 | k iterations shrink the distance by damping to the k. |
| PageRankTheorems.StartsForgotten | packages/core/src/context/hybrid-retrieval.ts:238-269 | Two starting distributions are within two times damping to the k after k iterations. |
| PageRankConvergence.LaterIteratesClose | packages/core/src/context/hybrid-retrieval.ts:238-269 | From the k-th on all iterates are within two times damping to the k of the k-th. |
| PageRankConvergence.IteratesAreCauchy | packages/core/src/context/hybrid-retrieval.ts:238-269 | For damping below one and any accuracy there is a number of steps, given as a function of both, after which no two iterates differ by more. |
| PageRankConvergence.ApproachesStationary | packages/core/src/context/hybrid-retrieval.ts:238-269 | After that many steps from any distribution the scores are as near to any stationary distribution. |
| PageRankConvergence.StationaryIsUnique | packages/core/src/context/hybrid-retrieval.ts:238-269 | For damping below one there is at most one vector of stationary scores. |
| PageRankTheorems.RankingRange | packages/core/src/context/hybrid-retrieval.ts:271-282 | After the final scaling every node ranks between zero and one, and some node exactly one. |
| PageRankTheorems.RanksAreProportions | packages/core/src/context/hybrid-retrieval.ts:271-282 | The ranks are the scores after the given number of rounds, none for a negative number, divided by the greatest. |
| CanonicalJson.CanonicalInjective | packages/core/src/infrastructure/audit-log.ts:82-98 | Two values have one canonical text exactly when they differ in nothing but undefined fields and undefined standing for null. |
| CanonicalJson.KeysAscend | packages/core/src/infrastructure/audit-log.ts:93-93 | Keys are printed in strictly ascending order. |
| CanonicalJson.StringReadable | packages/core/src/infrastructure/audit-log.ts:87-87 | A quoted text followed by anything can be read off in one way only. |
| CanonicalJson.TextOf | packages/core/src/infrastructure/audit-log.ts:82-98 | The text of null, truth values, numbers and strings, and how lists and objects are put together. |
| CanonicalJson.EscapesExactly | packages/core/src/infrastructure/audit-log.ts:82-98 | Which characters are escaped in strings, and how. |
| CanonicalJson.UndefinedIsDropped | packages/core/src/infrastructure/audit-log.ts:82-98 | A field that is undefined is not printed. |
| AuditLedger.EntryHashBinds | packages/core/src/infrastructure/audit-log.ts:100-123 | Under a collision-free hash an entry hash determines the whole event, its previous hash and its sequence number. |
| AuditLedger.PayloadSays | packages/core/src/infrastructure/audit-log.ts:100-123 | What is hashed is an object with exactly the twelve fields, each value under its own name. |
| MerkleTree.PremisesHoldOfSomeHash | packages/core/src/infrastructure/audit-log.ts:118-122 | The premises on the hash, collision-free and hexadecimal, are met together by some function. |
| MerkleTree.ComputeRoot | packages/core/src/infrastructure/audit-log.ts:139-154 | Halving levels terminates and yields the Merkle root. |
| MerkleTree.HashPairs | packages/core/src/infrastructure/audit-log.ts:141-151 | One level joins neighbours, the odd last leaf with itself. |
| MerkleTree.SmallRoots | packages/core/src/infrastructure/audit-log.ts:139-154 | The roots of one, two and three leaves, left before right. |
| MerkleTree.RootBinds | packages/core/src/infrastructure/audit-log.ts:125-155 | Equal-length leaf lists with one root are identical, if the paired leaves of either hold no colon. |
| MerkleTree.BindingExactly | packages/core/src/infrastructure/audit-log.ts:125-155 | The root binds a leaf list, among lists of its length, exactly when no leaf that is hashed with another holds a colon. |
| MerkleTree.LengthBoundExactly | packages/core/src/infrastructure/audit-log.ts:125-155 | The root binds the number of leaves exactly for a single leaf that is not the digest of two joined texts; every longer list shares its root with a shorter one. |
| MerkleTree.RepeatedTailKeepsRoot | packages/core/src/infrastructure/audit-log.ts:142-145 | Repeating the last of an odd number of leaves, three or more, keeps the root. |
| MerkleTree.OriginalRootBinds | packages/core/src/infrastructure/audit-log.ts:125-155 | Among lists of any lengths of different leaves without colons, the first of them no inner node, two have one root exactly when they are the same. |
| AuditLedger.VerifyAuditLedger | packages/core/src/infrastructure/audit-log.ts:157-219 | The loop's findings, the verdict, the head hash and the Merkle root of any list of events. |
| AuditLedger.CheckEntry | packages/core/src/infrastructure/audit-log.ts:164-201 | The findings for one entry, in order, with expected and actual values. |
| AuditLedger.ComputeAuditMerkleRoot | packages/core/src/infrastructure/audit-log.ts:125-155 | The root over stored or recomputed entry hashes; the genesis hash for no events. |
| LedgerMeaning.FindingsExactly | packages/core/src/infrastructure/audit-log.ts:157-219 | The report lists exactly what is wrong, entry by entry: a position, a link back or a hash other than expected, with both values. |
| LedgerMeaning.LeafSays | packages/core/src/infrastructure/audit-log.ts:125-219 | Leaves of the root, and the head hash, are the hashes that entries claim, or else their own, computed. |
| AuditLedger.ValidExactly | packages/core/src/infrastructure/audit-log.ts:157-219 | The verifier finds nothing exactly when every entry has its position as sequence number, points to the entry before it and carries its own hash. |
| AuditLedger.InMemoryAuditLogService.LogEvent | packages/core/src/infrastructure/audit-log.ts:224-258 | The call appends one event, chained to the last, and returns its id. |
| AuditLedger.LoggedEventSays | packages/core/src/infrastructure/audit-log.ts:224-258 | The logged event says what the caller passed, carries its position and the hash of the event before it, and is sealed with its own; nothing before it changes. |
| AuditLedger.LedgersBuiltAreAccepted | packages/core/src/infrastructure/audit-log.ts:157-258 | Every ledger that any run of logEvent builds passes verification. |
| AuditLedger.HeadHashDetermines | packages/core/src/infrastructure/audit-log.ts:157-219 | Two complete, accepted, non-empty ledgers have one head hash exactly when they are the same. |
| AuditLedger.HeadHashBinds | packages/core/src/infrastructure/audit-log.ts:157-219 | Also with chain fields absent they are the same entry by entry, defaults filled in, and equally long. |
| AuditLedger.MerkleRootDetermines | packages/core/src/infrastructure/audit-log.ts:125-219 | Two complete, accepted, non-empty ledgers of any lengths have one Merkle root exactly when they are the same. |
| AuditLedger.MerkleRootBinds | packages/core/src/infrastructure/audit-log.ts:125-219 | Also with chain fields absent they are the same entry by entry, defaults filled in, and equally long. |
| AuditLedger.Truncation | packages/core/src/infrastructure/audit-log.ts:157-219 | A prefix of an accepted ledger is accepted, but has another head hash. |
| TokenBucket.TokenBucketRateLimiter.Consume | packages/core/src/capabilities/rate-limiter.ts:53-83 | The answer, the called key's new bucket, and every other bucket unchanged. |
| TokenBucket.CallExactly | packages/core/src/capabilities/rate-limiter.ts:53-83 | One call in numbers: the refill, its cap, the answer and the new bucket. |
| TokenBucket.RateEarns | packages/core/src/capabilities/rate-limiter.ts:63-66 | Earning over two times separately, each rounded down, never exceeds earning over both, and falls short by at most one. |
| TokenBucket.RateAdmissionBound | packages/core/src/capabilities/rate-limiter.ts:53-83 | Since its creation a bucket admits at most maxTokens plus the tokens the elapsed time earns, rounded down. |
| TokenBucket.RateWindowBound | packages/core/src/capabilities/rate-limiter.ts:53-83 | In any window, after any past, at most maxTokens plus the tokens the window earns are admitted. |
| TokenBucket.BurstIsAdmitted | packages/core/src/capabilities/rate-limiter.ts:53-83 | maxTokens calls at one moment on a new key are all admitted. |
| TokenBucket.RateSpacedCallsAdmitted | packages/core/src/capabilities/rate-limiter.ts:53-83 | Calls far enough apart to earn a token each are all admitted. |
| RedisTokenBucket.RedisRateLimiter.Consume | packages/core/src/capabilities/redis-rate-limiter.ts:11-47 | The script's answer, the key's new bucket and its new expiry time. |
| RedisTokenBucket.TtlEarnsFull | packages/core/src/capabilities/redis-rate-limiter.ts:17-17 | At one token per interval or more the time to live earns a full bucket. |
| RedisTokenBucket.RunInStep | packages/core/src/capabilities/redis-rate-limiter.ts:19-46 | If it earns a full bucket, every run with any legal dropping of keys keeps answers and buckets equal to those in memory. |
| RedisTokenBucket.ExpiryUnobservableExactly | packages/core/src/capabilities/redis-rate-limiter.ts:11-47 | Dropping keys cannot be observed in any run exactly when the time to live earns a full bucket. |
| RedisTokenBucket.RedisAnswersLikeMemory | packages/core/src/capabilities/redis-rate-limiter.ts:11-47 | The same for a configured rate; a rate of one or more suffices. |
| RedisTokenBucket.SlowRateShows | packages/core/src/capabilities/redis-rate-limiter.ts:17-17 | A configuration in which expiry shows. |
| Markdown.ParseSerialize | packages/core/src/connectors/bidirectional-sync.ts:88-123 | A written file reads back with its body normalised once more, and with the same frontmatter if trimming the YAML text loses none of it. |
| Markdown.SettledExactly | packages/core/src/connectors/bidirectional-sync.ts:83-86 | Normalising twice is normalising once exactly when the normalised body holds no Windows line end. |
| Markdown.DoubleReturnUnsettled | packages/core/src/connectors/bidirectional-sync.ts:83-86 | A body that normalising twice changes again. |
| WikiMeaning.LineEndsReplaced | packages/core/src/connectors/bidirectional-sync.ts:83-93 | Every Windows line end becomes a plain one and nothing else changes. |
| WikiMeaning.TrimsExactly | packages/core/src/connectors/bidirectional-sync.ts:83-112 | Of a text inside white space trimming leaves the text exactly if it has no white space at its ends. |
| WikiMeaning.FencedReads | packages/core/src/connectors/bidirectional-sync.ts:88-112 | A file that opens with a fence has the fields of the block up to the next fence and the rest for its body; a block that does not load is body too. |
| WikiMeaning.UnfencedReads | packages/core/src/connectors/bidirectional-sync.ts:88-112 | A file without a first or second fence has no fields and is all body. |
| WikiSync.MergeWikiIntoOkfFrontmatter | packages/core/src/connectors/bidirectional-sync.ts:170-212 | The merged fields and the governed keys that were present, in order. |
| WikiMeaning.MergedSays | packages/core/src/connectors/bidirectional-sync.ts:170-212 | The value of every key of the merged file: title and tags from the wiki where it has them, all else from the bundle before the wiki, and what is suggested for a missing id, type, sensitivity or title. |
| WikiMeaning.PreservedSays | packages/core/src/connectors/bidirectional-sync.ts:68-81 | The keys reported as preserved, by name. |
| WikiSync.Workspace.SyncOpenWikiBidirectional | packages/core/src/connectors/bidirectional-sync.ts:229-511 | Every path ends as its own slot demands, whatever the other paths hold; actions and conflicts are listed in path order; ok means no unresolved conflict. |
| WikiSync.Workspace.SyncPath | packages/core/src/connectors/bidirectional-sync.ts:260-477 | One path's files, record, action and conflict, and no other path touched. |
| WikiSync.Workspace.Decide | packages/core/src/connectors/bidirectional-sync.ts:267-407 | The branch taken for a path, from presence, hashes, base, direction. |
| WikiMeaning.ActionExactly | packages/core/src/connectors/bidirectional-sync.ts:260-477 | Which action a path is reported with, from presence, normalised bodies, recorded hash, direction and strategy. |
| WikiMeaning.ActionDoes | packages/core/src/connectors/bidirectional-sync.ts:260-477 | What the reported action did: which side now has which body, and that the manifest records it. |
| WikiSyncTheorems.DirectoriesHoldSamePaths | packages/core/src/connectors/bidirectional-sync.ts:229-511 | After a settling run both directories hold the paths of either before. |
| WikiSyncTheorems.DirectoriesAgreeExactly | packages/core/src/connectors/bidirectional-sync.ts:229-511 | Their normalised bodies agree everywhere exactly when every written body was settled. |
| WikiSyncTheorems.SecondRunIsQuietExactly | packages/core/src/connectors/bidirectional-sync.ts:339-354 | A second run reports only in-sync exactly then, and leaves files and manifest as they are. |
| WikiSyncTheorems.EditsSurviveExactly | packages/core/src/connectors/bidirectional-sync.ts:356-477 | A body that differs from its recorded base and whose path is not listed in conflicts is on both sides afterwards exactly when the body that was written is settled. |
| WikiSyncTheorems.ConflictExactly | packages/core/src/connectors/bidirectional-sync.ts:356-477 | A two-way run lists a path as a conflict exactly when both sides changed, to different bodies. |
| WikiSyncTheorems.ConflictSaysHow | packages/core/src/connectors/bidirectional-sync.ts:356-477 | A conflict names its path, base and hashes, and how it was settled: in favour of the side whose body both have afterwards, or not at all and then nothing was touched. |
| WikiSyncTheorems.GovernedKeyKeptExactly | packages/core/src/connectors/bidirectional-sync.ts:170-194 | For any direction and strategy a governed key keeps its value exactly unless the file is rewritten and a required key says nothing (and does not hold its default already); where a file is rewritten, trimming must keep its frontmatter. |
| WikiSyncTheorems.GovernedKeysComeFrom | packages/core/src/connectors/bidirectional-sync.ts:170-194 | For any direction and strategy a rewritten bundle file has every governed key from itself, else from the wiki, else by default if it is required; any other file keeps its fields. |
| WikiSyncTheorems.WikiIsTold | packages/core/src/connectors/bidirectional-sync.ts:214-223 | The wiki is told the id, title and type that say something, and tags that are a list, and no other field. |
| WikiSyncTheorems.GovernedKeysKept | packages/core/src/connectors/bidirectional-sync.ts:170-194 | Over whole runs every governed key that is not required, or that says something, keeps its value, on the same premise. |
| WikiSyncTheorems.RestraintHolds | packages/core/src/connectors/bidirectional-sync.ts:279-427 | Dry runs and unresolved conflicts change nothing, a pull never writes the wiki, a push writes the bundle exactly where only the wiki was edited. |
| JsonFrontmatter.SomeLibIsLawful | packages/core/src/connectors/bidirectional-sync.ts:88-123 | The premises on the YAML library and the hash are met together: frontmatter written as JSON. |
| JsonFrontmatter.TrimMayLose | packages/core/src/connectors/bidirectional-sync.ts:114-123 | A library that reads back all it writes, and for which trimming its text loses a field. |
| LogTable.LogService.Append | packages/core/src/services/log-service.ts:69-90 | The file is rewritten with the new row above all rows that could be read. |
| LogTable.LogService.GetEntries | packages/core/src/services/log-service.ts:100-108 | The entries are those parsed from the table; none without a file. |
| LogTable.LogService.ExtractTableRows | packages/core/src/services/log-service.ts:130-159 | The loop with its two flags takes the data rows up to the end of the table. |
| LogTableLemmas.UnescapeEscape | packages/core/src/services/log-service.ts:164-190 | Pipes and backslashes survive escaping and unescaping. |
| LogMeaning.PipesEscaped | packages/core/src/services/log-service.ts:164-169 | Every pipe gets a backslash and nothing else changes. |
| LogMeaning.PipesUnescaped | packages/core/src/services/log-service.ts:186-192 | Every backslash before a pipe goes and nothing else changes. |
| LogMeaning.SeparatorExactly | packages/core/src/services/log-service.ts:144-147 | The lines that count as the separator: a pipe and at least one dash, colon, pipe or blank. |
| LogMeaning.WrittenFile | packages/core/src/services/log-service.ts:17-90 | The file line by line: fields, title, head of the table, rows. |
| LogTableTheorems.RowRoundTripsExactly | packages/core/src/services/log-service.ts:130-196 | An entry's row is kept and parses back to the entry exactly when the entry is faithful. |
| LogTableTheorems.AppendExactly | packages/core/src/services/log-service.ts:69-159 | One append puts the new row above all rows that could be read, unless it reads as a separator, which leaves them, or as a header, which hides them all. |
| LogTableTheorems.LogRoundTripsExactly | packages/core/src/services/log-service.ts:69-196 | After any sequence of appends to any file, or none, reading returns exactly the appended entries, newest first, and then those that could be read before, exactly when every appended one is faithful. |
| LogTableTheorems.DatedIsFaithful | packages/core/src/services/log-service.ts:164-190 | Trimmed non-empty fields without newlines, with a timestamp that starts with a digit and has no pipe, are faithful. |
| ImpactMap.ComputeImpactMap | packages/core/src/graph/impact-analysis.ts:8-49 | The map has exactly the concepts that something links to, and lists without repetition exactly the concepts that reach them over edges that are not broken. |
| ImpactMap.Dependents | packages/core/src/graph/impact-analysis.ts:28-45 | The breadth-first search terminates with exactly the concepts that reach the goal by one edge or more. |
| ImpactMap.CollectDirect | packages/core/src/graph/impact-analysis.ts:15-23 | The direct impacts, built edge by edge. |
| ImpactMap.DirectExactly | packages/core/src/graph/impact-analysis.ts:15-23 | They hold exactly the sources of unbroken edges, per target. |
| ImpactMap.ComputeWatchImpactPlan | packages/core/src/compiler/watch-planner.ts:19-90 | When a full rebuild is needed, with all concepts for a configuration file and none for a file that no document matches; otherwise the changed concept with exactly its dependents and the target types they affect. |
| ImpactMap.PlanByName | packages/core/src/compiler/watch-planner.ts:33-88 | Which files ask for a full rebuild and which target types are affected, by name. |
| ImpactMap.BlastRadiusIsClosed | packages/core/src/compiler/watch-planner.ts:66-71 | The impacted set is closed under dependents and the least such set. |

## Left out

- PolicyCompiler.FaithfulExactly: stated for capability patterns that are literal or end in a single star, spec lists of names or `*`, tool names without line breaks, and requests whose risk level makes no difference (`RiskHeard`): it is named, or the card names none, or neither `low` nor the empty level is among the card's. `CompilePreservesMeaningExactly` has no such premise.
- SmallModel.SafeEverywhereExactly: stated for rules with literal tool names or `*`, conditions on environment, approval, or of custom or unknown type, and one default tool, the default agent and the development environment left unnamed; for requests with a known risk level and side effect and a token that is absent or not empty.
- SmallModel.VerifiedMeansSafeEverywhere: the same, without required scopes and conditions on an absent environment.
- SmallModel.EquivalentMeansSameEverywhere: stated for the same fragment; tokens are arbitrary.
- PolicyLinter.DeletingReportedIsSafe: stated for rules with distinct ids and reports whose kill holds (`KillHolds`): no empty list comes in between, and the tool name has no line break or the killing matcher matches the killed one's patterns; the two lemmas beside it show why that is needed.
- QuorumConvergence.SnapshotsConverge: stated for records that agree on a token's fixed fields and whose PENDING copies are below quorum, as all reachable ones do.
- Cryptography, Base64 and byte encodings: hashes are uninterpreted functions and macaroon tags free terms.
- Vote digests, cluster ids, audit text, metadata and the order of `approvedBy`; on equal vote times the local vote stays, and `consumedAt` is the first one seen, so neither is part of convergence.
- Two replicas that consume one token before they merge: single use is a property of one replica, and of every replica after the merge.
- Callers that mutate a record returned by `getApprovalRecord`.
- The gateway outside the approval gate and the executor call: authentication, scopes, rate limits, PII vault, telemetry. The policy decision is an arbitrary verdict of the step.
- Expression conditions: evaluated by an uninterpreted function of condition and request. The clock hour is a parameter. The comparison of conditions in the linter is equality, so `JSON.stringify` of NaN is not modelled.
- Parsing of condition strings (`normalizeConditions`) is a function parameter; evidence requirements and obligation parameters of cards are not modelled. Obligation lists are compared as multisets, where the source sorts and joins their types.
- The verifier's overlapping glob patterns: the small-model theorems cover literal tool names and `*`.
- That stationary PageRank scores exist: the iterates are shown to be a Cauchy sequence, but a limit of reals is not constructed.
- Floating point: PageRank and the buckets' earnings are over the reals, with exact rounding down where the source rounds down.
- `remaining`, `reset` and `clear` of the rate limiters. Redis is a map from key to bucket and expiry time; a key may be dropped at any time from its expiry on.
- Graph node ids are assumed distinct for the PageRank theorems; the method itself is modelled for any list.
- JSON numbers are known by the text that `JSON.stringify` prints for them; NaN, infinities, functions and lone surrogates, which print like other values, are not in the model. Keys are ordered by Unicode scalar instead of by UTF-16 unit, which differs only beyond the basic plane.
- The file-backed audit log and event retrieval.
- The file system: a directory is a map from relative path to content, with separate bundle and wiki directories; hidden files, the manifest's JSON and time stamps are not modelled. YAML dates and other values outside JSON are not modelled.
- Concept ids that name members of JavaScript's object prototype, which `computeImpactMap` would find in its plain object. The order of the listed concepts is not stated.
- Path matching of the watch planner is a predicate parameter, and the semantic graph is given by its edges.
- Parse failures of serialised macaroon tokens, servers, dashboards, the command line, federation, scorecards, context packing and retrieval scoring other than PageRank.
