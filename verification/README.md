# Anchorix control plane: verified model

Anchorix keeps derived state beside a certificate inventory: who owns a certificate and why, which
findings are open, which explanations to keep, which maintenance job runs next, how many agents a
package enrolled. Each of these must agree with a simple function of its inputs although it is
recomputed in pages, under locks, while operators change it. This project models those parts of the
Go backend in Dafny and proves that agreement.

| files | part |
|---|---|
| `Engine`, `EngineTheorems`, `RuleMeaning`, `Glob`, `Sorting` | rule compilation, matching, the decision, glob expressions |
| `Ownership`, `PassLemmas`, `OwnershipKeys`, `OwnershipService` | the tables, their transitions, and the service that performs them |
| `OwnershipInvariants`, `OverrideRequests`, `HistoryGrowth`, `OwnershipTimes` | what every run keeps, of transactions and of whole requests |
| `OwnershipFixpoint`, `OwnershipCounters`, `AuditRollup`, `TransitionAudit`, `PassWrites` | what a pass leaves, counts, audits and explains |
| `Retention`, `PruneStore` | the retention rule and its bounded batches |
| `MaintenanceJobs`, `PageWrites`, `JobAdapters`, `PruneWalk`, `PruneChains`, `SweepLemmas`, `SweepWalk`, `SweepTimes`, `SweepChains` | the two scheduled jobs, page by page over the changing tables, alone and in chains of runs |
| `Findings`, `FindingsService`, `FindingsTheorems` | the finding lifecycle, both diff algorithms, their equivalence |
| `Runner`, `RunnerTheorems`, `RunnerChains`, `WalkChains`, `Backoff` | the page loop on a store the job changes, what one run records, chains of runs, backoff |
| `SchedulerProtocol`, `Snapshots` | several schedulers, and what a run owes to its snapshot |
| `Enrollment`, `EnrollmentTheorems`, `EnrollmentBounds` | enrollment and revocation, alone and in every interleaving |
| `ServiceGroups` | the parent graph and its bounded cycle check |
| `Bytes`, `Base64`, `Cookies`, `Listing` | cookie signing and cursor pagination |
| `Ids`, `Wrappers` | key order and paged reads, Option and Result |

Conventions. A store is a class whose fields are maps and sequences, following the repository's
interface contracts. `View()` is its value, and every mutating method is proved against a function of
the old view; the theorems are about those functions. A paged read returns the first rows with key
strictly greater than the cursor, in key order; keys are unique and not empty. A transaction is one
step; on any error the old state comes back. Time is a parameter, fresh ids come from a supply `mint`.
The store a scheduled job works on is part of its runs: each page finds what the previous page, and
whoever wrote in between, left. Rule evidence, regular expressions on SANs, white space, hashing, the
HMAC and RFC 3339 text are function-valued parameters, and every theorem holds for all of them. Strings
stand for byte strings, so lengths are byte counts.

Where code and comment disagree the model follows the code:

- The comment at `backend/internal/governance/maintenance/runner.go:234-241` says that recording the
  cursor at the run boundary is equivalent to recording it per page, and that a crash re-runs at most one
  page. It is not: a run whose page fails, whose terminal write fails or whose process dies, after pages
  that moved the cursor, is resumed from its own starting cursor. For the first two
  `RunnerTheorems.BoundaryPersistenceExact` is the exact condition and `RunnerTheorems.FailedRunForgetsItsPages`
  an example; for a crash, and a failed terminal write among several schedulers, it is
  `Snapshots.LostRunIsRepeated`. The effects of those pages stay (`RunnerTheorems.LostRunKeepsEffects`).
- The same comment calls pages idempotent. Repeating one is safe, but neither job is a function of its cursor:
  the sweep's next cursor moves with the tables (`SweepChains.SweepDependsOnTables`), the prune's only with its
  listing, which stands until a certificate is explained for the first time (`PruneChains.PruneAnswersAlike`). The
  theorems for jobs steered by the cursor (`RunnerChains.ChainWithFailuresIsOneDrain`,
  `RunnerChains.LostPagesServedAgain`) thus reach the prune while its listing stands
  (`PruneChains.ChainFollowsTheListing`) and never the sweep. What holds of both however runs fail is stated over
  the tables (`SweepChains.ChainClearsExpired`, `PruneChains.ChainPassesEach`).
- The comment at `backend/internal/governance/maintenance/runner.go:327-328` calls the backoff overflow-safe.
  With a cap above 2^62 nanoseconds the doubling can overflow into a negative delay;
  `Backoff.BackoffExact` gives the exact condition.
- The comment at `backend/internal/identity/service.go:944-948` calls the walk bounded by the depth of
  the tree. The limit of 32 bounds the walk, not the tree (`ServiceGroups.MoveCanExceedDepth`);
  `ServiceGroups.StepKeepsDepthIff` says exactly when it bounds the tree too.
- Strict base64 decoding still skips CR and LF, so a cookie has infinitely many accepted spellings
  that differ in line breaks only (`Cookies.SignedCookie.VerifyExact`). The value `Sign("")`, which starts
  with its dot, never verifies; with a line break before it, it verifies as the empty id.
- A list cursor whose row has the zero instant reads as "first page" (`Listing.WalkIsExact`).
- A name that contains a newline is matched by `*` less often than the glob means
  (`Glob.ExactIffNewlineFree`).

To check everything: `dafny verify dfyconfig.toml`.

## Model

| member | source | states |
|---|---|---|
| Glob.CompileGlob | backend/internal/governance/ownership/engine.go:170-185 | The emitted text is the case-insensitive, anchored expression of the glob, every other character quoted |
| Glob.EmittedTextReadsBack | backend/internal/governance/ownership/engine.go:170-185 | Quoting loses nothing: the emitted text reads back as one operator per glob character, then end of text |
| Glob.GlobRegexSound | backend/internal/governance/ownership/engine.go:117-134 | The expression never accepts a name the glob does not mean, newline or not |
| Glob.GlobRegexExact | backend/internal/governance/ownership/engine.go:117-185 | On newline-free names the expression accepts exactly the recursive meaning of the glob |
| Glob.ExactIffNewlineFree | backend/internal/governance/ownership/engine.go:117-185 | All globs are read correctly on a name iff the name holds no newline |
| Engine.CompileRules | backend/internal/governance/ownership/engine.go:54-115 | The loop skips reserved rules, refuses on the first drift, keeps failed regex rules inert and sorts: it computes `Compiled`, whose meaning is the next row |
| RuleMeaning.CompilationMeaning | backend/internal/governance/ownership/engine.go:54-115 | Refused iff an unreserved rule has an unknown tier or kind, naming the first; otherwise every unreserved rule in ladder order, and failures exactly for the regex rules over 1024 bytes or invalid |
| Engine.ParseTagMatch | backend/internal/governance/ownership/engine.go:205-211 | Splits at the first colon and nothing is lost: key, colon and value concatenate to the input |
| Engine.DecideOwnership | backend/internal/governance/ownership/decision.go:56-108 | The loops over matches and ties compute `Decide`: override first, then the least matching rule, ambiguity and losers |
| Engine.BuildLosing | backend/internal/governance/ownership/decision.go:125-142 | The loop's list is the next matches after the winner, at most eight, with their reasons |
| EngineTheorems.MatchedRulesSorted | backend/internal/governance/ownership/engine.go:54-146 | The matched list holds exactly the relevant rules, in ladder order: tier in the listed order, then smaller priority, earlier creation, smaller id |
| EngineTheorems.WalkOrderIsLadder | backend/internal/governance/ownership/engine.go:94-113 | The engine walk order is that ladder, written out |
| RuleMeaning.RelevanceByKind | backend/internal/governance/ownership/engine.go:117-168 | What each kind compares: group, store and issuer by equality, tags by key or key and value, regexes and globs by some name, a glob on the subject by its common name |
| RuleMeaning.CommonNameMeaning | backend/internal/governance/ownership/engine.go:216-224 | The common name follows "CN=" in any case in the first comma-separated component that starts with it, white space aside |
| EngineTheorems.DecisionDependsOnRelevantRules | backend/internal/governance/ownership/decision.go:56-108 | The decision is unchanged by reordering rules and by adding or removing reserved, inert or non-matching ones |
| EngineTheorems.CompilationIgnoresRuleOrder | backend/internal/governance/ownership/engine.go:54-115 | Permuting the rules changes neither success nor walk order, and the failures only as a list, not as a multiset |
| EngineTheorems.DecisionFollowsTheLadder | backend/internal/governance/ownership/decision.go:56-108 | Unowned iff nothing is relevant; else the winner outranks every other relevant rule by tier, priority, creation time and id as written out, its confidence follows its tier by name, and it is ambiguous iff another shares the first three |
| EngineTheorems.OverrideDecidesAlone | backend/internal/governance/ownership/decision.go:62-71 | An override without expiry or with one to come decides alone, with high confidence |
| EngineTheorems.LosingListIsNextMatches | backend/internal/governance/ownership/decision.go:125-159 | The losing list is the next at most eight matches, each with its own data and a reason that is true of it, the reasons moving only from id tie outward to tier |
| AuditRollup.AddToGroup | backend/internal/governance/ownership/recompute.go:68-95 | One more transition: count, capped samples and retained ids are those of the longer list, ids dropped once past the threshold |
| AuditRollup.AddAudit | backend/internal/governance/ownership/recompute.go:68-95 | The group map keeps reflecting the log of transitions, by key |
| AuditRollup.EmitAuditGroups | backend/internal/governance/ownership/recompute.go:517-567 | The emitted rows are those of the groups in key order, whatever order the map yields |
| AuditRollup.RollupConservesTransitions | backend/internal/governance/ownership/recompute.go:517-567 | One per per-certificate row plus the count of each rollup row is exactly the number of logged transitions |
| AuditRollup.GroupRowsBounded | backend/internal/governance/ownership/recompute.go:68-95 | A group emits between one and threshold rows, rolls up iff it outgrew the threshold, and samples its first hundred ids |
| OwnershipService.OwnershipService.constructor | backend/internal/governance/ownership/service.go:113-140 | Opens the service on stored tables with its settings or their defaults, so that the prune's policy is in range; every public operation keeps what the keys guarantee |
| OwnershipService.OwnershipService.LoadActiveOverrides | backend/internal/governance/ownership/recompute.go:182-213 | Paging by certificate id yields the active override of every certificate that has one, for every page size |
| OwnershipService.OwnershipService.ProcessCert | backend/internal/governance/ownership/recompute.go:280-403 | Expire if due, decide, write row and explanation, count and log: one step of the specification on tables and tally |
| OwnershipService.OwnershipService.ProcessPage | backend/internal/governance/ownership/recompute.go:228-274 | Each certificate of the page is decided against its row from before the pass |
| OwnershipService.OwnershipService.StreamAndDecide | backend/internal/governance/ownership/recompute.go:228-274 | The paged walk does every certificate exactly once although it writes rows between pages |
| OwnershipService.OwnershipService.RunRecompute | backend/internal/governance/ownership/service.go:212-230 | Refused as a whole on rule drift, otherwise tables and audit are exactly the recompute, for every page size; the returned counters are the audited ones |
| OwnershipService.RecomputeOutcome.AccumAudit | backend/internal/governance/ownership/recompute.go:410-446 | Logs a transition under its action, or nothing |
| OwnershipService.RecomputeOutcome.CountTransition | backend/internal/governance/ownership/recompute.go:358-402 | Counters and log after an owner transition |
| OwnershipCounters.LoggedMeaning | backend/internal/governance/ownership/recompute.go:410-446 | A transition is logged once iff the certificate gains an owner, loses it, changes it, or becomes ambiguous under the same one |
| TransitionAudit.CountedUnderKey | backend/internal/governance/ownership/recompute.go:410-446 | A decision is logged under exactly one key or none: cleared iff the owner is lost, ambiguous iff it is gained, changed or kept with a now ambiguous decision, else assigned iff gained and flipped iff changed; from the prior decision, to the new one, by the winning rule |
| TransitionAudit.AuditListsTransitions | backend/internal/governance/ownership/recompute.go:517-567 | The transition rows of a recompute: keys in alphabetical order, and for each key exactly the certificates that moved so, in order, one row each or one rollup row beyond the threshold |
| OwnershipService.OwnershipService.RederiveCertificate | backend/internal/governance/ownership/rederive.go:44-145 | The single-certificate writer performs the same row and explanation writes as the pass |
| OwnershipService.OwnershipService.CreateOverride | backend/internal/governance/ownership/override_mutations.go:53-131 | Invalid input, past expiry, unknown certificate and inactive service are each refused exactly when they apply and nothing earlier does; then the transaction; any refusal leaves the tables as they were |
| OverrideRequests.CreateWrites | backend/internal/governance/ownership/override_mutations.go:92-131 | An accepted create adds exactly the requested override, decides its certificate by it and audits it; it is refused iff the certificate is pinned already or the rules do not compile |
| OverrideRequests.ClearWrites | backend/internal/governance/ownership/override_mutations.go:168-206 | A clear stamps exactly that override with time, actor and reason, re-derives its certificate without one and audits it; a cleared one is not cleared again |
| OverrideRequests.ClearCheckExact | backend/internal/governance/ownership/override_mutations.go:143-166 | Let through iff the inputs are well formed and the certificate has an uncleared override, and then for that override |
| OverrideRequests.CheckedIsEnabled | backend/internal/governance/ownership/override_mutations.go:53-206 | What the checks establish is what the transactions need, also when the tables have moved on since |
| OverrideRequests.RequestsAgreeWithRows | backend/internal/governance/ownership/override_mutations.go:53-206 | Over every run of public requests, however stale their checks: at most one uncleared override per certificate, uncleared iff the row is overridden with it, and every row explained |
| OwnershipService.OwnershipService.CreateOverrideTx | backend/internal/governance/ownership/override_mutations.go:106-128 | Insert, re-derive and audit as one step, undone on any error |
| OwnershipService.OwnershipService.ClearOverride | backend/internal/governance/ownership/override_mutations.go:143-206 | Resolves the active override first, then clears and re-derives; a lost race is reported as not found |
| OwnershipService.OwnershipService.SweepOneExpiringOverride | backend/internal/governance/ownership/expiring_overrides_sweep.go:170-196 | Clear, re-derive, audit; an override already cleared is skipped silently |
| OwnershipService.OwnershipService.SweepExpiringOverridesPage | backend/internal/governance/ownership/expiring_overrides_sweep.go:118-160 | One page of expired overrides in certificate order, all cleared or the page rolled back, with its cursor and done flag |
| OwnershipService.OwnershipService.PruneCertificateExplanations | backend/internal/governance/ownership/retention_prune.go:149-163 | Deletes one bounded oldest-first batch, never the current explanation, and counts what it deleted |
| OwnershipService.OwnershipService.PruneExplanationsPage | backend/internal/governance/ownership/retention_prune.go:85-143 | Refuses a policy out of range, else prunes each certificate of the page and audits iff something was deleted |
| PassLemmas.PassStepFrame | backend/internal/governance/ownership/recompute.go:280-403 | One step leaves inputs, other rows and other certificates' overrides alone |
| PassLemmas.UnreadRow | backend/internal/governance/ownership/recompute.go:246-265 | The rows a page looks up are still the rows from before the pass |
| OwnershipFixpoint.RecomputeDecidesEveryCertificate | backend/internal/governance/ownership/recompute.go:228-403 | After a recompute every stored decision, service, winning rule, override and confidence is the decision on the inputs from before the pass |
| PassWrites.RecomputeExplains | backend/internal/governance/ownership/recompute.go:311-465 | A certificate whose decision, owner, rule, override or confidence is new has a new explanation with exactly that decision, its losers and the signals seen; the others keep theirs; none is lost |
| PassWrites.RecomputeExpires | backend/internal/governance/ownership/recompute.go:292-309 | Exactly the overdue overrides of the stored certificates are cleared, now and as the system |
| PassWrites.RecomputeAudit | backend/internal/governance/ownership/recompute.go:135-175 | The audit rows of a pass, in order: failed rules, expired overrides by certificate, transitions, and the summary with its first-run flag |
| OwnershipFixpoint.RecomputeIsFixpoint | backend/internal/governance/ownership/recompute.go:336-357 | With unchanged inputs and no override expiring, a second pass reports zero changed, writes no explanation and no transition audit, and alters only last_evaluated_at |
| OwnershipFixpoint.CreateSettles | backend/internal/governance/ownership/override_mutations.go:106-128 | Right after a create the row is what the next recompute would decide |
| OwnershipFixpoint.ClearSettles | backend/internal/governance/ownership/override_mutations.go:168-203 | Right after a clear the row is what the next recompute would decide and no override is left |
| OwnershipFixpoint.SweepRowSettles | backend/internal/governance/ownership/expiring_overrides_sweep.go:170-196 | Right after a swept row the row is what the next recompute would decide and no override is left |
| OwnershipFixpoint.RecomputeKeepsSettled | backend/internal/governance/ownership/recompute.go:336-345 | The next recompute changes nothing but the evaluation time of such a certificate |
| OwnershipFixpoint.DecisionIgnoresTime | backend/internal/governance/ownership/decision.go:114-119 | Time alone changes no decision while the override stays in force |
| OwnershipInvariants.OverridesAgreeWithRows | backend/internal/governance/ownership/override_mutations.go:53-206 | In every reachable state at most one override per certificate is uncleared, and o is uncleared for c iff the row of c is overridden with id o |
| OwnershipInvariants.RowsStayExplained | backend/internal/governance/ownership/rederive.go:85-144 | In every reachable state each row points at a surviving explanation of its certificate with the same decision, service and winning rule |
| OwnershipInvariants.ApplyKeeps | backend/internal/governance/ownership/recompute.go:97-175 | Recompute, create, clear, sweep page, prune page and input changes each keep both invariants |
| OwnershipInvariants.DeletionKeeps | backend/internal/governance/repository.go:338-350 | Deleting explanations of one certificate other than its current one keeps both invariants |
| OwnershipTimes.RunsKeepTimes | backend/internal/governance/ownership/recompute.go:311-402 | Over every run whose clock never goes back: first_assigned_at <= last_changed_at <= last_evaluated_at, and the explanation was decided between the last two |
| OwnershipTimes.RowAfterTimes | backend/internal/governance/ownership/recompute.go:330-402 | Only an owner change moves the change time, only becoming owned the first assignment, only a moved basis the explanation |
| OwnershipCounters.CountersCountTransitions | backend/internal/governance/ownership/recompute.go:280-403 | Each counter is the number of certificates in its class; evaluated is changed plus unchanged and covers all |
| OwnershipCounters.AuditAccountsForEveryTransition | backend/internal/governance/ownership/recompute.go:517-567 | The audit rows of a pass stand for exactly the certificates gained, lost, flipped or newly ambiguous under the same owner |
| Retention.SelectExplanationsToPrune | backend/internal/governance/ownership/retention.go:79-113 | The sort-and-skip loop selects what is past the newest N, older than the cutoff and not current; nothing for a policy out of range |
| Retention.SelectionIsEligibility | backend/internal/governance/ownership/retention.go:79-113 | The sort-based selection is exactly the rank-based eligible set |
| Retention.SelectionIsPolicy | backend/internal/governance/ownership/retention.go:79-113 | And that is: strictly older than the age, not current, and with at least N rows decided later, or at the same time with a smaller id |
| Retention.DeletionIsLocal | backend/internal/governance/repository.go:315-350 | Deleting any eligible rows leaves the latest N alone and removes exactly those rows from the eligible set |
| Retention.BatchMembers | backend/internal/governance/repository.go:315-336 | A batch holds as many eligible rows as the limit allows, each once, none younger than one left out |
| Retention.BatchesDrainToTheRule | backend/internal/governance/ownership/retention_prune.go:149-163 | At a fixed cutoff exactly ceil(eligible/limit) passes delete something, and then the eligible rows are gone and nothing is eligible |
| Retention.DrainMatchesSelection | backend/internal/governance/ownership/retention_prune.go:149-163 | The drained timeline is the timeline minus the sort-based selection, which then selects nothing |
| PruneStore.DeletableIsBatch | backend/internal/governance/repository.go:338-350 | The guard of the delete never fires on a selected batch |
| PruneStore.PruneCertIsOnePass | backend/internal/governance/ownership/retention_prune.go:149-163 | One page does one pass on its certificate's history and leaves every other history alone |
| PruneWalk.DrainPassesOnce | backend/internal/governance/ownership/retention_prune.go:85-143 | Following the next cursor from the start at one time always reaches the end and has given every explained certificate exactly one pass, whatever the page size |
| PruneWalk.DrainIsOnePassEach | backend/internal/governance/ownership/retention_prune.go:85-143 | In the tables: each history is one retention pass over what it was; rows and surviving explanations are untouched |
| PruneWalk.DrainsReachTheRule | backend/internal/governance/ownership/retention_prune.go:149-163 | As many drains as a certificate has batches of eligible rows leave its history minus what the sort-based rule selects |
| PruneWalk.PrunerPrunes | backend/internal/governance/repository.go:298-350 | Every prune step passes over its own certificate only, and never takes one off the listing: the latest explanation survives |
| PageWrites.SweepPageWrites | backend/internal/governance/ownership/expiring_overrides_sweep.go:118-196 | A page that succeeds clears the overdue overrides of its certificates and no other, as the system and now, with one row about each, and reports their number |
| PageWrites.PrunePageWrites | backend/internal/governance/ownership/retention_prune.go:85-143 | A page is refused iff the policy is out of range; else it only deletes explanations, reports how many, and writes one row about them iff there were any |
| SweepWalk.DrainIsOneSweep | backend/internal/governance/ownership/expiring_overrides_sweep.go:118-160 | At one time, following the next cursor from the start is one sweep of the expired certificates, each once in key order, although swept rows leave the listing: it reaches the end iff that sweep succeeds, with its tables and nothing expired left |
| SweepTimes.ChainIsOneSweep | backend/internal/governance/maintenance/overridesweep/job.go:89-107 | Partial runs and a completed one with nobody else writing, each page at a later clock reading: the tables are those of one sweep in key order, each certificate once, at its page's time and when it had expired; everything expired at the start is among them |
| SweepTimes.StandingClock | backend/internal/governance/maintenance/overridesweep/job.go:89-107 | If the clock stands still as well, that sweep is the one of exactly the certificates expired then |
| SweepChains.ChainClearsExpired | backend/internal/governance/maintenance/overridesweep/job.go:89-107 | Any chain of runs that ends completed has cleared every override that had expired when it began, with failed runs and pages, later clocks and other writers in between |
| SweepChains.WritersAreCalm | backend/internal/governance/ownership/override_mutations.go:53-206 | What those other writers may be: every recompute, create, clear, sweep page, prune page and input change |
| SweepChains.SweepWalks | backend/internal/governance/ownership/expiring_overrides_sweep.go:118-160 | A page leaves nothing expired up to its next cursor, and nothing at all when it reports the end |
| SweepChains.SweptPageAnswersAnew | backend/internal/governance/maintenance/overridesweep/job.go:89-107 | A page that swept something does not point to the same place when asked again with the same cursor |
| SweepChains.SweepDependsOnTables | backend/internal/governance/maintenance/overridesweep/job.go:89-107 | So the sweep's answers are not a function of the cursor, in whatever respect that includes the next cursor they are compared |
| PruneChains.ChainPassesEach | backend/internal/governance/maintenance/explanationretention/job.go:94-112 | A chain of prune runs that ends completed has given every certificate explained at its start a retention pass, at some page's own clock reading, with runs, pages and terminal writes lost, clocks moving and others writing in between |
| PruneChains.WritersKeepExplained | backend/internal/governance/ownership/override_mutations.go:53-206 | What those other writers may be: every recompute, create, clear, sweep page, input change and any prune that keeps at least one row |
| PruneChains.ChainLeavesNoneOut | backend/internal/governance/maintenance/explanationretention/job.go:94-112 | And if something of the certificate could be pruned at the start, some page removed rows of its history, although the clock moves on and new explanations arrive |
| PruneChains.WritersKeepPrunable | backend/internal/governance/ownership/override_mutations.go:53-206 | Every writer but another prune, at any later clock reading, leaves what could be pruned prunable |
| PruneChains.PruneAnswersAlike | backend/internal/governance/maintenance/explanationretention/job.go:94-112 | While the listing stands, everything in a prune page's answer but the number of deletions depends on the cursor alone |
| PruneChains.ChainFollowsTheListing | backend/internal/governance/maintenance/explanationretention/job.go:94-112 | So, failed runs or not, the kept calls of a chain go through the cursors of the one undisturbed drain, at whatever time and over whatever histories that runs |
| HistoryGrowth.WritersGrow | backend/internal/governance/ownership/rederive.go:85-144 | Every writer but the prune only adds explanations, and a row only ever moves to a fresh one |
| Retention.StaysEligible | backend/internal/governance/repository.go:315-336 | A prunable row stays prunable when rows are added and the cutoff grows, unless it is made current |
| WalkChains.ChainLeavesNothingDue | backend/internal/governance/maintenance/runner.go:205-309 | For any job that walks keys in order and any disturbance that makes nothing due: a chain ending completed leaves nothing due, whatever failed |
| WalkChains.ChainDealsWith | backend/internal/governance/maintenance/runner.go:205-309 | For any job that does not pass a key by: a chain ending completed has dealt with every open key ahead of its start in some page of some run, whatever failed or was written in between |
| JobAdapters.SweepAdapter.RunPage | backend/internal/governance/maintenance/overridesweep/job.go:89-107 | One call of the sweep, its outcome mapped field by field; an error leaves the tables as they were |
| JobAdapters.PruneAdapter.RunPage | backend/internal/governance/maintenance/explanationretention/job.go:94-112 | One call of the prune, its outcome mapped field by field; a policy out of range is an error |
| Ids.PageIsNextSlice | backend/internal/governance/repository.go:204-214 | Reading strictly after the last key seen yields the next slice of the key order, for every limit |
| FindingsService.FindingsService.EvaluateRulesForCert | backend/internal/findings/service.go:566-578 | Adds exactly the matching pairs of one certificate, the last registered rule winning a shared id |
| FindingsService.FindingsService.DiffLoadAll | backend/internal/findings/service.go:338-408 | The two map walks handle every matching or stored pair once, in any order, and stop only at an unknown status |
| FindingsService.FindingsService.DiffStreaming | backend/internal/findings/service.go:461-559 | The three paged phases handle every matching or stored pair once, for every page size, although the table being paged is updated |
| FindingsService.FindingsService.RunDiffLoadAll | backend/internal/findings/service.go:338-408 | Succeeds iff every stored status is supported, and is then a recompute of the table with its counters; a failure names a stored row of unknown status |
| FindingsService.FindingsService.RunDiffStreaming | backend/internal/findings/service.go:461-559 | Succeeds iff every stored status is supported, and is then a recompute of the table with its counters; a failure names a stored row of unknown status |
| FindingsService.FindingsService.RecomputeWithActor | backend/internal/findings/service.go:233-257 | Succeeds iff every stored status is supported; diff and audit row together, or table and audit unchanged |
| FindingsService.FindingsService.RecomputeByOperator | backend/internal/findings/service.go:184-201 | A blank actor is recorded as the system |
| FindingsService.FindingsService.RecomputeLegacyLoadAll | backend/internal/findings/service.go:273-299 | The load-all diff and its audit row together, or nothing; succeeds iff every stored status is supported; a blank actor is recorded as the system |
| FindingsService.FindingsService.ApplyDecision | backend/internal/findings/service_diff.go:263-274 | Insert and update reach the store exactly as decided; a fresh pair never trips the unique key |
| FindingsService.FindingsService.ApplyOverride | backend/internal/findings/service.go:857-900 | Exactly one row takes status, reason, actor, time and expiry as given and loses resolved_at, all else as before, with one audit row; a missing id changes nothing |
| FindingsService.FindingsService.AcknowledgeFinding | backend/internal/findings/service.go:797-811 | Refused iff id, actor or reason is blank or the reason over 1000 bytes; else the row field by field |
| FindingsService.FindingsService.SuppressFinding | backend/internal/findings/service.go:820-834 | Also refused iff the expiry is not strictly in the future at the check; else the row field by field, with that expiry |
| FindingsTheorems.DiffsAgree | backend/internal/findings/service.go:338-559 | Streaming and load-all end with the same counters and the same rows up to ids of new rows |
| FindingsTheorems.LiveIffRuleMatches | backend/internal/findings/service.go:461-559 | Right after a recompute a pair has a non-resolved finding iff a rule of that id matches the certificate |
| FindingsTheorems.RowsAreCurrent | backend/internal/findings/service_diff.go:80-252 | After a recompute a matching row carries its rule's version, severity, title, evidence and this time, a new one open and first seen now; every other row is resolved, now unless it already was |
| FindingsTheorems.OverrideSurvivesIff | backend/internal/findings/service_diff.go:138-186 | An acknowledgement or suppression survives word for word iff the rule still matches and the suppression has not run out |
| FindingsTheorems.IntentUntilNextRecompute | backend/internal/findings/service_diff.go:138-252 | After an acknowledgement or suppression the next recompute keeps it word for word while the rule matches and the expiry is to come, reopens a suppression that has run out, and resolves what no longer matches |
| FindingsTheorems.CountersPartition | backend/internal/findings/service.go:461-559 | The four buckets are disjoint and cover every matching or stored pair once, so the counters sum to their number |
| FindingsTheorems.BucketMeaning | backend/internal/findings/service_diff.go:80-252 | Which bucket a pair falls into, from its stored status and its match, both directions |
| FindingsTheorems.RecomputeIdempotent | backend/internal/findings/service.go:178-183 | Repeating a recompute at the same time changes no row, opens none and resolves none |
| FindingsTheorems.RunsKeepTheLifecycle | backend/internal/findings/service_diff.go:80-252 | Over every run with non-decreasing time: resolved_at iff resolved, override metadata iff acknowledged or suppressed, first_seen <= last_seen <= updated_at, no unknown status |
| FindingsTheorems.RunsKeepFirstSeen | backend/internal/findings/service_diff.go:138-151 | No run deletes a finding, moves it to another pair or changes first_seen |
| Findings.LastMatchMeaning | backend/internal/findings/service.go:566-578 | A pair is matched iff some registered rule of that id matches, and then by the last one that does |
| Backoff.BackoffFor | backend/internal/governance/maintenance/runner.go:329-344 | The doubling loop on 64-bit durations |
| Backoff.BackoffExact | backend/internal/governance/maintenance/runner.go:325-344 | The delay is min(RetryMax, RetryBase*2^(n-1)) for every n iff no doubled value below RetryMax reaches 2^62; otherwise some delay is negative |
| Backoff.SmallCapNeverOverflows | backend/internal/governance/maintenance/runner.go:325-344 | RetryMax <= 2^62 rules overflow out |
| Backoff.DelayMonotone | backend/internal/governance/maintenance/runner.go:325-344 | The documented delay never shrinks with more failures and stays within RetryBase and RetryMax |
| Runner.JobRunner.RunPages | backend/internal/governance/maintenance/runner.go:205-251 | The loop equals `Loop` on the snapshot's cursor; only the terminal write changes the row, with cursor, re-arm time and failure count of that ending |
| Runner.JobRunner.RunDueJob | backend/internal/governance/maintenance/runner.go:153-200 | Unknown job, lock error, held lock or failed start change nothing; the lock is released on every path; skipped iff the lock was held |
| Runner.JobRunner.FinishCompleted | backend/internal/governance/maintenance/runner.go:253-267 | Stores the start cursor, resets failures, re-arms after the job interval |
| Runner.JobRunner.FinishPartial | backend/internal/governance/maintenance/runner.go:269-282 | Stores the advanced cursor, resets failures, re-arms after the requeue delay |
| Runner.JobRunner.FinishFailed | backend/internal/governance/maintenance/runner.go:284-309 | Leaves the cursor, increments failures, re-arms after the backoff of the snapshot's failures plus one |
| RunnerTheorems.RunMeans | backend/internal/governance/maintenance/runner.go:205-251 | At most MaxPagesPerRun pages, each begun in time and uncancelled, on the store and at the cursor the previous one left; completed iff a page reported the end, failed iff a page failed, partial iff the page count, the time or a cancellation stopped it |
| RunnerChains.KeptCallsAreOneWalk | backend/internal/governance/maintenance/runner.go:205-309 | Runs ending with the first completed one, failed and lost ones between: the calls of the runs that recorded their progress form one walk from the start cursor, each continuing where the last answer pointed, whatever the pages do to the store |
| RunnerChains.ChainIsOneDrain | backend/internal/governance/maintenance/runner.go:205-309 | Those calls, and the store at the end, are those of one unbounded drain that meets what the runs met; lost runs, moving clocks and other writers only change what it meets |
| RunnerChains.ChainMeets | backend/internal/governance/maintenance/runner.go:205-309 | What such a drain meets between two pages is no more than what happens before pages and between runs |
| RunnerChains.QuietChainIsOneDrain | backend/internal/governance/maintenance/runner.go:205-309 | Undisturbed partial runs and a completed one make exactly the calls, and leave the store, of the one uninterrupted drain from the start, whose length is unique |
| RunnerChains.ChainWithFailuresIsOneDrain | backend/internal/governance/maintenance/runner.go:205-309 | For a job steered by the cursor alone on the stores that occur, the kept calls, failed runs between or not, get the answers of any unbounded drain over such stores |
| RunnerTheorems.BoundaryPersistenceExact | backend/internal/governance/maintenance/runner.go:234-251 | Writing the cursor at the run boundary and per page differ iff the loop ends, by a bound, a failed page or the last page, where its pages have moved the cursor, and that page or the terminal write fails |
| RunnerTheorems.LostRunKeepsEffects | backend/internal/governance/maintenance/runner.go:205-251 | A run that loses its progress, by a failed page or a failed terminal write, leaves the stored cursor where it started while the store keeps the effects of every page it served |
| RunnerChains.LostPagesServedAgain | backend/internal/governance/maintenance/runner.go:205-251 | For a job steered by the cursor alone the run after a lost one makes its calls again, as far as it gets |
| RunnerTheorems.FailedRunForgetsItsPages | backend/internal/governance/maintenance/runner.go:205-251 | A run that serves a page and then fails does not record it |
| RunnerTheorems.TerminalWriteExact | backend/internal/governance/maintenance/runner.go:253-309 | Each terminal write field by field, also when snapshot and stored row differ: the counter goes up from the row, the backoff by the snapshot, a failure keeps the stored cursor |
| RunnerTheorems.ReArmedLater | backend/internal/governance/maintenance/runner.go:253-309 | Due again the job interval after a completed run, the requeue delay after a partial one, the documented backoff of the stored failures after a failed one; a failed terminal write leaves the row running and due as it was |
| SchedulerProtocol.NoTwoHolders | backend/internal/governance/scheduler.go:148-181 | With stale snapshots, skips, errors and crashes, two processes never hold the same (organization, job) |
| SchedulerProtocol.RunsOfAJobAreSerial | backend/internal/governance/maintenance/runner.go:153-309 | Each terminal mark closes the start mark just before it under its key; no run has two |
| SchedulerProtocol.FinishMarks | backend/internal/governance/maintenance/runner.go:253-309 | A terminal write that succeeds gives the run its one terminal mark and applies the run to the stored row |
| Snapshots.LockedRowStandsStill | backend/internal/governance/maintenance/runner.go:153-251 | From taking the lock to the terminal write nobody moves the row's cursor, failures or times |
| Snapshots.ContinuesStoredRow | backend/internal/governance/maintenance/runner.go:205-251 | A run is the run from the stored row iff its snapshot has the stored cursor; in every world it leaves the cursor that run would leave iff it has |
| Snapshots.FinishContinuesLockedRow | backend/internal/governance/maintenance/runner.go:253-309 | A terminal write leaves the row a run from the row stored at the lock would leave if the snapshot was fresh then, and logs that run iff its cursor was |
| Snapshots.FreshRunsAreAChain | backend/internal/governance/maintenance/runner.go:153-309 | If every holder of a job's lock has read the row stored then, the row and its finished runs are always those of a chain in which each run starts from the row before |
| Snapshots.FreshCursorFollowsTheWalk | backend/internal/governance/maintenance/runner.go:153-309 | The stored cursor then moves along one walk at a time: since the last completed run it is where the calls of the runs that did not fail have got to |
| Snapshots.FreshRunsMakeOneWalk | backend/internal/governance/maintenance/runner.go:153-309 | From each completed run of a key to the next, those calls are one whole walk from the start cursor and one unbounded drain that meets what the runs met, with its store |
| Snapshots.CompletedRunStartsOver | backend/internal/governance/maintenance/runner.go:153-309 | After a completed run the row is at the start cursor with no failures until the next run ends |
| Snapshots.FreshQuietRunsAreOneDrain | backend/internal/governance/maintenance/runner.go:153-309 | Undisturbed and without failed runs they are the one drain of the job, calls and store |
| Snapshots.LostRunLeavesRow | backend/internal/governance/maintenance/runner.go:205-251 | A run that crashes or whose terminal write fails leaves the row due as it was, at its starting cursor, until another run of the job ends |
| Snapshots.LostRunIsRepeated | backend/internal/governance/maintenance/runner.go:234-251 | After a crash or a failed terminal write, n pages served, the next run to end, on a fresh snapshot, starts again at the lost run's starting cursor; it is the run that per-page records would have continued with iff the pages did not move the cursor |
| Snapshots.StaleSnapshotRewinds | backend/internal/governance/maintenance/runner.go:153-210 | Without fresh snapshots the stored cursor can move backwards across replicas, because the snapshot is read before the lock |
| Enrollment.EnrollmentService.IncrementUses | backend/internal/enrollment/deployment_package.go:129-138 | Succeeds only on an active package and then adds one use; otherwise reports the first failing bound |
| EnrollmentBounds.IncrementExact | backend/internal/enrollment/deployment_package.go:90-138 | One more use iff the package is stored, unrevoked, before its expiry and below its maximum; else the first of these bounds that fails |
| EnrollmentBounds.EnrollExact | backend/internal/enrollment/service.go:216-368 | Uninterrupted, an enrollment succeeds iff its secret belongs to such a package, its install id is free and its row can be written; otherwise nothing is enrolled and the refusal is audited with its reason |
| EnrollmentBounds.AgentsEnrolledInTime | backend/internal/enrollment/service.go:216-368 | In every interleaving each agent of a stored package was enrolled before its expiry, into its organization |
| EnrollmentBounds.RevokeExact | backend/internal/enrollment/service.go:599-668 | Uninterrupted, a revocation finds only packages of its own organization, stamps an unrevoked one and writes one row about it |
| EnrollmentBounds.OnlyItsOrganizationRevokes | backend/internal/enrollment/service.go:575-668 | In every interleaving a package becomes revoked only by a commit of a client that asked in its own organization |
| EnrollmentBounds.CreationExact | backend/internal/enrollment/service.go:115-173 | A new package takes an unused id and changes nothing else but one creation row |
| Enrollment.EnrollmentService.CreateAgent | backend/internal/enrollment/agent.go:68-79 | Refuses a non-empty install id the organization already has |
| Enrollment.EnrollmentService.RunEnrollTx | backend/internal/enrollment/service.go:292-326 | Increment, agent and audit row together, or the store as it was |
| Enrollment.EnrollmentService.PreCheck | backend/internal/enrollment/service.go:226-273 | Looks up by secret and checks the bounds; a rejection is audited, and unauditable only for an unknown secret |
| Enrollment.EnrollmentService.Commit | backend/internal/enrollment/service.go:292-368 | Every refusal of the transaction is audited and reported as a rejection, or as an internal error if it cannot be audited |
| Enrollment.EnrollmentService.EnrollAgent | backend/internal/enrollment/service.go:216-368 | Blank secret or hostname is rejected without audit; otherwise pre-check then transaction |
| Enrollment.EnrollmentService.RevokePackage | backend/internal/enrollment/service.go:599-668 | Revokes once; a repeat succeeds without a second audit row; a foreign package is not found |
| Enrollment.EnrollmentService.CreatePackage | backend/internal/enrollment/service.go:115-173 | Positive lifetime and uses required; starts with no uses, unrevoked, expiring after its lifetime |
| EnrollmentTheorems.UsesAreEnrollments | backend/internal/enrollment/service.go:216-368 | In every interleaving uses equal agents equal enrollment rows, at most MaxUses; revoked iff one revocation row; nothing enrolls after it; install ids unique |
| EnrollmentTheorems.PreCheckIsSound | backend/internal/enrollment/service.go:255-273 | What the stale pre-check rejects, the increment with the same time rejects in every later state |
| EnrollmentTheorems.RevocationIsFinal | backend/internal/enrollment/service.go:575-580 | After a committed revocation no attempt in flight can enroll and the uses stay put |
| EnrollmentTheorems.ApplyKeeps | backend/internal/enrollment/service.go:216-668 | Every step of every client keeps the invariant |
| ServiceGroups.ServiceGroupService.CheckNoCycle | backend/internal/identity/service.go:951-971 | The bounded loop is the recursive walk with 32 lookups |
| ServiceGroups.ServiceGroupService.CreateServiceGroup | backend/internal/identity/service.go:830-865 | Parent must exist and pass the check; the new group hangs under it |
| ServiceGroups.ServiceGroupService.UpdateServiceGroupParent | backend/internal/identity/service.go:898-941 | Both groups must exist, a group is not its own parent, the check passes; only that parent changes |
| ServiceGroups.CheckIsExact | backend/internal/identity/service.go:951-971 | With no dangling parent a candidate is accepted iff its chain has at most 32 groups and does not contain the moved group |
| ServiceGroups.CreateExact | backend/internal/identity/service.go:830-865 | Accepted iff the parent, if any, is stored with at most 32 groups on its chain; each refusal says which fails |
| ServiceGroups.MoveExact | backend/internal/identity/service.go:898-941 | Accepted iff the group exists and its new parent, if any, is stored, with at most 32 groups on its chain and the group not among them; then exactly that edge changes, to a root if none is given |
| ServiceGroups.RunsStayAcyclic | backend/internal/identity/service.go:830-971 | Every serial sequence of creations and moves leaves an acyclic graph without dangling parents |
| ServiceGroups.AttachKeepsAcyclic | backend/internal/identity/service.go:893-941 | Hanging a group under a parent whose chain lacks it closes no cycle |
| ServiceGroups.StepKeepsDepthIff | backend/internal/identity/service.go:830-971 | When every chain has at most 32 groups, an operation keeps it so iff it is refused, makes a root, hangs a new group under a chain of at most 31, or moves a group whose subtree fits under the new parent's chain |
| ServiceGroups.RunsStayShallowIff | backend/internal/identity/service.go:830-971 | A serial sequence keeps every chain within 32 throughout iff each of its steps fits when it happens |
| ServiceGroups.MoveCanExceedDepth | backend/internal/identity/service.go:944-971 | From the empty store accepted operations reach a state within the limit from which one more accepted move leaves it |
| Base64.GroupBits | backend/internal/auth/cookies.go:45-48 | Four symbols stand for the 24 bits of three bytes, highest first |
| Base64.SymbolMeaning | backend/internal/auth/cookies.go:45-48 | The URL-safe alphabet |
| Base64.DecodeEncode | backend/internal/auth/cookies.go:45-67 | Decoding undoes encoding for every byte length |
| Base64.EncodeDecode | backend/internal/auth/cookies.go:52-67 | Encoding undoes strict decoding: no other text has the same value |
| Base64.StrictExact | backend/internal/auth/cookies.go:59-71 | A text decodes strictly to b iff, line breaks removed, it is the encoding of b |
| Base64.LenientNotCanonical | backend/internal/auth/cookies.go:55-58 | Without strict mode two texts share one value |
| Cookies.SignedCookie.VerifyExact | backend/internal/auth/cookies.go:59-78 | Verify yields id iff the value is the signed form of id up to line breaks and starts with no dot |
| Cookies.SignedCookie.VerifyCanonical | backend/internal/auth/cookies.go:59-78 | For values without CR and LF: Verify yields id iff the value is the signed form and id is not empty |
| Cookies.SignedCookie.SignThenVerify | backend/internal/auth/cookies.go:45-78 | Round trip for every id but the empty one |
| Listing.CertRoundTrip | backend/internal/inventory/list.go:183-210 | The (time, id) cursor comes back iff the id is not empty |
| Listing.ObsRoundTrip | backend/internal/inventory/list.go:215-238 | The (time, agent, store) cursor comes back iff agent and store are not empty and the agent holds no separator; the store may |
| Listing.CertificatePageIsNextSlice | backend/internal/inventory/list.go:332-349 | For a table in the documented order, a page is the next slice, at most the limit (50 by default), with a cursor iff rows follow |
| Listing.ObservationPageIsNextSlice | backend/internal/inventory/list.go:383-409 | The same for an observation page and its three-field cursor |
| Listing.ListRefuses | backend/internal/inventory/list.go:295-311 | Refused iff the limit is negative or over 200 or the cursor is malformed |
| Listing.WalkIsExact | backend/internal/inventory/list.go:332-409 | Following next_cursor ends iff no page boundary falls on a zero instant, and then concatenates to the whole list |
| Listing.CertificateWalk | backend/internal/inventory/list.go:332-349 | The same for the certificate list, ending whenever no row has the zero instant |
| Listing.ObservationWalk | backend/internal/inventory/list.go:383-409 | The same for the observation list |
| Listing.ZeroInstantLoops | backend/internal/inventory/list.go:188-195 | Two rows at the zero instant, one per page: the walk never ends |

## Left out

- SQL, HTTP, the command line, configuration, logging, the frontend and the Windows agent: input and output around the modelled logic.
- Failures of reads and of single writes inside the ownership and findings transactions: each returns an error and the transaction is undone, as for the refusals that are modelled. The failures of audit writes in enrollment and of marks in the scheduler are modelled.
- Recompute-run rows (`StartRecomputeRun`, `FinishRecomputeRun`) and the exported entry points around the recompute transaction: bookkeeping outside it.
- `pager.next` in `backend/internal/governance/ownership/recompute.go:587-621`: unused by the pass, whose own cursor loop is modelled.
- Trimming of the arguments of the ownership override operations: the model takes the trimmed values. In findings, enrollment and the operator's recompute trimming is a parameter.
- JSON shapes of audit metadata, evidence and explanations: records here. Actor and request fields appear only where a property needs them.
- Unescaping inside a subject DN: the program does none beyond splitting at commas, and neither does the model.
- Go's map iteration order: the loops over maps take their keys in any order.
- Evidence rules, severity filters, status filters and the search filters of the list endpoints: the walk is proved for whatever ordered table they leave. `GET /findings` uses the same two-field cursor and page logic as the certificate list.
- Instants outside the years RFC 3339 can write: the text functions are taken to be faithful.
- Concurrent re-parenting of service groups: the check runs in a plain transaction, so acyclicity is stated for serial steps only.
- Runs whose snapshot was stale at the lock: `Snapshots.StaleSnapshotRewinds` shows the cursor moving back, and the theorems on walks and drains are for fresh ones.
- Two prunes of one organization at once: `PruneChains.ChainLeavesNoneOut` is for chains during which no other prune deletes the row first; `PruneChains.ChainPassesEach` allows one.
- Timestamp order when the clock reading precedes the lock: the findings lifecycle and the times on ownership rows are stated for non-decreasing time in lock order; the other ownership invariants need no such assumption.
- Arithmetic on instants is unbounded; only the backoff doubling is modelled on 64 bits.
- Unicode: case folding is a parameter and patterns are sequences of characters.
- Inventory reconciliation, X.509 parsing, tags, agent groups, sessions, the individual certificate rules and the policy engine: decided in unseen SQL or by one-branch checks.
