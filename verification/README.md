# Cocopilot: protocol, automation and selection

Cocopilot is a task orchestrator. Agents claim tasks under leases, complete, fail or cancel them;
every event that is stored re-enters an automation engine; text is redacted and prompt templates
are filled in; memories, contexts, plans and imports are selected under budgets. This project models
that behaviour and proves what holds of it for every input, every run and every interleaving.

Run `dafny verify dfyconfig.toml` in this directory.

## The modules

- `Text`, `Redaction`, `RedactionSafety`, `RedactionSecrecy`, `RedactionLeaks`, `RedactionUrls`,
  `RedactionTokens`: the redactor as loops with an advancing cursor, its result as a function, and what
  every output obeys: no listed prefix keeps a token, a second run of the prefix patterns changes
  nothing, delimiters are conserved. What becomes of one secret behind each of the nineteen prefixes and
  of one password behind each of the seven schemes. How much of a token the output tells: behind any
  prefix but `Bearer ` at most one bit, and for every prefix exactly when nothing at all. How much of a
  URL password: which of the schemes it takes, and exactly when that does not show.
- `Template`: `{{key}}` substitution over an unordered map.
- `Arith`, `CircuitBreaker`, `Emissions`: the two governors of automation as classes, each refined
  against its history of calls; the breaker carries that history along.
- `Store`: the tables (tasks with two status columns, leases, runs, emissions, clock) and every
  statement or transaction that writes them, as one atomic step each.
- `Protocol`: invariants over every sequence of statements, whoever issues them.
- `Finalization`: completion, failure and cancellation as short programs of statements; when task,
  run and lease agree; what breaks the agreement, and exactly when.
- `Scheduler`: the claim-next query as a least element, draining, and find and claim as two steps.
- `Sessions`: the claim-next endpoints and the requeueing of stuck tasks as loops among other
  sessions, with faults at every database access, and the history that each leaves.
- `Automation`: the event engine. `CreateEvent` and `ProcessAutomationEvent` call each other; the
  rank of the event kind drops. Undisturbed, the state after an event is a function of the state before,
  and lemmas say by value what that function is.
- `StableSort`, `Memories`, `ContextBudget`: selection and trimming of the context of an assignment.
- `Planning`: rank, synthesise, validate, create, for any prompt executor.
- `Continuity`: workstream scores over the reals.
- `Import`: the identifier-remapping import, and export followed by import.
- `Options`: optional values.

## Where the code and its description differ

The model follows the code. The lemmas named here state each point.

- Redaction hides the token behind `Bearer ` if and only if the text before it leaves neither an
  `sk-` token nor a `Bearer ` token open (`RedactionLeaks.BearerHidesExactly`): the last byte of
  `Bearer Bearer x` and of `sk-aBearer x` shows (`RedactionLeaks.TwiceShows`, `RedactionLeaks.KeyShows`).
- Behind any other prefix a token that ends in `Bearer` makes the redactor take the next word as well,
  as in `token=Bearer y` against `token=x y` (`RedactionLeaks.TokenInputs`). When that shows:
  `RedactionLeaks.TextHiddenExactly`, `RedactionLeaks.SecretsHiddenExactly`.
- A URL password shows in the output when it contains a scheme and a later URL of that scheme follows:
  the step of the scheme is spent inside the password, and the later password is left as it is, as in
  `http://a:https://b:c@d https://x:y@z` against `http://a:p@d https://x:y@z`
  (`RedactionUrls.LaterPasswordShows`). Exactly when: `RedactionUrls.PassHidesExactly`,
  `RedactionUrls.PasswordHiddenExactly`.
- The unguarded v1 failure marks the run of a succeeded task as failed
  (`Finalization.UnguardedFailExactly`), and so does the guarded one when a completion comes between
  the guard and the update (`Finalization.GuardIsRaced`).
- The background job for expired leases writes the v1 column only, so a task can be offered again
  while its v2 column says CLAIMED or RUNNING; a PATCH to NEEDS_REVIEW closes a task for the v1 guards
  and leaves it open for the v2 guards (`Protocol.GuardsAgree`, `Protocol.EveryPairIsReached`).
- A claim whose final read fails stays committed; the endpoint then goes on and may claim another
  task (`Sessions.Session.ClaimNext`). Its branch that emits project.idle is never reached.
- Mandatory memories are cut by the later truncation to ten and by the size budget, although the
  comment on the trimming says that they are kept (`Memories.TruncationExactly`,
  `ContextBudget.MandatoryKeptExactly`, `ContextBudget.MandatoryKeptIfSpared`,
  `ContextBudget.ThreeBecomeOne`).
- A stuck task that is claimed between its listing and its update is put back under its new holder
  (`Sessions.RequeueIsRaced`, `Sessions.RequeueRacedExactly`).
- An archive holds the first 10000 tasks of a project; the others do not survive export and import
  (`Import.ExportImport`).
- What a prompt executor returns for a planning stage is decoded JSON, which the next stage does not
  recognise as its input: a ranking or a synthesis by an executor creates no task, a validation by an
  executor rejects nothing (`Planning.Planner.RunCycle`). Where failures come first, one critical gap
  is proposed twice (`Planning.RecoveryRepeats`).
- The guard against duplicate follow-ups answers no when its query fails, so uniqueness is proved of
  the follow-ups whose guard was answered (`Automation.UniqueFollowUps`).
- The query for the dependents of a completed task names a column, `deleted_at`, that no migration
  creates. The model lets the query succeed or fail; with the migrations as they are it always fails
  and dependency.unblocked is never stored.

## Model

| member | source | states |
|---|---|---|
| Redaction.RedactPattern | server/finalization.go:584-600 | the loop with the advancing cursor computes one left-to-right pass: each occurrence found is replaced with the token behind it, and the search goes on behind the replacement |
| Redaction.ScanToken | server/finalization.go:592-594 | the inner loop stops at the first delimiter or the end of the text |
| Redaction.RedactUrlPasswords | server/finalization.go:609-637 | the loop applies the step of every scheme, in the listed order; what that makes of passwords is stated by the RedactionUrls rows |
| Redaction.RedactSecrets | server/finalization.go:553-606 | the nested loops compute the composition of all passes in the listed order |
| RedactionSafety.RedactedTextIsSafe | server/finalization.go:553-606 | for every input, each listed prefix in the output is followed by the marker and a delimiter or the end; AKIA does not occur |
| RedactionSafety.PrefixPassIsIdempotent | server/finalization.go:555-600 | running the prefix patterns again on any output changes nothing |
| RedactionSafety.SafeAfterPass | server/finalization.go:584-600 | a later pattern does not undo what an earlier one established |
| RedactionSafety.SafeAfterUrls | server/finalization.go:609-637 | the password pass does not undo it either |
| RedactionSecrecy.PassesKeepDelims | server/finalization.go:584-600 | the prefix patterns conserve the delimiters of the text, in order |
| RedactionLeaks.TokenLeavesOneBit | server/finalization.go:553-606 | the text the prefix patterns leave is a function of the surroundings and of one bit of the token: whether it contains no `sk-` and ends in `Bearer` |
| RedactionLeaks.TokensTellExactly | server/finalization.go:553-606 | two tokens leave the same text if and only if their bits agree or the bit does not show |
| RedactionLeaks.TextHiddenExactly | server/finalization.go:553-606 | behind a prefix other than `Bearer ` every token leaves the same text, except when the prefix is not `sk-`, the text before leaves no `sk-` or `Bearer ` token open, and a space and a word other than the marker follow |
| RedactionLeaks.SecretsHiddenExactly | server/finalization.go:553-637 | the same of the output, unless the password step then replaces the difference as well |
| RedactionLeaks.SecretsHiddenWithoutUrls | server/finalization.go:553-637 | without an `@` in the surroundings that is the exact condition for the output |
| RedactionLeaks.SecretsHiddenWhateverFollows | server/finalization.go:553-637 | a token is hidden whatever follows if and only if the prefix is `sk-` or the text before leaves an `sk-` or `Bearer ` token open |
| RedactionLeaks.BearerHidesExactly | server/finalization.go:553-637 | the output hides the token behind `Bearer `, with anything behind it, if and only if the text before leaves neither an `sk-` token nor a `Bearer ` token open |
| RedactionLeaks.TwiceShows | server/finalization.go:559-559 | the output at `Bearer Bearer x` depends on `x` |
| RedactionLeaks.KeyShows | server/finalization.go:558-559 | the output at `sk-aBearer x` depends on `x` |
| RedactionLeaks.TokenInputs | server/finalization.go:559-563 | `token=Bearer y` and `token=x y` have different outputs |
| RedactionLeaks.PassConcat | server/finalization.go:584-600 | a pass over a concatenation is two passes, except that a token left open takes the beginning of the second text with it |
| RedactionLeaks.UrlStepsKeepAts | server/finalization.go:609-637 | the password step conserves the number of `@` |
| RedactionTokens.TokenIsReplaced | server/finalization.go:555-600 | for each of the nineteen prefixes, written out: where it is the only one in a text without URLs, exactly the token behind it becomes the marker, and `AKIA` goes with its token |
| RedactionTokens.SecretsAreMarked | server/finalization.go:555-600 | in every output each occurrence of one of the nineteen prefixes, written out, is followed by the marker and one of the six delimiters or the end; `AKIA` does not occur |
| RedactionUrls.PasswordIsReplaced | server/finalization.go:609-637 | for each of the seven schemes, written out: in a text that is one URL with a user and a password, exactly the password becomes the marker |
| RedactionUrls.PassLeavesChoice | server/finalization.go:614-636 | in any text, what the step makes of the password of the first URL of a scheme, and of what follows, depends on the password only through the set of schemes it takes |
| RedactionUrls.PassHidesExactly | server/finalization.go:614-636 | in any text, the result of the step is the same for all passwords of the first URL of a scheme if and only if the text from its `@` on becomes the same whichever of the takeable schemes are left out |
| RedactionUrls.PasswordHiddenExactly | server/finalization.go:553-637 | the same for the output, wherever no prefix pattern has a token open at the password |
| RedactionUrls.PasswordIsHidden | server/finalization.go:614-636 | the password of the first `https` URL never shows, nor one without `/`, nor one behind which no URL follows |
| RedactionUrls.LaterPasswordShows | server/finalization.go:614-636 | two passwords with two outputs, written out: behind the one that contains `https://` any later `https` password stays |
| Template.RenderTemplate | server/handlers_v2_prompts.go:223-245 | for some order of the keys the result is the sequence of replacements; for brace-free keys, values and literals it is the simultaneous substitution |
| Template.FillIsSubst | server/handlers_v2_prompts.go:228-243 | every order of the keys gives the simultaneous substitution |
| Template.ReplaceIsSubst | server/handlers_v2_prompts.go:229-242 | one global replacement is the substitution of one key |
| Template.UnknownKeysStay | server/handlers_v2_prompts.go:228-243 | placeholders of unknown keys stay verbatim |
| Template.BracesInValuesDepend | server/handlers_v2_prompts.go:228-243 | with braces in a value two orders give two different texts |
| Template.NestedTemplateDepends | server/handlers_v2_prompts.go:228-243 | with nested braces in the template two orders differ, even for brace-free keys and values |
| CircuitBreaker.Breaker.AllowExecution | server/automation.go:96-120 | admits if and only if the streak of failures in the history of the rule is short, or a cooldown has passed since the failure that opened its circuit and nothing has tried it since; other rules are untouched |
| CircuitBreaker.Breaker.RecordFailure | server/automation.go:133-158 | returns true exactly when this failure is the one in the history that opens the circuit |
| CircuitBreaker.Breaker.RecordSuccess | server/automation.go:122-131 | closes the circuit and forgets the failures |
| CircuitBreaker.Breaker.ReadState | server/automation.go:160-171 | answers closed, half-open or open by streak, opening failure and later tries in the history, and counts as a try |
| CircuitBreaker.ClosedIffShortStreak | server/automation.go:86-171 | after every history a rule is closed if and only if its failures since the last success number fewer than the limit |
| CircuitBreaker.AdmittedExactly | server/automation.go:96-158 | after every history, an execution is admitted if and only if the failures since the last success number fewer than the limit, or the circuit has been open for at least a cooldown and neither an execution nor a read has come after that |
| CircuitBreaker.StateIs | server/automation.go:86-171 | after every history, the state in those terms |
| CircuitBreaker.ProbesAreSpaced | server/automation.go:96-120 | without a success in between, executions admitted from a circuit that is not closed are a cooldown apart |
| CircuitBreaker.ProbesAreBounded | server/automation.go:96-120 | so their number is at most one plus the elapsed time divided by the cooldown |
| CircuitBreaker.ReadingBlocksProbes | server/automation.go:160-171 | after a read of a cooled-down circuit nothing is admitted until a success or a failure is reported |
| CircuitBreaker.RulesAreIndependent | server/automation.go:86-94 | in any interleaving the entry of a rule is what its own calls make of it |
| Emissions.EmissionTable.SetEmissionWindow | server/automation.go:876-883 | the window is as asked, or the default when that is not positive; the rows stay |
| Emissions.EmissionTable.CheckAllowed | server/automation.go:939-952 | answers what an attempt at that moment would, and records nothing |
| Emissions.EmissionTable.TryRecord | server/automation.go:906-935 | true if and only if the key of this window was absent; then it is present |
| Emissions.EmissionTable.Cleanup | server/automation.go:956-967 | removes exactly the rows older than the age and returns their number |
| Emissions.RecordedIffFirst | server/automation.go:906-967 | with retention of at least the window less a second, an attempt succeeds if and only if it is the first of its project, kind and window |
| Emissions.EmissionsAreBounded | server/automation.go:892-967 | successes in [t1, t2] number at most t2/w - t1/w + 1 |
| Emissions.RetentionExactly | server/main.go:166-183 | cleanup never reopens a window if and only if the retention is at least the window less a second |
| Protocol.LeasesOkAlways | internal/dbstore/leases.go:13-53 | over every run of statements a task has at most one lease row |
| Protocol.OneActiveLease | internal/dbstore/leases.go:32-44 | so at most one active lease |
| Protocol.GrantedIffFree | server/assignment.go:680-684 | a claim is granted if and only if the task exists and nobody holds it |
| Protocol.ClaimEffect | server/assignment.go:669-712 | a granted claim leaves the task in progress and claimed, one active lease for fifteen minutes and one running run; a refused one nothing |
| Protocol.HeartbeatEffect | internal/dbstore/leases.go:206-228 | an active lease gets fifteen minutes on top of what it has left; every other lease stays |
| Protocol.PatchEffect | server/handlers_v2_tasks.go:728-739 | both columns after each status word |
| Protocol.GrantsExclude | server/assignment.go:669-712 | over any interleaving, when a second claim of a task is granted the lease of the first is gone |
| Protocol.RunsAreGrants | server/assignment.go:694-708 | a task has exactly one run per granted claim |
| Protocol.HoldersOkAlways | server/assignment.go:680-708 | unless leases are made by hand, the holder of a lease is the agent of the latest run of its task |
| Protocol.CoherentAlways | server/assignment.go:686-691 | the two status columns always form one of the listed pairs |
| Protocol.EveryPairIsReached | internal/dbstore/leases.go:155-165 | each listed pair is reached from an empty store |
| Protocol.GuardsAgree | server/finalization.go:94-108 | in every reachable store the v1 and the v2 guards agree on what is over, except on NEEDS_REVIEW |
| Protocol.OnlyThreeReopen | server/handlers_v1.go:815-822 | only a claim by id, a non-terminal v1 write and a PATCH leave a terminal status |
| Protocol.CompletionsAreBounded | server/finalization.go:94-108 | over any run, successful completions of a task number at most its reopenings plus one |
| Protocol.OnePlannerAlways | server/handlers_v2_tasks.go:1158-1182 | when planners come from spawning only and stay closed, a project never has two open ones |
| Protocol.SpawnAllOrNothing | server/handlers_v2_tasks.go:1139-1198 | emission row and planner appear together, or the store is unchanged |
| Finalization.FinalizationService.Release | server/finalization.go:130-139 | looking up and deleting the active lease releases exactly the active lease of the task |
| Finalization.FinalizationService.Complete | server/finalization.go:91-139 | succeeds if and only if the task is open and not cancelled; then task, latest run and lease are final, otherwise nothing changes |
| Finalization.FinalizationService.Fail | server/finalization.go:201-231 | the run and the lease are touched even when the status is not |
| Finalization.FinalizationService.FailV2 | server/handlers_v2_tasks.go:1964-1972 | refused if and only if the v2 status is final |
| Finalization.FinalizationService.Cancel | server/finalization.go:263-293 | cancels what is not complete, and a run that is not over |
| Finalization.FinalizationService.UpdateStatusV1 | server/handlers_v1.go:760-822 | final words go through completion and failure, open words write both columns |
| Finalization.UpdateStatusEffect | server/handlers_v1.go:760-822 | both columns after each of the four words: NOT_PICKED queues, IN_PROGRESS claims, COMPLETE and FAILED end an open task |
| Finalization.CompleteEffect | server/finalization.go:91-139 | what a reader of each task sees after a completion: this one final and free, every other one as before |
| Finalization.FailEffect | server/finalization.go:201-231 | the same for a failure; a closed task keeps its status and gets a failed run |
| Finalization.CancelEffect | server/finalization.go:263-293 | the same for a cancellation; a run that was over keeps its status |
| Finalization.AgreeAlways | server/finalization.go:91-293 | over all runs of the operations, SUCCEEDED, FAILED and CANCELLED agree with the latest run, and nobody holds such a task |
| Finalization.UnguardedFailExactly | server/finalization.go:201-231 | the unguarded failure keeps the agreement if and only if the task has not succeeded with a run |
| Finalization.UpdateStatusExactly | server/handlers_v1.go:760-822 | the v1 status endpoint breaks the agreement in exactly that case |
| Finalization.DirectLeaseExactly | internal/dbstore/leases.go:55-73 | a lease made by hand keeps the agreement if and only if the task is not over |
| Finalization.GuardIsRaced | server/handlers_v2_tasks.go:1964-1974 | a completion between the guard and the failure leaves a succeeded task with a failed run |
| Finalization.CompletionIsRaced | server/finalization.go:94-139 | a claim between the status update and the rest of a completion loses its lease and gets a run that succeeded |
| Scheduler.FindNextIsLeast | server/handlers_v2_tasks.go:1062-1132 | the query returns the one claimable task before all others, and nothing if and only if none is claimable |
| Scheduler.FindNextOnColumns | server/handlers_v2_tasks.go:1062-1132 | on the columns: the task found is in the project, open, approved where it must be, and under no active lease; of all such tasks one in NOT_PICKED comes first, then one of the agent's kinds, then the higher priority, then the smaller identifier |
| Scheduler.QueueExists | server/handlers_v2_tasks.go:1109-1110 | every store has a list of its claimable tasks in that order |
| Scheduler.DrainsInOrder | server/assignment.go:35-50 | repeated claim-next with live leases hands out that list in order, each task once, and then nothing |
| Scheduler.StaleFind | server/assignment.go:35-50 | between find and claim anything may happen; the claim is granted if and only if nobody holds the task, open or not |
| Scheduler.StaleFindResurrects | server/assignment.go:669-712 | a task completed between the two steps is handed out again |
| Sessions.Session.ClaimTaskByID | server/assignment.go:669-720 | refused if and only if the transaction fails, a conflict if and only if somebody holds the task when it begins; otherwise exactly the claim is committed, and unread if and only if the last read fails |
| Sessions.Session.Find | server/handlers_v2_tasks.go:1353-1373 | the answer of the query on the database as others have left it by then |
| Sessions.Session.TrySpawn | server/handlers_v2_tasks.go:1390-1430 | a planner is spawned, or withheld only by a policy, a recent or an open planner, or a fault came in between |
| Sessions.Session.ClaimNext | server/handlers_v2_tasks.go:1343-1474 | each claim is granted and is of the task the query has just returned; claims are the assigned one plus those whose final read failed; at most five attempts and one spawn; every attempt but one is paid for by a spawn, a fault or a statement of another session; when 202, 204, 409 and 500 are possible; project.idle is never emitted; undisturbed, the outcome is determined within two attempts |
| Sessions.Session.GetTask | server/handlers_v1.go:523-633 | the same for the v1 loop of twenty attempts, which reports a planner it could not claim and faults while spawning as no task |
| Sessions.UndisturbedIs | server/handlers_v2_tasks.go:1376-1441 | an undisturbed call hands out the least claimable task, else a new planner, else changes nothing |
| Sessions.Session.RequeueStuck | server/operations.go:61-93 | every task listed as stuck is put back, or missed because it was neither claimed nor running at its update, or its update failed, each once, and nothing else is written; undisturbed, exactly the stuck ones are put back, and the counter is their number |
| Sessions.RequeueOffersAgain | server/operations.go:24-57 | afterwards nothing is stuck, what was put back is claimable, what is held is untouched |
| Sessions.RequeueIsRaced | server/operations.go:69-73 | a task claimed between listing and update stands queued under an active lease, and is not offered |
| Sessions.RequeueRacedExactly | server/operations.go:24-73 | whatever happens between listing and update, a held task is put back if and only if it is claimed or running at the update, and it is held only by a claim or a lease made in between |
| Automation.Engine.CreateEvent | server/db_v2.go:22-28 | the cascade of every event ends, stores at most the worst case for its kind, and never loses a dedupe key; undisturbed, tasks, events, dedupe keys and unblocked tasks afterwards are those of the event stored, its worker and then the rules, whatever its kind; after a completion exactly the ready dependents are unblocked; without rules, a chain that is due wins all its keys, stores one event for each and ends with one refresh task |
| Automation.Engine.ProcessAutomationEvent | server/automation.go:566-791 | every event stored on the way has a smaller rank; undisturbed, the state afterwards is exactly that of the worker followed by the rule stage, for every kind of event |
| Automation.Engine.RunWorker | server/automation.go:566-588 | undisturbed, the state afterwards for every kind of event, with the events a worker stores and their rules included |
| Automation.Engine.ChainRefreshes | server/automation.go:1156-1342 | without rules: repo.changed wins repo.scanned, context.invalidated and context.refresh.queued and stores an event for each; repo.scanned and a relevant memory win the last two, context.invalidated the last; each ends with exactly one refresh task |
| Automation.Engine.FailureEffect | server/automation.go:1027-1129 | without rules, by value: what a failed run or task leaves, with the depth limit, the dedupe key, the open copy and the follow-up row |
| Automation.Engine.SimpleEffect | server/automation.go:1346-1384 | without rules, by value: what an expired lease, an idle project and an unblocked dependent leave |
| Automation.Engine.RuleActs | server/automation.go:691-785 | one rule with one action: its task, one deeper, with its parent, project and title, and two events |
| Automation.Engine.TwinActions | server/automation.go:746-753 | of two equal actions with title and parent the second creates nothing |
| Automation.ReadyAre | server/automation.go:1671-1705 | the ready dependents on the columns: stored, depending on the task, not over, claimed or running, and all their stored dependencies succeeded |
| Automation.WorstIs | server/automation.go:566-791 | the worst case in closed form, by quota and number of dependents |
| Automation.BudgetIs | server/automation.go:691-785 | the rule stage stores at most one event per rule and two per action |
| Automation.Engine.RunRuleStage | server/automation.go:605-686 | at the depth limit: exactly one escalation task of depth 0, two events, no rule touched; nothing for an event without a task, and nothing undisturbed when no enabled rule matches; undisturbed and with all circuits closed, the fold of the matching rules |
| Automation.Engine.RunRule | server/automation.go:691-785 | a rule its circuit does not admit creates nothing and stores one event; undisturbed, an admitted rule has exactly the effect of its actions one after the other, each seeing the tasks of the earlier ones, and stores one event more than it creates tasks |
| Automation.Engine.RunAction | server/automation.go:715-785 | undisturbed, a task is created if and only if the action asks for one and no open copy is stored; it is one deeper, under the right parent, project and title; the circuit closes on success and counts a failure |
| Automation.Engine.CreateFollowUp | server/automation.go:745-777 | depth and uniqueness are kept; the row is as asked, of depth 0 only when writing the depth fails |
| Automation.Engine.ProcessRunFailed | server/automation.go:1027-1129 | a follow-up needs a task less than three deep and a dedupe key won just now; undisturbed it is created if and only if it is due and no open copy is stored |
| Automation.Engine.ProcessTaskCompleted | server/automation.go:1671-1707 | only dependents that wait and whose dependencies have all succeeded get their event, undisturbed all of them and in order, whatever the rules do in between; per dependent at most one event and its rule stage |
| Automation.SucceededStays | server/automation.go:1686-1705 | whether the dependencies of a task have all succeeded does not change while events are processed |
| Automation.Engine.CheckDependent | server/automation.go:1686-1705 | nothing for a dependent that is over, claimed, running or not fulfilled; undisturbed, an event for every other |
| Automation.Engine.ProcessRepoChanged | server/automation.go:1156-1282 | repo.scanned only with a dedupe key won just now; undisturbed, if and only if the window has none yet |
| Automation.Engine.EmitContextInvalidated | server/automation.go:1542-1556 | context.invalidated only with a dedupe key won just now; undisturbed, if and only if the window has none yet |
| Automation.Engine.ProcessMemoryCreated | server/automation.go:1622-1648 | the same for the three relevant scopes, and nothing for any other |
| Automation.Engine.ProcessContextInvalidated | server/automation.go:1288-1342 | one refresh task only with a dedupe key won just now; undisturbed, if and only if the window has none yet |
| Automation.Engine.ProcessLeaseExpired | server/automation.go:1346-1384 | exactly a claimed or running task is put back, nothing else changes |
| Automation.Engine.ProcessProjectIdle | server/automation.go:1651-1666 | one notification only with a dedupe key won just now; no task changes |
| Automation.Engine.TryRecordEmission | server/automation.go:906-935 | true only when a key of this project and kind is won that was not won before; undisturbed, if and only if the window has none |
| Automation.Engine.WriteStatus | server/automation.go:1709-1728 | status writes that reopen nothing keep depth and uniqueness |
| Automation.DepthIsChain | server/automation.go:774-777 | the stored depth is the number of automation edges back to a task of depth 0, at most the larger of the limit and three |
| Automation.EditKeepsUnique | server/automation.go:1712-1728 | editing a follow-up keeps at most one open per project, parent and title if and only if no other open one is the same |
| StableSort.SortIsStable | server/assignment.go:371-373 | the ranking is a permutation, descending, with equals in their original order |
| StableSort.StableSortUnique | server/assignment.go:371-373 | there is only one such arrangement |
| Memories.AssembleFilteredMemories | server/assignment.go:250-403 | the loops compute gathering, partition, content dedupe, ranking and greedy selection |
| Memories.SelectionIsSound | server/assignment.go:296-402 | mandatory memories first, then, in rank order, exactly the ranked candidates that fit at their turn; any other memory is missing if and only if another candidate with its content is ranked or it did not fit; both budgets; distinct identifiers and content |
| Memories.GatheredIsDistinct | server/assignment.go:251-261 | gathering keeps exactly one memory per identifier |
| Memories.ContentIsDistinct | server/assignment.go:321-331 | the candidates kept are, in order, exactly those without a content hash and the first of each hash |
| Memories.TakenPicks | server/assignment.go:388-400 | at every point of the loop exactly the candidates that fit at their turn have been taken, in order |
| Memories.TakenIsBounded | server/assignment.go:375-400 | count and bytes stay within the budgets unless the mandatory memories alone exceed them |
| Memories.PassedOverIsLarger | server/assignment.go:388-400 | a candidate passed over while there was room is strictly larger than any taken after it |
| Memories.ScoreIs | server/assignment.go:336-367 | the score of a gathered memory, weight by weight |
| Memories.RankedByAttributes | server/assignment.go:336-373 | of two candidates the one that has more in one attribute and nothing less stands first; the keyword outweighs the scope, and recency and files together |
| Memories.TruncationExactly | server/assignment.go:135-138 | all mandatory memories survive the truncation if and only if there are at most ten |
| ContextBudget.TaskContext.EnforceBudget | server/assignment.go:408-451 | the loop stops at the first context of the fixed trimming sequence that fits or has nothing left, within the sum of the halvings |
| ContextBudget.HalvingsIsLog | server/assignment.go:415-446 | the halvings of a category are its binary logarithm rounded down plus one |
| ContextBudget.TrimNIs | server/assignment.go:415-446 | the trimming sequence in closed form |
| ContextBudget.OrderOfSacrifice | server/assignment.go:415-446 | every category stays a prefix, and is touched only when the cheaper ones are empty |
| ContextBudget.ResultIsLastResort | server/assignment.go:448-449 | a result that does not fit has no files, artifacts or runs and at most two memories |
| ContextBudget.MandatoryKeptExactly | server/assignment.go:442-446 | the mandatory memories survive if and only if one of the contexts in closed form, up to the last point that spares them, fits or has nothing left to trim |
| ContextBudget.MandatoryKeptIfSpared | server/assignment.go:442-446 | for a size that does not grow under trimming one test decides: the context cut down to that point |
| ContextBudget.ThreeBecomeOne | server/assignment.go:442-446 | three mandatory memories in a context that never fits become one |
| Planning.Prioritize | server/planning_pipeline.go:383-500 | the ranking of every mode, and what it defers |
| Planning.RankingByPosition | server/planning_pipeline.go:383-493 | for each mode by name, what stands at every position: the critical gaps in order where failures come first, then every continuation, every gap and, in standard mode, every opportunity, with workstream, description, rank and score |
| Planning.ContinuationsComeFirst | server/planning_pipeline.go:408-455 | when a change for a gap is created, every new continuation is proposed, and created unless its insertion fails |
| Planning.TakesTheFirst | server/planning_pipeline.go:505-578 | of new items the first two, five, one or three by mode are proposed, with title, priority, workstream and change by value |
| Planning.RankingConserves | server/planning_pipeline.go:383-493 | ranked and deferred items conserve the counts; only opportunities are deferred |
| Planning.RankingIsNumbered | server/planning_pipeline.go:383-493 | ranks count up without holes, scores stay between 0 and 1 |
| Planning.Synthesize | server/planning_pipeline.go:505-578 | proposals and skipped items of the synthesis loop |
| Planning.ProposedAre | server/planning_pipeline.go:528-571 | exactly the eligible items among the first, in rank order |
| Planning.RepeatsExactly | server/planning_pipeline.go:520-526 | two proposals share a title if and only if two considered items share an eligible description |
| Planning.RecoveryRepeats | server/planning_pipeline.go:386-404 | where failures come first a critical gap is proposed twice |
| Planning.AntiDrift | server/planning_pipeline.go:580-628 | the heuristic approves everything and charges 0.1 per proposal without a goal, down to 0 |
| Planning.CreatedAre | server/planning_pipeline.go:677-721 | created tasks are, in order, exactly the admitted proposals whose insertion succeeds |
| Planning.Planner.CreateApproved | server/planning_pipeline.go:658-724 | what is created and stored, for any approvals and any failures |
| Planning.Planner.RunCycle | server/planning_pipeline.go:67-188 | for any executor at most the mode's number of tasks, from the first ranked items and no recent title; cycles keep their distance; an executor's ranking or synthesis creates nothing; otherwise every proposal whose insertion succeeds is created, whoever validates, and no change for a gap while a new continuation waits |
| Continuity.ScoreWorkstream | server/planning_discipline.go:31-108 | the accumulators compute momentum plus gain, clamped; both scores stay in [0, 1] |
| Continuity.WorkstreamTable.RefreshScores | server/planning_discipline.go:111-132 | every live row whose update succeeds is rescored, every other row is unchanged |
| Continuity.ScoresAre | server/planning_discipline.go:31-108 | both scores of a live workstream, weight by weight |
| Continuity.RefreshContracts | server/planning_discipline.go:36-37 | a refresh brings two scores closer by 0.3 |
| Continuity.FixedPointIsUnique | server/planning_discipline.go:36-105 | exactly one score is left alone by a refresh |
| Continuity.RefreshConverges | server/planning_discipline.go:111-132 | after n refreshes the score is within 0.3^n of it |
| Import.Database.ImportTasks | server/export_import.go:149-170 | the loop computes the remapped tasks, the identifier map and the count |
| Import.ImportIsForest | server/export_import.go:149-170 | for any archive parents have smaller new identifiers and stand for archived parents; a parent is kept if and only if it was created earlier |
| Import.ImportIsIsomorphic | server/export_import.go:149-170 | with distinct identifiers and no failed insertion the map is injective, copies fields, and preserves a parent if and only if it precedes |
| Import.ExportImport | server/export_import.go:48-56 | of a project exactly the first 10000 tasks survive export and import, with all fields, and with their parent if and only if it was created earlier in the project |

## Left out

- HTTP, routing, authentication, pages, event streams, webhooks, browser and command line: input, output and presentation.
- Deletion of tasks and projects: identifiers stay in the tables, and a claim always finds its task.
- PATCH reads the task, then writes all its columns; it is modelled as one step on the status columns. Its changes of project and parent appear only in Automation.EditKeepsUnique.
- A heartbeat checks and extends in two statements; it is modelled as one step.
- Two runs of one task that start in the same microsecond: the latest run is the last inserted.
- Outputs, run summaries, artifacts and the memories made from a completion.
- Faults inside completion, failure and cancellation: their later statements are logged and skipped when they fail; the model lets them succeed.
- Redaction works on bytes; strings of characters stand for them, since only ASCII bytes are inspected.
- RedactionLeaks.SecretsHiddenExactly: with an `@` in the surroundings, whether the password step covers the difference is left as a comparison of its two results.
- RedactionUrls.PasswordHiddenExactly: for a password that contains a listed prefix, or stands inside a token that the prefix patterns take, only the password step is covered (RedactionUrls.PassHidesExactly, which has no such condition).
- RedactionTokens.TokenIsReplaced: texts with several listed prefixes are covered by RedactionTokens.SecretsAreMarked and the RedactionLeaks rows.
- Template values that are not strings: their textual form is taken as given.
- The dedupe key is a hash; the triple of project, kind and window stands for it, so collisions do not occur.
- Time is in whole seconds.
- The rate limiter and the policies answer in any way (`World.answers`), and so do database errors and the clock. "Undisturbed" means that none of them gets in the way.
- Filling in automation templates, trimming, walking the file system, and reading a project identifier as a task identifier are parameters (`World.render`, `World.asTask`).
- The automation depth limit and the rules are fixed for a run of the engine, and the circuit breaker is always present.
- Automation.Engine.CreateFollowUp: the circuit is told of the success after the depth is written, not before; the two do not touch the same state.
- Context packs: their refresh loop asks for a sort column the query refuses and does nothing. Marking them stale is not part of this model.
- Memories.AssembleFilteredMemories: the keyword of the title, lower-casing, recency and the serialized size are inputs; confidence is in percent.
- ContextBudget.TaskContext.EnforceBudget: the serialized size is any function of the four categories.
- Gathering for the plan (reconnaissance, workstreams, gaps, fragmentation warnings) is an input. Errors of the store in these stages are left out: they write to a map that does not exist.
- Planning.Planner.CreateApproved: identifiers, instructions and decisions are not kept, only the stored titles.
- Continuity.ScoreWorkstream: over the reals; floating-point rounding is not modelled.
- Import.Database.ImportTasks: memories and policies of the archive, which are copied one by one, and the trimming of titles.
- Starvation: nothing is proved about when a waiting agent is served.
