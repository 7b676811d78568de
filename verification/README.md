# Verified models of Aicser's algorithmic core

This project models the parts of Aicser in which the logic is hard to get right by reading, and proves what
they keep. `dafny verify dfyconfig.toml` checks everything.

| modules | what they model |
|---|---|
| `AwaitPass`, `CellSemantics`, `AwaitPassMeaning` | the pass that lets a notebook cell write `df = aicser.table(...)` without `await`; two ways of running a cell; running the pass's output as Python means what running the cell with listed calls on the spot means |
| `LogoutBarrier`, `AuthProtocol`, `AuthStore`, `AuthRuns`, `AuthEffects`, `AuthAnswers`, `AuthAttempts`, `AuthFlags`, `AuthSafety`, `AuthSignOut` | signing in and out with late token exchanges: every async function cut at its awaits, any number of calls at once, session storage whose reads, writes and removals may fail at any step; what each answer brings about; over all interleavings, what a logout stops and, exactly, what it does not |
| `SlotScheduler`, `NotebookRun` | the notebook runner's slots and line of waiters, with the gap between waking a job and its going on; one run in its worker |
| `Closure`, `Folders`, `Packages` | least closed sets: folder descendants, the folder tree (cycles included), the dependency worklist |
| `SseBuffer`, `AnalyzeEvents`, `AnalyzeStream` | the chunked event stream of an analysis |
| `Powers`, `ColorContrast`, `Readability`, `Shades`, `Tints`, `Rounding` | WCAG contrast, the darkening search, and what is left of it after rounding to 8-bit channels; hover and pressed shades, tints, the text picked on a colour |
| `NotebookChanges`, `NotebookOrder`, `NotebookResult`, `Naming` | applying a reviewed change set to a notebook; fresh names |
| `Messages`, `MessageDicts` | four merges of message trees: one on values, three on dicts changed in place that come to share subtrees |
| `Base64`, `CellRefs`, `SqlNames` | round trips: base64 and base64url, A1 references, quoted SQL names |
| `Options`, `Strings`, `Division` | small shared helpers |

Code that changes state step by step is modelled by methods and classes, each proved against a function of the old
state or the inputs; the lemmas are about those functions. What the main operations give is stated besides in terms
of their inputs and outputs alone, without the functions that compute it. Clocks, networks, storage failures, random ids and server
answers are parameters, so every theorem holds for all of them.

The power 2.4 in the luminance is not assumed to have any property but its definition (`y^5 == u^12`); the needed
bounds on its growth are proved in `Powers`.

## Where the code and its promises part

- A cell may rebind `aicser`, or have a listed call inside a generator expression; then the added `await` changes what
  the cell does (`AwaitPassMeaning.RebindingChangesMeaning`, `AwaitPassMeaning.GeneratorChangesMeaning`). The `await` is
  right exactly when the call gives a coroutine (`AwaitPassMeaning.AwaitRightExactlyForCoroutines`), and a generator
  comes to be out of a loop's reach exactly by an open listed call of its element's own
  (`AwaitPassMeaning.GeneratorTurnsAsyncExactly`). `metric` and `metrics` are coroutine methods the list leaves out, so
  their calls stay un-run (`AwaitPassMeaning.MetricsAreUnlisted`, `AwaitPassMeaning.UnlistedMethodStaysUnrun`).
- The barrier is described as keeping exchanges and init from minting a session during or after a logout.
  - The exchange in `client/src/utils/api.ts` checks before it reads the body and not after: its bearer can be written
    after a logout exactly when it waits for the body as that begins (`AuthSafety.ApiWritesPastLogoutExactly`).
  - The user can be signed in again without a later login exactly when a login was past its success as the logout
    began, or the sticky flag is not stored (`AuthSignOut.SignedInAgainExactly`).
  - init writes the bearer of `/api/auth/me` without looking at the epoch: one begun before the logout can do so
    exactly when it has not settled, though with the flag stored only after a later login
    (`AuthSignOut.OlderInitWritesExactly`).
  - Removing the bearer is not guarded. When it throws, the rest of `logout` is skipped: the flag comes down exactly
    when both removals work, and after a failing first one the store still says signed in
    (`AuthFlags.LogoutLowersFlagExactly`).
- `MAX_CONCURRENT` bounds the running jobs exactly as long as no arrival takes a slot owed to a woken job
  (`SlotScheduler.BoundKeptExactlyWithoutOvertaking`); when arrivals do, any number can come to run at once
  (`SlotScheduler.AnyNumberCanRun`).
- An event whose error is an empty list is not an error to the stream (`AnalyzeEvents.EmptyErrorListIsLost`,
  `AnalyzeEvents.ErrorsFailExactly`).
- A bare reserved word is not quoted, so an SQL lexer takes it for a keyword (`SqlNames.ReservedNameIsLost`).
- Hover and pressed states go a step darker, except for colours so near black that rounding gives the same one
  (`Shades.HoverIsDarker`, `Shades.PressedIsDarker`).
- Rounding can leave a darkened colour below the 4.6:1 asked for: the brightest red is one
  (`Rounding.BrightRedMissesTarget`). Among colours whose channels are each 0 or one strength, exactly the reds from
  236, greens from 137 and cyans from 131 miss it (`Rounding.FlatColoursReachTarget`). 4.5:1 holds for all
  (`Readability.WhiteTextReadable`).

## Model

| member | source | states |
|---|---|---|
| AwaitPass.RewriteIdempotent | client/public/notebook/aicser_helpers.py:198-212 | the pass run on its own output changes nothing, for every accepted tree |
| AwaitPass.RewriteOnlyAddsAwaits | client/public/notebook/aicser_helpers.py:208-212 | taking all Awaits off gives the same tree before and after the pass |
| AwaitPass.EraseUndoesRewrite | client/public/notebook/aicser_helpers.py:198-212 | a tree without Awaits is recovered exactly from the output |
| AwaitPass.NoListedCallUnchanged | client/public/notebook/aicser_helpers.py:218-222 | a tree without listed calls is accepted and left as it is |
| AwaitPass.PrepareIsRewrite | client/public/notebook/aicser_helpers.py:218-222 | the early return for cells without listed calls never changes the outcome |
| AwaitPass.RejectedExactlyUnderDefinitions | client/public/notebook/aicser_helpers.py:200-209 | rejected if and only if some path leads to a listed call through a def, lambda or class met outside any await or async def |
| AwaitPass.AwaitedByForm | client/public/notebook/aicser_helpers.py:210-216 | an accepted call is awaited if and only if its function part is written `aicser.m` with m listed, whatever its arguments; the rest of it is rewritten part by part |
| AwaitPass.DefinitionRejectedByForm | client/public/notebook/aicser_helpers.py:200-205 | a def, lambda or class is rejected if and only if a walk through it meets a call so written, and else stays as it is |
| AwaitPass.RejectedByForm | client/public/notebook/aicser_helpers.py:198-212 | any tree is rejected if and only if a walk meets such a call in a def, lambda or class outside every await and async def |
| AwaitPassMeaning.ChangedExactlyOnTheSpot | client/public/notebook/aicser_helpers.py:198-216 | an accepted tree is changed if and only if a listed call in it would run on the spot |
| AwaitPassMeaning.EvalPreserved | client/public/notebook/aicser_helpers.py:198-216 | for every supported expression, state, server and fuel, the rewritten expression under plain Python gives the value, state and events of the original with listed calls run on the spot |
| AwaitPassMeaning.ExecPreserved | client/public/notebook/aicser_helpers.py:198-216 | the same for statements, and `aicser` stays the library |
| AwaitPassMeaning.PreparedCellMeansTheSame | client/public/notebook/aicser_helpers.py:198-222 | the prepared cell means what the cell means, for every accepted cell that keeps `aicser` and has no listed call in a generator expression |
| AwaitPassMeaning.AwaitRightExactlyForCoroutines | client/public/notebook/aicser_helpers.py:210-216 | whatever `aicser` is bound to, in every state: the `await` put on a listed call means running it on the spot if and only if the call fails by itself or gives a coroutine |
| AwaitPassMeaning.AwaitRightByCallee | client/public/notebook/aicser_helpers.py:210-216 | library methods other than `sources` and async functions give one, `print` does not |
| AwaitPassMeaning.RebindingChangesMeaning | client/public/notebook/aicser_helpers.py:214-216 | for every listed name and ready state: the cell that makes a class of `aicser`, with `print` under that name, and calls it prints and ends; prepared, it prints and fails |
| AwaitPassMeaning.AwaitsItselfAfter | client/public/notebook/aicser_helpers.py:198-212 | an accepted expression comes to await as part of itself if and only if it did, or has an open listed call of its own |
| AwaitPassMeaning.GeneratorTurnsAsyncExactly | client/public/notebook/aicser_helpers.py:210-212 | so a loop can go through a prepared generator if and only if its element neither awaits nor has such a call |
| AwaitPassMeaning.GeneratorChangesMeaning | client/public/notebook/aicser_helpers.py:210-212 | for every listed name: a loop over a generator expression with the call sends its request, the prepared loop fails without |
| AwaitPassMeaning.UnlistedMethodStaysUnrun | client/public/notebook/aicser_helpers.py:184 | a coroutine method missing from the list is accepted unchanged and gives an un-run coroutine |
| AwaitPassMeaning.MetricsAreUnlisted | client/public/notebook/aicser_helpers.py:53-184 | of the twelve async methods exactly `metric` and `metrics` are missing from the list |
| LogoutBarrier.LogoutGate.BeginLogout | client/src/auth/logoutBarrier.ts:25-36 | raises the flag, a new epoch that makes the old one stale, and the sticky flag if it can be stored; nothing is accepted then |
| LogoutBarrier.LogoutGate.EndLogout | client/src/auth/logoutBarrier.ts:39-42 | lowers the flag, but not for another epoch |
| LogoutBarrier.LogoutGate.ClearIntentionalLogout | client/src/auth/logoutBarrier.ts:45-52 | clears the sticky flag only |
| LogoutBarrier.LogoutGate.CanAcceptAuthSession | client/src/auth/logoutBarrier.ts:15-22 | accepts unless a logout runs or the sticky flag is up and readable |
| AuthSafety.StaleExactlyAfterLogout | client/src/auth/logoutBarrier.ts:63-65 | in every run, the epoch a waiting exchange holds is stale if and only if a logout has begun since the exchange did |
| AuthStore.Store.BeginAttempt | client/src/stores/useAuthStore.ts:86-90 | the code up to the first wait of an attempt is the protocol's step, a throwing bearer read included |
| AuthStore.Store.ResumeEnsure | client/src/stores/useAuthStore.ts:90-115 | the code between the exchange's waits is the protocol's step, checks and bearer write included |
| AuthStore.Store.ResumeMe | client/src/stores/useAuthStore.ts:119-149 | the code between the waits for the current user is the protocol's step, the bearer it writes and the retries after throws included |
| AuthStore.Store.SettleInit | client/src/stores/useAuthStore.ts:176-188 | init's continuation is the protocol's step, a throwing bearer read included |
| AuthStore.Store.CatchInit | client/src/stores/useAuthStore.ts:190-196 | so is its `catch` |
| AuthStore.Store.Unmount | client/src/stores/useAuthStore.ts:198-201 | so is its cleanup, which forgets the active init whoever it is |
| AuthStore.Store.StartApi | client/src/utils/api.ts:141-151 | a request starts an exchange only when none is shared |
| AuthStore.Store.ResumeApi | client/src/utils/api.ts:153-165 | the exchange's continuations are the protocol's steps: checked before the body, not after |
| AuthStore.Store.ResumeCredentials | client/src/stores/useAuthStore.ts:204-232 | login and signup up to the request for the current user are the protocol's step |
| AuthStore.Store.ResumeLoginMe | client/src/stores/useAuthStore.ts:210-236 | and so are they from there on |
| AuthStore.Store.StartLogout | client/src/stores/useAuthStore.ts:251-256 | logout up to the provider call is the protocol's step, a throwing removal included |
| AuthStore.Store.FinishLogout | client/src/stores/useAuthStore.ts:257-265 | what logout does last is the protocol's step, a throwing removal included |
| AuthSafety.RunsAreCutOff | client/src/stores/useAuthStore.ts:86-115 | in every run each waiting exchange knows whether a logout began since its start, and all writes respect it |
| AuthSafety.EnsureNeverWritesPastLogout | client/src/stores/useAuthStore.ts:86-115 | an exchange of init begun before a logout never writes a bearer after that logout began, whatever storage does and whoever signs in later |
| AuthSafety.ApiWritesPastLogoutOnlyIfChecked | client/src/utils/api.ts:153-162 | an API exchange begun before a logout writes after it only if it had passed its check before it |
| AuthSafety.BodyCanBeWritten | client/src/utils/api.ts:155-158 | an exchange that waits for its body can write its bearer whatever has happened since, a finished logout included |
| AuthSafety.ApiWritesPastLogoutExactly | client/src/utils/api.ts:153-162 | in every reachable state in which a logout begins: an API exchange in flight can write its bearer after that if and only if it waits for the body |
| AuthEffects.SignInExactly | client/src/stores/useAuthStore.ts:176-214 | for every state and step: the user is signed in exactly by an init that found one and is not called off or barred, or by a login whose last answer names one |
| AuthEffects.SignOutExactly | client/src/stores/useAuthStore.ts:176-266 | and signed out exactly by an init that finds none without a bearer, by a login that is told so, or by a logout that removes the bearer |
| AuthEffects.BearerStoredExactly | client/src/stores/useAuthStore.ts:90-141 | a bearer appears exactly where an answer carries a token, storage takes it, and the checks of that place hold |
| AuthEffects.BearerRemovedExactly | client/src/stores/useAuthStore.ts:251-265 | and goes exactly with a removal of a logout |
| AuthEffects.FlagMovesExactly | client/src/auth/logoutBarrier.ts:25-42 | when the epoch and the flag change |
| AuthEffects.StickyMovesExactly | client/src/auth/logoutBarrier.ts:28-52 | when the sticky flag changes |
| AuthEffects.ExchangeStartsExactly | client/src/stores/useAuthStore.ts:86-91 | an attempt of init exchanges tokens exactly when the barrier accepts and the bearer can be read and is not there |
| AuthEffects.SharedExactly | client/src/utils/api.ts:141-166 | when an API exchange starts, is shared, and no longer |
| AuthEffects.ApiGoesOnExactly | client/src/utils/api.ts:153-156 | when an API exchange goes on to its body |
| AuthAnswers.NobodyWithoutUser | client/src/stores/useAuthStore.ts:137-214 | in every run without an answer that names a user nobody is ever signed in |
| AuthAnswers.SignInWasTold | client/src/stores/useAuthStore.ts:137-214 | in every run, what signs the user in was last answered with a user: an init before it settled, a login in this step |
| AuthAnswers.NoBearerWithoutToken | client/src/stores/useAuthStore.ts:103-141 | in every run without an answer that carries a token there is never a bearer |
| AuthAnswers.LoginIsItsAnswers | client/src/stores/useAuthStore.ts:204-236 | in every run a login or sign-up is where its own answers have brought it, whatever else happens |
| AuthAnswers.LoginSucceedsExactly | client/src/stores/useAuthStore.ts:204-229 | it succeeds if and only if its credentials were taken without a second factor and it is no unverified sign-up |
| AuthAnswers.LoginSignsInExactly | client/src/stores/useAuthStore.ts:210-236 | and signs the user in if and only if besides its two answers about the user are good and the last names one |
| AuthAttempts.ExchangeStoresExactly | client/src/stores/useAuthStore.ts:90-115 | with nothing in its way an exchange stores a bearer if and only if its body has one and asks for no second factor |
| AuthAttempts.RefusedExchangeGoesOn | client/src/stores/useAuthStore.ts:90-115 | without a provider token, or refused, it stores none and the attempt goes on; unreachable, the attempt ends |
| AuthAttempts.InitSignsInExactly | client/src/stores/useAuthStore.ts:117-188 | with nothing in its way an init not called off signs in if and only if the body names a user; else the store keeps its user exactly if there is a bearer |
| AuthAttempts.TriesAgainExactly | client/src/stores/useAuthStore.ts:117-151 | whatever storage does, an attempt is made again if and only if it throws and is not the fourth; refused by the barrier it ends without a user |
| AuthAttempts.AttemptBeginsExactly | client/src/stores/useAuthStore.ts:86-90 | where each further attempt begins |
| AuthAttempts.GivesUpAfterFour | client/src/stores/useAuthStore.ts:117-151 | after four failing requests, and no fewer, init settles without a user |
| AuthAttempts.UnauthorizedEnds | client/src/stores/useAuthStore.ts:134 | after a 401 at once |
| AuthAttempts.AtMostFourRequests | client/src/stores/useAuthStore.ts:117-151 | in every run an init asks for the current user four times at most |
| AuthAttempts.LogoutCallsOffLatestInit | client/src/stores/useAuthStore.ts:159-174 | a logout calls off the latest init, whatever has happened but another init or an unmount |
| AuthAttempts.UnmountCallsOff | client/src/stores/useAuthStore.ts:198-201 | so does its unmounting |
| AuthAttempts.CalledOffForGood | client/src/stores/useAuthStore.ts:176-177 | an init that is called off never signs in, whatever happens |
| AuthSignOut.SignedOutUntilLogin | client/src/stores/useAuthStore.ts:117-266 | after a logout with the flag stored, while storage can be read: until a later login succeeds init writes no bearer and nothing is accepted; if no login was past its success nothing signs in and the store says signed out, unless the logout threw |
| AuthSignOut.SignedInAgainExactly | client/src/stores/useAuthStore.ts:117-266 | in every reachable state in which a logout begins: the user can be signed in again without a later login if and only if a login was past its success or the sticky flag is not stored |
| AuthSignOut.OlderInitWritesExactly | client/src/stores/useAuthStore.ts:137-142 | an init begun before a logout can write its bearer after it if and only if it has not settled, and before the next login only if, besides, the flag is not stored |
| AuthSignOut.LoginSignsInOverLogout | client/src/stores/useAuthStore.ts:204-214 | a login past its success can always sign in, whatever logouts have begun since |
| AuthSignOut.LostFlagSignsIn | client/src/auth/logoutBarrier.ts:28-34 | without the sticky flag a new init can sign in after every logout |
| AuthSignOut.InitCanFinish | client/src/stores/useAuthStore.ts:117-188 | with the barrier open an init at any of its waits can still write its bearer, and sign in unless cancelled |
| AuthFlags.RunsKeepFlag | client/src/auth/logoutBarrier.ts:25-42 | in every run the flag is up exactly while the newest logout has not finished, and at most one exchange is shared |
| AuthFlags.OlderLogoutKeepsNewerBarrier | client/src/auth/logoutBarrier.ts:39-42 | in every run a finishing logout lowers the flag if it is the newest and the bearer can be removed; an older one leaves the barrier as it is |
| AuthFlags.LogoutLowersFlagExactly | client/src/stores/useAuthStore.ts:251-265 | a logout begun in any reachable state, whatever but another logout happens meanwhile, has lowered the flag at its end if and only if both removals worked, and leaves the user signed in if and only if the first failed |
| SlotScheduler.Slots.Enter | deploy/notebook-runner/main.ts:28-30 | `slot` up to its await: takes a slot or joins the line's end |
| SlotScheduler.Slots.Continue | deploy/notebook-runner/main.ts:29-30 | a woken job takes its slot only when it goes on |
| SlotScheduler.Slots.Leave | deploy/notebook-runner/main.ts:33-36 | a job that ends frees its slot and wakes the first in line |
| SlotScheduler.ReachableStates | deploy/notebook-runner/main.ts:26-37 | in every interleaving: `running` counts the executing jobs, every admitted job is in exactly one place, no wake-up is lost, queued jobs start in order of arrival |
| SlotScheduler.ThirdWaits | deploy/notebook-runner/main.ts:19-30 | in every reachable state an arrival is let in if and only if fewer than two jobs execute, and else joins the end of the line |
| SlotScheduler.SomeStepEnabled | deploy/notebook-runner/main.ts:26-37 | while a job is not done some job can go on or end |
| SlotScheduler.StuckExactlyWhenNothingLeft | deploy/notebook-runner/main.ts:26-37 | nothing can move if and only if nothing is left to do |
| SlotScheduler.EveryRunDrains | deploy/notebook-runner/main.ts:26-37 | without arrivals every run ends, after exactly 2 steps per waiting or woken and 1 per executing job, with every job done |
| SlotScheduler.BoundBrokenExactlyByOvertaking | deploy/notebook-runner/main.ts:29-30 | a step breaks running + woken <= MAX_CONCURRENT if and only if it lets an arrival in while the free slots belong to woken jobs |
| SlotScheduler.BoundKeptExactlyWithoutOvertaking | deploy/notebook-runner/main.ts:28-37 | a run stays within the bound all the way if and only if no arrival on the way takes a slot owed to a woken job |
| SlotScheduler.BoundKeptWhenWokenGoFirst | deploy/notebook-runner/main.ts:28-37 | so it does if woken jobs go on before arrivals |
| SlotScheduler.AnyNumberCanRun | deploy/notebook-runner/main.ts:28-37 | without that order, for every n >= 2 some run has n jobs executing at once |
| NotebookRun.WorkerRun.OnTimer | deploy/notebook-runner/main.ts:53-56 | stops the worker; settles the run if nothing did before |
| NotebookRun.WorkerRun.OnMessage | deploy/notebook-runner/main.ts:57-61 | clears the timer, stops the worker; settles the run if nothing did before |
| NotebookRun.WorkerRun.OnError | deploy/notebook-runner/main.ts:62-67 | the same with the error shortened |
| NotebookRun.FirstCallbackSettles | deploy/notebook-runner/main.ts:46-70 | whatever calls back and in whatever order, the first settles the run for good and the worker is stopped |
| NotebookRun.SettledWith | deploy/notebook-runner/main.ts:53-67 | it is settled with the message whole, the first 2000 characters of the error, or the time limit |
| NotebookRun.SettledExactly | deploy/notebook-runner/main.ts:46-70 | unsettled, worker alive and timer able to fire: each exactly when nothing has called back |
| NotebookRun.TimeLimit | deploy/notebook-runner/main.ts:83 | the limit within 10 to 1800 seconds that is nearest to what was asked for, and 600 when nothing was |
| Closure.LeastClosedIsWalkable | client/src/services/folderService.ts:28-41 | the least closed set holds exactly what a chain of edges reaches |
| Folders.FolderAndDescendants | client/src/services/folderService.ts:28-41 | ends on every list and gives the folder and every one that a chain of non-empty parent ids leads down to, and nothing else |
| Folders.GroupByParent | client/src/services/folderService.ts:47-51 | each key lists the folders hanging there, in order |
| Folders.Build | client/src/services/folderService.ts:52-56 | ends, cycles included, with a node for each folder under the parent, in order, each showing all that hangs under it |
| Folders.FolderTree | client/src/services/folderService.ts:46-58 | ends on every list with unique ids; shows a folder once if a chain of listed parents leads from it to a folder whose parent is missing, empty or not listed, and never otherwise; every node is under its folder's parent, siblings in list order |
| Folders.RootPathUnique | client/src/services/folderService.ts:46-58 | with unique ids a folder has one parent chain from the top |
| Folders.TreeShowsEachOnce | client/src/services/folderService.ts:46-58 | any forest showing all that hangs at the top counts each id once or not at all, by whether its chain reaches the top |
| Folders.TopByParent | client/src/services/folderService.ts:49 | a chain to the top, told by the parents alone |
| Folders.AllWellPlaced | client/src/services/folderService.ts:46-58 | at every level nodes are under their folder's parent, in list order, under its name |
| Folders.SubtreeIsDescendants | client/src/services/folderService.ts:28-58 | the ids in a shown folder's subtree are exactly its folderAndDescendants |
| Packages.Select | deploy/notebook-runner/fetch_packages.ts:14-23 | ends with exactly the names a chain of listed dependencies leads to from a root, or throws, if and only if one of them is not in the lock file |
| Packages.NeededExactly | deploy/notebook-runner/fetch_packages.ts:22 | the walks are the chains of what the lock file lists |
| SseBuffer.SplitIsExact | client/src/utils/sseBuffer.ts:17-21 | the parts hold no line feed and joined with line feeds give the text back |
| SseBuffer.SplitAppend | client/src/utils/sseBuffer.ts:17-21 | more text only continues the remainder |
| SseBuffer.EventsInAppend | client/src/utils/sseBuffer.ts:23-30 | the events of lines one after the other are those of each part in order |
| AnalyzeStream.DataLineIsItsEvent | client/src/utils/sseBuffer.ts:5-15 | in any text, a line of `data: ` and a payload, white space around them or not, gives exactly the event of the payload, before those of the rest |
| AnalyzeStream.OtherLineIsNothing | client/src/utils/sseBuffer.ts:5-7 | any other line gives none |
| AnalyzeStream.LastLineCounts | client/src/agent/parseAnalyzeStream.ts:66-78 | a last line without a line feed counts as one with it |
| Strings.TrimExactly | client/src/utils/sseBuffer.ts:6 | trimming takes off the white space at the ends, all of it, and nothing else |
| AnalyzeEvents.TextIs | client/src/agent/analyzeStreamComplete.ts:24-72 | what `String` makes of null, truth values, objects and lists |
| AnalyzeEvents.SummaryIs | client/src/agent/analyzeStreamComplete.ts:22-34 | the summary is what the first of five fields of the partial results says, or else of two of the event |
| AnalyzeEvents.CompletionIs | client/src/agent/analyzeStreamComplete.ts:41-50 | which fields the parts of a completion come from |
| AnalyzeEvents.DecisionIs | client/src/agent/analyzeStreamComplete.ts:36-73 | an event that says error and reports something fails; else one that says complete completes; else nothing is decided |
| AnalyzeEvents.ProgressIs | client/src/agent/analyzeStreamComplete.ts:52-65 | four types of event report progress, from the first of three fields that is there |
| AnalyzeEvents.BlankExactly | client/src/agent/analyzeStreamComplete.ts:67-73 | a value's text is empty exactly for the empty text and lists of at most one item that leaves nothing |
| AnalyzeEvents.ErrorsFailExactly | client/src/agent/analyzeStreamComplete.ts:67-73 | an event that says error fails the stream if and only if what it reports is not blank, which only a list can be |
| AnalyzeEvents.EmptyErrorListIsLost | client/src/agent/analyzeStreamComplete.ts:67-73 | an event with an empty list for its error decides nothing |
| AnalyzeStream.Reader.HandleEvent | client/src/agent/parseAnalyzeStream.ts:22-44 | keeps the latest progress, its calls and the latest decision equal to those of all events handled |
| AnalyzeStream.Reader.Drain | client/src/utils/sseBuffer.ts:23-30 | handles exactly the events of the ended lines, in order, and gives back the rest |
| AnalyzeStream.Reader.Consume | client/src/agent/parseAnalyzeStream.ts:46-95 | for every cut into chunks, unaborted: the events of the whole text's lines in order; aborted: those of the lines ended by then; the result is a function of the events |
| AnalyzeStream.AbortGivesPrefix | client/src/agent/parseAnalyzeStream.ts:91 | an abort delivers a prefix of the events |
| AnalyzeStream.LastDecisionWins | client/src/agent/parseAnalyzeStream.ts:87-94 | the result is that of the last error or completion, and of none if there is none |
| AnalyzeStream.ResultIsLastDecision | client/src/agent/parseAnalyzeStream.ts:94 | the result is what the last deciding event decides |
| AnalyzeStream.ResultWithoutDecision | client/src/agent/parseAnalyzeStream.ts:94 | without one it is the last progress message, or `Done.` |
| AnalyzeStream.ProgressNeverRepeats | client/src/agent/parseAnalyzeStream.ts:29-34 | no progress call is empty or equal to the one before |
| AnalyzeStream.ProgressNeverLost | client/src/agent/parseAnalyzeStream.ts:29-34 | after an event with a message that message is the latest call |
| Powers.PowerRise | client/src/utils/colorContrast.ts:19 | the power 2.4 rises no faster than its tangent at the upper end |
| Powers.FifthRoot | client/src/utils/colorContrast.ts:19 | the power 2.4 is the twelfth power of a fifth root |
| ColorContrast.RgbToHexReads | client/src/utils/colorContrast.ts:6-15 | a written colour is read back as its channels rounded and clamped |
| Tints.HashIsLeftOut | client/src/utils/colorContrast.ts:6-9 | the first number sign is left out wherever it is; with a second one the text is no colour |
| Tints.CaseIsIgnored | client/src/utils/colorContrast.ts:6-10 | capital and small letters are the same digits |
| Tints.RoundedNearest | client/src/utils/colorContrast.ts:12-13 | a channel is rounded to the nearest, a half up, and clamped |
| Tints.TintReads | client/src/utils/colorContrast.ts:84-87 | a tint is the colour laid over white to the nearest channel, never darker than the colour, and lighter the less of it there is |
| Tints.PickedText | client/src/utils/colorContrast.ts:43-48 | the dark text is picked if and only if black has at least the contrast of white on the colour |
| Tints.PickedByLuminance | client/src/utils/colorContrast.ts:43-48 | which is from one luminance on |
| Tints.PickedOnWhiteAndBlack | client/src/utils/colorContrast.ts:43-48 | so dark on white and light on black |
| ColorContrast.ContrastWithWhite | client/src/utils/colorContrast.ts:25-29 | a contrast target against white is met if and only if the luminance is low enough |
| ColorContrast.DarkenForWhiteText | client/src/utils/colorContrast.ts:55-75 | unreadable or passing colours come back unchanged; otherwise the colour is scaled by some lo that passes with hi failing and hi - lo = 2^-24, or to black for targets white cannot reach |
| ColorContrast.AccessiblePrimary | client/src/utils/colorContrast.ts:106-128 | dark mode keeps the brand colours; light mode darkens to 5.1 and shades from there; the four tints are of the brand |
| Readability.RoundedLuminance | client/src/utils/colorContrast.ts:12-22 | rounding to 8-bit channels hardly brightens a colour, the drop at 0.03928 included |
| Readability.DarkenedLuminance | client/src/utils/colorContrast.ts:55-75 | for every six-digit colour and target the result is nearly as dark as asked |
| Readability.WhiteTextReadable | client/src/utils/colorContrast.ts:55-75 | at the default target white text on the rounded result reaches 4.5:1 |
| Readability.PrimaryReadable | client/src/utils/colorContrast.ts:98-128 | in light mode the primary colour reaches 4.5:1 against white and against the page canvas |
| Rounding.LeastDarkening | client/src/utils/colorContrast.ts:50-74 | the least darkening: for targets up to 7, white fails at every scale a ten-thousandth or more above where the search ends |
| Rounding.RoundedDownKeepsTarget | client/src/utils/colorContrast.ts:12-15 | rounding keeps the target whenever it rounds no channel up |
| Rounding.FlatColoursReachTarget | client/src/utils/colorContrast.ts:55-75 | for colours with channels of 0 or one strength the result reaches 4.6:1 if and only if it is no red from 236, green from 137 or cyan from 131 |
| Rounding.BrightRedMissesTarget | client/src/utils/colorContrast.ts:55-75 | `#ff0000` becomes `#ec0000`, on which white stays below 4.6:1 |
| Shades.LuminanceGrows | client/src/utils/colorContrast.ts:18-22 | on 8-bit channels luminance keeps order, the drop at 0.03928 notwithstanding |
| Shades.ShadesStayReadable | client/src/utils/colorContrast.ts:78-81 | every shade of a colour has at least its contrast with white, rounding included |
| Shades.HoverIsDarker | client/src/utils/colorContrast.ts:103-123 | the hover shade is darker if and only if some channel of the base is at least 5 |
| Shades.PressedIsDarker | client/src/utils/colorContrast.ts:103-124 | the pressed shade is darker than the hover shade if and only if some channel is none of 0, 1, 2, 5, 6 |
| Shades.PrimaryShadesReadable | client/src/utils/colorContrast.ts:106-128 | in light mode the hover and pressed colours reach 4.5:1 on white |
| Readability.LabelIsWhite | client/src/utils/colorContrast.ts:120-125 | in light mode the label picked is always white |
| NotebookChanges.KeepCells | client/src/agent/applyNotebookChanges.ts:14-30 | keeps and edits the right cells and counts each deleted or edited cell once |
| NotebookChanges.AddCell | client/src/agent/applyNotebookChanges.ts:34-47 | the new cell's name and place |
| NotebookChanges.CellsToRun | client/src/agent/applyNotebookChanges.ts:52 | the filter gives the run list |
| NotebookChanges.RunListInOrder | client/src/agent/applyNotebookChanges.ts:51-52 | the run list is a subsequence of the notebook: exactly the wanted SQL and Python cells, at increasing positions |
| NotebookResult.NotebookWithChanges | client/src/agent/applyNotebookChanges.ts:9-54 | every cell not deleted is there with its last edit's source and no output, or unchanged; `applied` counts the cells deletes and edits name, and the adds; with distinct and fresh ids all of NotebookResult.ResultIs holds |
| NotebookResult.ResultIs | client/src/agent/applyNotebookChanges.ts:9-54 | everything the result holds, told by the cells and the change set alone: survivors, order, new cells, their places, the run list |
| NotebookResult.CellsAreKept | client/src/agent/applyNotebookChanges.ts:14-30 | each cell not deleted is there, with the source of the last edit that names it and no output, or as it was |
| NotebookResult.NoOthersAreKept | client/src/agent/applyNotebookChanges.ts:17-29 | whatever has an old id is that cell, not deleted, as edited |
| NotebookResult.OrderIsKept | client/src/agent/applyNotebookChanges.ts:17-30 | survivors stay in order |
| NotebookResult.CellIsMade | client/src/agent/applyNotebookChanges.ts:33-44 | each add has its cell: kind and source as asked, a data source only for SQL, the asked name, or if that was in use the first free of q1, q2, ... or df1, df2, ... |
| NotebookResult.CellIsPlaced | client/src/agent/applyNotebookChanges.ts:46-47 | it comes after its anchor with only later cells between, or without one with only later cells after it |
| NotebookResult.RunIsAsAsked | client/src/agent/applyNotebookChanges.ts:45-52 | the run list is, in notebook order, the SQL and Python cells that a text to run stands for: by the last add that asks for it as a name, or by id |
| NotebookOrder.LastEditWins | client/src/agent/applyNotebookChanges.ts:15 | of several edits of a cell the last one counts |
| NotebookOrder.EditedExactly | client/src/agent/applyNotebookChanges.ts:15 | a cell is edited if and only if some edit names it |
| NotebookOrder.KeptAt | client/src/agent/applyNotebookChanges.ts:18-30 | each cell not deleted stays behind exactly those kept before it, and unmentioned cells are unchanged |
| NotebookOrder.KeptMembers | client/src/agent/applyNotebookChanges.ts:18-30 | nothing else is kept |
| NotebookOrder.SurvivorsKeepOrder | client/src/agent/applyNotebookChanges.ts:33-49 | with fresh ids, taking the new cells out again leaves the survivors whole and in order |
| NotebookOrder.ChangesKeepDistinct | client/src/agent/applyNotebookChanges.ts:9-54 | distinct ids and distinct non-null names stay distinct |
| NotebookOrder.NewCellsStayNear | client/src/agent/applyNotebookChanges.ts:46-47 | between an added cell and its anchor, or after it when it has none, are only cells added later |
| NotebookOrder.NameMeansLastAdd | client/src/agent/applyNotebookChanges.ts:45-51 | a name to run stands for the last named cell added under it, even when that was renamed |
| NotebookOrder.OtherTextMeansItself | client/src/agent/applyNotebookChanges.ts:51 | any other text stands for itself |
| Naming.FirstFree | client/src/services/notebookService.ts:195-200 | the least free index from 1, at most one more than the names in use |
| Naming.NextResultName | client/src/services/notebookService.ts:195-200 | the search ends and gives that name, which is not in use |
| Naming.TriedAreUsed | client/src/services/notebookService.ts:198 | n different tries all in use need n names |
| Naming.UniqueSavedQueryName | client/src/utils/queryTabNaming.ts:16-34 | the first of base, base (2), ... base (49) that is free; free up to case and trimming whenever there are at most 48 other queries |
| Naming.TakenExactly | client/src/utils/queryTabNaming.ts:22-27 | a name is taken exactly by another query that has it up to letter case and white space around it |
| Naming.OwnNameIsFree | client/src/utils/queryTabNaming.ts:22-27 | a query that is saved again may keep its name |
| Naming.SuffixedKeysDiffer | client/src/utils/queryTabNaming.ts:8-30 | names with different counters differ after trimming and lowering |
| Naming.AllTakenNeedsMany | client/src/utils/queryTabNaming.ts:28-32 | if all 49 names are taken there are at least 49 other queries |
| Messages.GetMerged | client/src/utils/mergeMessagesWithEnglish.ts:14-32 | what is at any path after the merge, from what both sides have there and on the way |
| Messages.EnglishLeafSurvives | client/src/utils/mergeMessagesWithEnglish.ts:5-8 | an English leaf survives if and only if the locale has nothing in its place and no leaf on the way, or the same leaf |
| Messages.LocaleLeafStays | client/src/utils/mergeMessagesWithEnglish.ts:6-8 | no leaf of the locale is lost |
| Messages.MergeAgain | client/src/utils/mergeMessagesWithEnglish.ts:14-32 | merging English in again changes nothing |
| Messages.MissingIsFilled | scripts/sync_i18n_from_en.py:13-19 | what was missing is there afterwards, as in English |
| Messages.NothingMissing | client/scripts/sync_locale_from_en.py:35-40 | nothing is missing if and only if the merge changes nothing |
| Messages.MergeMessagesWithEnglishFallback | client/src/utils/mergeMessagesWithEnglish.ts:14-32 | the loop over the locale's keys computes the merge |
| MessageDicts.DeepMergeMissing | scripts/sync_i18n_from_en.py:13-19 | in place, sharing copied subtrees: the target becomes the same merge, English keeps its tree, and the target is still a tree of dicts |
| MessageDicts.DeepMergeMissingCounting | client/scripts/sync_locale_from_en.py:13-21 | the same, and the count is the number of highest missing paths, so 0 exactly when nothing changes |
| MessageDicts.DeepMerge | client/scripts/sync_widget_block_i18n.py:547-553 | the base becomes the same merge with the patch winning, and the patch keeps its tree |
| Base64.SextetsRoundTrip | client/src/services/workbookService.ts:99-111 | the 6-bit digits of any bytes give the bytes back, and their number calls for the padding |
| Base64.DecodeUndoesEncode | client/src/services/workbookService.ts:99-111 | decoding what RFC 4648 encoding gives is the identity on all byte sequences |
| Base64.TestVectors | client/src/services/workbookService.ts:99-104 | two of the test vectors of RFC 4648 |
| Base64.ToBase64 | client/src/services/workbookService.ts:99-104 | the chunked conversion never fails and gives the RFC 4648 encoding, whatever the length |
| Base64.FromBase64 | client/src/services/workbookService.ts:106-111 | gives the decoded bytes, or throws exactly when the text does not decode |
| Base64.SaveAndLoad | client/src/services/workbookService.ts:99-111 | `fromBase64(toBase64(b))` is b |
| Base64.TranslatedIsPaddedBase64 | client/src/proxy.ts:84 | translating and padding any unpadded base64url text gives the padded base64 text of the same bytes |
| Base64.TokenPartIsRead | client/src/proxy.ts:79-85 | so a token part decodes to the bytes it was made from |
| CellRefs.MatchedExactly | client/src/agent/applySheetChanges.ts:9 | the scan finds groups if and only if the pattern matches with them |
| CellRefs.ColumnNameReads | client/src/agent/applySheetChanges.ts:11-12 | the letter fold undoes the column's name, for every column |
| CellRefs.ColumnReadIsNamed | client/src/agent/applySheetChanges.ts:11-12 | and the name undoes the fold, for every text of letters |
| CellRefs.ColumnsOfThreeLetters | client/src/agent/applySheetChanges.ts:9-12 | one to three letters are exactly the columns 1 to 18278 |
| CellRefs.ParseA1 | client/src/agent/applySheetChanges.ts:8-14 | the loop computes the cell of the matched groups, or null without a match |
| CellRefs.PrintedIsRead | client/src/agent/applySheetChanges.ts:8-14 | every cell's reference, with or without `$`, in capitals or small letters, is read as the cell |
| CellRefs.PrintedIsReadAnywhere | client/src/agent/applySheetChanges.ts:9 | as it is with white space around it |
| CellRefs.KnownReferences | client/src/agent/applySheetChanges.ts:7-13 | `B12` is row 12 of column 2 |
| CellRefs.PrintParse | client/src/agent/applySheetChanges.ts:8-14 | whatever is read is a cell of the sheet whose reference is the text, trimmed and in capitals |
| SqlNames.LexQuoted | client/src/utils/schemaFieldHelpers.ts:127-129 | a quoted name is one token, whatever it holds |
| SqlNames.QuotedIsRead | client/src/utils/schemaFieldHelpers.ts:127-129 | a name is read back if and only if it is not empty and not a reserved word left bare |
| SqlNames.LeftBareExactly | client/src/utils/schemaFieldHelpers.ts:127-129 | a name is left bare if and only if it is letters, digits and underscores and begins with no digit |
| SqlNames.TableRefIsRead | client/src/utils/schemaFieldHelpers.ts:132-139 | a table reference is read as exactly [name] or [schema, name], under the same condition |
| SqlNames.ReferenceIsRead | client/src/utils/schemaFieldHelpers.ts:132-139 | tables of files are called data; the schemas public and file, an empty one and none are not written; all others are |
| SqlNames.TableRefsDiffer | client/src/utils/schemaFieldHelpers.ts:132-139 | equal references come from equal tables |
| SqlNames.ReservedNameIsLost | client/src/utils/schemaFieldHelpers.ts:128 | a table called `order` is not read back |

## Left out

- AwaitPassMeaning.PreparedCellMeansTheSame: asks that the cell gives `aicser` no other meaning in the open and has no listed call in a generator expression, because both can change the meaning (proved); a cell that does so without harm, say after its last call, is not covered.
- CellSemantics: the private `_call`, which is never listed; generators can be gone through more than once; decorators, default arguments and base classes, nested scopes after a definition, comprehension conditions, Python's other operators and statements, and awaiting a coroutine twice; fuel stands for the number of steps, and a cell that never ends is a timeout at every fuel.
- AwaitPass.RewriteIdempotent: trees are values, so `generic_visit` replacing children in place is not captured; parsing and unparsing are given.
- AuthSignOut.SignedOutUntilLogin: asks for a stored flag, and for session storage that can be read from then on; the first is needed (proved), and without the second the barrier accepts by design.
- AuthStore.Store.StartLogout: the two-factor pages, `setSession`, what the provider does during login and logout (its own removals of the bearer included) and `resetWorkspaceScope` are not modelled.
- Rounding.FlatColoursReachTarget: the exact condition is given for colours of one strength; for other colours there are the sufficient one of Rounding.RoundedDownKeepsTarget and the 4.5:1 of Readability.WhiteTextReadable.
- Rounding.LeastDarkening: asks for a target of at most 7, which covers all the targets in use.
- AnalyzeEvents: a JSON object with a key of its own named `toString` or `valueOf` makes `String(v)` throw; here its text is "[object Object]".
- SlotScheduler: the MAX_QUEUE check is made before an await and is no invariant.
- Naming.UniqueSavedQueryName: with 49 or more other queries the name with the time stamp may be taken; the clock is a parameter.
- Strings: letter case is ASCII; Unicode's special case mappings are not part of the model, so a reference such as `ß1` is not covered.
- Folders.FolderTree: asks for unique ids, as the database gives them.
- Packages: names that JavaScript objects inherit, such as `constructor`, and the downloads and checksums.
- AnalyzeStream: responses without a body, the bytes a TextDecoder still holds at the end, and `JSON.parse` itself (a parameter).
- ColorContrast: colours are computed over the reals, not in floating point; link and status tokens only recombine `shade` and `tint`.
- CellRefs: row numbers are exact, so the rounding of numbers past 2^53 is not captured.
- SqlNames: folding the case of bare names, and the standard's rule that a bare name begins with a letter (an underscore is taken too, as databases do).
- Messages: keys such as `__proto__`, and the order of keys in the files written.
- Real-time collaboration, HTTP wrappers, React components and the server side are not part of this model.
