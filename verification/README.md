# Waste re-accreditation case management: verified models

This project models the decision logic of the regulator's case-management frontend and proves what
that logic keeps over every input and every run. To verify it with Dafny 4.11:

    dafny verify dfyconfig.toml

## What is modelled

**The re-accreditation lifecycle.** `ReAccreditation` is the declared table of states and
transitions, `Engine` the lookups over any declaration, `ModuleValidator` the boot-time validator
whose loops those lookups rely on, `Eligibility` the rules behind the controls of the detail page.
`Lifecycle` puts a backend behind them: a step relation over (state, query origin, holder), with the
five edges version 18 of the backend adds to the table and with resume and continue-review actions
resolved from the recorded query origin. The results are about every run: a case is past duly making
only if it was duly made, the approval and refusal branches never cross, exactly one control is
offered, and following controls closes every case.

**The submit protocol.** `SubmitProtocol` runs the decision, deadline and self-assign submits against
that backend. Each call may be answered, refused with no effect, or take effect and lose its reply.
`SubmitRuns` is about whole runs: the submits on their own, the submits among everybody else's steps,
and single calls interleaved with anything between a submit's read and its calls. `SubmitReports` is
about what the answer page says against what has happened, with every condition stated on the item,
the user, the form and the fate of each call. Two results are findings. A deadline change that starts
a duly made case and is then called invalid by the backend re-renders the form without a word of the
start (`ExtendReportExactly`, `StartGoesUnreported`; an input: `StartGoesUnreportedExample`). And a decision note may be saved twice: two
submits in a row do so exactly when the first saves its note but its decision takes no effect, because
the reply about the note was lost or the decision itself was refused, and the second gets as far as
its own note (`NoteSavedTwiceExactly`); once a decision has landed, even behind a lost reply, sending
the form again makes no call (`DecisionIsFinal`).

**Dates.** `Calendar` is the proleptic Gregorian calendar of section 21.4.1 of ECMA-262 with the
`Date` operations used; an instant is a whole number of milliseconds. `London` is the civil time of
the regulator, `SlaDuration` the strict duration parser and printer, `DateText` the date boxes and
their text, `Deadline` and `PaymentDate` the two validators. `Date.UTC` reads the years 0 to 99 as
1900 to 1999; where that breaks a promise, the lemma says exactly when the promise holds
(`Calendar.RoundTripsExactly`, `Calendar.StartOfUtcDayExactly`, `Deadline.UkCalendarDayExactly`,
`Deadline.FloorMonotonicExactly`, `Deadline.LandsExactly`, `PaymentDate.WindowIsLastYearExactly`), and
`Deadline.FloorFallsExample` and `Deadline.EarlyDeadlineExample` name inputs.

**Sessions.** `ConcurrentLogin` interleaves the separate registry reads and writes of logins,
requests, dismissals and drops; the clock only moves forward and session ids are fresh. The handlers
themselves are methods over a session's keys and the registry, and `LoginAlone`, `PageAlone` and
`DismissAlone` show that an uninterrupted handler is the steps in order. Every
session of an identity is to be told when a newer one is established. The write behind that may fail unnoticed,
and the promise then holds exactly when the entry is gone or some later login was recorded
(`RegistryTellsExactly`); `UnwrittenLogin` is a family of runs in which it fails. A request really
loads the session's keys when it starts and commits them when it ends: `SessionCommits` says exactly
when overlapping requests lower the dismissed-for mark, and that any other write can undo a dismissal.
`AuthRedirect` follows the redirect stash and the sign-in state of one session through any sequence
of requests.

**The applications list.** `WorkItemFilters` reads a query, prints it as a link and reads it back,
`FilterLinks` builds page links and removal chips, `ListSearch` and `ListReads` say which applications
the filters ask for and what the values of a query come to. A URL is the ordered list of its pairs, a
parsed query the values grouped by key.

**Smaller parts.** `AssignableUsers` compares the lazily pruned store with one that never prunes and
the merged directory's lookup with its listing; `AuditLog` proves a one-pass form of the unresolved
notification failure test; `RecyclingSites` sorts, searches and pages overseas sites. `Text`,
`Sorting` and `Prelude` hold the string, sort and array operations they share.

Code that updates fields or loops is a class or a method proved against a function of the same
module; the lemmas are about that function.

Smaller facts have no row below: the terminal states and the start marker of the declaration
(`ReAccreditation.TerminalStates`, `StartMarker`), where a continue-review leaves from and an outcome
lands (`Eligibility.ContinueReviewExactly`, `OutcomeLandsOnPending`), that what is allowed is listed on
any type (`Engine.AllowedIsListed`), the floor as the code itself reckons it
(`Deadline.FloorIsLaterAsReckoned`), what the redirect's prefix tests pass (`AuthRedirect.SafeIsLocal`),
that untyped dates are refused (`Deadline.AcceptsOnlyTyped`, `PaymentDate.AcceptsOnlyTyped`), the ids
queries and their answers go by (`Lifecycle.QueryIdsExactly`, `ResponseIds`, `ContinueReviewIds`), how
numbers and letters are read (`Text.ParseIntReads`, `LowerCharExactly`), and the evenings of 2026
the source's comments describe (`London.SwitchesOf2026`, `London.LateEvenings`).

## Model

| member | source | states |
|---|---|---|
| Engine.AllowedIffListed | src/server/work-items/core/engine.js:71-217 | for any valid type, `canApplyAction` allows an action exactly when `projectWorkItem` lists it |
| Engine.ListedExactly | src/server/work-items/core/engine.js:71-120 | listed are the transitions a caller may invoke from the state, unless the first declaration of that state is terminal |
| Engine.RefusedInOrder | src/server/work-items/core/engine.js:180-217 | the reason of a refusal is the first that holds, in the order of the checks |
| Engine.SelfAssignExactly | src/server/work-items/core/engine.js:131-145 | self-assigning starts something exactly if a marked transition leaves the state and the state is not terminal |
| Engine.DuplicateActionIdsDisagree | src/server/work-items/core/engine.js:180-217 | with a repeated action id an action is listed that is never allowed, so the validator is needed |
| ModuleValidator.CollectStateIds | src/server/work-items/core/module.js:56-69 | no fault exactly when every state has an id and none repeats; a fault is the first one |
| ModuleValidator.CheckTransitions | src/server/work-items/core/module.js:92-139 | no fault exactly when action ids are unique and no transition dangles; a fault is the first one |
| ModuleValidator.AssertValidWorkItemModule | src/server/work-items/core/module.js:18-144 | accepts exactly the well-formed modules, and reports the first fault in the order of the checks |
| ModuleValidator.WellFormedIsValid | src/server/work-items/core/module.js:56-139 | an accepted module gives the engine unique state ids, unique action ids and no dangling states |
| ModuleValidator.AcceptedModulesAgree | src/server/work-items/core/engine.js:71-217 | for every accepted module and work item, allowed and listed are the same |
| ModuleValidator.MissingExactly | src/server/work-items/core/module.js:18-69 | a field is missing exactly if it is no text or nothing but white space |
| ReAccreditation.DeclarationIsValid | src/server/work-items/re-accreditation/module.js:48-454 | the declaration itself meets the validator's rules |
| ReAccreditation.StartsOnlyFromDulyMade | src/server/work-items/core/engine.js:131-145 | self-assigning starts a duly made case and no other |
| Eligibility.DecisionEntryStates | src/server/work-items/re-accreditation/decision/eligibility.js:116-157 | the loop fills the set of states a decision may be logged from |
| Eligibility.LogDecisionExactly | src/server/work-items/re-accreditation/decision/eligibility.js:171-226 | a decision may be logged exactly from duly made, started, in progress and awaiting; terminal states are refused as terminal |
| Eligibility.DulyMakeExactly | src/server/work-items/re-accreditation/duly-making/eligibility.js:50-164 | duly making is open exactly to an open case that is submitted or whose origin is |
| Eligibility.OfferedExactly | src/server/routes/work-items/detail.controller.js:642-733 | the four controls, for every state and origin |
| Eligibility.RefusalsInOrder | src/server/work-items/re-accreditation/decision/eligibility.js:171-226 | why deciding and duly making are refused, for every work item: the first reason that holds |
| Eligibility.OthersOfferedNothing | src/server/routes/work-items/detail.controller.js:642-733 | a work item of any other type is offered none of the controls |
| Lifecycle.DulyMadeFirst | src/server/work-items/re-accreditation/module.js:87-454 | in every run, a case past duly making has a duly-make step from submitted behind it |
| Lifecycle.OutcomesEnteredFromPending | src/server/work-items/re-accreditation/module.js:87-454 | approved and rejected are entered only from their own pending-contact state, and no terminal state is left |
| Lifecycle.MovesExactly | src/server/work-items/re-accreditation/module.js:87-454 | every move a case can make: on with the review, withdrawn until it is determined, queried at any stage, back from a query to where it was raised; and no others |
| Lifecycle.QueryReturns | src/server/work-items/re-accreditation/module.js:230-454 | a query answered and taken up again is back at the stage it was raised at, a duly made case in assessment |
| Lifecycle.InvocableExactly | src/server/work-items/re-accreditation/module.js:87-454 | by hand a caller may start, change the deadline, withdraw and query; the rest only the backend does |
| Lifecycle.BranchesNeverCross | src/server/work-items/re-accreditation/module.js:87-454 | no run visits both the approval and the refusal branch |
| Lifecycle.ExactlyOneControl | src/server/routes/work-items/detail.controller.js:642-733 | in every reachable case exactly one control is offered, and none when terminal or queried |
| Lifecycle.ControlsOf | src/server/work-items/re-accreditation/duly-making/eligibility.js:91-163 | which control a reachable case offers, by state and query origin |
| Lifecycle.PlanAdvances | src/server/work-items/re-accreditation/module.js:87-454 | following the offered control, or the operator's response, is always possible and strictly lowers a rank |
| Lifecycle.EveryCaseCloses | src/server/work-items/re-accreditation/module.js:87-454 | from every reachable case four follow-ups, with any outcomes chosen, reach a terminal state |
| Lifecycle.DeadlineLinkExactly | src/server/routes/work-items/detail.controller.js:822-831 | the deadline link shows exactly where the change is accepted as it stands or once the case is started |
| Lifecycle.ButtonsAreQueries | src/server/routes/work-items/detail.controller.js:864-911 | each generic button left on the page is a query action the backend would apply |
| Lifecycle.ButtonsExactly | src/server/routes/work-items/detail.controller.js:864-911 | the generic buttons are exactly the listed queries open to the caller, in the backend's order |
| SubmitProtocol.EnsureAssessmentStarted | src/server/work-items/core/ensure-assessment-started.js:55-107 | assigns only an unheld case, then starts it, only from duly made, stopping at the first failure |
| SubmitProtocol.RecordWorkItemDecision | src/server/work-items/re-accreditation/decision/service.js:97-158 | re-validates, posts the note, then the decision, stopping at the first failure |
| SubmitProtocol.SubmitDecisionHandler | src/server/work-items/re-accreditation/decision/controller.js:184-362 | read, collect all form errors in page order, check eligibility, start, record |
| SubmitProtocol.SubmitExtendHandler | src/server/routes/work-items/sla.controller.js:211-295 | load, validate, start, change |
| SubmitProtocol.SelfAssignHandler | src/server/routes/work-items/detail.controller.js:270-352 | always assigns, then starts when the read said duly made |
| SubmitProtocol.StartMessagesTellApart | src/server/work-items/core/ensure-assessment-started.js:118-160 | no two outcomes of the start step read the same |
| SubmitProtocol.StartMessagesTell | src/server/work-items/core/ensure-assessment-started.js:55-160 | what the user reads of the start step, by what the submit found and what became of its calls |
| SubmitProtocol.FormErrorsExactly | src/server/work-items/re-accreditation/decision/controller.js:184-270 | the form comes back for a decision that is neither outcome, and then for a note over 2000 characters |
| SubmitRuns.RunIsOrderly | src/server/work-items/core/ensure-assessment-started.js:55-107 | over any run of the three submits, start and decision each take effect at most once and nothing is decided or moved while duly made; without a self-assign a held case keeps its holder and assign takes effect at most once |
| SubmitRuns.MixedRunIsOrderly | src/server/work-items/core/ensure-assessment-started.js:13-107 | the same of start, decision and deadline with any lifecycle steps of others between the submits, from any case |
| SubmitRuns.InterleavedIsOrderly | src/server/work-items/re-accreditation/decision/service.js:4-14 | even with others' calls and steps between a submit's read and its calls, start and decision each take effect at most once, neither decision nor deadline change takes effect while duly made, and nothing but a note on a closed case |
| SubmitRuns.DecisionIsBothHops | src/server/work-items/re-accreditation/decision/service.js:4-14 | one decision write equals the two declared hops |
| SubmitReports.NoteComesFirst | src/server/work-items/re-accreditation/decision/service.js:111-145 | a decision is posted only straight after its own non-blank note was saved |
| SubmitReports.ChangeIsAskedFor | src/server/routes/work-items/sla.service.js:427-439 | every change a deadline submit posts is its last call and carries the trimmed reason, of 1 to 500 characters, and a duration that reads as the whole days from the day the deadline reads as to the date typed |
| SubmitReports.DecisionReportExactly | src/server/work-items/re-accreditation/decision/controller.js:271-331 | the page describes the item exactly when no call takes effect behind a failed reply, said on the item, the form and the fates; success is never claimed wrongly |
| SubmitReports.ExtendReportExactly | src/server/routes/work-items/sla.controller.js:256-292 | the same for a deadline change, which the backend takes only where `sla-extend` is declared or once started, exactly when also the inputs are not those that start the case, fail the post and have it called invalid |
| SubmitReports.StartGoesUnreported | src/server/routes/work-items/sla.controller.js:275-277 | for every such input, held case or not, the form comes back while the case has been started and is held |
| SubmitReports.DoneLands | src/server/routes/work-items/sla.controller.js:260-273 | a reported change put the deadline on the typed date at its old time of day, exactly outside the years 0 to 99 |
| SubmitReports.ExtendMovesExactly | src/server/routes/work-items/sla.controller.js:211-295 | the deadline moves exactly when the form passes, a duly made case gets started, the state is one that takes a change then or now, and the post is not refused; and then by the typed date |
| SubmitReports.DeadlineMovesAgainExactly | src/server/routes/work-items/sla.controller.js:224-243 | the same date submitted again after the deadline moved reaches the change exactly when the moved deadline reads as another day and the form still passes, and then moves it unless the post is refused; otherwise it makes no call; it so reads only for a deadline from the years 0 to 99, and always for one moved to 2007 or later |
| SubmitRuns.DecisionIsFinal | src/server/work-items/re-accreditation/decision/controller.js:271-284 | once decided or closed, a decision submit makes no call |
| SubmitReports.NoteSavedExactly | src/server/work-items/re-accreditation/decision/service.js:97-158 | a submit saves its note, once, exactly when it is read, the form passes, the state may be decided, the case is or gets started, the note is not blank and its call is not refused |
| SubmitReports.NoteSavedTwiceExactly | src/server/work-items/re-accreditation/decision/service.js:125-145 | two submits in a row save two notes exactly when the first saves its note but its decision takes no effect, and the second is read, passes and has a note that is not blank nor refused |
| SubmitReports.NoteIsRepeated | src/server/work-items/re-accreditation/decision/service.js:125-145 | for instance a case in progress whose first decision is refused: two submits in a row save the note twice, and neither page mentions it |
| SubmitReports.SelfAssignTellsExactly | src/server/routes/work-items/detail.controller.js:240-352 | taking over a case starts it only from duly made and after the assignment, and the page says what happened exactly when no call that changed the case lost its reply |
| Calendar.DayFromYearFormula | src/server/routes/work-items/sla.service.js:227-246 | the recursive calendar agrees with the DayFromYear formula of section 21.4.1 of ECMA-262 |
| Calendar.DayOrder | src/server/routes/work-items/sla.service.js:344-393 | day numbers order real dates as year, month and day do |
| Calendar.CivilOfDayOf | src/server/routes/work-items/sla.service.js:227-246 | every real date is read back from its own day number |
| Calendar.RoundTripsExactly | src/server/routes/work-items/sla.service.js:227-246 | the real-date test accepts exactly the dates that exist outside the years 0 to 99 |
| Calendar.StartOfUtcDayExactly | src/server/routes/work-items/sla.service.js:85-87 | it is the UTC day of the instant exactly outside the years 0 to 99 |
| London.TomorrowExactly | src/server/routes/work-items/sla.service.js:104-153 | the London day is the day after the UTC day exactly in the last UTC hour, from the spring change on and before the day of the autumn change |
| London.LondonDayIsNear | src/server/routes/work-items/sla.service.js:139-153 | and otherwise it is the UTC day |
| London.LondonYearIsUtcYear | src/server/routes/work-items/sla.service.js:156-166 | the London year is the UTC year |
| London.LondonDayMonotonic | src/server/routes/work-items/sla.service.js:139-153 | the London day never goes back, across the autumn change included |
| SlaDuration.ParserIsSound | src/server/work-items/core/sla-duration.js:37-103 | whatever is accepted spells a sign and at least one component |
| SlaDuration.ParserIsComplete | src/server/work-items/core/sla-duration.js:37-103 | every spelling, with white space around it, is accepted with its components |
| SlaDuration.ParserAcceptsExactly | src/server/work-items/core/sla-duration.js:37-103 | accepted exactly when the trimmed text is a spelling, with the signed sum as the answer |
| SlaDuration.WholeUnits | src/server/work-items/core/sla-duration.js:22-25 | a whole number of days, hours, minutes or seconds is worth that many times 86 400 000, 3 600 000, 60 000 or 1000 |
| SlaDuration.PrintedUnits | src/server/work-items/core/sla-duration.js:22-25 | so a printed number is worth itself in each unit |
| SlaDuration.FractionalSeconds | src/server/work-items/core/sla-duration.js:47 | a fraction of k digits is worth its number times 1000 over ten to the k |
| SlaDuration.SpellingIsSum | src/server/work-items/core/sla-duration.js:76-103 | a spelling is read as the sum of its components each spelled alone, and the sign negates it |
| SlaDuration.ParserRefusesTheRest | src/server/work-items/core/sla-duration.js:37-103 | anything else is refused |
| SlaDuration.DayDurationRoundTrip | src/server/routes/work-items/sla.service.js:101-103 | every whole number of days, of either sign, is parsed back from what is printed |
| DateText.IsoDateRoundTrip | src/server/work-items/re-accreditation/duly-making/payment-date.js:78-158 | the printed `YYYY-MM-DD` names the same date |
| DateText.TypedExactly | src/server/routes/work-items/sla.service.js:227-246 | a date is read exactly from one or two, one or two and four digits: day, month and year, white space aside |
| DateText.EmptyExactly | src/server/routes/work-items/sla.service.js:278-300 | nothing is typed exactly if every box is missing or holds white space alone |
| DateText.IsoFormExactly | src/server/work-items/re-accreditation/change-payment-date/eligibility.js:31-39 | which texts are read as `YYYY-MM-DD` |
| Deadline.UkCalendarDayExactly | src/server/routes/work-items/sla.service.js:139-166 | the code's UK day is the London day exactly from the year 100 on, and its year the London year exactly from the year 1 on, before that counted before Christ |
| Deadline.FloorIsLaterBoundExactly | src/server/routes/work-items/sla.service.js:204-220 | the floor is the later of the clock-start day and 1 January of this year exactly when neither bound is moved past the other by a year before 100; from then on the message names the bound that is the floor, on a tie the year |
| Deadline.FloorMonotonicExactly | src/server/routes/work-items/sla.service.js:204-220 | as the clock start and the present move later the floor does not fall, exactly when each earlier bound is from the year 100 on or in a reckoned year that does not pass those of the later clock start and present |
| Deadline.FloorMonotonicToday | src/server/routes/work-items/sla.service.js:204-220 | so it never falls for a present from 2000 on and a clock start from the year 1 on |
| Deadline.FloorFalls | src/server/routes/work-items/sla.service.js:204-220 | it does fall from a clock start in the year 99 to one in the year 100, for any present before 1999 |
| Deadline.AcceptsExactly | src/server/routes/work-items/sla.service.js:344-393 | exactly which submissions are accepted |
| Deadline.RefusesInOrder | src/server/routes/work-items/sla.service.js:344-393 | a real date is refused for the floor first, and otherwise for changing nothing |
| Deadline.AcceptedSends | src/server/routes/work-items/sla.service.js:344-393 | an accepted change sends the typed date and the signed gap from the day the deadline reads as |
| Deadline.ExtensionsAddUp | src/server/work-items/core/sla-duration.js:112-122 | the deadline shown is the clock start and the target together, and for an extended target the old one moved by the extension |
| Deadline.SlaDeadlineExactly | src/server/work-items/core/sla-duration.js:112-122 | no deadline without a clock start or a readable target, and otherwise their sum, cut to whole milliseconds |
| Deadline.LandsExactly | src/server/routes/work-items/sla.service.js:344-393 | parsing the sent duration and adding it to the due instant lands on the typed day at the same time of day, exactly outside the years 0 to 99 |
| Deadline.EarlyDeadlineMisses | src/server/routes/work-items/sla.service.js:85-87 | for a due date in those years every date that clears the floor lands elsewhere |
| Deadline.EarlyDeadlineExample | src/server/routes/work-items/sla.service.js:85-87 | one such input |
| Deadline.EarlyDeadlineReadsElsewhere | src/server/routes/work-items/sla.service.js:85-87 | moved from those years to a date from 2007 on, it reads as another day than the one typed |
| PaymentDate.FloorIsYearEarlier | src/server/work-items/re-accreditation/duly-making/payment-date.js:148-154 | the floor is the same date a year earlier, 1 March for 29 February, 365 or 366 days back |
| PaymentDate.FloorMonotonic | src/server/work-items/re-accreditation/duly-making/payment-date.js:148-154 | the floor never falls as today advances |
| PaymentDate.AcceptsExactly | src/server/work-items/re-accreditation/duly-making/payment-date.js:102-158 | accepts exactly the real dates from the floor to today, both included |
| PaymentDate.WindowIsLastYearExactly | src/server/work-items/re-accreditation/duly-making/payment-date.js:138-154 | an accepted date is at most 366 days old and not in the future, exactly when the present is not in the years 0 to 99 |
| PaymentDate.RefusesInOrder | src/server/work-items/re-accreditation/duly-making/payment-date.js:138-154 | a future date is refused before an old one |
| PaymentDate.StoredDateReadsBack | src/server/work-items/re-accreditation/change-payment-date/eligibility.js:31-39 | the stored value is read back and displayed as the same day, month and year |
| PaymentDate.RealDateTestsAgree | src/server/routes/work-items/sla.service.js:227-246 | the two forms agree on which typed triples are dates |
| ConcurrentLogin.RecordLogin | src/server/common/helpers/auth/concurrent-login.js:34-57 | answers what was recorded before and records this session, each best-effort |
| ConcurrentLogin.MarkLogin | src/server/common/helpers/auth/concurrent-login.js:64-70 | stamps the session and arms the info note for another session's login |
| ConcurrentLogin.ClearLogin | src/server/common/helpers/auth/concurrent-login.js:79-92 | drops the entry only if it names the session |
| ConcurrentLogin.NoticeExt | src/server/common/helpers/auth/concurrent-login.js:158-185 | the notice of a request: the alert if there is one, else the info note |
| ConcurrentLogin.NoticeExactly | src/server/common/helpers/auth/concurrent-login.js:119-185 | the alert exactly for another session's login later than one's own and the last dismissed, else the info note exactly while its login is not dismissed |
| ConcurrentLogin.DismissNotice | src/server/common/helpers/auth/concurrent-login.js:192-211 | raises the mark to the login found or the present, clears the info note |
| ConcurrentLogin.RegistryTellsExactly | src/server/common/helpers/auth/concurrent-login.js:34-70 | in every interleaving, a session finds no entry, itself, or a login later than its own, exactly when the entry is gone or a login of the identity was recorded since its own stamp |
| ConcurrentLogin.RegistryTells | src/server/common/helpers/auth/concurrent-login.js:34-70 | so every session whose write took effect does |
| ConcurrentLogin.AlertExactly | src/server/common/helpers/auth/concurrent-login.js:129-151 | a page is alerted exactly when the entry it read names another session, is later than the login dismissed last and, if the session's own write was lost, later than its stamp |
| ConcurrentLogin.NewLoginIsTold | src/server/common/helpers/auth/concurrent-login.js:129-151 | once another session records a login every finished session of the identity is due the alert, whatever it dismissed |
| ConcurrentLogin.InfoTellsExactly | src/server/common/helpers/auth/concurrent-login.js:59-70 | in every interleaving, until a dismissal, each page without an alert carries the info note about the login found on signing in, exactly when one was found |
| ConcurrentLogin.UnwrittenLogin | src/server/common/helpers/auth/concurrent-login.js:47-54 | whenever an identity with an entry signs in again and the write is lost, the session finds an older entry naming another, and is not alerted |
| ConcurrentLogin.QuietUntilLaterLogin | src/server/common/helpers/auth/concurrent-login.js:119-211 | after a dismissal no notice until a login recorded later than every one recorded before it; then the alert |
| ConcurrentLogin.DismissalIsSeen | src/server/common/helpers/auth/concurrent-login.js:158-211 | every page begun after a dismissal ended counts the logins recorded when it began as seen, read failures included |
| ConcurrentLogin.MarkNeverDecreases | src/server/common/helpers/auth/concurrent-login.js:208-210 | with each dismissal ending in one step, the mark never decreases within a session |
| ConcurrentLogin.LaterReadIsLater | src/server/common/helpers/auth/concurrent-login.js:34-57 | a later read of the registry never finds an earlier login |
| SessionCommits.NeverFallsExactly | src/server/server.js:76-86 | with requests that load the session's keys and commit them later, in any overlap, the mark never falls exactly when every request that has missed the dismissal of a newer login dismisses against one at least as late; and exactly when the mark is always what the dismissals one at a time would leave |
| SessionCommits.OneAtATimeNeverFalls | src/server/common/helpers/auth/concurrent-login.js:192-211 | so with no two requests of the session open at once it never falls |
| SessionCommits.TwoOverlappingExactly | src/server/common/helpers/auth/concurrent-login.js:192-211 | of two overlapping requests the second commit keeps the first's mark exactly when the first did not raise it or the second dismisses against a login at least as late |
| SessionCommits.OtherWriteUndoesDismissal | src/server/common/helpers/auth/concurrent-login.js:192-211 | in every run, any other write that commits after a dismissal it overlaps puts both keys back as loaded, so the mark has fallen if that login was newer |
| SessionCommits.DismissalsInReadOrder | src/server/common/helpers/auth/concurrent-login.js:192-211 | however many dismissals overlap, the mark never falls if they commit in the order of their registry reads and each found an entry |
| AuthRedirect.Session.RedirectToLogin | src/server/common/helpers/auth/auth-redirect.js:58-78 | stashes a safe GET target with its nonce and role |
| AuthRedirect.Session.Confirm | src/server/common/helpers/auth/auth-redirect.js:89-94 | keeps the stash only for its own nonce |
| AuthRedirect.Session.Pop | src/server/common/helpers/auth/auth-redirect.js:103-113 | answers the stash for a safe target and a fitting role, and always clears it |
| AuthRedirect.Session.RegulatorLoginHandler | src/server/routes/auth/controller.js:84-126 | confirms the stash before discovery, then ties the session to one attempt |
| AuthRedirect.Session.CallbackHandler | src/server/routes/auth/controller.js:128-313 | spends the attempt before the exchange, and resets the session on success |
| AuthRedirect.Session.StubLoginPageHandler | src/server/routes/auth/stub/controller.js:63-71 | the stub login page confirms the stash like the real one |
| AuthRedirect.Session.LogoutHandler | src/server/routes/auth/controller.js:315-333 | logging out empties the session, stash included |
| AuthRedirect.Session.StubLoginHandler | src/server/routes/auth/stub/controller.js:82-128 | the stub login takes the stash and resets the session the same way |
| AuthRedirect.LandsExactly | src/server/common/helpers/auth/auth-redirect.js:58-113 | in every run a login lands on the latest waiting stash if its role is the one the route asks for, and on `/work-items` otherwise, always on the site and off the login pages |
| AuthRedirect.LinkCarriesNonce | src/server/common/helpers/auth/auth-redirect.js:58-78 | the login link carries the nonce exactly when a signed-out GET asked for an address of the site that is no login page |
| AuthRedirect.NoStashUsedTwice | src/server/common/helpers/auth/auth-redirect.js:103-113 | no stash is used by two logins |
| AuthRedirect.CallbackUsesOpenAttempt | src/server/routes/auth/controller.js:128-150 | a callback logs in only for the session's latest attempt, and once |
| AuthRedirect.CallbackExactly | src/server/routes/auth/controller.js:128-313 | in every run a callback logs in exactly when it is the first to answer the latest attempt, that has a nonce and a verifier, and a role is verified: as a caseworker if that one is, else as a support user; with neither access is denied |
| AuthRedirect.SignedInExactly | src/server/routes/auth/controller.js:270-333 | the session holds the role of the login it is in, and nobody once that has ended |
| AuthRedirect.LoginsAre | src/server/routes/auth/stub/controller.js:82-128 | only a callback and the stub login sign in, the latter with the role asked for |
| WorkItemFilters.UniqueStringList | src/server/routes/work-items/controller.js:691-710 | the one-pass list of trimmed, non-blank, distinct values |
| WorkItemFilters.UniqueListIsClean | src/server/routes/work-items/controller.js:691-710 | that list holds exactly the non-blank trimmed values, none twice |
| WorkItemFilters.ReadMaterialsIsClean | src/server/routes/work-items/controller.js:515-521 | materials are known lower-case tokens, none twice whatever their case |
| WorkItemFilters.BuildHref | src/server/routes/work-items/controller.js:928-992 | the printed pairs, in order |
| WorkItemFilters.PrintedIsParsed | src/server/routes/work-items/controller.js:928-992 | a printed link parsed again gives each parameter the values it was printed with |
| WorkItemFilters.ReadIsPrintable | src/server/routes/work-items/controller.js:463-598 | what every read filter state satisfies, for any query |
| WorkItemFilters.RoundTripsExactly | src/server/routes/work-items/controller.js:463-710 | reading a printed link gives the same filters, derived fields included, exactly when the form was submitted or `sort` and `assigneeMode` are not junk |
| WorkItemFilters.JunkSortComesBack | src/server/routes/work-items/controller.js:648-659 | a query whose own links read differently |
| ListReads.ChoicesExactly | src/server/routes/work-items/controller.js:463-521 | each group of boxes holds exactly the ticked values it offers, a material in any case |
| ListReads.TextsExactly | src/server/routes/work-items/controller.js:463-596 | typed texts are trimmed, and not read if repeated; the two switches only from their own values |
| ListReads.PageExactly | src/server/routes/work-items/controller.js:712-715 | the page is the number the first value begins with if at least 1, and 1 otherwise |
| ListReads.SortExactly | src/server/routes/work-items/controller.js:648-659 | the order named; by due date when none is and the form was not submitted |
| ListReads.AssigneeFindsExactly | src/server/routes/work-items/controller.js:543-574 | an application is shown under "mine" and on landing iff the user holds it, under "unassigned" iff nobody does, under an officer iff that one does, and otherwise whoever holds it |
| ListReads.NationsExactly | src/server/routes/work-items/controller.js:611-636 | the nations ticked, or else, the form not submitted, the one nation the user alone regulates |
| ListReads.Landing | src/server/routes/work-items/controller.js:463-598 | the bare list: the user's own applications by due date, for the nation the user regulates, page 1, and nothing else chosen |
| FilterLinks.BuildPagination | src/server/routes/work-items/controller.js:905-926 | one link per page, previous and next where there is one |
| FilterLinks.PageLinkReadsBack | src/server/routes/work-items/controller.js:905-926 | every page link reads as the same filters on its own page, under the same exact condition |
| FilterLinks.NeighboursReadBack | src/server/routes/work-items/controller.js:905-926 | previous and next exist where there is such a page and lead to it with the same filters; every page has a link, and the one shown is marked |
| FilterLinks.BuildActiveFilters | src/server/routes/work-items/controller.js:1110-1168 | the chips in order, each with its removal link |
| FilterLinks.ChipShownExactly | src/server/routes/work-items/controller.js:1110-1168 | a chip for every chosen value and for each other choice the user made, and no other |
| FilterLinks.AssignmentLabelExactly | src/server/routes/work-items/controller.js:1084-1108 | the label of the assignment chip, none for a choice not made |
| FilterLinks.OfficerNamed | src/server/routes/work-items/controller.js:1034-1036 | an officer is shown by the name of the first with the id, else by the id |
| FilterLinks.ChipLinkRemovesOne | src/server/routes/work-items/controller.js:1045-1082 | following a chip removes exactly it, returns to page 1 and leaves every other explicit choice alone |
| FilterLinks.ChipLinkIsNotBare | src/server/routes/work-items/controller.js:1045-1046 | a chip's link always carries the submission marker |
| FilterLinks.ChipCountFalls | src/server/routes/work-items/controller.js:1110-1168 | one chip fewer each time |
| FilterLinks.RemovingEnds | src/server/routes/work-items/controller.js:1110-1168 | removing chips in any order ends with none |
| ListSearch.StatusFindsWhatItReads | src/server/routes/work-items/controller.js:155-189 | the status filter asks for a state exactly when a ticked box has the text the state reads as |
| ListSearch.ApplicantTypesAreAlternatives | src/server/routes/work-items/controller.js:457-495 | the applicant-type boxes mean "or", and override the application types once one is ticked |
| AssignableUsers.Store.Upsert | src/server/common/helpers/auth/assignable-users-store.js:104-113 | stores the entry under its id with the present time |
| AssignableUsers.Store.Remove | src/server/common/helpers/auth/assignable-users-store.js:116-118 | removes the id's entry and no other |
| AssignableUsers.Store.List | src/server/common/helpers/auth/assignable-users-store.js:125-142 | lists every current entry once in name order, whatever order the hash comes in, and prunes the rest |
| AssignableUsers.Store.Find | src/server/common/helpers/auth/assignable-users-store.js:145-159 | finds a current entry and prunes one that is not |
| AssignableUsers.PruningIsInvisible | src/server/common/helpers/auth/assignable-users-store.js:69-159 | over any run with a clock that never goes back, every list and lookup answers as a store that never prunes |
| AssignableUsers.KnownExactly | src/server/common/helpers/auth/assignable-users-store.js:69-159 | over any run, an id last upserted is found and listed, with that entry, exactly until more than the window has passed; one last removed is not; one not written is if it was there and recent enough |
| AssignableUsers.ListLeaves | src/server/common/helpers/auth/assignable-users-store.js:125-142 | what a list leaves in the hash once its prunings take effect |
| AssignableUsers.RunStaysKeyed | src/server/common/helpers/auth/assignable-users-store.js:104-118 | every run leaves entries stored under their own ids, which searching the directory relies on |
| AssignableUsers.DirectoryAgreesExactly | src/server/work-items/core/assignees.js:78-118 | looking an id up agrees with searching the listed directory exactly when the id is not blank or not listed |
| AssignableUsers.DirectoryHolds | src/server/work-items/core/assignees.js:78-92 | the stub users with stub sign-in on, and the store's users with Entra ID on or the stub off, less those a stub user's id hides |
| AssignableUsers.StubIdsAreUnique | src/server/routes/auth/stub/controller.js:23-42 | the stub users have distinct ids, which the merged directory relies on |
| AssignableUsers.DirectoryHasNoDuplicates | src/server/work-items/core/assignees.js:78-92 | the directory lists no id twice |
| AuditLog.OrderDoesNotMatter | src/server/work-items/core/audit-log.js:376-399 | the answer depends only on the multiset of entries |
| AuditLog.DetectedExactly | src/server/work-items/core/audit-log.js:376-399 | the banner shows exactly for a failure that nothing sent later, for the same template or with either naming none, can have made good |
| AuditLog.AddingEntries | src/server/work-items/core/audit-log.js:376-399 | a sent entry only switches it off, a failed one only on |
| AuditLog.OnePass | src/server/work-items/core/audit-log.js:376-399 | one pass that keeps the latest times gives the same answer |
| AuditLog.SummaryShowsExactly | src/server/work-items/core/audit-log.js:376-399 | the latest sent and failed times decide exactly as the pairwise comparison |
| RecyclingSites.SitesAreSorted | src/server/routes/work-items/recycling-operations.controller.js:114-120 | the list is a stable, name-ordered permutation of the selected sites |
| RecyclingSites.SitesListed | src/server/routes/work-items/recycling-operations.controller.js:61-120 | the sites listed are those submitted and not removed, as many, one without a name under a dash |
| RecyclingSites.PagesAreTheList | src/server/routes/work-items/recycling-operations.controller.js:221-231 | the pages put together are exactly the matching sites in order |
| RecyclingSites.PageSizes | src/server/routes/work-items/recycling-operations.controller.js:226-231 | every page but the last holds 20 sites, none more, and none is empty unless nothing matches |
| RecyclingSites.BuildPagination | src/server/routes/work-items/recycling-operations.controller.js:166-183 | one link per page; no structure for a single page |
| RecyclingSites.LinksKeepTheSearch | src/server/routes/work-items/recycling-operations.controller.js:194-201 | every page link resolves to its own page of the same search |
| RecyclingSites.SearchFindsExactly | src/server/routes/work-items/recycling-operations.controller.js:138-144 | the pages hold exactly the sites whose name contains the term, whatever the case |

## Left out

- HTTP, views, banners' wording beyond the start step's, logging, Redis and cookie plumbing: calls become steps with the outcomes described above.
- Other actors between a submit's read and its calls: `SubmitRuns.InterleavedIsOrderly` has them, `SubmitReports` does not, since a page then describes an item it has not read.
- Session storage: in `ConcurrentLogin` a session's keys change one step at a time, and in `SessionCommits` a commit writes the two notification keys as a whole; the two are not run together.
- Logout dropping the registry entry: the comparison happens after the session was reset, so nothing is stated about it; an entry may go at any time instead.
- Token exchange, signatures and hashing: only what the session keeps around them.
- The list handler's restore of saved filters on a bare `/work-items`: properties are about reading and printing filters.
- URL percent-encoding, and query keys the list does not read.
- `Intl`'s local mean time before 1847 and the summer-time rules before 1996: London is the present rule in every year.
- Instants beyond the range of `Date`, and whole-number limits of floating point: integers and instants are unbounded; durations are exact.
- String lengths in UTF-16 units: the limits on notes and reasons count characters, so text with characters beyond U+FFFF may be refused by the source and accepted here.
- `toLowerCase` beyond ASCII, and `localeCompare`: names are ordered by an assumed collation key.
- Chip labels other than the assignment one, and option lists' display text.
- `decorateAuditLog`, the application summary and the other view-model builders: list shaping that would only add easy members.
- SubmitReports.DecisionReportExactly: the report is compared on the case and its deadline; saved notes are not part of what any page reports.
