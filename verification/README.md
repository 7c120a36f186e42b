# SchedulePoint: a model of the solver worker, the build protocol and the unit of work

SchedulePoint poses a staffing period to a solver worker as a snapshot and a list of typed rules, runs
the solve under a claim that a reaper can take away, and writes everything through a tenant-scoped unit
of work. This project models the logic of those parts and proves what it keeps.

Five parts, each in its own files:

* **The rule compiler** (`Problems`, `LinearModel`, `RuleMeaning`, `MemberByDate`, `HardRules`, `SoftRules`,
  `Compiler`, `CompiledMeaning`, `RuleFields`, `ScopeMeaning`, `Prices`). A rule has a meaning on a schedule, a
  set of (member, date, shift type) cells. The worker's loops are methods that add statements to a model under construction; each method's
  contract says, for every valuation and every set of true assumption literals, what the added statements
  ask. `CompiledMeaning.Build` puts them together: the schedules that extend to a solution are exactly those
  that meet the rules whose literals are true, and the least objective value is what the SOFT rules are
  worth. `RuleFields` says what each HARD kind asks in the fields of the problem, `ScopeMeaning` what a scope
  makes of a rule and of the model, and `Prices` what one more assignment costs under each SOFT kind.
  `CheckerAgreement` compares the posted rules with the platform's independent re-check, and
  `DaysOff` compares dropping cells with forcing them to 0.
* **The explanation** (`Explain`): deletion-based shrinking with an oracle that may give up.
* **The build protocol** (`BuildProtocol`, `ProtocolSafety`, `ProtocolTiming`, `ProtocolProgress`, `BuildDatabase`): a
  transition system over any interleaving of claims, heartbeats, reaps, results, other writers and deliveries, and the
  statements of the code as methods on a database proved to be those steps.
* **The civil calendar** (`Calendar`), against RFC 3339, section 5.6, section 5.7 and Appendices B and C.
* **Smaller pieces**: the nested unit of work (`UnitOfWork`), the constituent diff (`ConstituentDiff`, `Sorting`),
  the two structural checks (`Readiness`) and the greedy fill (`GreedyFill`).

Where the code and its own comments disagree the model follows the code:

* `cpsat_adapter.py:319-324` says posting every close pair is the same as the adjacent-only rule. It is
  stricter: pairs on one date are compared by shift id and not by start time. `CheckerAgreement.RestAgreesIff`
  has the exact condition on the grid, `CheckerAgreement.RestedNeighboursRefused` a refused schedule.
* `cpsat_adapter.py:1196-1199` calls a single-element subset minimal by construction. That holds if and only if
  the unguarded part of the model is satisfiable (`Explain.MinimalNeedsUnguardedPart`, `Explain.UnguardedPartIff`);
  a required slot whose eligible members are all off makes it unsatisfiable without a structural finding
  (`Explain.MinimalClaimIsWrong`).
* A structural finding is called exact when it fires (`cpsat_adapter.py:1057-1060`, `readiness.ts:10-19`). The
  capacity findings are; those about a day's total and about conflicting fixed inputs are not, because
  nothing limits a member to one shift on a date (`Readiness.DemandCanBeMetIff`,
  `Readiness.DayFindingIsNoProof`, `Readiness.ConflictFindingIsNoProof`).
* A rolling window longer than the accounting window posts nothing (`CheckerAgreement.WindowsAgreeIff`,
  `CheckerAgreement.OverTheRollingMaximum`).
* SOFT rules can exclude schedules, through the cap on the work-percentage deviation
  (`DaysOff.SoftExcludesIff`, `DaysOff.WorkTargetFitsIff`, `DaysOff.CapAloneExcludes`).
* A pin on a day off is passed over in silence: `Compiler.PostPins` keeps only the pins that have a cell
  (`DaysOff.PinsAreKeptIff`, `DaysOff.PinOnDayOffIsPassedOver`).
* A unit of work whose callback swallows a failed statement reports success and stores nothing
  (`UnitOfWork.StoredIff`, `UnitOfWork.SwallowedFailureLosesRows`).

## Model

| member | source | states |
|---|---|---|
| Calendar.DayNumberCounts | solver/schedulepoint_solver/model.py:219-230 | `n` single days after 0001-01-01, counted by the month lengths and leap years of RFC 3339, the day number is the first one plus `n`, up to 9999-12-31 |
| Calendar.DayNumberOfNext | solver/schedulepoint_solver/model.py:219-230 | the next calendar date has the next day number, over month and year ends |
| Calendar.DateOfDayNumberOf | solver/schedulepoint_solver/model.py:233-244 | turning a calendar date into a day number and back gives the date |
| Calendar.DayNumberOfDate | solver/schedulepoint_solver/model.py:233-244 | turning a day number of the calendar into a date gives a real date, and back the number |
| Calendar.EveryDateIsCounted | solver/schedulepoint_solver/model.py:219-244 | every RFC 3339 date is reached by counting days, at its own day number |
| Calendar.DayNumberIncreases | solver/schedulepoint_solver/model.py:219-230 | day numbers are ordered as the dates are, both ways |
| Calendar.DateStringOrder | solver/schedulepoint_solver/model.py:607-611 | comparing two date strings character by character is comparing their day numbers, and equal strings are equal days |
| Calendar.ParseOfRender | solver/schedulepoint_solver/model.py:221-244 | the slices read from a rendered date are the date |
| Calendar.StringRoundTrip | solver/schedulepoint_solver/model.py:219-244 | both round trips, from strings to numbers and from numbers to strings |
| Calendar.WeekdayAdvances | solver/schedulepoint_solver/model.py:197-248 | the weekday moves on by one from each date to the next, over the week's end |
| Calendar.WeekdayAgreesWithAppendixB | solver/schedulepoint_solver/model.py:197-248 | the rotated weekday table gives the weekday of RFC 3339, Appendix B, on every date |
| Calendar.DayNumberExactIff | solver/schedulepoint_solver/model.py:225-230 | on negative years the day number is exact if and only if the March-based year is the last of its era, and one short otherwise |
| Problems.GridCells | solver/schedulepoint_solver/model.py:399-431 | the grid is sorted and holds exactly the eligible pairs on the dates nobody is off |
| Problems.HoldsOnScan | solver/schedulepoint_solver/model.py:379-397 | the scan says yes exactly if some active holding's half-open window has the date |
| Problems.WindowIsCut | solver/schedulepoint_solver/model.py:598-611 | the accounting window is the rule's range cut to the horizon, one contiguous run of days |
| LinearModel.Built.Enforce | solver/schedulepoint_solver/cpsat_adapter.py:93-101 | a HARD statement about recorded cells is posted behind its rule's literal in reify mode only: a valuation meets the new list exactly if it met the old one and, where the literal is on, the statement |
| LinearModel.AllLiteralsOn | solver/schedulepoint_solver/cpsat_adapter.py:93-101 | with every guard's literal true the list is met exactly if every statement holds |
| LinearModel.SumOfCells | solver/schedulepoint_solver/cpsat_adapter.py:111-119 | the sum over a list of distinct cells counts the picked ones |
| LinearModel.SumAtMostOne | solver/schedulepoint_solver/cpsat_adapter.py:439-440 | a sum of Booleans is at most one exactly if no two are true |
| LinearModel.SumIsFull | solver/schedulepoint_solver/cpsat_adapter.py:277-289 | a sum of Booleans reaches the length of the list exactly if all are true |
| MemberByDate.CallSpacingAt | solver/schedulepoint_solver/cpsat_adapter.py:364-386 | the pairs posted from one date with the early break keep every later call within reach away, and two calls on the date apart |
| MemberByDate.MinimumRestAt | solver/schedulepoint_solver/cpsat_adapter.py:333-358 | the pairs posted from one date, up to the day cut-off |
| MemberByDate.ForbiddenSequenceAt | solver/schedulepoint_solver/cpsat_adapter.py:403-420 | posted where every step of the sequence has a cell: the run is not taken whole; where one has none it cannot be |
| MemberByDate.MutuallyExclusiveAt | solver/schedulepoint_solver/cpsat_adapter.py:423-441 | posted where all named cells exist: at most one of them |
| MemberByDate.ImpliesAssignmentAt | solver/schedulepoint_solver/cpsat_adapter.py:423-443 | posted where both cells exist: the first implies the second |
| MemberByDate.LinkedShiftsAt | solver/schedulepoint_solver/cpsat_adapter.py:423-447 | posted where all named cells exist: all or none of them |
| MemberByDate.PatternRuleAt | solver/schedulepoint_solver/cpsat_adapter.py:482-500 | each segment inside the horizon whose cell exists follows the trigger |
| MemberByDate.MaxAssignmentsAt | solver/schedulepoint_solver/cpsat_adapter.py:291-307 | a whole window from the date holds at most the maximum |
| MemberByDate.NoAdjacentAt | solver/schedulepoint_solver/cpsat_adapter.py:389-401 | the two codes are not taken on the date and the next, in either order |
| MemberByDate.PerMember | solver/schedulepoint_solver/cpsat_adapter.py:291-500 | a rule of the member-by-date kinds: its statements, all members and dates together, mean the rule on the schedule; its literal is recorded exactly if some member and window date get a statement |
| MemberByDate.RestMeaning | solver/schedulepoint_solver/cpsat_adapter.py:333-358 | the rest pairs of all members and dates are the rule: no two scoped assignments of a compared pair too close |
| MemberByDate.CallMeaning | solver/schedulepoint_solver/cpsat_adapter.py:364-386 | the call pairs of all members and dates are the rule: any two calls of a member on different dates, far enough apart |
| HardRules.PostCoverage | solver/schedulepoint_solver/cpsat_adapter.py:190-213 | one statement for each window date and code: the scoped count compares with the bound |
| HardRules.PostBars | solver/schedulepoint_solver/cpsat_adapter.py:215-240 | qualification, staff group, valid group and avoided date: the barred scoped cells are 0, so the schedule has none |
| HardRules.PostKept | solver/schedulepoint_solver/cpsat_adapter.py:449-478 | fixed and protected inputs that have a cell are in the schedule |
| HardRules.DatesOnWeekday | solver/schedulepoint_solver/cpsat_adapter.py:255-256 | the window dates on a weekday, each once, in order |
| HardRules.PostWeekdayFteLimit | solver/schedulepoint_solver/cpsat_adapter.py:251-275 | a member's scoped assignments on the weekday stay within the tightest of the present limits |
| HardRules.PerDay | solver/schedulepoint_solver/cpsat_adapter.py:544-559 | the day variables say exactly whether the member works that day, and are posted unguarded |
| HardRules.PostNoLongRun | solver/schedulepoint_solver/cpsat_adapter.py:277-289 | with the day variables read, the guarded statements mean no run of calendar days longer than the maximum |
| HardRules.GroupedClasses | solver/schedulepoint_solver/cpsat_adapter.py:511-518 | the classes found are exactly the week classes with a cell; two are found exactly if two exist |
| HardRules.PostOneClass | solver/schedulepoint_solver/cpsat_adapter.py:501-525 | indicators are implied unguarded by their cells; behind the literal at most one is set; nothing is posted for a single class |
| HardRules.Translate | solver/schedulepoint_solver/cpsat_adapter.py:157-530 | one HARD rule of any kind: what it adds unguarded about its auxiliaries, and what behind its literal; in reify mode its literal is recorded exactly if the rule posts a statement behind it |
| SoftRules.ScaleWeightAgreesIff | solver/schedulepoint_solver/model.py:129-154 | the worker's scaling agrees with rounding half up if and only if the weight is not a negative half-way value |
| SoftRules.TierFor | solver/schedulepoint_solver/cpsat_adapter.py:708-732 | a rank's tier is found, or made in its place; tiers stay in order and the objective does not change |
| SoftRules.PreferenceTerms | solver/schedulepoint_solver/cpsat_adapter.py:619-634 | the terms of a preference are worth its signed coefficient times the number of assignments it speaks about |
| SoftRules.PostDeviation | solver/schedulepoint_solver/cpsat_adapter.py:636-657 | the deviation variable is at least the distance from the target and at most the number of window dates |
| SoftRules.PostDeviations | solver/schedulepoint_solver/cpsat_adapter.py:636-657 | the same for every member with a scoped cell; the terms are the coefficient times the sum of the deviations |
| SoftRules.CountEligibleDays | solver/schedulepoint_solver/model.py:734-746 | the days of the window on which the member is eligible for some scoped shift type |
| SoftRules.FairnessCoefficients | solver/schedulepoint_solver/model.py:700-768 | the burden of every measurable cell, divided as the normalisation says and rounded, and no other |
| SoftRules.BurdensNatural | solver/schedulepoint_solver/model.py:673-768 | burdens are never negative when credit weights are not |
| SoftRules.PostSpread | solver/schedulepoint_solver/cpsat_adapter.py:659-704 | with two loads to compare, the two bounds surround every load and stay within the sum of all burdens; with fewer nothing is posted |
| SoftRules.TranslateSoft | solver/schedulepoint_solver/cpsat_adapter.py:591-705 | one SOFT rule: what it posts, unguarded; its value added to the objective; and its key with its scaled weight added to the record of its own tier, the record otherwise unchanged |
| Compiler.PostDemand | solver/schedulepoint_solver/cpsat_adapter.py:103-119 | each slot with a cell is staffed exactly as required, behind the demand literal; a required slot without one is an unguarded contradiction; its literal is recorded exactly if some slot has a cell |
| Compiler.PostPins | solver/schedulepoint_solver/cpsat_adapter.py:121-131 | every pin that has a cell is taken, unguarded |
| Compiler.PostRules | solver/schedulepoint_solver/cpsat_adapter.py:133-149 | the rules in order: what they post together, the keys of the HARD ones, the objective as the sum of the SOFT ones, and every SOFT rule, unmapped kinds included, on record in the tier of its kind with the scaled weight it carried, and nothing else; the literals recorded, in order |
| CompiledMeaning.GuardIsSound | solver/schedulepoint_solver/cpsat_adapter.py:277-289 | whatever the auxiliaries are, a valuation meeting a rule's statements picks a schedule that meets the rule |
| CompiledMeaning.AuxReads | solver/schedulepoint_solver/cpsat_adapter.py:501-559 | every schedule has values for the day and week auxiliaries that meet their unguarded statements, so a released rule restricts nothing |
| CompiledMeaning.GuardReads | solver/schedulepoint_solver/cpsat_adapter.py:501-525 | with those values the guarded statements hold on every schedule that meets the rule |
| CompiledMeaning.SoftReads | solver/schedulepoint_solver/cpsat_adapter.py:591-705 | every schedule that fits the deviation bounds has values for the SOFT auxiliaries; the fairness bounds are always wide enough |
| CompiledMeaning.HighestIsMaximum | solver/schedulepoint_solver/cpsat_adapter.py:685-693 | every load lies between the two extremes, and these within the posted domain |
| CompiledMeaning.SpreadIsAttained | solver/schedulepoint_solver/cpsat_adapter.py:685-693 | the extremes are loads of members, if any member has one |
| CompiledMeaning.CostAtLeastWorth | solver/schedulepoint_solver/cpsat_adapter.py:591-705 | no choice of the auxiliaries makes a SOFT rule cheaper than its preference count, its weighted misses or its weighted spread |
| CompiledMeaning.CostReads | solver/schedulepoint_solver/cpsat_adapter.py:591-705 | the values read off the schedule cost exactly that |
| CompiledMeaning.Build | solver/schedulepoint_solver/cpsat_adapter.py:73-149 | for every problem, rule list and set of literals: a schedule extends to a solution exactly if it meets the unguarded statements and the groups whose literals are true; with all recorded literals true these are the ordinary model's schedules; the record of SOFT rules is complete; and its least objective value is the sum of what the SOFT rules are worth on it; its literals are exactly those of what posts a statement |
| CompiledMeaning.LiteralsIff | solver/schedulepoint_solver/cpsat_adapter.py:93-119 | in reify mode the literals of the built model are those of the demand, if some slot has a cell, and of the HARD rules that post a statement; in the ordinary model there are none |
| CompiledMeaning.FewerLiteralsAdmitMore | solver/schedulepoint_solver/cpsat_adapter.py:73-149 | assuming fewer literals loses no schedule, so feasibility is antitone in the assumption set |
| CompiledMeaning.AllLiteralsIsOrdinary | solver/schedulepoint_solver/cpsat_adapter.py:73-101 | with every literal true the assumption model and the ordinary model admit the same schedules |
| CompiledMeaning.ReleasedRuleAsksNothing | solver/schedulepoint_solver/cpsat_adapter.py:93-101 | a rule whose literal is false admits what leaving the rule out admits |
| CompiledMeaning.NothingNamesADayOff | solver/schedulepoint_solver/model.py:409-430 | no posted statement and no objective term of any rule names a cell on a day its member is off |
| CompiledMeaning.DaysOffAreUnheard | solver/schedulepoint_solver/model.py:409-430 | so what a valuation says about such cells, or any off the grid, changes neither whether it is a solution, nor the schedule it picks, nor its objective value |
| ScopeMeaning.AdmitsByField | solver/schedulepoint_solver/model.py:771-800 | a scope admits a cell exactly if the date is in the horizon and the range and the shift type and the member are named; each of the lists filters by itself |
| ScopeMeaning.NamingMoreIsEither | solver/schedulepoint_solver/model.py:778-799 | empty lists filter nothing, `[m]` leaves the cells of `m`, and a longer list of memberships, shift types or staff groups admits what either part admits |
| ScopeMeaning.ScopeIsItsMembers | solver/schedulepoint_solver/model.py:786-799 | a rule scoped to members is the rule for everybody on the assignments of those members alone |
| ScopeMeaning.OthersDoNotMatter | solver/schedulepoint_solver/model.py:786-799 | schedules that agree on the members named get the same verdict |
| ScopeMeaning.MemberByMember | solver/schedulepoint_solver/cpsat_adapter.py:162-189 | every kind but coverage and kept inputs accepts a schedule exactly if it accepts each member's part |
| ScopeMeaning.ScopedMembersAreBound | solver/schedulepoint_solver/model.py:786-799 | so a scoped rule is the rule for everybody on each named member alone: two names bind each of the two, and nobody else is bound |
| ScopeMeaning.ScopeIsItsCodes | solver/schedulepoint_solver/model.py:782-784 | a list of shift types leaves the assignments of those types, for the kinds that name no shift type themselves |
| ScopeMeaning.CoverageCodeByCode | solver/schedulepoint_solver/cpsat_adapter.py:190-213 | a coverage rule on a list of shift types is the rule on each of them |
| ScopeMeaning.ScopeIsItsDates | solver/schedulepoint_solver/model.py:779-781 | a range leaves the assignments on its dates, for rules on single assignments and on pairs of them |
| ScopeMeaning.ScopedRuleInTheModel | solver/schedulepoint_solver/cpsat_adapter.py:73-149 | in the built model a rule scoped to members adds what the rule for everybody asks of each named member alone |
| ScopeMeaning.AvoidedByOne | solver/schedulepoint_solver/cpsat_adapter.py:441-446 | two members for one shift and a rule that keeps one of them off the date: in the built model only the other can have it |
| RuleFields.CoverageInFields | solver/schedulepoint_solver/cpsat_adapter.py:190-213 | coverage, numbers: the scoped assignments of every window date and named shift type are at least, at most or exactly the count |
| RuleFields.WindowsInFields | solver/schedulepoint_solver/cpsat_adapter.py:291-307 | no `span` window dates in a row have more than the maximum of a member's scoped assignments |
| RuleFields.RunsInFields | solver/schedulepoint_solver/cpsat_adapter.py:277-289 | in one more than the maximum of window dates in a row there is one the member does not work |
| RuleFields.RoundedUp | solver/schedulepoint_solver/cpsat_adapter.py:257-261 | a share of the weekday's dates is rounded up |
| RuleFields.LimitInFields | solver/schedulepoint_solver/cpsat_adapter.py:251-275 | a count is within the weekday limit exactly if it is within each limit there is: the rule's share, the member's share, the member's maximum |
| RuleFields.WeekdayLimitInFields | solver/schedulepoint_solver/cpsat_adapter.py:251-275 | that limit bounds a member's scoped assignments on the weekday, with the window's dates on it counted |
| RuleFields.RestInFields | solver/schedulepoint_solver/cpsat_adapter.py:309-358 | the rest between two assignments in minutes: from the end, on the next date if it crosses midnight, to the start, for pairs by date and by shift id on one date, as far as the rule looks |
| RuleFields.CallsInFields | solver/schedulepoint_solver/cpsat_adapter.py:364-386 | two calls of a member are on different dates at least so many days apart |
| RuleFields.AdjacentInFields | solver/schedulepoint_solver/cpsat_adapter.py:389-401 | not the one code on a window date and the other on the next, in either order |
| RuleFields.SequenceInFields | solver/schedulepoint_solver/cpsat_adapter.py:402-418 | nobody works the codes of the sequence on consecutive dates |
| RuleFields.LinkedInFields | solver/schedulepoint_solver/cpsat_adapter.py:420-440 | where a member could work all the codes, all or none are worked |
| RuleFields.ExclusiveInFields | solver/schedulepoint_solver/cpsat_adapter.py:420-440 | where a member could work all the codes, no two are worked |
| RuleFields.ImpliedInFields | solver/schedulepoint_solver/cpsat_adapter.py:420-440 | whoever works the one and could work the other works it too |
| RuleFields.PatternInFields | solver/schedulepoint_solver/cpsat_adapter.py:474-500 | after the trigger on one of its weekdays each segment that could be worked is |
| RuleFields.WeeksInFields | solver/schedulepoint_solver/cpsat_adapter.py:501-525 | a member's dates of the code are in weeks of one class, weeks of seven days from the first window date |
| RuleFields.QualificationInFields | solver/schedulepoint_solver/cpsat_adapter.py:216-224 | whoever is assigned holds the qualification by an active holding that has begun and not ended |
| RuleFields.BarsInFields | solver/schedulepoint_solver/cpsat_adapter.py:225-240 | only members of the staff group, only shift types of the valid group, nobody on the avoided date |
| RuleFields.KeptInFields | solver/schedulepoint_solver/cpsat_adapter.py:448-473 | the fixed inputs of the identity, or of the protected dates, that could be taken are taken |
| RuleFields.DemandInFields | solver/schedulepoint_solver/cpsat_adapter.py:103-131 | a slot that could be staffed has exactly the required number, none where nothing is required; one that could not must not ask for anybody; pins that could be taken are |
| Prices.WeightInNumbers | solver/schedulepoint_solver/model.py:129-154 | a weight counts ten thousand times, to the nearest whole number, half-way cases away from zero |
| Prices.TargetInNumbers | solver/schedulepoint_solver/cpsat_adapter.py:636-640 | a work-percentage target is that share of the window's dates, to the nearest whole number and the even one of two |
| Prices.OneMoreAssignment | solver/schedulepoint_solver/cpsat_adapter.py:617-632 | one more assignment a preference is about adds the scaled weight for avoid and an avoided date, twice it for strong avoid, and takes off as much for prefer and strong prefer; any other adds nothing |
| Prices.OneMoreAtWeightOne | solver/schedulepoint_solver/cpsat_adapter.py:617-632 | at weight 1: 10000, 20000, -10000 and -20000 |
| Prices.PreferringPays | solver/schedulepoint_solver/cpsat_adapter.py:628-631 | with a weight that does not round to nothing, preferring is strictly cheaper and avoiding strictly dearer |
| Prices.OneMemberMoves | solver/schedulepoint_solver/cpsat_adapter.py:634-656 | a change of one member's assignments costs ten times the scaled weight for each step away from the target |
| Prices.AllOnTarget | solver/schedulepoint_solver/cpsat_adapter.py:634-656 | with every member on target nothing is charged |
| Prices.UnitsInNumbers | solver/schedulepoint_solver/model.py:673-697 | an assignment's burden by metric: 10000 for each, for each on a Saturday or Sunday, for each call, or its scaled credit weight |
| Prices.DivisorInNumbers | solver/schedulepoint_solver/model.py:713-748 | what it is divided by: nothing, the share of a full post, or the dates on which the member could be assigned; without one the member is left out |
| Prices.BurdenInNumbers | solver/schedulepoint_solver/model.py:753-768 | the coefficients are those quotients to the nearest whole number, of the allowed assignments in scope that carry a burden |
| Prices.OneMoreLoad | solver/schedulepoint_solver/cpsat_adapter.py:659-683 | one more assignment adds its burden to its member's load alone |
| Prices.SpreadTimes | solver/schedulepoint_solver/cpsat_adapter.py:695-704 | a fairness rule counts its spread a hundred times at weight 1, the hundredth part of the scaled weight in general, and never less than once |
| Prices.SpreadInNumbers | solver/schedulepoint_solver/cpsat_adapter.py:657-704 | it is worth that many times the largest load less the smallest, over the members with a burdened cell |
| Prices.OneRulePays | solver/schedulepoint_solver/cpsat_adapter.py:591-705 | the least objective values of two schedules that one rule tells apart differ by what that rule adds |
| Prices.RecordInNumbers | solver/schedulepoint_solver/model.py:110-125 | the record has fairness in tier 1, work percentages in 2, preferences in 3, with the scaled weight, and unmapped kinds in 99 |
| Prices.PreferredByOne | solver/schedulepoint_solver/cpsat_adapter.py:617-632 | two members for one shift and a preference about one of them: the least objective values of the built model are 0 and, by strength, -10000, -20000, 10000 or 20000 |
| DaysOff.AcceptsAlike | solver/schedulepoint_solver/model.py:409-430 | on the schedules of the small grid a HARD rule accepts the same on both grids, unless it reaches for a dropped cell |
| DaysOff.ReachingRuleDiffers | solver/schedulepoint_solver/cpsat_adapter.py:449-500 | a pattern tail or a kept input on a day off: some schedule is accepted on the small grid and refused on the full one |
| DaysOff.OnGridIsForcedOff | solver/schedulepoint_solver/model.py:409-430 | the schedules of the small grid are those of the full one with the dropped cells at 0 |
| DaysOff.DemandAlike | solver/schedulepoint_solver/model.py:409-430 | demand without negative counts is met alike on both grids |
| DaysOff.DroppingIsForcing | solver/schedulepoint_solver/model.py:409-430 | dropping the cells of days off and forcing them to 0 on the full grid give the same schedules, under any rules, if no pin and no rule reaches for a dropped cell |
| DaysOff.WorkTargetFitsIff | solver/schedulepoint_solver/cpsat_adapter.py:641-656 | the deviation bound excludes a schedule exactly if a member has more assignments than target and window dates together |
| DaysOff.OncePerDayFits | solver/schedulepoint_solver/cpsat_adapter.py:641-656 | nobody who works once a day is excluded by it |
| DaysOff.SoftExcludesIff | solver/schedulepoint_solver/cpsat_adapter.py:591-705 | the SOFT rules exclude a schedule the rest of the model admits exactly if some work-percentage target has no room for it |
| DaysOff.CapAloneExcludes | solver/schedulepoint_solver/cpsat_adapter.py:641-656 | a problem whose only schedule meeting demand is refused by one SOFT work-percentage target and admitted without it |
| DaysOff.PinsAreKeptIff | solver/schedulepoint_solver/cpsat_adapter.py:121-131 | the posted pins keep every pinned input, on all schedules, if and only if each pinned input has a cell |
| DaysOff.PinOnDayOffIsPassedOver | solver/schedulepoint_solver/cpsat_adapter.py:121-131 | a pinned input on a day off, and the empty schedule meeting the whole model |
| CheckerAgreement.RunTooLong | packages/domain/src/rules/hard-rule-check.ts:608-645 | the walk over the sorted distinct days reports a breach exactly if some run of consecutive days is longer than the maximum |
| CheckerAgreement.RunsAgree | solver/schedulepoint_solver/cpsat_adapter.py:277-289 | that walk and the posted windows agree on every schedule |
| CheckerAgreement.WindowsAgreeAt | packages/domain/src/rules/hard-rule-check.ts:651-690 | on one schedule the rolling windows of the check hold exactly if the posted whole windows hold and, where the accounting window is shorter than the rule's and nothing is posted, the total is within the maximum |
| CheckerAgreement.WindowsAgreeIff | packages/domain/src/rules/hard-rule-check.ts:651-690 | posted windows and rolling windows accept the same schedules, on all schedules, if and only if the accounting window is as long as the rule's or no member has more scoped cells than the maximum |
| CheckerAgreement.OverTheRollingMaximum | solver/schedulepoint_solver/cpsat_adapter.py:294-306 | one assignment in seven days on a horizon of two: the worker admits both days, the check does not |
| CheckerAgreement.AdjacentIsPairwise | packages/domain/src/rules/hard-rule-check.ts:574-606 | resting between neighbours in any chronological order is resting between any two assignments, at any distance |
| CheckerAgreement.BeyondReach | solver/schedulepoint_solver/cpsat_adapter.py:326-332 | pairs beyond the day cut-off rest long enough anyway |
| CheckerAgreement.RestAgreesAt | solver/schedulepoint_solver/cpsat_adapter.py:309-358 | on one schedule the posted rest rule holds exactly if every member's neighbours rest enough and, on each date, shift ids follow start times |
| CheckerAgreement.RestAgreesIff | solver/schedulepoint_solver/cpsat_adapter.py:309-358 | the posted rest rule accepts what the check of neighbours accepts, on all schedules, if and only if no member and date has two scoped cells that rest enough only against the order of their ids |
| CheckerAgreement.ReverseRefused | solver/schedulepoint_solver/cpsat_adapter.py:347-348 | any such pair alone is a schedule with rested neighbours that the worker refuses |
| CheckerAgreement.RestedNeighboursRefused | solver/schedulepoint_solver/cpsat_adapter.py:347-348 | a morning and an afternoon shift two hours apart, one hour asked for, and refused |
| CheckerAgreement.OnePerDateFollows | solver/schedulepoint_solver/cpsat_adapter.py:347-348 | with at most one assignment a date the second condition is met |
| CheckerAgreement.CallSpacingAgrees | packages/domain/src/rules/hard-rule-check.ts:719-752 | the posted pairs and the check of consecutive calls agree on every schedule |
| CheckerAgreement.LinkedAgreesIff | solver/schedulepoint_solver/cpsat_adapter.py:423-447 | the posted link accepts what the check accepts, on all schedules, if and only if on every date all or none of the named cells exist |
| CheckerAgreement.ImpliedAgreesIff | solver/schedulepoint_solver/cpsat_adapter.py:423-443 | the same for an implication: if and only if the first cell never exists without the second |
| CheckerAgreement.ExclusiveAgreesIff | solver/schedulepoint_solver/cpsat_adapter.py:423-440 | the same for exclusion: if and only if on every date all or at most one of the named cells exist |
| CheckerAgreement.PatternAgreesIff | solver/schedulepoint_solver/cpsat_adapter.py:482-500 | the same for a pattern: if and only if every trigger cell has a cell for each segment inside the horizon |
| CheckerAgreement.PreservedAgreesIff | solver/schedulepoint_solver/cpsat_adapter.py:449-478 | the same for kept inputs: if and only if each has a cell |
| Explain.Minimise | solver/schedulepoint_solver/cpsat_adapter.py:1172-1217 | the pass makes exactly the probes it may: fewer than 64, in time, with two keys left, none after one without an answer; what is left is what those answers leave, also when the last one is no answer; minimal is claimed exactly after a pass that is through or at one key with budget to spare; the result is a still-infeasible part of the input, and the claim is true on more than one key or with a satisfiable unguarded part |
| Explain.ProbesAreDetermined | solver/schedulepoint_solver/cpsat_adapter.py:1193-1215 | so the number of probes is determined by the answers and the clock |
| Explain.MinimalNeedsUnguardedPart | solver/schedulepoint_solver/cpsat_adapter.py:1196-1199 | no set with an element is minimal unless the unguarded part is satisfiable; for a single infeasible key that is the exact condition |
| Explain.UnguardedPartIff | solver/schedulepoint_solver/cpsat_adapter.py:108-131 | the unguarded part is satisfiable if and only if no slot is impossible and the pins alone leave room in every work-percentage target |
| Explain.ExplainInfeasible | solver/schedulepoint_solver/cpsat_adapter.py:1037-1141 | for every answer of the first solve, over the literals the model in reify mode records: the structural findings are those of the snapshot and make the state exact; without literals or after an error the subset is empty and no solve is counted; an infeasible answer reports exactly its core, as a subset or riding along with a finding, and an empty core as unavailable; an undecided one exceeds the budget, any other is unavailable; the shrinking is tried exactly for a core of several literals without a finding and reports the state, keys, counts and solves of its pass, or the first core if a probe raised; a minimal state is true if and only if the unguarded part is satisfiable, and always on more than one key |
| Explain.EnumeratedOneWay | solver/schedulepoint_solver/cpsat_adapter.py:1071-1074 | and a core is listed in one way only |
| Explain.MinimalClaimIsWrong | solver/schedulepoint_solver/cpsat_adapter.py:1196-1199 | a required member who is off and two rules that both post a statement: no structural finding, a first core of both literals, every probe answered correctly, and a single key reported as minimal that is not |
| Explain.TwoLiterals | solver/schedulepoint_solver/cpsat_adapter.py:93-101 | the literals of that model are those of its two rules |
| Readiness.StructuralFindings | solver/schedulepoint_solver/cpsat_adapter.py:766-822 | each finding of the worker's check is named exactly as often as the snapshot warrants |
| Readiness.FindingsSay | solver/schedulepoint_solver/cpsat_adapter.py:766-822 | a finding is there exactly if nobody is eligible for a wanted slot, or too few, or a date wants more than there are members, or a member has a fixed input after one of a smaller shift type on the date |
| Readiness.ReadinessFindings | apps/api/src/builds/readiness.ts:58-178 | the same for the platform's check, with its two findings about inconsistent requirements |
| Readiness.ConflictingFixed | solver/schedulepoint_solver/cpsat_adapter.py:809-822 | one conflict for each fixed input of a member and date after a smaller shift type, in either sort order |
| Readiness.ChecksAgreeIff | apps/api/src/builds/readiness.ts:94-119 | the two checks name the same findings as often, if and only if every positive requirement names a carried shift type and a date of the period |
| Readiness.CapacityFindingIsProof | solver/schedulepoint_solver/cpsat_adapter.py:766-796 | a capacity finding on an active shift type and a date of the horizon means no schedule meets the demand |
| Readiness.DemandCanBeMetIff | solver/schedulepoint_solver/cpsat_adapter.py:103-119 | demand alone can be met if and only if every slot has as many members who may be put there, days off counted |
| Readiness.DayFindingIsNoProof | solver/schedulepoint_solver/cpsat_adapter.py:795-808 | the finding about a day's total proves nothing: it fires on a problem whose demand a schedule meets |
| Readiness.ConflictFindingIsNoProof | solver/schedulepoint_solver/cpsat_adapter.py:809-822 | nor does the finding about two fixed inputs of a member and date: it fires on pinned inputs that a schedule keeps while it meets the demand |
| GreedyFill.BuildCandidate | solver/schedulepoint_solver/stub_solver.py:121-185 | the worker's loops compute the fill, sorted at the end |
| GreedyFill.PlaceAllFills | solver/schedulepoint_solver/stub_solver.py:158-175 | one cell's walk adds free candidates of the cell only, stops at the requirement, and if short has every candidate taken |
| GreedyFill.GreedyFills | solver/schedulepoint_solver/stub_solver.py:121-185 | with distinct demand cells: no added (member, date) is reused; no cell is past its requirement or what was fixed; `unfilled` is the shortfall of the final list; a short cell has no eligible member free that date |
| GreedyFill.CandidatesAre | solver/schedulepoint_solver/stub_solver.py:72-92 | the candidates are the participants eligible for the shift type, lowest identifier first |
| GreedyFill.FirstIsLowest | solver/schedulepoint_solver/stub_solver.py:158-175 | the first one placed is the lowest who is free that date |
| GreedyFill.LowestFreeFirst | solver/schedulepoint_solver/stub_solver.py:158-175 | nobody eligible who stays free comes before somebody who is placed |
| GreedyFill.WalkOrder | solver/schedulepoint_solver/stub_solver.py:95-110 | cells are walked by date and shift type, and the result is ordered by date, shift type and member |
| GreedyFill.GreedyForgetsOrder | solver/schedulepoint_solver/stub_solver.py:72-110 | the order of fixed inputs, demand and participants does not matter |
| Sorting.SortForgetsOrder | solver/schedulepoint_solver/stub_solver.py:182-184 | sorting by a key that tells the elements apart forgets the order of its input |
| ConstituentDiff.ClassesOf | apps/api/src/builds/constituent-diff.ts:214-229 | each class of change once, with its complete count, in order; the counts add up to the number of changes |
| ConstituentDiff.CompareConstituents | apps/api/src/builds/constituent-diff.ts:146-211 | the list is the full sorted change list cut at 20; the count and the classes are those of the full list; no change exactly if the two maps are equal |
| ConstituentDiff.EntriesSay | apps/api/src/builds/constituent-diff.ts:154-189 | added is in force and was not pinned, removed was pinned and is not in force, moved has two different revisions; each entry carries the two, and nothing else has an entry |
| ConstituentDiff.InOrder | apps/api/src/builds/constituent-diff.ts:191-229 | entries by kind and key, classes by kind with added before moved before removed |
| ConstituentDiff.ApplyGivesCurrent | apps/api/src/builds/constituent-diff.ts:146-189 | applying the full change list to the pinned map gives the current map |
| ConstituentDiff.DiffSwaps | apps/api/src/builds/constituent-diff.ts:146-189 | comparing the other way round swaps added and removed, entry by entry, in the same order |
| ConstituentDiff.DiffIsUnique | apps/api/src/builds/constituent-diff.ts:191-196 | the list depends on the two maps alone |
| ConstituentDiff.ClassesAreUnique | apps/api/src/builds/constituent-diff.ts:214-229 | the class list depends on the change list alone |
| ConstituentDiff.RevisionsForgetOrder | apps/api/src/builds/constituent-diff.ts:150-151 | two orders of the same distinct constituents are the same map |
| BuildDatabase.Database.AdmitBuildUnderCap | apps/api/src/builds/capacity.ts:139-143 | the lock and the count are the two protocol steps; at the cap the transaction ends and the job comes back |
| BuildDatabase.Database.ClaimQueuedBuild | apps/api/src/builds/claim.ts:90-130 | the conditional update with the database's guard is the commit step; it claims exactly if the run is still queued and its epoch was not passed, and then at the next epoch |
| BuildDatabase.Database.Heartbeat | apps/api/src/builds/claim.ts:139-154 | the heartbeat moves exactly if the run runs at the presented epoch, and says so |
| BuildDatabase.Database.AssertClaimIsCurrent | apps/api/src/builds/claim.ts:176-192 | the fence lets a result through exactly at the current epoch of a running run |
| BuildDatabase.Database.RecordSolveOutcome | apps/api/src/builds/runner.ts:520-545 | fence, result and closing move are one step; a refusal leaves its own row |
| BuildDatabase.Database.ReapStaleBuilds | apps/api/src/builds/reaper.ts:60-129 | the loop is one reap step for each listed stale row, and reports each row's old and new epoch |
| BuildDatabase.Database.RequeueOrphanedQueuedBuilds | apps/api/src/builds/queue.ts:153-172 | one more job for each listed run, and nothing else |
| BuildDatabase.Database.RunBuildSolveJob | apps/api/src/builds/queue-runner.ts:79-106 | an aborted delivery claims nothing; a delivery at the cap is deferred; otherwise it claims exactly if the run is queued, at the next epoch |
| BuildDatabase.ReapsEndTheStale | apps/api/src/builds/reaper.ts:86-126 | a reap fails exactly the listed runs that were stale, and moves each one's epoch on by one |
| BuildDatabase.ReapersDivideTheWork | apps/api/src/builds/reaper.ts:60-84 | two reapers that divide the rows leave the runs as one would |
| BuildDatabase.DeferredIsOver | apps/api/src/builds/capacity.ts:139-143 | after a deferral nothing of the delivery is left to do |
| ProtocolSafety.EpochsNeverDecrease | apps/api/migrations/0018_build_lifecycle.sql:770-777 | no step of anybody lowers an epoch, drops a run or moves it to another organization |
| ProtocolSafety.StepKeeps | apps/api/src/builds/claim.ts:76-192 | every step keeps the accounting of every run, the reads behind the epochs, the locks and the cap |
| ProtocolSafety.ResultsAreFenced | apps/api/src/builds/claim.ts:176-192 | over every run of the system no two claims of a run share an epoch, and every result row carries the epoch of the latest claim with no reap after it; a run has at most one |
| ProtocolSafety.TimelineConserves | apps/api/src/builds/claim.ts:105-130 | a run's epoch is its first one plus claims plus reaps; a running run's live claim is at its epoch; its moves are one unbroken chain; it was claimed no more often than it came into the queue |
| ProtocolSafety.HeartbeatIffLive | apps/api/src/builds/claim.ts:132-154 | a heartbeat succeeds exactly if the run still runs and its epoch is the live claim's |
| ProtocolSafety.CapacityHolds | apps/api/src/builds/capacity.ts:91-143 | an organization never runs more builds than the cap, in any interleaving of claims made under its lock |
| ProtocolTiming.ReapInFields | apps/api/src/builds/reaper.ts:60-124 | a reap takes a running run whose heartbeat is more than its timeout ago to failed at the next epoch, and changes nothing otherwise |
| ProtocolTiming.ClaimIsSafeUntil | apps/api/src/builds/claim.ts:90-130 | a run claimed at some time is not reaped until its timeout is over, and then ends at the epoch after the claim's |
| ProtocolTiming.HeartbeatIsSafeUntil | apps/api/src/builds/claim.ts:139-154 | the same from a heartbeat of the current claim |
| ProtocolTiming.ReapsTheOverdue | apps/api/src/builds/reaper.ts:60-84 | over every run of the system a reap takes a run exactly if it is at work and its last claim or successful heartbeat is more than its timeout ago |
| ProtocolTiming.EveryReapIsOverdue | apps/api/src/builds/reaper.ts:86-126 | so every reap on the timeline came more than the timeout after the last claim or successful heartbeat |
| ProtocolTiming.SweepInFields | apps/api/src/builds/queue.ts:153-172 | one more job for a queued run last written before the threshold, and for no other |
| ProtocolTiming.MoveInFields | apps/api/migrations/0018_build_lifecycle.sql:711-740 | another writer moves a run along the matrix, never to work |
| ProtocolTiming.InsertInFields | apps/api/migrations/0018_build_lifecycle.sql:953-985 | a result row goes in exactly at the epoch of a running run that has none |
| ProtocolProgress.ClaimedAtMostOnce | apps/api/migrations/0018_build_lifecycle.sql:711-740 | under the transition matrix a run is claimed at most once, however many deliveries of its job there are |
| ProtocolProgress.EnteredFrom | apps/api/migrations/0018_build_lifecycle.sql:711-740 | the transition matrix by target state |
| ProtocolProgress.OneClaimPerStay | apps/api/src/builds/claim.ts:90-130 | in every run of the system, whatever moves are allowed, a run came into the queue again between any two claims of it |
| ProtocolProgress.DeliveryWithoutClaim | apps/api/src/builds/queue-runner.ts:79-106 | a delivery that is turned away, deferred or rolled back leaves the run and the timeline as they were; deferred or rolled back, the job is there again and the lock free |
| ProtocolProgress.OnlyOneOfTwoClaims | apps/api/src/builds/claim.ts:90-105 | of two deliveries that read a run before either commits, one claims it at most |
| ProtocolProgress.OverdueRunCanStart | apps/api/src/builds/queue.ts:153-172 | from every reachable state with a free slot and an overdue queued run, some steps make it run |
| UnitOfWork.Client.Query | spikes/sp-a-isolation/src/unit-of-work.ts:147-167 | one statement: what the server does with it, or nothing when the backend is gone, but for a COMMIT carried out whose answer is lost |
| UnitOfWork.Client.RunAll | spikes/sp-a-isolation/src/unit-of-work.ts:292-297 | a callback on the savepoint stack has the rows, the stop and the outcome of the recursive meaning, and leaves the savepoints it started with |
| UnitOfWork.Client.WithNestedUnitOfWork | spikes/sp-a-isolation/src/unit-of-work.ts:325-370 | the same for a nested unit; a call of another organization or another group sends no statement and changes nothing, any other sends one; a nested unit that returned ran under settings of its own organization and group, if the enclosing one did |
| UnitOfWork.Client.SetContext | spikes/sp-a-isolation/src/unit-of-work.ts:228-240 | afterwards each setting reads as sent, or as before where the pooler lost it; with nothing lost they are the context's organization, group, membership and correlation |
| UnitOfWork.Client.WithUnitOfWork | spikes/sp-a-isolation/src/unit-of-work.ts:211-323 | a client that is not discarded has no open transaction and nothing left in its settings; it is discarded exactly if the backend is gone or the context did not read back; with the backend there the unit returns exactly if the context reads back and the callback comes to its end; one that returned stored what its meaning says, and one that threw stored nothing, or just that where the answer to its COMMIT was lost |
| UnitOfWork.MeaningReadOff | spikes/sp-a-isolation/src/unit-of-work.ts:292-300 | rows, stop and outcome of a callback, read off its tree: the transaction is stopped if and only if a failing statement is reached outside a nested unit |
| UnitOfWork.MeaningIsPlain | spikes/sp-a-isolation/src/unit-of-work.ts:325-370 | if no unit swallows a failing statement of its own, a failed block vanishes and a finished one merges |
| UnitOfWork.StoredIsPlain | spikes/sp-a-isolation/src/unit-of-work.ts:292-300 | and a unit that returned stored exactly that |
| UnitOfWork.RetenantingChangesNothing | spikes/sp-a-isolation/src/unit-of-work.ts:330-338 | a nested call of another organization or another group, caught or not, changes nothing, in either meaning |
| UnitOfWork.SameTenantRuns | spikes/sp-a-isolation/src/unit-of-work.ts:340-370 | one of the same organization and group is its body: its rows if it comes to its end unhit, and none otherwise |
| UnitOfWork.ReadsBackIff | spikes/sp-a-isolation/src/unit-of-work.ts:243-262 | the read-back succeeds always with transaction affinity, and else exactly if what is lost was there before |
| UnitOfWork.LossIsFoundOut | spikes/sp-a-isolation/src/unit-of-work.ts:243-290 | on a cleared client a pooler that loses the group of a context that has one is found out |
| UnitOfWork.StoredIff | spikes/sp-a-isolation/src/unit-of-work.ts:298-300 | a unit that returned stored what its callback wrote if and only if no failing statement is reached outside a nested unit, or nothing was written before it; otherwise it stored nothing |
| UnitOfWork.SwallowedFailureLosesRows | spikes/sp-a-isolation/src/unit-of-work.ts:298-300 | a swallowed failed statement: the unit reports success and stores none of its rows |

## Left out

- CompiledMeaning.Build: the solver's search is not modelled, only what a solution of the posted model is; parameters, threads, statistics and the notes of the recorded tiers are left out.
- CompiledMeaning.CostAtLeastWorth: weights, percentages and burdens are reals, so the rounding of binary floats before the final integer rounding is not captured.
- MemberByDate.MinimumRestAt: rest is in whole minutes, as the catalogue's times are.
- SoftRules.BurdensNatural: credit weights are taken as non-negative, as the catalogue's own constraint has them; a negative one would leave the fairness variables no room.
- HardRules.Translate: authored numbers are taken in the ranges rule validation enforces (positive window lengths, hours and spacings, fractions between 0 and 1); the refusals themselves are not modelled.
- Problems.GridCells: identifiers are integers, of which only equality and order are used; dates are day numbers, which `Calendar.DateStringOrder` justifies; active shift types have distinct codes.
- SoftRules.TranslateSoft: the notes of a tier (metric, normalisation, too few participants) are left out.
- SoftRules.ScaleWeightAgreesIff: weights are reals, so the rounding of a binary float before the half-way test is not captured.
- SoftRules.FairnessCoefficients: real division stands for float division.
- CheckerAgreement.RestAgreesIff: takes the chronological list of each member as given, as any list sorted by start instant, and shift times as the catalogue's constraint has them: ending after they start, the next day exactly if they cross midnight.
- CheckerAgreement.PreservedAgreesIff: an input is found by its cell, not by its identity row.
- Explain.Minimise: time is a function of the number of probes.
- Readiness.StructuralFindings: the detail texts, and the sorting of the demand rows and days, are left out; the fixed inputs come in the check's own sort order.
- BuildDatabase.Database.ReapStaleBuilds: the rows the reaper could lock are given; skipping locked rows is any choice of them.
- BuildDatabase.Database.AdmitBuildUnderCap: waiting for the advisory lock is not modelled, a claim that cannot have it simply has not taken its step.
- BuildDatabase.Database.RecordSolveOutcome: the violations and the candidate rows written with a result are left out.
- BuildDatabase.Database.RunBuildSolveJob: the configuration and snapshot reads between claim and commit are left out; when they fail the claim is rolled back, which is the abort step.
- ProtocolProgress.OverdueRunCanStart: shows that some steps start the run, not that a scheduler takes them.
- UnitOfWork.Client.WithUnitOfWork: the alert's text and the list of poisoned process ids are left out.
- GreedyFill.BuildCandidate: the location carried along with an assignment is left out.
- ConstituentDiff.CompareConstituents: kinds, keys and revisions are integers standing for strings in one fixed collation; assembly refusals are left out.
- The parameters, the cancellation watcher, the stub's dwelling and wedged behaviours, and the wire protocol of the worker.
- The queue's pool registry and timers, job payload parsing, and the reading of the cap from the environment.
- Row-level security, the other tables of the build lifecycle, and the approval and selection gates.
