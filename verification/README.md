# Schedule and meeting request validation

This project models the request-validation layer of the schedule and meeting
API (`schedule/schedule.go`). Each API request has a pure `Check` validator.
It either accepts the request or rejects it with one invalid-argument error
naming the first rule the request breaks. There are two shared
sub-validators. One checks a recurrence rule (`ScheduleRepeatInfo`). The other
checks meeting settings (`MeetingSettings`). The request validators check
their own fields, then delegate to these. Creating a schedule is the only
validation that rewrites its request. An omitted type becomes SCHEDULE, and
settings sent with a SCHEDULE are dropped. Updating rejects that same
combination instead.

Modules:

- `Wrappers`: `Option` (a nil pointer field is `None`), `Result` and `Outcome`.
- `Validation`: the integer widths, the `Rule` each error names, the single
  error kind `InvalidArgument(rule)`, and the shared convention for stating
  first-failure-wins.
- `Recurrence`, `MeetingRules`: the two sub-validators.
- `ScheduleRequests`: create, update and delete.
- `ScheduleQueries`: get/accept/reject/set-reminder, list, conflict check and
  month queries.
- `ScheduleMessages`: sending schedules to chats.
- `ScheduleGroups`: the schedule-group requests.
- `Scenarios`: worked examples on concrete requests.

Every validator comes with three things:

1. A declarative `Valid…` predicate stating what an acceptable request is,
   written in domain terms. For example, the recurrence rule is judged against
   a `CompatibleUnits` table rather than the Go validator's chain of tests. The
   validator's contract is `Pass <==> Valid…`.
2. A rule table. `Rank(k)` is the position at which the validator checks rule
   `k`, and `Breaks(x, k)` is the rule's own violation condition.
3. A `…ReportsFirst` statement. A rejection names a rule the request really
   breaks, and the request satisfies every rule checked before it. For create
   and update this is composed: first their own rules, then the first rule the
   settings validator reports, then the first rule the recurrence validator
   reports.

Assumptions about code that is not part of this model:

- The generated enumerations are not visible.
- `ScheduleType` is modelled as `Unspecified` (wire value 0), `Schedule`,
  `Meeting`, or `Unrecognised`, which stands for every other wire value. The model assumes SCHEDULE is not the
  value 0, as the explicit test for 0 at `schedule/schedule.go:150` suggests.
  As a result, an update that explicitly sends type 0 is rejected as an invalid
  type.
- `CallReminderType` is `Specified` or `NotSpecified` (every other value),
  because only SPECIFIED is referenced.

Two behaviours of the update validator worth knowing:

- An update's title is never checked, even when sent (`UpdateIgnoresTitle`).
- On update, settings sent without a type are validated on their own, and the
  type/settings consistency rule applies only when a type is sent
  (`UpdateValidatesUntypedSettings`).

## Model

| member | source | states |
|---|---|---|
| Recurrence.DaysInRange | schedule/schedule.go:82-86 | the day scan succeeds exactly when every listed day lies in 0..6 |
| Recurrence.Check | schedule/schedule.go:22-108 | a rule with empty repeat type is accepted whatever else it holds; otherwise it is accepted exactly when the repeat type has a row in the compatibility table (daily: day or weekday; weekly: week; monthly: month; yearly: year), the unit is in that row, the interval is positive, a weekly rule lists a day, all days are in 0..6, at most one end condition is set, and the repetition count is in 0..1000 |
| Recurrence.CheckReportsFirst | schedule/schedule.go:34-105 | a rejection names a rule the input breaks, and every rule checked earlier holds |
| Recurrence.RuleTableMatchesValid | schedule/schedule.go:22-108 | the rule table read as a conjunction accepts exactly what the validator accepts |
| Recurrence.IncompatibleUnitRejected | schedule/schedule.go:58-70 | a unit outside the repeat type's compatibility row is always rejected |
| Recurrence.DaysOfWeekRules | schedule/schedule.go:72-86 | a weekly rule with no day is rejected; any day outside 0..6 in a repeating rule is rejected; a daily rule counted in weekdays may omit the days |
| Recurrence.EndConditionRules | schedule/schedule.go:88-105 | end date and repetition count together are rejected; with at most one set, that rule is never the one reported; an accepted repeating rule has 0 <= repeatTimes <= 1000 |
| MeetingRules.ByteLength | schedule/schedule.go:118 | the password length as Go's `len` counts it (UTF-8 bytes) is at least the character count, and equals it exactly when all characters are ASCII |
| MeetingRules.AllDigits | schedule/schedule.go:122-126 | the character scan succeeds exactly when every character is '0'..'9' |
| MeetingRules.Check | schedule/schedule.go:111-135 | settings are accepted exactly when an enabled password is a PIN of 4 to 6 decimal digits and a SPECIFIED call reminder names at least one user; with neither flag set they are always accepted |
| MeetingRules.CheckReportsFirst | schedule/schedule.go:113-133 | a rejection names a rule the settings break, and every rule checked earlier holds (empty password, then length, then digits, then reminder users) |
| MeetingRules.RuleTableMatchesValid | schedule/schedule.go:111-135 | the rule table read as a conjunction accepts exactly what the validator accepts |
| MeetingRules.AcceptedPasswordLengthsAgree | schedule/schedule.go:117-126 | for an accepted password the byte length equals the character length and lies in 4..6 |
| ScheduleRequests.CheckOptionalRepeat | schedule/schedule.go:169-173 | an absent recurrence rule passes; a present one passes exactly when it is valid, and its error is passed on unchanged |
| ScheduleRequests.CheckCreate | schedule/schedule.go:138-175 | create succeeds exactly when the title is non-empty, 0 < startTime < endTime, the type is not unrecognised, a MEETING carries valid settings, and a present recurrence rule is valid; on success the type 0 or SCHEDULE becomes SCHEDULE with no settings, a MEETING keeps its settings, no other field changes, and the result is a consistent item |
| ScheduleRequests.CreateIsIdempotent | schedule/schedule.go:149-156 | validating an already accepted create request returns it unchanged |
| ScheduleRequests.CheckCreateReportsFirst | schedule/schedule.go:140-173 | a rejected create names the first broken rule: its own rules in order, then the settings validator's first rule for a MEETING, then the recurrence validator's first rule |
| ScheduleRequests.CheckUpdate | schedule/schedule.go:178-227 | update is accepted exactly when the schedule and operator IDs are present, a fully sent time window is ordered, a sent type is SCHEDULE or MEETING with settings sent exactly for MEETING, sent settings are valid, and a sent recurrence rule is valid |
| ScheduleRequests.UpdateOwnRules | schedule/schedule.go:179-213 | update's own rules hold exactly when the identifiers, the sent window and the type/settings consistency hold; otherwise the first one broken is reported |
| ScheduleRequests.CheckUpdateReportsFirst | schedule/schedule.go:179-225 | a rejected update names the first broken rule: its own rules in order, then the settings validator's first rule, then the recurrence validator's first rule |
| ScheduleRequests.UpdateIgnoresTitle | schedule/schedule.go:178-227 | the outcome of an update does not depend on its title |
| ScheduleRequests.UpdateHalfWindowUnchecked | schedule/schedule.go:186-193 | with only the start sent, changing it does not affect the outcome; with only the end sent, changing it does not affect the outcome |
| ScheduleRequests.UpdateValidatesUntypedSettings | schedule/schedule.go:214-219 | settings sent without a type are validated alone and their error is returned |
| ScheduleRequests.CreateClearsWhatUpdateRejects | schedule/schedule.go:150-210 | for SCHEDULE with settings, create succeeds with the settings cleared while update fails with the settings-not-allowed error |
| ScheduleRequests.CheckDelete | schedule/schedule.go:230-238 | delete is accepted exactly when schedule and operator IDs are present; the schedule ID is reported first |
| ScheduleQueries.CheckMember | schedule/schedule.go:241-249 | get (and identically accept 271-279, reject 282-290, set-reminder 293-301) is accepted exactly when schedule and user IDs are present; the schedule ID is reported first |
| ScheduleQueries.CheckGetSchedules | schedule/schedule.go:252-268 | a list query is accepted exactly when two positive time bounds are ordered and a page request has pageNumber >= 1 and showNumber >= 1; the first broken rule is reported |
| ScheduleQueries.OpenEndedListQueryHasNoTimeError | schedule/schedule.go:254-258 | a non-positive time bound switches the time check off entirely |
| ScheduleQueries.CheckConflict | schedule/schedule.go:304-315 | a conflict check is accepted exactly when it names a user and 0 < startTime < endTime; the first broken rule is reported |
| ScheduleQueries.CheckMonthQuery | schedule/schedule.go:318-343 | both month queries are accepted exactly when the user is present, the year is positive and the month is in 1..12; the first broken rule is reported |
| ScheduleMessages.CheckSend | schedule/schedule.go:346-373 | a send is accepted exactly when a schedule is named, the mode is 0 or 1, and mode 0 has users and no groups; the first broken rule is reported |
| ScheduleMessages.MissingUsersReportedBeforeGroups | schedule/schedule.go:358-365 | in mode 0 with no users, the missing-users error is reported whatever the groups hold |
| ScheduleMessages.ForwardAcceptsAnyRecipients | schedule/schedule.go:366-368 | mode 1 accepts any users and groups, including none |
| ScheduleGroups.CheckGroupReq | schedule/schedule.go:376-416 | each group request is accepted exactly when the owner (init, get-all, create), group name (create) and group ID (update, delete) it carries are present; the owner is reported before the name |
| Scenarios.UntypedCreateBecomesSchedule | schedule/schedule.go:150-155 | an untyped create with settings succeeds as a SCHEDULE without settings |
| Scenarios.ReversedCreateRejected | schedule/schedule.go:146-148 | a create ending before it starts fails with the end-time error |
| Scenarios.ScheduleUpdateWithSettingsRejected | schedule/schedule.go:206-210 | an update typed SCHEDULE with settings fails |
| Scenarios.LetterInPasswordRejected | schedule/schedule.go:122-126 | "12a4" is rejected as not numeric |
| Scenarios.SixDigitPasswordAccepted | schedule/schedule.go:113-127 | "123456" is accepted |
| Scenarios.GroupOnlySendReportsUsers | schedule/schedule.go:358-365 | a mode 0 send with a group but no users reports the missing users |

## Left out

- The error message texts. Each distinct message is one `Rule` constructor,
  and the error wrapping library is reduced to `InvalidArgument(rule)`.
- Request fields that no validator reads, such as descriptions and participants.
  They live in generated message definitions that are not part of this model.
  `CreateScheduleReq` keeps `creatorUserID` to show that create leaves other
  fields unchanged.
- The numeric values of the generated enumerations, for the reason given above.
- Strings that are not valid UTF-8. The model's strings are sequences of
  Unicode scalar values, and the Go rune loop would read an invalid byte as U+FFFD,
  which is not a digit.
- Downstream work: persistence, conflict detection, recurrence expansion
  (including the Monday to Friday default for weekday rules without days) and
  message delivery. None of it is in the validators.
- ScheduleRequests.CheckCreate: the request left behind on a failed create is
  not modelled. The Go validator rewrites the type and clears the settings of
  a type 0 or SCHEDULE request before it checks the recurrence rule, so a
  create rejected by that rule still reaches its caller rewritten. The model
  returns only the error on failure.
- `mage_output_file.go`, a generated build-tool entry point with no validation
  logic.
- `constant/constant.go`, a table of constants whose two one-line predicates
  the validators do not use.
