/**
  The vocabulary shared by all request validators: wire integer widths, the
  single error kind, the rules whose violation it reports, and what it means
  for a validator to report the FIRST violated rule.
 */
module Validation {

  /** Signed integers of the widths the request messages carry. */
  type Int32 = x: int | -0x8000_0000 <= x < 0x8000_0000
  type Int64 = x: int | -0x8000_0000_0000_0000 <= x < 0x8000_0000_0000_0000

  /** One constructor per distinct rule a validator can report as violated. */
  datatype Rule =
    // recurrence rule
    | RepeatTypeUnknown          // repeat type outside daily/weekly/monthly/yearly
    | IntervalNotPositive        // interval is zero or negative
    | UnitTypeRequired           // unit type missing while a repeat type is set
    | UnitTypeUnknown            // unit type outside day/weekday/week/month/year
    | DailyUnitMismatch          // daily repetition counted in something else than days or weekdays
    | WeeklyUnitMismatch         // weekly repetition not counted in weeks
    | MonthlyUnitMismatch        // monthly repetition not counted in months
    | YearlyUnitMismatch         // yearly repetition not counted in years
    | WeeklyDaysRequired         // weekly repetition without any day of the week
    | DayOfWeekOutOfRange        // a day of the week outside 0 (Sunday) .. 6 (Saturday)
    | EndDateWithRepeatTimes     // both end conditions given
    | RepeatTimesNegative        // negative repetition count
    | RepeatTimesTooLarge        // repetition count above the cap
    // meeting settings
    | PasswordRequired           // password enabled but empty
    | PasswordLength             // password shorter than 4 or longer than 6 bytes
    | PasswordNotNumeric         // password holds a character other than a decimal digit
    | CallReminderUsersRequired  // reminder of specified members without any member
    // schedule create / update / delete and queries
    | TitleEmpty
    | StartTimeInvalid           // start time not positive
    | EndNotAfterStart           // end time not strictly after start time
    | MeetingSettingsRequired    // type MEETING without meeting settings
    | MeetingSettingsNotAllowed  // type SCHEDULE given together with meeting settings
    | ScheduleTypeInvalid        // type neither SCHEDULE nor MEETING (nor defaulted)
    | ScheduleIDEmpty
    | OperatorUserIDEmpty
    | UserIDEmpty
    | UserIDsRequired            // conflict check without any user
    | PageNumberInvalid
    | ShowNumberInvalid
    | YearInvalid
    | MonthOutOfRange
    // schedule messages
    | ScheduleIDsRequired
    | SendUserIDsRequired        // mode 0 without users
    | SendGroupIDsNotSupported   // mode 0 with groups
    | SendModeInvalid
    // schedule groups
    | OwnerUserIDEmpty
    | GroupNameRequired
    | GroupIDRequired

  /** A time window with a positive start and an end strictly after it. */
  predicate IsTimeWindow(start: int, end: int)
  {
    0 < start < end
  }

  /** The only error kind: an invalid argument naming the violated rule. */
  datatype Error = InvalidArgument(rule: Rule)

  /*
    Every validator checks its rules one after another and stops at the
    first violation. Each validator module states this with the same three
    members: `Rank(k)`, the position at which it checks rule `k` (0 when it
    never checks `k`); `Breaks(x, k)`, whether request `x` violates `k`; and
    `ReportsFirst(x, e)`, which holds when `e` is one of its rules, `x`
    violates it, and `x` satisfies every rule checked before `e`.
   */
}
