/**
  The recurrence rule of a schedule (`ScheduleRepeatInfo`) and its validator.
  An empty repeat type means "does not repeat" and is valid whatever the other
  fields hold; otherwise the rule is checked field by field and the first
  violation is reported.
 */
module Recurrence {
  import opened Wrappers
  import opened Validation

  datatype ScheduleRepeatInfo = ScheduleRepeatInfo(
    repeatType: string,
    interval: Int32,
    unitType: string,
    repeatDaysOfWeek: seq<Int32>,  // 0 = Sunday .. 6 = Saturday
    endDate: Int64,                // 0 = no end date
    repeatTimes: Int32)            // 0 = no repetition count

  const RepeatTypes: set<string> := {"daily", "weekly", "monthly", "yearly"}
  const UnitTypes: set<string> := {"day", "weekday", "week", "month", "year"}

  /** Upper bound on the number of repetitions. */
  const MaxRepeatTimes := 1000


  /** The units each repeat type may be counted in. */
  const CompatibleUnits: map<string, set<string>> := map[
    "daily" := {"day", "weekday"},
    "weekly" := {"week"},
    "monthly" := {"month"},
    "yearly" := {"year"}]

  predicate IsDayOfWeek(d: int)
  {
    0 <= d <= 6
  }

  /** The scan over the days of the week: true when no day is out of range. */
  function DaysInRange(days: seq<Int32>): (ok: bool)
    ensures ok <==> forall i :: 0 <= i < |days| ==> IsDayOfWeek(days[i])
  {
    |days| == 0 || (IsDayOfWeek(days[0]) && DaysInRange(days[1..]))
  }

  /**
    What an acceptable rule is: no repetition at all, or a known repeat type
    counted in a unit its row of the compatibility table allows, a positive
    interval, at least one day for weekly repetition, only real days of the
    week, at most one end condition and a repetition count within the cap.
   */
  ghost predicate ValidRepeatInfo(x: ScheduleRepeatInfo)
  {
    || x.repeatType == ""
    || ( && x.repeatType in CompatibleUnits
         && x.interval > 0
         && x.unitType in CompatibleUnits[x.repeatType]
         && (x.repeatType == "weekly" ==> |x.repeatDaysOfWeek| > 0)
         && (forall d :: d in x.repeatDaysOfWeek ==> IsDayOfWeek(d))
         && !(x.endDate > 0 && x.repeatTimes > 0)
         && 0 <= x.repeatTimes <= MaxRepeatTimes)
  }

  /** Position of each rule in the order the validator checks them. */
  function Rank(k: Rule): nat
  {
    match k
    case RepeatTypeUnknown => 1
    case IntervalNotPositive => 2
    case UnitTypeRequired => 3
    case UnitTypeUnknown => 4
    case DailyUnitMismatch => 5
    case WeeklyUnitMismatch => 6
    case MonthlyUnitMismatch => 7
    case YearlyUnitMismatch => 8
    case WeeklyDaysRequired => 9
    case DayOfWeekOutOfRange => 10
    case EndDateWithRepeatTimes => 11
    case RepeatTimesNegative => 12
    case RepeatTimesTooLarge => 13
    case _ => 0
  }

  /** Whether a repeating rule violates `k`; a non-repeating rule violates nothing. */
  predicate Breaks(x: ScheduleRepeatInfo, k: Rule)
  {
    && x.repeatType != ""
    && match k
       case RepeatTypeUnknown => x.repeatType !in RepeatTypes
       case IntervalNotPositive => x.interval <= 0
       case UnitTypeRequired => x.unitType == ""
       case UnitTypeUnknown => x.unitType !in UnitTypes
       case DailyUnitMismatch => x.repeatType == "daily" && x.unitType !in {"day", "weekday"}
       case WeeklyUnitMismatch => x.repeatType == "weekly" && x.unitType != "week"
       case MonthlyUnitMismatch => x.repeatType == "monthly" && x.unitType != "month"
       case YearlyUnitMismatch => x.repeatType == "yearly" && x.unitType != "year"
       case WeeklyDaysRequired => x.repeatType == "weekly" && |x.repeatDaysOfWeek| == 0
       case DayOfWeekOutOfRange => exists i :: 0 <= i < |x.repeatDaysOfWeek| && !IsDayOfWeek(x.repeatDaysOfWeek[i])
       case EndDateWithRepeatTimes => x.endDate > 0 && x.repeatTimes > 0
       case RepeatTimesNegative => x.repeatTimes < 0
       case RepeatTimesTooLarge => x.repeatTimes > MaxRepeatTimes
       case _ => false
  }

  /** The validator of a recurrence rule (`ScheduleRepeatInfo.Check`). */
  function Check(x: ScheduleRepeatInfo): (r: Outcome<Error>)
    ensures x.repeatType == "" ==> r.Pass?
    ensures r.Pass? <==> ValidRepeatInfo(x)
  {
    if x.repeatType == "" then Pass
    else if x.repeatType !in RepeatTypes then Fail(InvalidArgument(RepeatTypeUnknown))
    else if x.interval <= 0 then Fail(InvalidArgument(IntervalNotPositive))
    else if x.unitType == "" then Fail(InvalidArgument(UnitTypeRequired))
    else if x.unitType !in UnitTypes then Fail(InvalidArgument(UnitTypeUnknown))
    else if x.repeatType == "daily" && x.unitType != "day" && x.unitType != "weekday" then
      Fail(InvalidArgument(DailyUnitMismatch))
    else if x.repeatType == "weekly" && x.unitType != "week" then Fail(InvalidArgument(WeeklyUnitMismatch))
    else if x.repeatType == "monthly" && x.unitType != "month" then Fail(InvalidArgument(MonthlyUnitMismatch))
    else if x.repeatType == "yearly" && x.unitType != "year" then Fail(InvalidArgument(YearlyUnitMismatch))
    else if x.repeatType == "weekly" && |x.repeatDaysOfWeek| == 0 then Fail(InvalidArgument(WeeklyDaysRequired))
    else if !DaysInRange(x.repeatDaysOfWeek) then Fail(InvalidArgument(DayOfWeekOutOfRange))
    else if x.endDate > 0 && x.repeatTimes > 0 then Fail(InvalidArgument(EndDateWithRepeatTimes))
    else if x.repeatTimes < 0 then Fail(InvalidArgument(RepeatTimesNegative))
    else if x.repeatTimes > 0 && x.repeatTimes > MaxRepeatTimes then Fail(InvalidArgument(RepeatTimesTooLarge))
    else Pass
  }

  /** Every unit outside a repeat type's row of the compatibility table is rejected. */
  lemma IncompatibleUnitRejected(x: ScheduleRepeatInfo)
    requires x.repeatType in CompatibleUnits && x.unitType !in CompatibleUnits[x.repeatType]
    ensures Check(x).Fail?
  {
  }

  /**
    Days of the week: weekly repetition needs at least one day, a day outside
    0..6 is always rejected, and daily repetition on weekdays may leave the
    days out (the consumer then picks Monday to Friday).
   */
  lemma DaysOfWeekRules(x: ScheduleRepeatInfo)
    ensures x.repeatType == "weekly" && |x.repeatDaysOfWeek| == 0 ==> Check(x).Fail?
    ensures x.repeatType != "" && (exists i :: 0 <= i < |x.repeatDaysOfWeek| && !IsDayOfWeek(x.repeatDaysOfWeek[i]))
      ==> Check(x).Fail?
    ensures && x.repeatType == "daily" && x.unitType == "weekday" && x.interval > 0
            && |x.repeatDaysOfWeek| == 0 && x.endDate <= 0 && 0 <= x.repeatTimes <= MaxRepeatTimes
            ==> Check(x).Pass?
  {
  }

  /**
    End conditions: a rule with both an end date and a repetition count is
    rejected, a rule with at most one of them is never rejected for that
    reason, and an accepted rule repeats at most `MaxRepeatTimes` times.
   */
  lemma EndConditionRules(x: ScheduleRepeatInfo)
    ensures x.repeatType != "" && x.endDate > 0 && x.repeatTimes > 0 ==> Check(x).Fail?
    ensures !(x.endDate > 0 && x.repeatTimes > 0) && Check(x).Fail? ==> Check(x).error.rule != EndDateWithRepeatTimes
    ensures x.repeatType != "" && Check(x).Pass? ==> 0 <= x.repeatTimes <= MaxRepeatTimes
  {
  }

  /** `e` is the first rule, in checking order, that `x` violates. */
  ghost predicate ReportsFirst(x: ScheduleRepeatInfo, e: Rule)
  {
    && Rank(e) > 0
    && Breaks(x, e)
    && forall k :: 0 < Rank(k) < Rank(e) ==> !Breaks(x, k)
  }

  /** `x` violates none of the rules the validator checks. */
  ghost predicate NoneBroken(x: ScheduleRepeatInfo)
  {
    forall k :: Rank(k) > 0 ==> !Breaks(x, k)
  }

  /** A rejection names the first rule, in checking order, that the input violates. */
  lemma CheckReportsFirst(x: ScheduleRepeatInfo)
    ensures Check(x).Fail? ==> ReportsFirst(x, Check(x).error.rule)
  {
  }

  /** Read as a conjunction, the rule table describes exactly the acceptable inputs. */
  lemma RuleTableMatchesValid(x: ScheduleRepeatInfo)
    ensures NoneBroken(x) <==> Check(x).Pass?
  {
    if Check(x).Fail? {
      CheckReportsFirst(x);
    }
  }
}
