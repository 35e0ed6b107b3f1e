/**
  Requests that read schedules or answer an invitation. Their validators
  only check that identifiers are present and that time and calendar bounds
  are in range; the lookups themselves happen elsewhere.
 */
module ScheduleQueries {
  import opened Wrappers
  import opened Validation

  /**
    Requests addressed to one schedule on behalf of one user. Only the
    fields their validator reads are modelled.
   */
  datatype MemberReq =
    | GetSchedule(scheduleID: string, userID: string)
    | AcceptSchedule(scheduleID: string, userID: string)
    | RejectSchedule(scheduleID: string, userID: string)
    | SetReminder(scheduleID: string, userID: string)

  datatype Pagination = Pagination(pageNumber: Int32, showNumber: Int32)

  /**
    A list query; the user may be omitted (the service then uses the caller),
    and a time bound of 0 or less is treated as not given.
   */
  datatype GetSchedulesReq = GetSchedulesReq(
    userID: string,
    startTime: Int64,
    endTime: Int64,
    pagination: Option<Pagination>)

  /** The shape the conflict-detection service consumes. */
  datatype CheckConflictReq = CheckConflictReq(userIDs: seq<string>, startTime: Int64, endTime: Int64)

  /** Month-based calendar queries: the days with schedules, or every day's schedules. */
  datatype MonthQueryReq =
    | GetScheduleDates(userID: string, year: Int32, month: Int32)
    | GetScheduleMonthView(userID: string, year: Int32, month: Int32)

  // ---------------------------------------------------------- member requests

  function MemberRank(k: Rule): nat
  {
    match k
    case ScheduleIDEmpty => 1
    case UserIDEmpty => 2
    case _ => 0
  }

  predicate MemberBreaks(x: MemberReq, k: Rule)
  {
    match k
    case ScheduleIDEmpty => x.scheduleID == ""
    case UserIDEmpty => x.userID == ""
    case _ => false
  }

  /** `e` is the first rule, in checking order, that `x` violates. */
  ghost predicate MemberReportsFirst(x: MemberReq, e: Rule)
  {
    && MemberRank(e) > 0
    && MemberBreaks(x, e)
    && forall k :: 0 < MemberRank(k) < MemberRank(e) ==> !MemberBreaks(x, k)
  }

  /**
    The validator shared by the get, accept, reject and set-reminder requests
    (`GetScheduleReq.Check`, `AcceptScheduleReq.Check`,
    `RejectScheduleReq.Check`, `SetReminderReq.Check`).
   */
  function CheckMember(x: MemberReq): (r: Outcome<Error>)
    ensures r.Pass? <==> x.scheduleID != "" && x.userID != ""
    ensures r.Fail? ==> MemberReportsFirst(x, r.error.rule)
  {
    if x.scheduleID == "" then Fail(InvalidArgument(ScheduleIDEmpty))
    else if x.userID == "" then Fail(InvalidArgument(UserIDEmpty))
    else Pass
  }

  // ---------------------------------------------------------- list query

  /**
    What an acceptable list query is: when both time bounds are given they
    are ordered, and a page request counts pages and items from 1.
   */
  ghost predicate ValidGetSchedules(x: GetSchedulesReq)
  {
    && (x.startTime > 0 && x.endTime > 0 ==> x.startTime < x.endTime)
    && (x.pagination.Some? ==> x.pagination.value.pageNumber >= 1 && x.pagination.value.showNumber >= 1)
  }

  function GetSchedulesRank(k: Rule): nat
  {
    match k
    case EndNotAfterStart => 1
    case PageNumberInvalid => 2
    case ShowNumberInvalid => 3
    case _ => 0
  }

  predicate GetSchedulesBreaks(x: GetSchedulesReq, k: Rule)
  {
    match k
    case EndNotAfterStart => x.startTime > 0 && x.endTime > 0 && x.endTime <= x.startTime
    case PageNumberInvalid => x.pagination.Some? && x.pagination.value.pageNumber < 1
    case ShowNumberInvalid => x.pagination.Some? && x.pagination.value.showNumber < 1
    case _ => false
  }

  /** `e` is the first rule, in checking order, that `x` violates. */
  ghost predicate GetSchedulesReportsFirst(x: GetSchedulesReq, e: Rule)
  {
    && GetSchedulesRank(e) > 0
    && GetSchedulesBreaks(x, e)
    && forall k :: 0 < GetSchedulesRank(k) < GetSchedulesRank(e) ==> !GetSchedulesBreaks(x, k)
  }

  /** The validator of a list query (`GetSchedulesReq.Check`). */
  function CheckGetSchedules(x: GetSchedulesReq): (r: Outcome<Error>)
    ensures r.Pass? <==> ValidGetSchedules(x)
    ensures r.Fail? ==> GetSchedulesReportsFirst(x, r.error.rule)
  {
    if x.startTime > 0 && x.endTime > 0 && x.endTime <= x.startTime then Fail(InvalidArgument(EndNotAfterStart))
    else if x.pagination.Some? && x.pagination.value.pageNumber < 1 then Fail(InvalidArgument(PageNumberInvalid))
    else if x.pagination.Some? && x.pagination.value.showNumber < 1 then Fail(InvalidArgument(ShowNumberInvalid))
    else Pass
  }

  /** A list query with a missing (non-positive) time bound is never rejected for its times. */
  lemma OpenEndedListQueryHasNoTimeError(x: GetSchedulesReq)
    requires x.startTime <= 0 || x.endTime <= 0
    ensures CheckGetSchedules(x).Fail? ==> CheckGetSchedules(x).error.rule != EndNotAfterStart
    ensures CheckGetSchedules(x) == CheckGetSchedules(x.(startTime := 0, endTime := 0))
  {
  }

  // ---------------------------------------------------------- conflict check

  /** What an acceptable conflict check is: at least one user and a time window. */
  ghost predicate ValidCheckConflict(x: CheckConflictReq)
  {
    |x.userIDs| > 0 && IsTimeWindow(x.startTime, x.endTime)
  }

  function ConflictRank(k: Rule): nat
  {
    match k
    case UserIDsRequired => 1
    case StartTimeInvalid => 2
    case EndNotAfterStart => 3
    case _ => 0
  }

  predicate ConflictBreaks(x: CheckConflictReq, k: Rule)
  {
    match k
    case UserIDsRequired => |x.userIDs| == 0
    case StartTimeInvalid => x.startTime <= 0
    case EndNotAfterStart => x.endTime <= x.startTime
    case _ => false
  }

  /** `e` is the first rule, in checking order, that `x` violates. */
  ghost predicate ConflictReportsFirst(x: CheckConflictReq, e: Rule)
  {
    && ConflictRank(e) > 0
    && ConflictBreaks(x, e)
    && forall k :: 0 < ConflictRank(k) < ConflictRank(e) ==> !ConflictBreaks(x, k)
  }

  /** The validator of a conflict check (`CheckConflictReq.Check`). */
  function CheckConflict(x: CheckConflictReq): (r: Outcome<Error>)
    ensures r.Pass? <==> ValidCheckConflict(x)
    ensures r.Fail? ==> ConflictReportsFirst(x, r.error.rule)
  {
    if |x.userIDs| == 0 then Fail(InvalidArgument(UserIDsRequired))
    else if x.startTime <= 0 then Fail(InvalidArgument(StartTimeInvalid))
    else if x.endTime <= x.startTime then Fail(InvalidArgument(EndNotAfterStart))
    else Pass
  }

  // ---------------------------------------------------------- month queries

  /** What an acceptable month query is: a user, a positive year and a calendar month. */
  ghost predicate ValidMonthQuery(x: MonthQueryReq)
  {
    x.userID != "" && x.year > 0 && 1 <= x.month <= 12
  }

  function MonthRank(k: Rule): nat
  {
    match k
    case UserIDEmpty => 1
    case YearInvalid => 2
    case MonthOutOfRange => 3
    case _ => 0
  }

  predicate MonthBreaks(x: MonthQueryReq, k: Rule)
  {
    match k
    case UserIDEmpty => x.userID == ""
    case YearInvalid => x.year <= 0
    case MonthOutOfRange => x.month < 1 || x.month > 12
    case _ => false
  }

  /** `e` is the first rule, in checking order, that `x` violates. */
  ghost predicate MonthReportsFirst(x: MonthQueryReq, e: Rule)
  {
    && MonthRank(e) > 0
    && MonthBreaks(x, e)
    && forall k :: 0 < MonthRank(k) < MonthRank(e) ==> !MonthBreaks(x, k)
  }

  /**
    The validator shared by both month queries (`GetScheduleDatesReq.Check`
    and `GetScheduleMonthViewReq.Check`, which check the same rules).
   */
  function CheckMonthQuery(x: MonthQueryReq): (r: Outcome<Error>)
    ensures r.Pass? <==> ValidMonthQuery(x)
    ensures r.Fail? ==> MonthReportsFirst(x, r.error.rule)
  {
    if x.userID == "" then Fail(InvalidArgument(UserIDEmpty))
    else if x.year <= 0 then Fail(InvalidArgument(YearInvalid))
    else if x.month < 1 || x.month > 12 then Fail(InvalidArgument(MonthOutOfRange))
    else Pass
  }
}
