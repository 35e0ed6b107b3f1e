/**
  Requests that create, update or delete a schedule item. An item is either a
  plain SCHEDULE or a MEETING, and only a meeting carries meeting settings.
  Creating is the one validation that rewrites its request: an omitted type
  becomes SCHEDULE and settings sent with a SCHEDULE are dropped. Updating
  rejects the same combination instead of dropping the settings; this
  divergence between create and update is kept as the Go validators have it.
 */
module ScheduleRequests {
  import opened Wrappers
  import opened Validation
  import Recurrence
  import MeetingRules

  /**
    The kind of a schedule item. `Unspecified` is the wire value 0 (type not
    sent); `Unrecognised` stands for every value other than 0, SCHEDULE and
    MEETING. Each wire value has exactly one representation.
   */
  datatype ScheduleType = Unspecified | Schedule | Meeting | Unrecognised

  datatype CreateScheduleReq = CreateScheduleReq(
    creatorUserID: string,  // optional: the service falls back to the caller's identity
    title: string,
    startTime: Int64,
    endTime: Int64,
    scheduleType: ScheduleType,
    meetingSettings: Option<MeetingRules.MeetingSettings>,
    repeatInfo: Option<Recurrence.ScheduleRepeatInfo>)

  /** A partial update: `None` means the field was not sent and stays as it is. */
  datatype UpdateScheduleReq = UpdateScheduleReq(
    scheduleID: string,
    operatorUserID: string,
    title: Option<string>,
    startTime: Option<Int64>,
    endTime: Option<Int64>,
    scheduleType: Option<ScheduleType>,
    meetingSettings: Option<MeetingRules.MeetingSettings>,
    repeatInfo: Option<Recurrence.ScheduleRepeatInfo>)

  datatype DeleteScheduleReq = DeleteScheduleReq(scheduleID: string, operatorUserID: string)

  /** An absent recurrence rule is valid; a present one goes through its validator. */
  function CheckOptionalRepeat(ri: Option<Recurrence.ScheduleRepeatInfo>): (r: Outcome<Error>)
    ensures r.Pass? <==> (ri.Some? ==> Recurrence.ValidRepeatInfo(ri.value))
    ensures r.Fail? ==> ri.Some? && r == Recurrence.Check(ri.value)
  {
    match ri
    case None => Pass
    case Some(info) => Recurrence.Check(info)
  }

  // ---------------------------------------------------------------- create

  /**
    A stored item is consistent: a SCHEDULE without meeting settings, or a
    MEETING with valid ones.
   */
  ghost predicate Consistent(t: ScheduleType, ms: Option<MeetingRules.MeetingSettings>)
  {
    || (t == Schedule && ms.None?)
    || (t == Meeting && ms.Some? && MeetingRules.ValidMeetingSettings(ms.value))
  }

  /** What an acceptable create request is. */
  ghost predicate ValidCreate(x: CreateScheduleReq)
  {
    && x.title != ""
    && IsTimeWindow(x.startTime, x.endTime)
    && !x.scheduleType.Unrecognised?
    && (x.scheduleType == Meeting ==> x.meetingSettings.Some? && MeetingRules.ValidMeetingSettings(x.meetingSettings.value))
    && (x.repeatInfo.Some? ==> Recurrence.ValidRepeatInfo(x.repeatInfo.value))
  }

  /**
    `y` is `x` with its type defaulted: an unspecified type becomes SCHEDULE,
    a SCHEDULE loses its meeting settings, a MEETING keeps them, and no other
    field differs.
   */
  ghost predicate Normalised(x: CreateScheduleReq, y: CreateScheduleReq)
  {
    && y == x.(scheduleType := y.scheduleType, meetingSettings := y.meetingSettings)
    && (x.scheduleType in {Unspecified, Schedule} ==> y.scheduleType == Schedule && y.meetingSettings.None?)
    && (x.scheduleType == Meeting ==> y.scheduleType == Meeting && y.meetingSettings == x.meetingSettings)
  }

  /**
    Position of each of create's own rules in the order it checks them. The
    meeting settings of a MEETING are checked after these, by their own
    validator, and the recurrence rule last.
   */
  function CreateRank(k: Rule): nat
  {
    match k
    case TitleEmpty => 1
    case StartTimeInvalid => 2
    case EndNotAfterStart => 3
    case MeetingSettingsRequired => 4
    case ScheduleTypeInvalid => 5
    case _ => 0
  }

  /** Whether a create request violates its own rule `k`. */
  predicate CreateBreaks(x: CreateScheduleReq, k: Rule)
  {
    match k
    case TitleEmpty => x.title == ""
    case StartTimeInvalid => x.startTime <= 0
    case EndNotAfterStart => x.endTime <= x.startTime
    case MeetingSettingsRequired => x.scheduleType == Meeting && x.meetingSettings.None?
    case ScheduleTypeInvalid => x.scheduleType.Unrecognised?
    case _ => false
  }

  /** `x` satisfies all of create's own rules. */
  ghost predicate CreateOwnRulesHold(x: CreateScheduleReq)
  {
    forall k :: CreateRank(k) > 0 ==> !CreateBreaks(x, k)
  }

  /**
    `e` is the first rule, in checking order, that `x` violates: the first of
    create's own rules, or else the rule the settings validator reports first
    for a MEETING, or else the rule the recurrence validator reports first.
   */
  ghost predicate CreateReportsFirst(x: CreateScheduleReq, e: Rule)
  {
    || (&& CreateRank(e) > 0
        && CreateBreaks(x, e)
        && forall k :: 0 < CreateRank(k) < CreateRank(e) ==> !CreateBreaks(x, k))
    || (&& CreateOwnRulesHold(x)
        && x.scheduleType == Meeting && x.meetingSettings.Some?
        && MeetingRules.ReportsFirst(x.meetingSettings.value, e))
    || (&& CreateOwnRulesHold(x)
        && (x.scheduleType == Meeting ==> x.meetingSettings.Some? && MeetingRules.NoneBroken(x.meetingSettings.value))
        && x.repeatInfo.Some?
        && Recurrence.ReportsFirst(x.repeatInfo.value, e))
  }

  /** The type step of create: defaults the type, or checks the meeting settings. */
  function CreateTypeStep(x: CreateScheduleReq): Result<CreateScheduleReq, Error>
  {
    match x.scheduleType
    case Unspecified | Schedule => Success(x.(scheduleType := Schedule, meetingSettings := None))
    case Meeting =>
      if x.meetingSettings.None? then Failure(InvalidArgument(MeetingSettingsRequired))
      else (
        match MeetingRules.Check(x.meetingSettings.value)
        case Fail(e) => Failure(e)
        case Pass => Success(x))
    case Unrecognised => Failure(InvalidArgument(ScheduleTypeInvalid))
  }

  /**
    The validator of a create request (`CreateScheduleReq.Check`). On success
    it returns the request as `CreateScheduleReq.Check` leaves it after defaulting.
   */
  function CheckCreate(x: CreateScheduleReq): (r: Result<CreateScheduleReq, Error>)
    ensures r.Success? <==> ValidCreate(x)
    ensures r.Success? ==> Normalised(x, r.value)
    ensures r.Success? ==> Consistent(r.value.scheduleType, r.value.meetingSettings)
  {
    if x.title == "" then Failure(InvalidArgument(TitleEmpty))
    else if x.startTime <= 0 then Failure(InvalidArgument(StartTimeInvalid))
    else if x.endTime <= x.startTime then Failure(InvalidArgument(EndNotAfterStart))
    else
      match CreateTypeStep(x)
      case Failure(e) => Failure(e)
      case Success(y) =>
        match CheckOptionalRepeat(x.repeatInfo)
        case Fail(e) => Failure(e)
        case Pass => Success(y)
  }

  /** Validating a request that create already accepted changes nothing more. */
  lemma CreateIsIdempotent(x: CreateScheduleReq)
    requires CheckCreate(x).Success?
    ensures CheckCreate(CheckCreate(x).value) == CheckCreate(x)
  {
  }

  /** A rejected create names the first rule, in checking order, that the request violates. */
  lemma CheckCreateReportsFirst(x: CreateScheduleReq)
    ensures CheckCreate(x).Failure? ==> CreateReportsFirst(x, CheckCreate(x).error.rule)
  {
    if x.meetingSettings.Some? {
      MeetingRules.CheckReportsFirst(x.meetingSettings.value);
      MeetingRules.RuleTableMatchesValid(x.meetingSettings.value);
    }
    if x.repeatInfo.Some? {
      Recurrence.CheckReportsFirst(x.repeatInfo.value);
    }
  }

  // ---------------------------------------------------------------- update

  /**
    What an acceptable update request is: identifiers present; a window when
    both ends are sent; a sent type is SCHEDULE or MEETING and settings are
    sent exactly when it is MEETING; sent settings and rule are valid.
   */
  ghost predicate ValidUpdate(x: UpdateScheduleReq)
  {
    && UpdateHeadHolds(x)
    && UpdateTypeConsistent(x)
    && (x.meetingSettings.Some? ==> MeetingRules.ValidMeetingSettings(x.meetingSettings.value))
    && (x.repeatInfo.Some? ==> Recurrence.ValidRepeatInfo(x.repeatInfo.value))
  }

  /**
    Position of each of update's own rules in the order it checks them. Sent
    meeting settings are checked after these (unless the type is SCHEDULE),
    by their own validator, and a sent recurrence rule last.
   */
  function UpdateRank(k: Rule): nat
  {
    match k
    case ScheduleIDEmpty => 1
    case OperatorUserIDEmpty => 2
    case StartTimeInvalid => 3
    case EndNotAfterStart => 4
    case MeetingSettingsRequired => 5
    case MeetingSettingsNotAllowed => 6
    case ScheduleTypeInvalid => 7
    case _ => 0
  }

  /** Whether an update request violates its own rule `k`. */
  predicate UpdateBreaks(x: UpdateScheduleReq, k: Rule)
  {
    match k
    case ScheduleIDEmpty => x.scheduleID == ""
    case OperatorUserIDEmpty => x.operatorUserID == ""
    case StartTimeInvalid => x.startTime.Some? && x.endTime.Some? && x.startTime.value <= 0
    case EndNotAfterStart => x.startTime.Some? && x.endTime.Some? && x.endTime.value <= x.startTime.value
    case MeetingSettingsRequired => x.scheduleType == Some(Meeting) && x.meetingSettings.None?
    case MeetingSettingsNotAllowed => x.scheduleType == Some(Schedule) && x.meetingSettings.Some?
    case ScheduleTypeInvalid => x.scheduleType.Some? && x.scheduleType.value !in {Schedule, Meeting}
    case _ => false
  }

  /** The identifiers are present and a fully sent time window is ordered. */
  predicate UpdateHeadHolds(x: UpdateScheduleReq)
  {
    && x.scheduleID != ""
    && x.operatorUserID != ""
    && (x.startTime.Some? && x.endTime.Some? ==> IsTimeWindow(x.startTime.value, x.endTime.value))
  }

  /** A sent type is SCHEDULE or MEETING, and settings are sent exactly with MEETING. */
  predicate UpdateTypeConsistent(x: UpdateScheduleReq)
  {
    x.scheduleType.Some? ==>
      && x.scheduleType.value in {Schedule, Meeting}
      && (x.scheduleType.value == Meeting <==> x.meetingSettings.Some?)
  }

  /** `x` satisfies all of update's own rules. */
  ghost predicate UpdateOwnRulesHold(x: UpdateScheduleReq)
  {
    forall k :: UpdateRank(k) > 0 ==> !UpdateBreaks(x, k)
  }

  /** Sent meeting settings are validated unless the sent type is SCHEDULE. */
  predicate UpdateChecksSettings(x: UpdateScheduleReq)
  {
    x.scheduleType in {None, Some(Meeting)} && x.meetingSettings.Some?
  }

  /**
    `e` is the first rule, in checking order, that `x` violates: the first of
    update's own rules, or else the rule the settings validator reports
    first, or else the rule the recurrence validator reports first.
   */
  ghost predicate UpdateReportsFirst(x: UpdateScheduleReq, e: Rule)
  {
    || (&& UpdateRank(e) > 0
        && UpdateBreaks(x, e)
        && forall k :: 0 < UpdateRank(k) < UpdateRank(e) ==> !UpdateBreaks(x, k))
    || (&& UpdateOwnRulesHold(x)
        && UpdateChecksSettings(x)
        && MeetingRules.ReportsFirst(x.meetingSettings.value, e))
    || (&& UpdateOwnRulesHold(x)
        && (UpdateChecksSettings(x) ==> MeetingRules.NoneBroken(x.meetingSettings.value))
        && x.repeatInfo.Some?
        && Recurrence.ReportsFirst(x.repeatInfo.value, e))
  }

  /** The type step of update: consistency of a sent type with the settings. */
  function UpdateTypeStep(x: UpdateScheduleReq): Outcome<Error>
  {
    match x.scheduleType
    case Some(Meeting) =>
      if x.meetingSettings.None? then Fail(InvalidArgument(MeetingSettingsRequired))
      else MeetingRules.Check(x.meetingSettings.value)
    case Some(Schedule) =>
      if x.meetingSettings.Some? then Fail(InvalidArgument(MeetingSettingsNotAllowed)) else Pass
    case Some(_) => Fail(InvalidArgument(ScheduleTypeInvalid))
    case None =>
      if x.meetingSettings.Some? then MeetingRules.Check(x.meetingSettings.value) else Pass
  }

  /** The validator of a partial update (`UpdateScheduleReq.Check`). */
  function CheckUpdate(x: UpdateScheduleReq): (r: Outcome<Error>)
    ensures r.Pass? <==> ValidUpdate(x)
  {
    if x.scheduleID == "" then Fail(InvalidArgument(ScheduleIDEmpty))
    else if x.operatorUserID == "" then Fail(InvalidArgument(OperatorUserIDEmpty))
    else if x.startTime.Some? && x.endTime.Some? && x.startTime.value <= 0 then
      Fail(InvalidArgument(StartTimeInvalid))
    else if x.startTime.Some? && x.endTime.Some? && x.endTime.value <= x.startTime.value then
      Fail(InvalidArgument(EndNotAfterStart))
    else
      match UpdateTypeStep(x)
      case Fail(e) => Fail(e)
      case Pass => CheckOptionalRepeat(x.repeatInfo)
  }

  /** A rejected update names the first rule, in checking order, that the request violates. */
  lemma CheckUpdateReportsFirst(x: UpdateScheduleReq)
    ensures CheckUpdate(x).Fail? ==> UpdateReportsFirst(x, CheckUpdate(x).error.rule)
  {
    UpdateOwnRules(x);
    if UpdateOwnRulesHold(x) {
      if x.meetingSettings.Some? {
        MeetingRules.CheckReportsFirst(x.meetingSettings.value);
        MeetingRules.RuleTableMatchesValid(x.meetingSettings.value);
      }
      if x.repeatInfo.Some? {
        Recurrence.CheckReportsFirst(x.repeatInfo.value);
      }
    }
  }

  /** Update's own rules, checked before any nested validator, in checking order. */
  lemma UpdateOwnRules(x: UpdateScheduleReq)
    ensures UpdateOwnRulesHold(x) <==> UpdateHeadHolds(x) && UpdateTypeConsistent(x)
    ensures !UpdateOwnRulesHold(x) ==>
      && CheckUpdate(x).Fail?
      && var e := CheckUpdate(x).error.rule;
         && UpdateRank(e) > 0
         && UpdateBreaks(x, e)
         && forall k :: 0 < UpdateRank(k) < UpdateRank(e) ==> !UpdateBreaks(x, k)
  {
    if UpdateOwnRulesHold(x) {
      assert UpdateRank(ScheduleIDEmpty) > 0 && UpdateRank(OperatorUserIDEmpty) > 0;
      assert UpdateRank(StartTimeInvalid) > 0 && UpdateRank(EndNotAfterStart) > 0;
      assert UpdateRank(MeetingSettingsRequired) > 0 && UpdateRank(MeetingSettingsNotAllowed) > 0;
      assert UpdateRank(ScheduleTypeInvalid) > 0;
    }
  }

  /** The title of an update is never validated, sent or not. */
  lemma UpdateIgnoresTitle(x: UpdateScheduleReq, title: Option<string>)
    ensures CheckUpdate(x.(title := title)) == CheckUpdate(x)
  {
  }

  /** With only one end of the time window sent, the times are not checked at all. */
  lemma UpdateHalfWindowUnchecked(x: UpdateScheduleReq, start: Option<Int64>, end: Option<Int64>)
    ensures x.endTime.None? ==> CheckUpdate(x.(startTime := start)) == CheckUpdate(x)
    ensures x.startTime.None? ==> CheckUpdate(x.(endTime := end)) == CheckUpdate(x)
  {
  }

  /** Settings sent without a type are validated on their own and their error is passed on. */
  lemma UpdateValidatesUntypedSettings(x: UpdateScheduleReq)
    requires UpdateHeadHolds(x) && x.scheduleType.None? && x.meetingSettings.Some?
    ensures MeetingRules.Check(x.meetingSettings.value).Fail? ==> CheckUpdate(x) == MeetingRules.Check(x.meetingSettings.value)
    ensures CheckUpdate(x).Pass? ==> MeetingRules.ValidMeetingSettings(x.meetingSettings.value)
  {
  }

  /**
    The same type/settings combination is treated differently by create and
    update: create drops the settings of a SCHEDULE, update rejects them.
   */
  lemma CreateClearsWhatUpdateRejects(c: CreateScheduleReq, u: UpdateScheduleReq)
    requires c.title != "" && IsTimeWindow(c.startTime, c.endTime) && c.repeatInfo.None?
    requires c.scheduleType == Schedule && c.meetingSettings.Some?
    requires UpdateHeadHolds(u) && u.scheduleType == Some(Schedule) && u.meetingSettings == c.meetingSettings
    ensures CheckCreate(c) == Success(c.(meetingSettings := None))
    ensures CheckUpdate(u) == Fail(InvalidArgument(MeetingSettingsNotAllowed))
  {
  }

  // ---------------------------------------------------------------- delete

  /** Position of each rule in the order delete checks them. */
  function DeleteRank(k: Rule): nat
  {
    match k
    case ScheduleIDEmpty => 1
    case OperatorUserIDEmpty => 2
    case _ => 0
  }

  predicate DeleteBreaks(x: DeleteScheduleReq, k: Rule)
  {
    match k
    case ScheduleIDEmpty => x.scheduleID == ""
    case OperatorUserIDEmpty => x.operatorUserID == ""
    case _ => false
  }

  /** `e` is the first rule, in the order delete checks them, that `x` violates. */
  ghost predicate DeleteReportsFirst(x: DeleteScheduleReq, e: Rule)
  {
    && DeleteRank(e) > 0
    && DeleteBreaks(x, e)
    && forall k :: 0 < DeleteRank(k) < DeleteRank(e) ==> !DeleteBreaks(x, k)
  }

  /** The validator of a delete request (`DeleteScheduleReq.Check`). */
  function CheckDelete(x: DeleteScheduleReq): (r: Outcome<Error>)
    ensures r.Pass? <==> x.scheduleID != "" && x.operatorUserID != ""
    ensures r.Fail? ==> DeleteReportsFirst(x, r.error.rule)
  {
    if x.scheduleID == "" then Fail(InvalidArgument(ScheduleIDEmpty))
    else if x.operatorUserID == "" then Fail(InvalidArgument(OperatorUserIDEmpty))
    else Pass
  }
}
