/**
  Sending schedules into chats. Mode 0 (the default, and what an omitted mode
  reads as) creates a group with the given users and posts there, so it needs
  users and takes no existing groups. Mode 1 forwards to each user and to
  each group, and either list may be empty.
 */
module ScheduleMessages {
  import opened Wrappers
  import opened Validation

  const CreateGroupAndSend: Int32 := 0
  const Forward: Int32 := 1

  datatype SendScheduleMessageReq = SendScheduleMessageReq(
    scheduleIDs: seq<string>,
    sendMode: Int32,
    userIDs: seq<string>,
    groupIDs: seq<string>)

  /**
    What an acceptable send request is: at least one schedule, a known mode,
    and in mode 0 at least one user and no group.
   */
  ghost predicate ValidSend(x: SendScheduleMessageReq)
  {
    && |x.scheduleIDs| > 0
    && x.sendMode in {CreateGroupAndSend, Forward}
    && (x.sendMode == CreateGroupAndSend ==> |x.userIDs| > 0 && |x.groupIDs| == 0)
  }

  function SendRank(k: Rule): nat
  {
    match k
    case ScheduleIDsRequired => 1
    case SendUserIDsRequired => 2
    case SendGroupIDsNotSupported => 3
    case SendModeInvalid => 4
    case _ => 0
  }

  predicate SendBreaks(x: SendScheduleMessageReq, k: Rule)
  {
    match k
    case ScheduleIDsRequired => |x.scheduleIDs| == 0
    case SendUserIDsRequired => x.sendMode == CreateGroupAndSend && |x.userIDs| == 0
    case SendGroupIDsNotSupported => x.sendMode == CreateGroupAndSend && |x.groupIDs| > 0
    case SendModeInvalid => x.sendMode !in {CreateGroupAndSend, Forward}
    case _ => false
  }

  /** `e` is the first rule, in checking order, that `x` violates. */
  ghost predicate SendReportsFirst(x: SendScheduleMessageReq, e: Rule)
  {
    && SendRank(e) > 0
    && SendBreaks(x, e)
    && forall k :: 0 < SendRank(k) < SendRank(e) ==> !SendBreaks(x, k)
  }

  /** The validator of a send request (`SendScheduleMessageReq.Check`). */
  function CheckSend(x: SendScheduleMessageReq): (r: Outcome<Error>)
    ensures r.Pass? <==> ValidSend(x)
    ensures r.Fail? ==> SendReportsFirst(x, r.error.rule)
  {
    if |x.scheduleIDs| == 0 then Fail(InvalidArgument(ScheduleIDsRequired))
    else if x.sendMode == CreateGroupAndSend then
      if |x.userIDs| == 0 then Fail(InvalidArgument(SendUserIDsRequired))
      else if |x.groupIDs| > 0 then Fail(InvalidArgument(SendGroupIDsNotSupported))
      else Pass
    else if x.sendMode == Forward then Pass
    else Fail(InvalidArgument(SendModeInvalid))
  }

  /** In mode 0 a missing user list is reported before any group list, whatever it holds. */
  lemma MissingUsersReportedBeforeGroups(x: SendScheduleMessageReq)
    requires |x.scheduleIDs| > 0 && x.sendMode == CreateGroupAndSend && |x.userIDs| == 0
    ensures CheckSend(x) == Fail(InvalidArgument(SendUserIDsRequired))
  {
  }

  /** Forwarding accepts any combination of users and groups, both lists empty included. */
  lemma ForwardAcceptsAnyRecipients(x: SendScheduleMessageReq, users: seq<string>, groups: seq<string>)
    requires |x.scheduleIDs| > 0 && x.sendMode == Forward
    ensures CheckSend(x.(userIDs := users, groupIDs := groups)).Pass?
  {
  }
}
