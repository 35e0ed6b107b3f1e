/**
  Requests that manage a user's schedule groups (named folders of
  schedules). Their validators only check that identifiers are present.
 */
module ScheduleGroups {
  import opened Wrappers
  import opened Validation

  datatype ScheduleGroupReq =
    | InitScheduleGroups(ownerUserID: string)
    | GetAllScheduleGroups(ownerUserID: string)
    | CreateScheduleGroup(ownerUserID: string, groupName: string)
    | UpdateScheduleGroup(groupID: string)
    | DeleteScheduleGroup(groupID: string)

  /** What an acceptable group request is: each identifier it carries is present. */
  ghost predicate ValidGroupReq(x: ScheduleGroupReq)
  {
    && (x.InitScheduleGroups? || x.GetAllScheduleGroups? || x.CreateScheduleGroup? ==> x.ownerUserID != "")
    && (x.CreateScheduleGroup? ==> x.groupName != "")
    && (x.UpdateScheduleGroup? || x.DeleteScheduleGroup? ==> x.groupID != "")
  }

  function GroupRank(k: Rule): nat
  {
    match k
    case OwnerUserIDEmpty => 1
    case GroupNameRequired => 2
    case GroupIDRequired => 3
    case _ => 0
  }

  predicate GroupBreaks(x: ScheduleGroupReq, k: Rule)
  {
    match k
    case OwnerUserIDEmpty => !x.UpdateScheduleGroup? && !x.DeleteScheduleGroup? && x.ownerUserID == ""
    case GroupNameRequired => x.CreateScheduleGroup? && x.groupName == ""
    case GroupIDRequired => (x.UpdateScheduleGroup? || x.DeleteScheduleGroup?) && x.groupID == ""
    case _ => false
  }

  /** `e` is the first rule, in checking order, that `x` violates. */
  ghost predicate GroupReportsFirst(x: ScheduleGroupReq, e: Rule)
  {
    && GroupRank(e) > 0
    && GroupBreaks(x, e)
    && forall k :: 0 < GroupRank(k) < GroupRank(e) ==> !GroupBreaks(x, k)
  }

  /**
    The validators of the five group requests (`InitScheduleGroupsReq.Check`,
    `GetAllScheduleGroupsReq.Check`, `CreateScheduleGroupReq.Check`,
    `UpdateScheduleGroupReq.Check`, `DeleteScheduleGroupReq.Check`).
   */
  function CheckGroupReq(x: ScheduleGroupReq): (r: Outcome<Error>)
    ensures r.Pass? <==> ValidGroupReq(x)
    ensures r.Fail? ==> GroupReportsFirst(x, r.error.rule)
  {
    match x
    case InitScheduleGroups(owner) =>
      if owner == "" then Fail(InvalidArgument(OwnerUserIDEmpty)) else Pass
    case GetAllScheduleGroups(owner) =>
      if owner == "" then Fail(InvalidArgument(OwnerUserIDEmpty)) else Pass
    case CreateScheduleGroup(owner, name) =>
      if owner == "" then Fail(InvalidArgument(OwnerUserIDEmpty))
      else if name == "" then Fail(InvalidArgument(GroupNameRequired))
      else Pass
    case UpdateScheduleGroup(group) =>
      if group == "" then Fail(InvalidArgument(GroupIDRequired)) else Pass
    case DeleteScheduleGroup(group) =>
      if group == "" then Fail(InvalidArgument(GroupIDRequired)) else Pass
  }
}
