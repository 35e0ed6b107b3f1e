/** Worked examples of the validators on concrete requests. */
module Scenarios {
  import opened Wrappers
  import opened Validation
  import MeetingRules
  import ScheduleRequests
  import ScheduleMessages

  const NoReminder := MeetingRules.NotSpecified

  /** A create request without a type becomes a SCHEDULE and loses the settings it carried. */
  lemma UntypedCreateBecomesSchedule()
    ensures
      var settings := MeetingRules.MeetingSettings(true, "1234", NoReminder, []);
      var x := ScheduleRequests.CreateScheduleReq(
        "", "Standup", 1000, 2000, ScheduleRequests.Unspecified, Some(settings), None);
      ScheduleRequests.CheckCreate(x)
        == Success(x.(scheduleType := ScheduleRequests.Schedule, meetingSettings := None))
  {
  }

  /** A create request ending before it starts is rejected for its end time. */
  lemma ReversedCreateRejected()
    ensures
      var x := ScheduleRequests.CreateScheduleReq(
        "", "Standup", 2000, 1000, ScheduleRequests.Unspecified, None, None);
      ScheduleRequests.CheckCreate(x) == Failure(InvalidArgument(EndNotAfterStart))
  {
  }

  /** An update typed SCHEDULE that carries settings is rejected rather than cleared. */
  lemma ScheduleUpdateWithSettingsRejected()
    ensures
      var settings := MeetingRules.MeetingSettings(false, "", NoReminder, []);
      var x := ScheduleRequests.UpdateScheduleReq(
        "s1", "u1", None, None, None, Some(ScheduleRequests.Schedule), Some(settings), None);
      ScheduleRequests.CheckUpdate(x) == Fail(InvalidArgument(MeetingSettingsNotAllowed))
  {
  }

  /** A password with a letter in it is rejected as not numeric. */
  lemma LetterInPasswordRejected()
    ensures MeetingRules.Check(MeetingRules.MeetingSettings(true, "12a4", NoReminder, []))
      == Fail(InvalidArgument(PasswordNotNumeric))
  {
  }

  /** A six digit password is accepted. */
  lemma SixDigitPasswordAccepted()
    ensures MeetingRules.Check(MeetingRules.MeetingSettings(true, "123456", NoReminder, [])).Pass?
  {
  }

  /** A mode 0 send without users but with a group reports the missing users. */
  lemma GroupOnlySendReportsUsers()
    ensures ScheduleMessages.CheckSend(ScheduleMessages.SendScheduleMessageReq(["sc1"], 0, [], ["g1"]))
      == Fail(InvalidArgument(SendUserIDsRequired))
  {
  }
}
