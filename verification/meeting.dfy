/**
  Meeting-only configuration (`MeetingSettings`) and its validator: an
  enabled password must be a 4 to 6 digit PIN, and a reminder addressed to
  specified members must name at least one member.
 */
module MeetingRules {
  import opened Wrappers
  import opened Validation

  /**
    Who is called when the meeting starts. Only SPECIFIED matters to
    validation; `NotSpecified` stands for every other value of the enumeration.
   */
  datatype CallReminderType = Specified | NotSpecified

  datatype MeetingSettings = MeetingSettings(
    enablePassword: bool,
    password: string,
    callReminder: CallReminderType,
    callReminderUserIDs: seq<string>)

  const MinPasswordLength := 4
  const MaxPasswordLength := 6


  predicate IsDigit(c: char)
  {
    '0' <= c <= '9'
  }

  predicate IsAscii(c: char)
  {
    c as int < 0x80
  }

  /** Bytes taken by one character in UTF-8. */
  function Utf8Width(c: char): nat
  {
    if c as int < 0x80 then 1
    else if c as int < 0x800 then 2
    else if c as int < 0x1_0000 then 3
    else 4
  }

  /**
    Length of a string as Go's `len` measures it: in bytes of its UTF-8
    encoding. It equals the number of characters exactly when all of them
    are ASCII.
   */
  function ByteLength(s: string): (n: nat)
    ensures n >= |s|
    ensures n == |s| <==> forall i :: 0 <= i < |s| ==> IsAscii(s[i])
  {
    if |s| == 0 then 0 else Utf8Width(s[0]) + ByteLength(s[1..])
  }

  /** The scan over the password's characters: true when all are decimal digits. */
  function AllDigits(s: string): (ok: bool)
    ensures ok <==> forall i :: 0 <= i < |s| ==> IsDigit(s[i])
  {
    |s| == 0 || (IsDigit(s[0]) && AllDigits(s[1..]))
  }

  /** A 4 to 6 digit PIN, lengths counted in characters. */
  ghost predicate IsNumericPin(p: string)
  {
    && MinPasswordLength <= |p| <= MaxPasswordLength
    && forall i :: 0 <= i < |p| ==> IsDigit(p[i])
  }

  /** What acceptable meeting settings are. */
  ghost predicate ValidMeetingSettings(s: MeetingSettings)
  {
    && (s.enablePassword ==> IsNumericPin(s.password))
    && (s.callReminder == Specified ==> |s.callReminderUserIDs| > 0)
  }

  /** Position of each rule in the order the validator checks them. */
  function Rank(k: Rule): nat
  {
    match k
    case PasswordRequired => 1
    case PasswordLength => 2
    case PasswordNotNumeric => 3
    case CallReminderUsersRequired => 4
    case _ => 0
  }

  /** Whether the settings violate `k`. */
  predicate Breaks(s: MeetingSettings, k: Rule)
  {
    match k
    case PasswordRequired => s.enablePassword && s.password == ""
    case PasswordLength =>
      s.enablePassword && !(MinPasswordLength <= ByteLength(s.password) <= MaxPasswordLength)
    case PasswordNotNumeric =>
      s.enablePassword && exists i :: 0 <= i < |s.password| && !IsDigit(s.password[i])
    case CallReminderUsersRequired => s.callReminder == Specified && |s.callReminderUserIDs| == 0
    case _ => false
  }

  /** The validator of meeting settings (`MeetingSettings.Check`). */
  function Check(s: MeetingSettings): (r: Outcome<Error>)
    ensures !s.enablePassword && s.callReminder != Specified ==> r.Pass?
    ensures r.Pass? <==> ValidMeetingSettings(s)
  {
    if s.enablePassword && s.password == "" then Fail(InvalidArgument(PasswordRequired))
    else if s.enablePassword
      && (ByteLength(s.password) < MinPasswordLength || ByteLength(s.password) > MaxPasswordLength)
    then Fail(InvalidArgument(PasswordLength))
    else if s.enablePassword && !AllDigits(s.password) then Fail(InvalidArgument(PasswordNotNumeric))
    else if s.callReminder == Specified && |s.callReminderUserIDs| == 0 then
      Fail(InvalidArgument(CallReminderUsersRequired))
    else Pass
  }

  /**
    For an accepted password, counting bytes (as `MeetingSettings.Check` does) and
    counting characters agree, so the length rule is the same either way.
   */
  lemma AcceptedPasswordLengthsAgree(s: MeetingSettings)
    requires s.enablePassword && Check(s).Pass?
    ensures ByteLength(s.password) == |s.password|
    ensures MinPasswordLength <= |s.password| <= MaxPasswordLength
  {
  }

  /** `e` is the first rule, in checking order, that `s` violates. */
  ghost predicate ReportsFirst(s: MeetingSettings, e: Rule)
  {
    && Rank(e) > 0
    && Breaks(s, e)
    && forall k :: 0 < Rank(k) < Rank(e) ==> !Breaks(s, k)
  }

  /** `s` violates none of the rules the validator checks. */
  ghost predicate NoneBroken(s: MeetingSettings)
  {
    forall k :: Rank(k) > 0 ==> !Breaks(s, k)
  }

  /** A rejection names the first rule, in checking order, that the input violates. */
  lemma CheckReportsFirst(s: MeetingSettings)
    ensures Check(s).Fail? ==> ReportsFirst(s, Check(s).error.rule)
  {
  }

  /** Read as a conjunction, the rule table describes exactly the acceptable inputs. */
  lemma RuleTableMatchesValid(s: MeetingSettings)
    ensures NoneBroken(s) <==> Check(s).Pass?
  {
    if Check(s).Fail? {
      CheckReportsFirst(s);
    }
  }
}
