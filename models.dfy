/** Record shapes, fixed enumerations and string forms of the audit app's models. */
module Models {

  datatype Option<+T> = None | Some(value: T)

  /** Primary key of a row of the framework's user table. */
  type UserId = nat

  /** The five access event codes an `AccessLog` row may carry. */
  datatype EventType = LoginSuccess | LoginFail | Logout | AccessGranted | AccessDenied

  /** The three change codes a `ChangeLog` row may carry. */
  datatype ChangeType = Create | Update | Delete

  /** An audited system. `lastModifiedBy` is a nullable reference to a user. */
  datatype System = System(id: nat, name: string, description: string, lastModifiedBy: Option<UserId>)

  /** A user's profile; the `user` reference is one-to-one and never null. */
  datatype UserProfile = UserProfile(id: nat, user: UserId, role: string, department: string)

  /** One access event; `user` is null for a failed login. */
  datatype AccessLog = AccessLog(
    id: nat,
    user: Option<UserId>,
    eventType: EventType,
    timestamp: nat,
    ipAddress: Option<string>,
    details: string)

  /** One change event; `user` is a non-null reference. */
  datatype ChangeLog = ChangeLog(
    id: nat,
    user: UserId,
    changeType: ChangeType,
    modelName: string,
    recordId: nat,
    timestamp: nat,
    changeset: string)

  /**
   * The values a caller passes when it creates an access event; the table adds the
   * id and the timestamp.
   */
  datatype AccessFields = AccessFields(
    user: Option<UserId>,
    eventType: EventType,
    ipAddress: Option<string>,
    details: string)

  /** The values a caller passes when it creates a change event. */
  datatype ChangeFields = ChangeFields(
    user: UserId,
    changeType: ChangeType,
    modelName: string,
    recordId: nat,
    changeset: string)

  function NewAccessLog(f: AccessFields, id: nat, timestamp: nat): AccessLog {
    AccessLog(id, f.user, f.eventType, timestamp, f.ipAddress, f.details)
  }

  function NewChangeLog(f: ChangeFields, id: nat, timestamp: nat): ChangeLog {
    ChangeLog(id, f.user, f.changeType, f.modelName, f.recordId, timestamp, f.changeset)
  }

  // ---------------------------------------------------------------------------
  // Enumerations: stored codes and display labels
  // ---------------------------------------------------------------------------

  function EventCode(e: EventType): string {
    match e
    case LoginSuccess => "LOGIN_SUCCESS"
    case LoginFail => "LOGIN_FAIL"
    case Logout => "LOGOUT"
    case AccessGranted => "ACCESS_GRANTED"
    case AccessDenied => "ACCESS_DENIED"
  }

  function EventLabel(e: EventType): string {
    match e
    case LoginSuccess => "Successful Login"
    case LoginFail => "Failed Login"
    case Logout => "User Logout"
    case AccessGranted => "Access Granted to Resource"
    case AccessDenied => "Access Denied to Resource"
  }

  /** The event type a stored code stands for, if it is one of the five choices. */
  function ParseEventType(code: string): (r: Option<EventType>)
    ensures r.Some? ==> EventCode(r.value) == code
  {
    if code == "LOGIN_SUCCESS" then Some(LoginSuccess)
    else if code == "LOGIN_FAIL" then Some(LoginFail)
    else if code == "LOGOUT" then Some(Logout)
    else if code == "ACCESS_GRANTED" then Some(AccessGranted)
    else if code == "ACCESS_DENIED" then Some(AccessDenied)
    else None
  }

  /** Every event type is recovered from its code, so the five codes are distinct. */
  lemma EventCodeRoundTrip(e: EventType)
    ensures ParseEventType(EventCode(e)) == Some(e)
  {
    match e
    case LoginSuccess =>
    case LoginFail =>
      assert "LOGIN_FAIL" != "LOGIN_SUCCESS" by { assert |"LOGIN_FAIL"| != |"LOGIN_SUCCESS"|; }
    case Logout =>
      assert "LOGOUT" != "LOGIN_SUCCESS" && "LOGOUT" != "LOGIN_FAIL" by {
        assert |"LOGOUT"| == 6;
      }
    case AccessGranted =>
    case AccessDenied =>
      assert "ACCESS_DENIED" != "ACCESS_GRANTED" by { assert "ACCESS_DENIED"[7] != "ACCESS_GRANTED"[7]; }
  }

  /**
   * The framework's display of a stored code: the label paired with it among the
   * choices, or the code itself when it is not one of them.
   */
  function DisplayEventType(code: string): (shown: string)
    ensures forall e :: code == EventCode(e) ==> shown == EventLabel(e)
  {
    match ParseEventType(code)
    case Some(e) => EventLabel(e)
    case None => code
  }

  /** Distinct event types have distinct display labels. */
  lemma EventLabelsDistinct(e1: EventType, e2: EventType)
    requires e1 != e2
    ensures EventLabel(e1) != EventLabel(e2)
  {
    match e1
    case LoginSuccess =>
    case LoginFail =>
    case Logout =>
    case AccessGranted =>
      if e2 == AccessDenied {
        assert EventLabel(e1)[7] != EventLabel(e2)[7];
      }
    case AccessDenied =>
      if e2 == AccessGranted {
        assert EventLabel(e1)[7] != EventLabel(e2)[7];
      }
  }

  function ChangeCode(c: ChangeType): string {
    match c
    case Create => "CREATE"
    case Update => "UPDATE"
    case Delete => "DELETE"
  }

  function ChangeLabel(c: ChangeType): string {
    match c
    case Create => "Create"
    case Update => "Update"
    case Delete => "Delete"
  }

  /** Distinct change types have distinct display labels. */
  lemma ChangeLabelsDistinct(c1: ChangeType, c2: ChangeType)
    requires c1 != c2
    ensures ChangeLabel(c1) != ChangeLabel(c2)
  {
  }

  /** The change type a stored code stands for, if it is one of the three choices. */
  function ParseChangeType(code: string): (r: Option<ChangeType>)
    ensures r.Some? ==> ChangeCode(r.value) == code
  {
    if code == "CREATE" then Some(Create)
    else if code == "UPDATE" then Some(Update)
    else if code == "DELETE" then Some(Delete)
    else None
  }

  /** Every change type is recovered from its code, so the three codes are distinct. */
  lemma ChangeCodeRoundTrip(c: ChangeType)
    ensures ParseChangeType(ChangeCode(c)) == Some(c)
  {
    match c
    case Create =>
    case Update =>
      assert "UPDATE"[0] != "CREATE"[0];
    case Delete =>
      assert "DELETE"[0] != "CREATE"[0] && "DELETE"[0] != "UPDATE"[0];
  }

  // ---------------------------------------------------------------------------
  // Lower-casing of the (ASCII) change codes
  // ---------------------------------------------------------------------------

  function LowerChar(c: char): char {
    if 'A' <= c <= 'Z' then (c as int + 32) as char else c
  }

  function Lower(s: string): (r: string)
    ensures |r| == |s|
    ensures forall i :: 0 <= i < |s| ==> r[i] == LowerChar(s[i])
  {
    if s == [] then [] else [LowerChar(s[0])] + Lower(s[1..])
  }

  /**
   * The lower-cased change code followed by "d", as the change observers write it:
   * the past-tense verb of the change.
   */
  function PastTense(c: ChangeType): (verb: string)
    ensures c == Create ==> verb == "created"
    ensures c == Update ==> verb == "updated"
    ensures c == Delete ==> verb == "deleted"
  {
    var low := Lower(ChangeCode(c));
    match c
    case Create =>
      assert low == "create";
      low + "d"
    case Update =>
      assert low == "update";
      low + "d"
    case Delete =>
      assert low == "delete";
      low + "d"
  }

  // ---------------------------------------------------------------------------
  // Text helpers
  // ---------------------------------------------------------------------------

  /** `part` occurs somewhere in `s`. */
  ghost predicate Contains(s: string, part: string) {
    exists i :: 0 <= i <= |s| && part <= s[i..]
  }

  /** How a Python format string renders an optional text: the text, or "None". */
  function OptionText(t: Option<string>): string {
    match t
    case Some(s) => s
    case None => "None"
  }

  // ---------------------------------------------------------------------------
  // String forms
  // ---------------------------------------------------------------------------

  /** A system's string form is its name. */
  function SystemStr(s: System): string {
    s.name
  }

  /** A profile's string form: the owner's username, " - ", then the role. */
  function ProfileStr(username: string, p: UserProfile): string {
    username + " - " + p.role
  }

  /**
   * For one owner, the string form tells roles apart: two profiles of the same
   * username have the same string form exactly when they have the same role.
   */
  lemma ProfileStrTellsRoles(username: string, p1: UserProfile, p2: UserProfile)
    ensures ProfileStr(username, p1) == ProfileStr(username, p2) <==> p1.role == p2.role
  {
    var prefix := |username + " - "|;
    if ProfileStr(username, p1) == ProfileStr(username, p2) {
      assert ProfileStr(username, p1)[prefix..] == p1.role;
      assert ProfileStr(username, p2)[prefix..] == p2.role;
    }
  }

  /**
   * An access event's string form, given the rendering of its timestamp and of its
   * user (the username, or "None" for a null user).
   */
  function AccessLogStr(stamp: string, user: string, e: AccessLog): (r: string)
    ensures stamp <= r
    ensures |r| >= |EventCode(e.eventType)| && r[|r| - |EventCode(e.eventType)|..] == EventCode(e.eventType)
  {
    stamp + " - " + user + " - " + EventCode(e.eventType)
  }

  /** A change event's string form, given the rendering of its timestamp and user. */
  function ChangeLogStr(stamp: string, user: string, e: ChangeLog): (r: string)
    ensures stamp <= r
    ensures |r| >= |ChangeCode(e.changeType)| && r[|r| - |ChangeCode(e.changeType)|..] == ChangeCode(e.changeType)
  {
    stamp + " - " + user + " - " + e.modelName + " - " + ChangeCode(e.changeType)
  }
}
