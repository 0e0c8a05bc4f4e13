/**
 * The request handlers: client address resolution, the login and logout recorders,
 * the dashboard's queries and the row data of the compliance report's two tables.
 */
module Views {
  import opened Models
  import opened Trail
  import opened Store

  // ---------------------------------------------------------------------------
  // Client address
  // ---------------------------------------------------------------------------

  /**
   * Python's `s.split(sep)` for a one-character separator: the pieces of `s`
   * between the separators, from left to right, with empty pieces kept.
   */
  function Split(s: string, sep: char): (parts: seq<string>)
    ensures |parts| >= 1
    ensures forall i :: 0 <= i < |parts| ==> sep !in parts[i]
    ensures parts[0] <= s
    ensures |parts[0]| == |s| || s[|parts[0]|] == sep
    decreases |s|
  {
    if s == [] then [""]
    else
      var rest := Split(s[1..], sep);
      if s[0] == sep then [""] + rest
      else
        assert [s[0]] + rest[0] <= [s[0]] + s[1..];
        [[s[0]] + rest[0]] + rest[1..]
  }

  /** Python's `sep.join(parts)`. */
  function Join(parts: seq<string>, sep: char): string
    decreases |parts|
  {
    if parts == [] then ""
    else if |parts| == 1 then parts[0]
    else parts[0] + [sep] + Join(parts[1..], sep)
  }

  /** Joining the pieces of a split with the same separator gives back the text. */
  lemma {:induction false} SplitJoin(s: string, sep: char)
    ensures Join(Split(s, sep), sep) == s
    decreases |s|
  {
    if s != [] {
      var rest := Split(s[1..], sep);
      SplitJoin(s[1..], sep);
      if s[0] != sep && |rest| > 1 {
        assert Join(rest, sep) == rest[0] + [sep] + Join(rest[1..], sep);
        assert ([s[0]] + rest[0]) + [sep] + Join(rest[1..], sep) == [s[0]] + Join(rest, sep);
      }
    }
  }

  /** A text without the separator splits into itself alone. */
  lemma {:induction false} SplitPlain(p: string, sep: char)
    requires sep !in p
    ensures Split(p, sep) == [p]
    decreases |p|
  {
    if p != [] {
      SplitPlain(p[1..], sep);
      assert [p[0]] + p[1..] == p;
    }
  }

  /** A separator-free piece followed by the separator comes off a split as its first piece. */
  lemma {:induction false} SplitAt(p: string, sep: char, t: string)
    requires sep !in p
    ensures Split(p + [sep] + t, sep) == [p] + Split(t, sep)
    decreases |p|
  {
    var s := p + [sep] + t;
    if p != [] {
      assert s[0] == p[0] != sep && s[1..] == p[1..] + [sep] + t;
      SplitAt(p[1..], sep, t);
      var rest := Split(s[1..], sep);
      assert rest == [p[1..]] + Split(t, sep);
      assert Split(s, sep) == [[p[0]] + rest[0]] + rest[1..];
      assert [p[0]] + p[1..] == p;
    } else {
      assert s[0] == sep && s[1..] == t;
    }
  }

  /** Splitting a join of separator-free pieces gives back the pieces. */
  lemma {:induction false} JoinSplit(parts: seq<string>, sep: char)
    requires |parts| >= 1
    requires forall i :: 0 <= i < |parts| ==> sep !in parts[i]
    ensures Split(Join(parts, sep), sep) == parts
    decreases |parts|
  {
    if |parts| == 1 {
      SplitPlain(parts[0], sep);
    } else {
      JoinSplit(parts[1..], sep);
      SplitAt(parts[0], sep, Join(parts[1..], sep));
      assert [parts[0]] + parts[1..] == parts;
    }
  }

  /**
   * The client's address: the part of a present, non-empty `X-Forwarded-For`
   * header before its first comma (kept as is, spaces included), and otherwise the
   * connection's remote address, which may be absent.
   */
  function ClientIp(forwarded: Option<string>, remote: Option<string>): (ip: Option<string>)
    ensures forwarded.Some? && forwarded.value != "" ==>
      && ip.Some?
      && ip.value <= forwarded.value
      && ',' !in ip.value
      && (|ip.value| == |forwarded.value| || forwarded.value[|ip.value|] == ',')
    ensures forwarded.None? || forwarded.value == "" ==> ip == remote
  {
    if forwarded.Some? && forwarded.value != "" then Some(Split(forwarded.value, ',')[0]) else remote
  }

  /**
   * The header's first field is the only comma-free prefix that ends at a comma or
   * at the end of the header, so it is the address resolved.
   */
  lemma ClientIpIsFirstField(header: string, first: string, remote: Option<string>)
    requires header != ""
    requires first <= header && ',' !in first
    requires |first| == |header| || header[|first|] == ','
    ensures ClientIp(Some(header), remote) == Some(first)
  {
    var ip := ClientIp(Some(header), remote).value;
    assert ip == header[..|ip|] && first == header[..|first|];
  }

  /** A proxy chain resolves to the client's own address, the chain's first entry. */
  lemma ClientIpOfProxyChain()
    ensures ClientIp(Some("1.2.3.4, 5.6.7.8"), Some("10.0.0.2")) == Some("1.2.3.4")
  {
    ClientIpIsFirstField("1.2.3.4, 5.6.7.8", "1.2.3.4", Some("10.0.0.2"));
  }

  /** With neither the header nor a remote address there is no address to record. */
  lemma ClientIpOfNothing()
    ensures ClientIp(None, None) == None && ClientIp(Some(""), None) == None
  {
  }

  // ---------------------------------------------------------------------------
  // Login and logout
  // ---------------------------------------------------------------------------

  /**
   * The access event a login POST records: a success attributed to the user the
   * credentials authenticated, or a failure with no user that keeps the username
   * that was tried in its details.
   */
  function LoginRecord(authenticated: Option<UserId>, username: string, ip: Option<string>): (f: AccessFields)
    ensures f.user == authenticated
    ensures f.eventType == LoginSuccess <==> authenticated.Some?
    ensures f.eventType == LoginFail <==> authenticated.None?
    ensures f.ipAddress == ip
  {
    match authenticated
    case Some(_) =>
      AccessFields(authenticated, LoginSuccess, ip, "Successful login from IP: " + OptionText(ip))
    case None =>
      AccessFields(None, LoginFail, ip,
        "Failed login attempt for username: " + username + " from IP: " + OptionText(ip))
  }

  /** The details texts of the two login events; an absent address is written "None". */
  lemma LoginDetailsText(authenticated: Option<UserId>, username: string, ip: Option<string>)
    ensures authenticated.Some? ==>
      LoginRecord(authenticated, username, ip).details == "Successful login from IP: " + OptionText(ip)
    ensures authenticated.None? ==>
      LoginRecord(authenticated, username, ip).details
      == "Failed login attempt for username: " + username + " from IP: " + OptionText(ip)
  {
  }

  /** A failed login's details name the username that was tried and the address. */
  lemma FailedLoginNamesAttempt(username: string, ip: Option<string>)
    ensures Contains(LoginRecord(None, username, ip).details, username)
    ensures Contains(LoginRecord(None, username, ip).details, OptionText(ip))
  {
    var details := LoginRecord(None, username, ip).details;
    var intro, address := "Failed login attempt for username: ", OptionText(ip);
    assert username <= details[|intro|..];
    assert address <= details[|details| - |address|..];
  }

  /** The access event a logout records for the user who was signed in. */
  function LogoutRecord(u: UserId, ip: Option<string>): (f: AccessFields)
    ensures f.user == Some(u) && f.eventType == Logout && f.ipAddress == ip
    ensures f.details == "User logged out successfully"
  {
    AccessFields(Some(u), Logout, ip, "User logged out successfully")
  }

  /**
   * The login view. A request that is not a POST only shows the form. A POST records
   * exactly one access event for the credentials' outcome (`authenticated` is the
   * user they authenticate, if any) and signs that user in.
   */
  method UserLogin(
    store: AuditStore, isPost: bool, username: string, authenticated: Option<UserId>,
    forwarded: Option<string>, remote: Option<string>)
    returns (signedIn: Option<UserId>)
    requires store.Valid() && KnownUser(store.users, authenticated)
    modifies store`accessLog, store`nextAccessId
    ensures store.Valid()
    ensures !isPost ==>
      && signedIn.None?
      && store.accessLog == old(store.accessLog) && store.nextAccessId == old(store.nextAccessId)
    ensures isPost ==>
      && signedIn == authenticated
      && store.accessLog == old(store.accessLog)
         + [NewAccessLog(LoginRecord(authenticated, username, ClientIp(forwarded, remote)),
                         old(store.nextAccessId), store.clock)]
  {
    signedIn := None;
    if isPost {
      var ip := ClientIp(forwarded, remote);
      var entry := store.CreateAccessLog(LoginRecord(authenticated, username, ip));
      signedIn := authenticated;
    }
  }

  /**
   * The logout view: when a user is signed in, records one LOGOUT event for them;
   * an anonymous request records nothing. The session ends either way.
   */
  method UserLogout(store: AuditStore, current: Option<UserId>, forwarded: Option<string>, remote: Option<string>)
    requires store.Valid() && KnownUser(store.users, current)
    modifies store`accessLog, store`nextAccessId
    ensures store.Valid()
    ensures current.None? ==>
      store.accessLog == old(store.accessLog) && store.nextAccessId == old(store.nextAccessId)
    ensures current.Some? ==>
      store.accessLog == old(store.accessLog)
        + [NewAccessLog(LogoutRecord(current.value, ClientIp(forwarded, remote)), old(store.nextAccessId), store.clock)]
  {
    if current.Some? {
      var entry := store.CreateAccessLog(LogoutRecord(current.value, ClientIp(forwarded, remote)));
    }
  }

  // ---------------------------------------------------------------------------
  // Dashboard
  // ---------------------------------------------------------------------------

  const DASHBOARD_ROWS: nat := 10
  const REPORT_ROWS: nat := 20

  /**
   * The dashboard's data: every system, their number, and the newest ten rows of
   * each log by descending timestamp.
   */
  method Dashboard(store: AuditStore)
    returns (systems: map<nat, System>, total: nat, accessRows: seq<AccessLog>, changeRows: seq<ChangeLog>)
    requires store.Valid()
    ensures systems == store.systems && total == |systems|
    ensures IsNewestFirst(store.accessLog, accessRows, DASHBOARD_ROWS, AccessStamp)
    ensures IsNewestFirst(store.changeLog, changeRows, DASHBOARD_ROWS, ChangeStamp)
  {
    systems := store.systems;
    total := |systems|;
    RecentIsNewestFirst(store.accessLog, DASHBOARD_ROWS, AccessStamp);
    RecentIsNewestFirst(store.changeLog, DASHBOARD_ROWS, ChangeStamp);
    accessRows := Recent(store.accessLog, DASHBOARD_ROWS);
    changeRows := Recent(store.changeLog, DASHBOARD_ROWS);
  }

  // ---------------------------------------------------------------------------
  // Compliance report tables
  // ---------------------------------------------------------------------------

  /** A table cell: a text, or a timestamp (its printed form is not modelled). */
  datatype Cell = Text(text: string) | Time(stamp: nat)

  const SYSTEMS_HEADER: seq<Cell> := [Text("System Name"), Text("Description")]
  const ACCESS_HEADER: seq<Cell> := [Text("Timestamp"), Text("User"), Text("Event Type"), Text("IP Address")]

  function SystemRow(s: System): seq<Cell> {
    [Text(s.name), Text(s.description)]
  }

  /** Python's `t or 'N/A'` on an optional text: an absent or empty text shows as 'N/A'. */
  function OrNotAvailable(t: Option<string>): (shown: string)
    ensures t.Some? && t.value != "" ==> shown == t.value
    ensures t.None? || t.value == "" ==> shown == "N/A"
  {
    if t.Some? && t.value != "" then t.value else "N/A"
  }

  /**
   * One row of the report's access table. The event column is the framework's
   * display of the stored code, which `DisplayEventType` shows to be the event
   * type's label.
   */
  function AccessRow(users: map<UserId, string>, e: AccessLog): seq<Cell>
    requires KnownUser(users, e.user)
  {
    [ Time(e.timestamp),
      Text(if e.user.Some? then users[e.user.value] else "N/A"),
      Text(EventLabel(e.eventType)),
      Text(OrNotAvailable(e.ipAddress)) ]
  }

  /**
   * What a row of the access table shows: the timestamp, the username or 'N/A' for
   * an event without a user, the event type's display label, and the address or
   * 'N/A' when it is absent or empty.
   */
  lemma AccessRowShows(users: map<UserId, string>, e: AccessLog)
    requires KnownUser(users, e.user)
    ensures |AccessRow(users, e)| == |ACCESS_HEADER|
    ensures AccessRow(users, e)[0] == Time(e.timestamp)
    ensures e.user.Some? ==> AccessRow(users, e)[1] == Text(users[e.user.value])
    ensures e.user.None? ==> AccessRow(users, e)[1] == Text("N/A")
    ensures AccessRow(users, e)[2] == Text(EventLabel(e.eventType))
    ensures AccessRow(users, e)[3] == Text(OrNotAvailable(e.ipAddress))
  {
  }

  /** The report's event column tells the event types apart. */
  lemma EventColumnDeterminesType(users: map<UserId, string>, e1: AccessLog, e2: AccessLog)
    requires KnownUser(users, e1.user) && KnownUser(users, e2.user)
    requires AccessRow(users, e1)[2] == AccessRow(users, e2)[2]
    ensures e1.eventType == e2.eventType
  {
    AccessRowShows(users, e1);
    AccessRowShows(users, e2);
    if e1.eventType != e2.eventType {
      EventLabelsDistinct(e1.eventType, e2.eventType);
    }
  }

  /**
   * The report's systems table: a header row, then one row per system in the order
   * the table yields them (`order`, which lists every key once).
   */
  method SystemsTable(store: AuditStore) returns (rows: seq<seq<Cell>>, order: seq<nat>)
    ensures forall k :: k in store.systems <==> k in order
    ensures forall i, j :: 0 <= i < j < |order| ==> order[i] != order[j]
    ensures |rows| == |order| + 1 && rows[0] == SYSTEMS_HEADER
    ensures forall i :: 0 <= i < |order| ==> rows[i + 1] == SystemRow(store.systems[order[i]])
  {
    rows, order := [SYSTEMS_HEADER], [];
    var remaining := store.systems.Keys;
    while remaining != {}
      invariant remaining <= store.systems.Keys
      invariant forall k :: k in store.systems <==> k in order || k in remaining
      invariant forall k :: k in order ==> k !in remaining
      invariant forall i, j :: 0 <= i < j < |order| ==> order[i] != order[j]
      invariant |rows| == |order| + 1 && rows[0] == SYSTEMS_HEADER
      invariant forall i :: 0 <= i < |order| ==> rows[i + 1] == SystemRow(store.systems[order[i]])
      decreases |remaining|
    {
      var k :| k in remaining;
      rows := rows + [SystemRow(store.systems[k])];
      order := order + [k];
      remaining := remaining - {k};
    }
  }

  /**
   * The report's access table: a header row, then one row for each of the newest
   * twenty access events by descending timestamp.
   */
  method AccessTable(store: AuditStore) returns (rows: seq<seq<Cell>>, events: seq<AccessLog>)
    requires store.Valid()
    ensures IsNewestFirst(store.accessLog, events, REPORT_ROWS, AccessStamp)
    ensures forall e :: e in events ==> KnownUser(store.users, e.user)
    ensures |rows| == |events| + 1 && rows[0] == ACCESS_HEADER
    ensures forall i :: 0 <= i < |events| ==> rows[i + 1] == AccessRow(store.users, events[i])
  {
    events := Recent(store.accessLog, REPORT_ROWS);
    RecentIsNewestFirst(store.accessLog, REPORT_ROWS, AccessStamp);
    NewestFirstMembers(store.accessLog, events, REPORT_ROWS, AccessStamp);
    rows := AccessRows(store.users, events);
  }

  /** The access table's rows for the given events, under the header row. */
  method AccessRows(users: map<UserId, string>, events: seq<AccessLog>) returns (rows: seq<seq<Cell>>)
    requires forall e :: e in events ==> KnownUser(users, e.user)
    ensures |rows| == |events| + 1 && rows[0] == ACCESS_HEADER
    ensures forall i :: 0 <= i < |events| ==> rows[i + 1] == AccessRow(users, events[i])
  {
    rows := [ACCESS_HEADER];
    for i := 0 to |events|
      invariant |rows| == i + 1 && rows[0] == ACCESS_HEADER
      invariant forall j :: 0 <= j < i ==> rows[j + 1] == AccessRow(users, events[j])
    {
      rows := rows + [AccessRow(users, events[i])];
    }
  }
}
