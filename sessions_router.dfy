/** backend/routers/sessions_router.py: how session durations and locations are shown, the
    details view, terminating one session and blocking an address. Durations are whole seconds
    (the sub-second part the handlers truncate away is not modelled); `now` is a parameter. */
module SessionsRouter {
  import opened Outcomes
  import opened Text
  import opened Models
  import opened Store
  import opened RdpManager

  // ---------------------------------------------------------------------------
  // Durations

  /** Python's int(a / b): the quotient rounded toward zero. */
  function TruncDiv(a: int, b: int): (q: int)
    requires b > 0
    ensures a >= 0 ==> 0 <= a - q * b < b
    ensures a < 0 ==> -b < a - q * b <= 0
  {
    if a >= 0 then a / b else -((-a) / b)
  }

  function DurationText(hours: int, minutes: int): string
  {
    if hours > 0 then IntToString(hours) + "h " + IntToString(minutes) + "m" else IntToString(minutes) + "m"
  }

  /** The active-sessions view: minutes and hours by truncating division, the minutes of the
      hour form taken modulo 60. */
  function ActiveDurationString(seconds: int): string
  {
    var minutes := TruncDiv(seconds, 60);
    var hours := TruncDiv(minutes, 60);
    if hours > 0 then DurationText(hours, minutes % 60) else DurationText(hours, minutes)
  }

  /** The history view: hours by floor division by 3600, minutes from the remainder. */
  function HistoryDurationString(seconds: int): string
  {
    DurationText(seconds / 3600, (seconds % 3600) / 60)
  }

  /** The history form names the whole hours and the whole minutes of the rest. */
  lemma HistoryParts(seconds: int)
    requires seconds >= 0
    ensures var h, m := seconds / 3600, (seconds % 3600) / 60;
            0 <= m < 60 && h * 3600 + m * 60 <= seconds < h * 3600 + m * 60 + 60
  {
  }

  /** For non-negative durations the two views show the same text. */
  lemma DurationsAgree(seconds: int)
    requires seconds >= 0
    ensures ActiveDurationString(seconds) == HistoryDurationString(seconds)
  {
    var minutes := seconds / 60;
    assert TruncDiv(seconds, 60) == minutes;
    assert TruncDiv(minutes, 60) == minutes / 60;
    MinutesAndHours(seconds);
    if seconds / 3600 <= 0 {
      assert minutes < 60;
      assert minutes % 60 == minutes;
    }
  }

  /** Whole hours and leftover minutes, counted either way. */
  lemma MinutesAndHours(s: nat)
    ensures (s / 60) / 60 == s / 3600
    ensures (s / 60) % 60 == (s % 3600) / 60
  {
    var h := s / 3600;
    var rest := s % 3600;
    var m := rest / 60;
    assert s == 60 * (60 * h + m) + rest % 60;
    assert s / 60 == 60 * h + m;
    assert 0 <= m < 60;
  }

  /** Before the start time the two views disagree: 90 seconds early reads "-1m" in one and
      "58m" in the other. */
  lemma NegativeDurationsDisagree()
    ensures ActiveDurationString(-90) == "-1m"
    ensures HistoryDurationString(-90) == "58m"
  {
    assert TruncDiv(-90, 60) == -1;
    assert TruncDiv(-1, 60) == 0;
    assert -90 / 3600 == -1 && (-90 % 3600) / 60 == 58;
    assert NatToString(58) == NatToString(5) + [DigitChar(8)];
  }

  /** An open session is measured up to now. */
  function HistoryElapsed(s: Session, now: int): (seconds: int)
    ensures s.endTime.None? ==> seconds == now - s.startTime
    ensures s.endTime.Some? ==> seconds == s.endTime.value - s.startTime
  {
    (if s.endTime.Some? then s.endTime.value else now) - s.startTime
  }

  // ---------------------------------------------------------------------------
  // Location

  /** `value or 'Unknown'`: None and the empty string both fall back. */
  function OrUnknown(o: Option<string>): (r: string)
    ensures r != ""
    ensures o.Some? && o.value != "" ==> r == o.value
    ensures o.None? || o.value == "" ==> r == "Unknown"
  {
    if o.Some? && o.value != "" then o.value else "Unknown"
  }

  function Location(s: Session): string
  {
    OrUnknown(s.city) + ", " + OrUnknown(s.country)
  }

  /** The text before the first comma is the city (or "Unknown"), when the city has no comma. */
  lemma LocationNamesCity(s: Session)
    requires s.city.None? || ',' !in s.city.value
    ensures BeforeFirst(Location(s), ',') == OrUnknown(s.city)
    ensures s.city.None? && s.country.None? ==> Location(s) == "Unknown, Unknown"
  {
    var city := OrUnknown(s.city);
    assert ',' !in "Unknown";
    assert Location(s) == city + (", " + OrUnknown(s.country));
    BeforeFirstStopsAtSeparator(city, ", " + OrUnknown(s.country), ',');
  }

  datatype SessionView = SessionView(session: Session, durationSeconds: int, durationString: string,
                                     location: string)

  /** One entry of the active-sessions view. */
  function ActiveSessionView(s: Session, now: int): (v: SessionView)
    ensures v.session == s && v.durationSeconds == now - s.startTime
    ensures v.durationString == ActiveDurationString(now - s.startTime)
    ensures v.location == Location(s)
  {
    SessionView(s, now - s.startTime, ActiveDurationString(now - s.startTime), Location(s))
  }

  /** One entry of the history view. */
  function HistorySessionView(s: Session, now: int): (v: SessionView)
    ensures v.session == s && v.durationSeconds == HistoryElapsed(s, now)
    ensures v.durationString == HistoryDurationString(HistoryElapsed(s, now))
    ensures v.location == Location(s)
  {
    SessionView(s, HistoryElapsed(s, now), HistoryDurationString(HistoryElapsed(s, now)), Location(s))
  }

  /** An active session shows the same text in both views once it has started. */
  lemma ViewsAgreeOnOpenSession(s: Session, now: int)
    requires s.endTime.None? && now >= s.startTime
    ensures ActiveSessionView(s, now).durationString == HistorySessionView(s, now).durationString
  {
    DurationsAgree(now - s.startTime);
  }

  // ---------------------------------------------------------------------------
  // Session details

  function SessionWithId(sessions: seq<Session>, id: string): Option<nat>
  {
    FirstWhere(sessions, (s: Session) => s.id == id)
  }

  datatype SessionDetails = SessionDetails(session: Session, durationSeconds: int, username: string,
                                           isActive: bool)

  /** get_session_details: 404 for an unknown id; the owner's name, or "Unknown" when the owner
      is gone; active iff the stored status is active. */
  function GetSessionDetails(sessions: seq<Session>, users: seq<User>, id: string, now: int)
    : (r: Result<SessionDetails>)
    ensures r.Err? <==> SessionWithId(sessions, id).None?
    ensures r.Err? ==> r.error == Fail(404, "Session not found")
    ensures r.Ok? ==> r.value.session == sessions[SessionWithId(sessions, id).value]
                      && r.value.session.id == id
                      && (r.value.isActive <==> r.value.session.status == Active)
                      && r.value.durationSeconds == HistoryElapsed(r.value.session, now)
    ensures r.Ok? && UserWithId(users, r.value.session.userId).None? ==> r.value.username == "Unknown"
    ensures r.Ok? && UserWithId(users, r.value.session.userId).Some? ==>
              r.value.username == users[UserWithId(users, r.value.session.userId).value].username
  {
    match SessionWithId(sessions, id)
    case None => Err(Fail(404, "Session not found"))
    case Some(i) =>
      var s := sessions[i];
      var username := match UserWithId(users, s.userId)
                      case None => "Unknown"
                      case Some(u) => users[u].username;
      Ok(SessionDetails(s, HistoryElapsed(s, now), username, s.status == Active))
  }

  // ---------------------------------------------------------------------------
  // terminate_session

  /** The first connected connection of the user, which terminating an RDP session disconnects. */
  function DisconnectUsersLive(conns: seq<RdpConnection>, userId: string, now: int): (r: seq<RdpConnection>)
    ensures |r| == |conns|
    ensures FirstWhere(conns, (c: RdpConnection) => c.userId == userId && c.status == Connected).None? ==> r == conns
  {
    match FirstWhere(conns, (c: RdpConnection) => c.userId == userId && c.status == Connected)
    case None => conns
    case Some(j) => Disconnect(conns, conns[j].id, now)
  }

  /** With unique ids, exactly that connection changes, and it ends disconnected. */
  lemma DisconnectsOnlyTheLiveOne(conns: seq<RdpConnection>, userId: string, now: int)
    requires UniqueConnectionIds(conns)
    requires FirstWhere(conns, (c: RdpConnection) => c.userId == userId && c.status == Connected).Some?
    ensures var j := FirstWhere(conns, (c: RdpConnection) => c.userId == userId && c.status == Connected).value;
            var r := DisconnectUsersLive(conns, userId, now);
            r[j] == conns[j].(status := Disconnected, endTime := Some(now))
            && forall k :: 0 <= k < |conns| && k != j ==> r[k] == conns[k]
  {
    var j := FirstWhere(conns, (c: RdpConnection) => c.userId == userId && c.status == Connected).value;
    assert ConnectionWithId(conns, conns[j].id) == Some(j);
  }

  /** The connection is disconnected behind the manager's back: while it is live, the table of
      live connections is left pointing at a disconnected record. */
  lemma LiveEntryLeftBehind(conns: seq<RdpConnection>, active: map<string, ActiveInfo>, userId: string, now: int)
    requires UniqueConnectionIds(conns)
    requires FirstWhere(conns, (c: RdpConnection) => c.userId == userId && c.status == Connected).Some?
    requires conns[FirstWhere(conns, (c: RdpConnection) => c.userId == userId && c.status == Connected).value].id in active
    ensures !ActiveAreConnected(DisconnectUsersLive(conns, userId, now), active)
  {
    var j := FirstWhere(conns, (c: RdpConnection) => c.userId == userId && c.status == Connected).value;
    DisconnectsOnlyTheLiveOne(conns, userId, now);
    var after := DisconnectUsersLive(conns, userId, now);
    SameIdsSameLookup(conns, after, conns[j].id);
    assert ConnectionWithId(conns, conns[j].id) == Some(j);
  }

  /** terminate_session: 404 for an unknown id, 400 unless active; otherwise the session is
      terminated, and for an RDP session the user's first connected connection is disconnected. */
  method TerminateSession(db: Db, sessionId: string, now: int) returns (r: Result<SuccessResponse>)
    modifies db
    ensures SessionWithId(old(db.sessions), sessionId).None? <==> r == Err(Fail(404, "Session not found"))
    ensures r == Err(Fail(400, "Session is not active")) <==>
              SessionWithId(old(db.sessions), sessionId).Some?
              && old(db.sessions)[SessionWithId(old(db.sessions), sessionId).value].status != Active
    ensures r.Err? ==> db.sessions == old(db.sessions) && db.rdpConnections == old(db.rdpConnections)
    ensures r.Ok? ==>
              var i := SessionWithId(old(db.sessions), sessionId).value;
              var s := old(db.sessions)[i];
              r.value == Success("Session terminated successfully")
              && s.status == Active
              && db.sessions == old(db.sessions)[i := s.(status := Terminated, endTime := Some(now))]
              && db.rdpConnections == (if s.sessionType == Rdp then DisconnectUsersLive(old(db.rdpConnections), s.userId, now)
                                       else old(db.rdpConnections))
    ensures db.users == old(db.users) && db.logs == old(db.logs)
  {
    var found := SessionWithId(db.sessions, sessionId);
    if found.None? {
      return Err(Fail(404, "Session not found"));
    }
    var i := found.value;
    var s := db.sessions[i];
    if s.status != Active {
      return Err(Fail(400, "Session is not active"));
    }
    db.sessions := db.sessions[i := s.(status := Terminated, endTime := Some(now))];
    if s.sessionType == Rdp {
      db.rdpConnections := DisconnectUsersLive(db.rdpConnections, s.userId, now);
    }
    r := Ok(Success("Session terminated successfully"));
  }

  // ---------------------------------------------------------------------------
  // block_ip_address

  /** update_many over the sessions: every active session from the address is terminated. */
  function BlockSessions(sessions: seq<Session>, ip: string, now: int): (r: seq<Session>)
    ensures |r| == |sessions|
    ensures forall k :: 0 <= k < |sessions| && sessions[k].ipAddress == ip && sessions[k].status == Active ==>
              r[k] == sessions[k].(status := Terminated, endTime := Some(now))
    ensures forall k :: 0 <= k < |sessions| && !(sessions[k].ipAddress == ip && sessions[k].status == Active) ==>
              r[k] == sessions[k]
  {
    seq(|sessions|, k requires 0 <= k < |sessions| =>
      if sessions[k].ipAddress == ip && sessions[k].status == Active
      then sessions[k].(status := Terminated, endTime := Some(now))
      else sessions[k])
  }

  /** No active session from the address is left, and blocking again changes nothing. */
  lemma BlockLeavesNoActive(sessions: seq<Session>, ip: string, now: int, later: int)
    ensures forall s :: s in BlockSessions(sessions, ip, now) ==> !(s.ipAddress == ip && s.status == Active)
    ensures BlockSessions(BlockSessions(sessions, ip, now), ip, later) == BlockSessions(sessions, ip, now)
  {
  }

  function BlockEvent(ip: string, adminId: string, adminName: string, now: int): (e: LogEntry)
    ensures e.level == WARNING && e.source == AUTH_SERVICE
    ensures e.details == Some(map["blocked_ip" := ip, "blocked_by" := adminId])
    ensures e.userId == Some(adminId) && e.ipAddress == Some(ip)
  {
    LogEntry(now, WARNING, AUTH_SERVICE, "IP address " + ip + " blocked by " + adminName,
             Some(map["blocked_ip" := ip, "blocked_by" := adminId]), Some(adminId), Some(ip))
  }

  /** block_ip_address: terminate the address's active sessions and log the block. */
  method BlockIp(db: Db, ip: string, adminId: string, adminName: string, now: int) returns (r: SuccessResponse)
    modifies db
    ensures db.sessions == BlockSessions(old(db.sessions), ip, now)
    ensures db.logs == old(db.logs) + [BlockEvent(ip, adminId, adminName, now)]
    ensures r == Success("IP address " + ip + " blocked successfully")
    ensures db.users == old(db.users) && db.rdpConnections == old(db.rdpConnections)
  {
    db.sessions := BlockSessions(db.sessions, ip, now);
    db.logs := db.logs + [BlockEvent(ip, adminId, adminName, now)];
    r := Success("IP address " + ip + " blocked successfully");
  }
}
