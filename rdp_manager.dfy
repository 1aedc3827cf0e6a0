/** backend/services/rdp_manager.py: the remote-desktop connection records, the in-memory table
    of live connections, the stored-password prefix and the RDP event log. Identifiers drawn from
    uuid4 and the current time are parameters. */
module RdpManager {
  import opened Outcomes
  import opened Text
  import opened Models
  import opened Store
  import opened Sorting

  const PASSWORD_PREFIX := "encrypted_"
  const PASSWORD_MASK := "***encrypted***"

  // ---------------------------------------------------------------------------
  // The stored password

  /** _encrypt_password: the password behind a fixed prefix. */
  function EncryptPassword(password: string): (stored: string)
    ensures StartsWith(stored, PASSWORD_PREFIX) && stored[|PASSWORD_PREFIX|..] == password
  {
    PASSWORD_PREFIX + password
  }

  /** _decrypt_password as written: every occurrence of the prefix is removed. */
  function DecryptPassword(stored: string): string
  {
    ReplaceAll(stored, PASSWORD_PREFIX, "")
  }

  /** Decryption as written is right exactly on text holding the prefix at most once, at its
      head: such text loses that prefix, and text without it is kept. */
  lemma DecryptSinglePrefix(stored: string)
    ensures !Contains(stored, PASSWORD_PREFIX) ==> DecryptPassword(stored) == stored
    ensures StartsWith(stored, PASSWORD_PREFIX) && !Contains(stored[|PASSWORD_PREFIX|..], PASSWORD_PREFIX)
            ==> PASSWORD_PREFIX + DecryptPassword(stored) == stored
  {
    if !Contains(stored, PASSWORD_PREFIX) {
      ReplaceAbsent(stored, PASSWORD_PREFIX, "");
    }
    if StartsWith(stored, PASSWORD_PREFIX) {
      var rest := stored[|PASSWORD_PREFIX|..];
      assert stored == PASSWORD_PREFIX + rest;
      ReplaceLeading(PASSWORD_PREFIX, rest, "");
      if !Contains(rest, PASSWORD_PREFIX) {
        ReplaceAbsent(rest, PASSWORD_PREFIX, "");
      }
    }
  }

  /** A password that does not contain the prefix survives storage. */
  lemma PasswordRoundTrip(password: string)
    requires !Contains(password, PASSWORD_PREFIX)
    ensures DecryptPassword(EncryptPassword(password)) == password
  {
    ReplaceLeading(PASSWORD_PREFIX, password, "");
    ReplaceAbsent(password, PASSWORD_PREFIX, "");
  }

  /** A password that contains the prefix does not: "encrypted_" comes back empty. */
  lemma EmbeddedPrefixLost()
    ensures DecryptPassword(EncryptPassword("encrypted_")) == ""
  {
    ReplaceLeading(PASSWORD_PREFIX, "encrypted_", "");
    ReplaceLeading(PASSWORD_PREFIX, "", "");
  }

  /** The inverse of EncryptPassword: only the leading prefix is removed. */
  function RecoverPassword(stored: string): (password: string)
    ensures StartsWith(stored, PASSWORD_PREFIX) ==> PASSWORD_PREFIX + password == stored
    ensures !StartsWith(stored, PASSWORD_PREFIX) ==> password == stored
  {
    if StartsWith(stored, PASSWORD_PREFIX) then stored[|PASSWORD_PREFIX|..] else stored
  }

  lemma RecoverInvertsEncrypt(password: string)
    ensures RecoverPassword(EncryptPassword(password)) == password
  {
  }

  /** Wherever the written decryption is right, the corrected one agrees with it. */
  lemma RecoverAgreesWithDecrypt(password: string)
    requires !Contains(password, PASSWORD_PREFIX)
    ensures RecoverPassword(EncryptPassword(password)) == DecryptPassword(EncryptPassword(password))
  {
    PasswordRoundTrip(password);
  }

  // ---------------------------------------------------------------------------
  // Lookup

  /** The index update_one({"id": id}) reaches. */
  function ConnectionWithId(conns: seq<RdpConnection>, id: string): Option<nat>
  {
    FirstWhere(conns, (c: RdpConnection) => c.id == id)
  }

  predicate UniqueConnectionIds(conns: seq<RdpConnection>)
  {
    forall i, j :: 0 <= i < j < |conns| ==> conns[i].id != conns[j].id
  }

  /** get_connection: the first record with both the id and the owner, else 404. */
  function GetConnection(conns: seq<RdpConnection>, id: string, userId: string): (r: Result<RdpConnection>)
    ensures r.Ok? ==> r.value in conns && r.value.id == id && r.value.userId == userId
    ensures r.Err? <==> forall c :: c in conns ==> !(c.id == id && c.userId == userId)
    ensures r.Err? ==> r.error == Fail(404, "Connection not found")
  {
    match FirstWhere(conns, (c: RdpConnection) => c.id == id && c.userId == userId)
    case None => Err(Fail(404, "Connection not found"))
    case Some(i) => Ok(conns[i])
  }

  /** Another user's connection is indistinguishable from a missing one. */
  lemma ForeignConnectionNotFound(conns: seq<RdpConnection>, c: RdpConnection, userId: string)
    requires UniqueConnectionIds(conns) && c in conns && c.userId != userId
    ensures GetConnection(conns, c.id, userId) == Err(Fail(404, "Connection not found"))
  {
  }

  /** With unique ids, the record update_one reaches by id is the one get_connection found. */
  lemma FoundIsFirstWithId(conns: seq<RdpConnection>, id: string, userId: string)
    requires UniqueConnectionIds(conns) && GetConnection(conns, id, userId).Ok?
    ensures ConnectionWithId(conns, id).Some?
    ensures conns[ConnectionWithId(conns, id).value] == GetConnection(conns, id, userId).value
  {
  }

  // ---------------------------------------------------------------------------
  // list_connections

  /** start_time descending; records without a start time sort last. */
  predicate LaterStart(a: RdpConnection, b: RdpConnection)
  {
    b.startTime.None? || (a.startTime.Some? && a.startTime.value >= b.startTime.value)
  }

  lemma LaterStartIsTotalPreorder()
    ensures TotalPreorder(LaterStart)
  {
  }

  function OwnedBy(conns: seq<RdpConnection>, userId: string): (r: seq<RdpConnection>)
    ensures forall c :: c in r <==> c in conns && c.userId == userId
  {
    if conns == [] then []
    else (if conns[0].userId == userId then [conns[0]] else []) + OwnedBy(conns[1..], userId)
  }

  function MaskAll(conns: seq<RdpConnection>): (r: seq<RdpConnection>)
    ensures |r| == |conns|
    ensures forall i :: 0 <= i < |conns| ==> r[i] == conns[i].(password := PASSWORD_MASK)
  {
    seq(|conns|, i requires 0 <= i < |conns| => conns[i].(password := PASSWORD_MASK))
  }

  /** The masked copies of a user's records are exactly that user's records, masked. */
  lemma MaskedOwned(conns: seq<RdpConnection>, userId: string)
    ensures forall c :: c in MaskAll(OwnedBy(conns, userId)) ==>
      c.password == PASSWORD_MASK && c.userId == userId
    ensures forall c :: c in conns && c.userId == userId ==>
      c.(password := PASSWORD_MASK) in MaskAll(OwnedBy(conns, userId))
  {
    var owned := OwnedBy(conns, userId);
    var masked := MaskAll(owned);
    forall c | c in masked ensures c.password == PASSWORD_MASK && c.userId == userId {
      var k :| 0 <= k < |masked| && masked[k] == c;
      assert owned[k] in owned;
    }
    forall c | c in conns && c.userId == userId ensures c.(password := PASSWORD_MASK) in masked {
      var k :| 0 <= k < |owned| && owned[k] == c;
      assert masked[k] == c.(password := PASSWORD_MASK);
    }
  }

  /** The masking loop over the user's records. */
  method MaskPasswords(owned: seq<RdpConnection>) returns (masked: seq<RdpConnection>)
    ensures masked == MaskAll(owned)
  {
    masked := [];
    var i := 0;
    while i < |owned|
      invariant 0 <= i <= |owned|
      invariant masked == MaskAll(owned[..i])
    {
      masked := masked + [owned[i].(password := PASSWORD_MASK)];
      i := i + 1;
    }
    assert owned[..i] == owned;
  }

  /** Two lists with the same multiset hold the same elements. */
  lemma SameBagSameMembers<T>(a: seq<T>, b: seq<T>)
    requires multiset(a) == multiset(b)
    ensures forall x :: x in a <==> x in b
  {
    forall x ensures x in a <==> x in b {
      assert x in a <==> x in multiset(a);
      assert x in b <==> x in multiset(b);
    }
  }

  /** list_connections: the user's records, newest first, each with its password masked. The
      masking loop is over the owned records; the store's sort follows it (masking does not
      touch start_time). */
  method ListConnections(conns: seq<RdpConnection>, userId: string) returns (r: seq<RdpConnection>)
    ensures Sorted(r, LaterStart)
    ensures multiset(r) == multiset(MaskAll(OwnedBy(conns, userId)))
    ensures forall c :: c in r ==> c.password == PASSWORD_MASK && c.userId == userId
    ensures forall c :: c in conns && c.userId == userId ==> c.(password := PASSWORD_MASK) in r
  {
    var masked := MaskPasswords(OwnedBy(conns, userId));
    LaterStartIsTotalPreorder();
    r := InsertionSort(masked, LaterStart);
    SameBagSameMembers(r, masked);
    MaskedOwned(conns, userId);
  }

  // ---------------------------------------------------------------------------
  // The RDP event log

  /** INFO for success and establishment events, WARNING for every other event. */
  function RdpEventLevel(eventType: string): (level: LogLevel)
    ensures level == INFO <==> Contains(eventType, "SUCCESS") || Contains(eventType, "ESTABLISHED")
    ensures level == INFO || level == WARNING
  {
    if Contains(eventType, "SUCCESS") || Contains(eventType, "ESTABLISHED") then INFO else WARNING
  }

  /** Of the events the manager writes, only CONNECTION_ESTABLISHED is logged at INFO. */
  lemma EventLevels()
    ensures RdpEventLevel("CONNECTION_ESTABLISHED") == INFO
    ensures RdpEventLevel("CONNECTION_CREATED") == WARNING
    ensures RdpEventLevel("CONNECTION_TERMINATED") == WARNING
    ensures RdpEventLevel("CONNECTION_FAILED") == WARNING
  {
    assert OccursAt("CONNECTION_ESTABLISHED", "ESTABLISHED", 11);
    MissingCharNotContained("CONNECTION_CREATED", "SUCCESS", 'S');
    MissingCharNotContained("CONNECTION_CREATED", "ESTABLISHED", 'S');
    MissingCharNotContained("CONNECTION_TERMINATED", "SUCCESS", 'S');
    MissingCharNotContained("CONNECTION_TERMINATED", "ESTABLISHED", 'S');
    MissingCharNotContained("CONNECTION_FAILED", "SUCCESS", 'S');
    MissingCharNotContained("CONNECTION_FAILED", "ESTABLISHED", 'S');
  }

  function RdpEvent(userId: string, eventType: string, message: string, connectionId: string,
                    now: int): (e: LogEntry)
    ensures e.level == RdpEventLevel(eventType) && e.source == RDP_SERVER
    ensures e.userId == Some(userId) && e.ipAddress == None && e.message == message
    ensures e.details == Some(map["event_type" := eventType, "connection_id" := connectionId])
  {
    LogEntry(now, RdpEventLevel(eventType), RDP_SERVER, message,
             Some(map["event_type" := eventType, "connection_id" := connectionId]), Some(userId), None)
  }

  // ---------------------------------------------------------------------------
  // The client configuration written when a connection is established

  /** "32" for high quality, "16" for every other quality. */
  function ColorDepth(quality: string): (depth: string)
    ensures depth == "32" <==> quality == "high"
    ensures depth == "32" || depth == "16"
  {
    if quality == "high" then "32" else "16"
  }

  datatype GuacConfig = GuacConfig(hostname: string, port: string, username: string,
                                   password: string, colorDepth: string)

  /** The parameters handed to the remote-desktop client. The password goes through
      _decrypt_password as written, so it is faithful only when the stored text holds the
      prefix once, at its head. */
  function GuacConfigFor(c: RdpConnection): (g: GuacConfig)
    ensures g.hostname == c.host && g.port == IntToString(c.port) && g.username == c.username
    ensures g.colorDepth == ColorDepth(c.quality)
    ensures !Contains(c.password, PASSWORD_PREFIX) ==> g.password == c.password
    ensures StartsWith(c.password, PASSWORD_PREFIX) && !Contains(c.password[|PASSWORD_PREFIX|..], PASSWORD_PREFIX)
            ==> PASSWORD_PREFIX + g.password == c.password
  {
    DecryptSinglePrefix(c.password);
    GuacConfig(c.host, IntToString(c.port), c.username, DecryptPassword(c.password), ColorDepth(c.quality))
  }

  /** The client parameters with the corrected decryption: the same host, port, user name and
      colour depth, and the stored password with only its leading prefix removed. */
  function CorrectedGuacConfigFor(c: RdpConnection): (g: GuacConfig)
    ensures g.hostname == c.host && g.port == IntToString(c.port) && g.username == c.username
    ensures g.colorDepth == ColorDepth(c.quality)
    ensures StartsWith(c.password, PASSWORD_PREFIX) ==> PASSWORD_PREFIX + g.password == c.password
  {
    GuacConfig(c.host, IntToString(c.port), c.username, RecoverPassword(c.password), ColorDepth(c.quality))
  }

  function ConfigFile(connectionId: string): string
  {
    "/tmp/guac_config_" + connectionId + ".json"
  }

  // ---------------------------------------------------------------------------
  // State changes on the records

  /** The fields create_connection stores for a request. */
  function CreatedConnection(id: string, userId: string, data: RdpConnectionCreate): (c: RdpConnection)
    ensures c.id == id && c.userId == userId && c.host == data.host && c.port == data.port
    ensures c.username == data.username && c.quality == data.quality
    ensures c.password == EncryptPassword(data.password) && c.status == Connecting
    ensures c.startTime == None && c.endTime == None && c.errorMessage == None
  {
    NewRdpConnection(id, userId, data.host, data.username, EncryptPassword(data.password))
      .(port := data.port, quality := data.quality, status := Connecting)
  }

  /** The client receives the password of the request it was created from, provided that
      password does not itself contain the prefix. */
  lemma ConfigCarriesRequestPassword(id: string, userId: string, data: RdpConnectionCreate)
    requires !Contains(data.password, PASSWORD_PREFIX)
    ensures GuacConfigFor(CreatedConnection(id, userId, data)).password == data.password
  {
    var c := CreatedConnection(id, userId, data);
    assert c.password[|PASSWORD_PREFIX|..] == data.password;
  }

  /** A password holding the prefix inside reaches the client without it:
      "myencrypted_pw" is sent as "mypw". */
  lemma ConfigLosesEmbeddedPrefix(id: string, userId: string, data: RdpConnectionCreate)
    requires data.password == "myencrypted_pw"
    ensures GuacConfigFor(CreatedConnection(id, userId, data)).password == "mypw"
  {
    EmbeddedPrefixDropped();
  }

  lemma EmbeddedPrefixDropped()
    ensures DecryptPassword(EncryptPassword("myencrypted_pw")) == "mypw"
  {
    ReplaceLeading(PASSWORD_PREFIX, "myencrypted_pw", "");
    var t := "myencrypted_pw";
    assert t[..10] == "myencrypte";
    assert ReplaceAll(t, PASSWORD_PREFIX, "") == "m" + ReplaceAll("yencrypted_pw", PASSWORD_PREFIX, "");
    var u := "yencrypted_pw";
    assert u[..10] == "yencrypted";
    assert ReplaceAll(u, PASSWORD_PREFIX, "") == "y" + ReplaceAll("encrypted_pw", PASSWORD_PREFIX, "");
    ReplaceLeading(PASSWORD_PREFIX, "pw", "");
    assert PASSWORD_PREFIX + "pw" == "encrypted_pw";
  }

  /** With the corrected decryption the client receives the request's password, whatever it is. */
  lemma CorrectedConfigCarriesRequestPassword(id: string, userId: string, data: RdpConnectionCreate)
    ensures CorrectedGuacConfigFor(CreatedConnection(id, userId, data)).password == data.password
  {
    RecoverInvertsEncrypt(data.password);
  }

  /** update_one({"id": id}) setting status disconnected and the end time. */
  function Disconnect(conns: seq<RdpConnection>, id: string, now: int): (r: seq<RdpConnection>)
    ensures |r| == |conns|
    ensures forall k :: 0 <= k < |conns| ==> r[k].id == conns[k].id && r[k].userId == conns[k].userId
    ensures ConnectionWithId(conns, id).None? ==> r == conns
    ensures ConnectionWithId(conns, id).Some? ==>
              var j := ConnectionWithId(conns, id).value;
              r[j].status == Disconnected && r[j].endTime == Some(now)
              && forall k :: 0 <= k < |conns| && k != j ==> r[k] == conns[k]
  {
    match ConnectionWithId(conns, id)
    case None => conns
    case Some(j) => conns[j := conns[j].(status := Disconnected, endTime := Some(now))]
  }

  /** Terminating twice: after the first, get_connection sees a disconnected record. */
  lemma DisconnectIsSeen(conns: seq<RdpConnection>, id: string, userId: string, now: int)
    requires UniqueConnectionIds(conns) && GetConnection(conns, id, userId).Ok?
    ensures var after := Disconnect(conns, id, now);
            UniqueConnectionIds(after)
            && GetConnection(after, id, userId).Ok?
            && GetConnection(after, id, userId).value.status == Disconnected
  {
    FoundIsFirstWithId(conns, id, userId);
    var j := ConnectionWithId(conns, id).value;
    var after := Disconnect(conns, id, now);
    assert after[j].id == id && after[j].userId == userId;
    FoundIsFirstWithId(after, id, userId);
  }

  /** update_one({"user_id": u, "session_type": "RDP"}): the user's first RDP session, whatever
      its status, becomes terminated. */
  function TerminateRdpSession(sessions: seq<Session>, userId: string, now: int): (r: seq<Session>)
    ensures |r| == |sessions|
    ensures forall k :: 0 <= k < |sessions| && (sessions[k].userId != userId || sessions[k].sessionType != Rdp)
                        ==> r[k] == sessions[k]
    ensures forall k :: 0 <= k < |sessions| && r[k] != sessions[k] ==>
              r[k] == sessions[k].(status := Terminated, endTime := Some(now))
              && forall m :: 0 <= m < k ==> !(sessions[m].userId == userId && sessions[m].sessionType == Rdp)
    ensures forall k :: 0 <= k < |sessions| && sessions[k].userId == userId && sessions[k].sessionType == Rdp
                        && (forall m :: 0 <= m < k ==> !(sessions[m].userId == userId && sessions[m].sessionType == Rdp))
                        ==> r[k] == sessions[k].(status := Terminated, endTime := Some(now))
  {
    match FirstWhere(sessions, (s: Session) => s.userId == userId && s.sessionType == Rdp)
    case None => sessions
    case Some(j) => sessions[j := sessions[j].(status := Terminated, endTime := Some(now))]
  }

  /** The session picked is the user's first RDP session, not the connection's own: with an
      older terminated one in front, the live session stays active. */
  lemma LiveSessionMissed(older: Session, live: Session, now: int)
    requires older.sessionType == Rdp && older.status == Terminated
    requires live.sessionType == Rdp && live.status == Active && live.userId == older.userId
    ensures TerminateRdpSession([older, live], older.userId, now)[1].status == Active
  {
  }

  // ---------------------------------------------------------------------------
  // The live-connection table

  datatype ActiveInfo = ActiveInfo(sessionId: string, startTime: int, latency: int,
                                   bandwidth: real, resolution: string, fps: int, configFile: string)

  /** What the monitoring loop starts from once a connection is established. */
  function InitialActiveInfo(sessionId: string, connectionId: string, now: int): ActiveInfo
  {
    ActiveInfo(sessionId, now, 25, 2.5, "1920x1080", 30, ConfigFile(connectionId))
  }

  /** Every live connection is stored as connected. */
  predicate ActiveAreConnected(conns: seq<RdpConnection>, active: map<string, ActiveInfo>)
  {
    forall id :: id in active ==>
      ConnectionWithId(conns, id).Some? && conns[ConnectionWithId(conns, id).value].status == Connected
  }

  lemma {:induction false} AppendKeepsConnected(conns: seq<RdpConnection>, c: RdpConnection,
                                                active: map<string, ActiveInfo>)
    requires ActiveAreConnected(conns, active)
    ensures ActiveAreConnected(conns + [c], active)
  {
    forall id | id in active
      ensures ConnectionWithId(conns + [c], id) == ConnectionWithId(conns, id)
    {
      FirstWhereAppend(conns, [c], (d: RdpConnection) => d.id == id);
    }
  }

  /** Rewriting fields other than the id of one record keeps the other records' lookups. */
  lemma {:induction false} SameIdsSameLookup(conns: seq<RdpConnection>, after: seq<RdpConnection>, id: string)
    requires |after| == |conns| && forall k :: 0 <= k < |conns| ==> after[k].id == conns[k].id
    ensures ConnectionWithId(after, id) == ConnectionWithId(conns, id)
  {
    FirstWhereAgrees(after, (c: RdpConnection) => c.id == id, conns, (c: RdpConnection) => c.id == id);
  }

  lemma {:induction false} DisconnectKeepsConnected(conns: seq<RdpConnection>, id: string, now: int,
                                                    active: map<string, ActiveInfo>)
    requires ActiveAreConnected(conns, active)
    ensures ActiveAreConnected(Disconnect(conns, id, now), active - {id})
  {
    var after := Disconnect(conns, id, now);
    forall k | k in active - {id}
      ensures ConnectionWithId(after, k).Some? && after[ConnectionWithId(after, k).value].status == Connected
    {
      SameIdsSameLookup(conns, after, k);
    }
  }

  lemma {:induction false} SetStatusKeepsConnected(conns: seq<RdpConnection>, i: nat, c: RdpConnection,
                                                   active: map<string, ActiveInfo>)
    requires ActiveAreConnected(conns, active) && i < |conns| && c.id == conns[i].id
    requires conns[i].id !in active
    ensures ActiveAreConnected(conns[i := c], active)
  {
    forall k | k in active
      ensures ConnectionWithId(conns[i := c], k).Some? && conns[i := c][ConnectionWithId(conns[i := c], k).value].status == Connected
    {
      SameIdsSameLookup(conns, conns[i := c], k);
    }
  }

  lemma {:induction false} EstablishKeepsConnected(conns: seq<RdpConnection>, i: nat, c: RdpConnection,
                                                   active: map<string, ActiveInfo>, info: ActiveInfo)
    requires ActiveAreConnected(conns, active) && i < |conns| && c.id == conns[i].id
    requires ConnectionWithId(conns, c.id) == Some(i) && c.status == Connected
    ensures ActiveAreConnected(conns[i := c], active[c.id := info])
  {
    var grown := active[c.id := info];
    forall k | k in grown
      ensures ConnectionWithId(conns[i := c], k).Some? && conns[i := c][ConnectionWithId(conns[i := c], k).value].status == Connected
    {
      SameIdsSameLookup(conns, conns[i := c], k);
    }
  }

  /** get_connection_status: the stored fields, plus the live metrics of a live connection. */
  datatype LiveMetrics = LiveMetrics(latency: int, bandwidth: real, resolution: string, fps: int)

  datatype StatusInfo = StatusInfo(connectionId: string, status: ConnectionStatus, host: string,
                                   port: int, startTime: Option<int>, endTime: Option<int>,
                                   errorMessage: Option<string>, live: Option<LiveMetrics>)

  function GetConnectionStatus(conns: seq<RdpConnection>, active: map<string, ActiveInfo>,
                               id: string, userId: string): (r: Result<StatusInfo>)
    ensures r.Err? <==> GetConnection(conns, id, userId).Err?
    ensures r.Err? ==> r.error == GetConnection(conns, id, userId).error
    ensures r.Ok? ==> r.value.status == GetConnection(conns, id, userId).value.status
                      && (r.value.live.Some? <==> id in active)
  {
    match GetConnection(conns, id, userId)
    case Err(e) => Err(e)
    case Ok(c) =>
      var live := if id in active
                  then Some(LiveMetrics(active[id].latency, active[id].bandwidth, active[id].resolution, active[id].fps))
                  else None;
      Ok(StatusInfo(id, c.status, c.host, c.port, c.startTime, c.endTime, c.errorMessage, live))
  }

  /** While the table is consistent, live metrics are only ever shown for a connected record. */
  lemma LiveMetricsOnlyWhenConnected(conns: seq<RdpConnection>, active: map<string, ActiveInfo>,
                                     id: string, userId: string)
    requires UniqueConnectionIds(conns) && ActiveAreConnected(conns, active)
    requires GetConnectionStatus(conns, active, id, userId).Ok?
    requires GetConnectionStatus(conns, active, id, userId).value.live.Some?
    ensures GetConnectionStatus(conns, active, id, userId).value.status == Connected
  {
    FoundIsFirstWithId(conns, id, userId);
  }

  /** The manager: the table of live connections it keeps between requests. */
  class RdpManagerService {
    var activeConnections: map<string, ActiveInfo>

    constructor ()
      ensures activeConnections == map[]
    {
      activeConnections := map[];
    }

    predicate Consistent(db: Db)
      reads this, db
    {
      ActiveAreConnected(db.rdpConnections, activeConnections)
    }

    /** create_connection: stores the record (status connecting) and an active RDP session,
        and logs the creation. Establishment is the separate EstablishConnection step. */
    method CreateConnection(db: Db, data: RdpConnectionCreate, userId: string, ip: string,
                            connectionId: string, sessionId: string, now: int) returns (c: RdpConnection)
      modifies db
      ensures c == CreatedConnection(connectionId, userId, data)
      ensures db.rdpConnections == old(db.rdpConnections) + [c]
      ensures db.sessions == old(db.sessions) + [NewSession(sessionId, userId, Rdp, ip, None, now)]
      ensures db.logs == old(db.logs) + [RdpEvent(userId, "CONNECTION_CREATED",
                "RDP connection created to " + data.host + ":" + IntToString(data.port), connectionId, now)]
      ensures db.users == old(db.users)
      ensures old(Consistent(db)) ==> Consistent(db)
    {
      c := CreatedConnection(connectionId, userId, data);
      if Consistent(db) {
        AppendKeepsConnected(db.rdpConnections, c, activeConnections);
      }
      db.rdpConnections := db.rdpConnections + [c];
      db.sessions := db.sessions + [NewSession(sessionId, userId, Rdp, ip, None, now)];
      db.logs := db.logs + [RdpEvent(userId, "CONNECTION_CREATED",
                   "RDP connection created to " + data.host + ":" + IntToString(data.port), connectionId, now)];
    }

    /** _establish_connection: nothing for an unknown id; otherwise the record is marked
        connecting with its start time and the client configuration is written. When writing
        succeeds the connection goes live and is marked connected; when it fails
        (`writeFailure` carries the error text) it is marked error. */
    method EstablishConnection(db: Db, connectionId: string, sessionId: string, now: int,
                               writeFailure: Option<string>) returns (written: Option<GuacConfig>)
      modifies this, db
      ensures ConnectionWithId(old(db.rdpConnections), connectionId).None? ==>
                written == None && db.rdpConnections == old(db.rdpConnections)
                && db.logs == old(db.logs) && activeConnections == old(activeConnections)
      ensures ConnectionWithId(old(db.rdpConnections), connectionId).Some? ==>
                var i := ConnectionWithId(old(db.rdpConnections), connectionId).value;
                var c := old(db.rdpConnections)[i];
                written == Some(GuacConfigFor(c))
                && (writeFailure.None? ==>
                      db.rdpConnections == old(db.rdpConnections)[i := c.(status := Connected, startTime := Some(now))]
                      && activeConnections == old(activeConnections)[connectionId := InitialActiveInfo(sessionId, connectionId, now)]
                      && db.logs == old(db.logs) + [RdpEvent(c.userId, "CONNECTION_ESTABLISHED",
                           "RDP connection established to " + c.host + ":" + IntToString(c.port), connectionId, now)])
                && (writeFailure.Some? ==>
                      db.rdpConnections == old(db.rdpConnections)[i := c.(status := ConnectionError, startTime := Some(now),
                                                                       errorMessage := writeFailure, endTime := Some(now))]
                      && activeConnections == old(activeConnections)
                      && db.logs == old(db.logs) + [RdpEvent(c.userId, "CONNECTION_FAILED",
                           "RDP connection failed: " + writeFailure.value, connectionId, now)])
      ensures db.users == old(db.users) && db.sessions == old(db.sessions)
      ensures old(Consistent(db)) && (writeFailure.None? || connectionId !in old(activeConnections)) ==> Consistent(db)
    {
      var found := ConnectionWithId(db.rdpConnections, connectionId);
      if found.None? {
        return None;
      }
      var i := found.value;
      var c := db.rdpConnections[i];
      var consistent := Consistent(db);
      var starting := c.(status := Connecting, startTime := Some(now));
      db.rdpConnections := db.rdpConnections[i := starting];
      written := Some(GuacConfigFor(c));
      if writeFailure.None? {
        var live := starting.(status := Connected);
        if consistent {
          EstablishKeepsConnected(old(db.rdpConnections), i, live, activeConnections,
                                  InitialActiveInfo(sessionId, connectionId, now));
        }
        activeConnections := activeConnections[connectionId := InitialActiveInfo(sessionId, connectionId, now)];
        db.rdpConnections := db.rdpConnections[i := live];
        assert db.rdpConnections == old(db.rdpConnections)[i := live];
        db.logs := db.logs + [RdpEvent(c.userId, "CONNECTION_ESTABLISHED",
                     "RDP connection established to " + c.host + ":" + IntToString(c.port), connectionId, now)];
      } else {
        var failed := starting.(status := ConnectionError, errorMessage := writeFailure, endTime := Some(now));
        if consistent && connectionId !in activeConnections {
          SetStatusKeepsConnected(old(db.rdpConnections), i, failed, activeConnections);
        }
        db.rdpConnections := db.rdpConnections[i := failed];
        assert db.rdpConnections == old(db.rdpConnections)[i := failed];
        db.logs := db.logs + [RdpEvent(c.userId, "CONNECTION_FAILED",
                     "RDP connection failed: " + writeFailure.value, connectionId, now)];
      }
    }

    /** terminate_connection: 404 for a record the user does not own; true without any change
        for a disconnected one; otherwise the record is disconnected, the user's first RDP
        session terminated, the connection dropped from the live table and the event logged. */
    method TerminateConnection(db: Db, connectionId: string, userId: string, now: int) returns (r: Result<bool>)
      modifies this, db
      ensures r.Err? <==> GetConnection(old(db.rdpConnections), connectionId, userId).Err?
      ensures r.Err? ==> r.error == Fail(404, "Connection not found")
      ensures r.Ok? ==> r.value
      ensures r.Err? || GetConnection(old(db.rdpConnections), connectionId, userId).value.status == Disconnected ==>
                db.rdpConnections == old(db.rdpConnections) && db.sessions == old(db.sessions)
                && db.logs == old(db.logs) && activeConnections == old(activeConnections)
      ensures r.Ok? && GetConnection(old(db.rdpConnections), connectionId, userId).value.status != Disconnected ==>
                db.rdpConnections == Disconnect(old(db.rdpConnections), connectionId, now)
                && db.sessions == TerminateRdpSession(old(db.sessions), userId, now)
                && activeConnections == old(activeConnections) - {connectionId}
                && db.logs == old(db.logs) + [RdpEvent(userId, "CONNECTION_TERMINATED",
                     "RDP connection " + connectionId + " terminated", connectionId, now)]
      ensures connectionId !in activeConnections || r.Err? || GetConnection(old(db.rdpConnections), connectionId, userId).value.status == Disconnected
      ensures db.users == old(db.users)
      ensures old(Consistent(db)) ==> Consistent(db)
    {
      var found := GetConnection(db.rdpConnections, connectionId, userId);
      if found.Err? {
        return Err(found.error);
      }
      if found.value.status == Disconnected {
        return Ok(true);
      }
      if Consistent(db) {
        DisconnectKeepsConnected(db.rdpConnections, connectionId, now, activeConnections);
      }
      db.rdpConnections := Disconnect(db.rdpConnections, connectionId, now);
      db.sessions := TerminateRdpSession(db.sessions, userId, now);
      activeConnections := activeConnections - {connectionId};
      db.logs := db.logs + [RdpEvent(userId, "CONNECTION_TERMINATED",
                   "RDP connection " + connectionId + " terminated", connectionId, now)];
      r := Ok(true);
    }
  }
}
