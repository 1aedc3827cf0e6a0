/** backend/routers/rdp_router.py: the remote-desktop endpoints. Every per-connection action
    first looks the connection up for the caller and refuses it unless it is connected; only
    then are the action's own arguments checked. */
module RdpRouter {
  import opened Outcomes
  import opened Text
  import opened Models
  import opened Store
  import opened RdpManager
  import AuthRouter

  // ---------------------------------------------------------------------------
  // The shared gate

  /** The connection must exist for the caller (404 otherwise) and be connected (400). */
  function ActiveGate(found: Result<RdpConnection>): (r: Result<RdpConnection>)
    ensures r.Ok? <==> found.Ok? && found.value.status == Connected
    ensures r.Ok? || found.Err? ==> r == found
    ensures found.Ok? && found.value.status != Connected ==> r == Err(Fail(400, "Connection is not active"))
  {
    match found
    case Err(e) => Err(e)
    case Ok(c) => if c.status == Connected then Ok(c) else Err(Fail(400, "Connection is not active"))
  }

  // ---------------------------------------------------------------------------
  // Screenshot

  datatype ScreenshotReply = ScreenshotReply(message: string, connectionId: string,
                                             timestamp: string, format: string, size: string)

  function TakeScreenshot(found: Result<RdpConnection>, connectionId: string): (r: Result<ScreenshotReply>)
    ensures r.Ok? <==> ActiveGate(found).Ok?
    ensures r.Err? ==> r.error == ActiveGate(found).error
    ensures r.Ok? ==> r.value.connectionId == connectionId && r.value.format == "png"
  {
    match ActiveGate(found)
    case Err(e) => Err(e)
    case Ok(_) =>
      Ok(ScreenshotReply("Screenshot taken successfully", connectionId, "2024-01-01T00:00:00Z", "png", "1920x1080"))
  }

  // ---------------------------------------------------------------------------
  // Key combinations

  const VALID_COMBINATIONS: seq<string> := [
    "ctrl+alt+del", "alt+tab", "alt+f4", "win+r", "win+l",
    "ctrl+c", "ctrl+v", "ctrl+x", "ctrl+z", "ctrl+s"
  ]

  datatype KeysReply = KeysReply(message: string, connectionId: string, keys: string)

  /** send-keys: the lower-cased combination must be on the list; the reply echoes the keys
      as sent. */
  function SendKeys(found: Result<RdpConnection>, connectionId: string, keys: string): (r: Result<KeysReply>)
    ensures r.Ok? <==> ActiveGate(found).Ok? && Lower(keys) in VALID_COMBINATIONS
    ensures ActiveGate(found).Err? ==> r == Err(ActiveGate(found).error)
    ensures ActiveGate(found).Ok? && Lower(keys) !in VALID_COMBINATIONS ==> r == Err(Fail(400, "Invalid key combination"))
    ensures r.Ok? ==> r.value.keys == keys && r.value.connectionId == connectionId
                      && r.value.message == "Key combination '" + keys + "' sent successfully"
  {
    match ActiveGate(found)
    case Err(e) => Err(e)
    case Ok(_) =>
      if Lower(keys) !in VALID_COMBINATIONS then Err(Fail(400, "Invalid key combination"))
      else Ok(KeysReply("Key combination '" + keys + "' sent successfully", connectionId, keys))
  }

  /** The list is matched without regard to case, and the reply keeps the caller's spelling. */
  lemma KeysMatchIgnoringCase(c: RdpConnection, connectionId: string)
    requires c.status == Connected
    ensures SendKeys(Ok(c), connectionId, "Ctrl+Alt+Del").Ok?
    ensures SendKeys(Ok(c), connectionId, "Ctrl+Alt+Del").value.keys == "Ctrl+Alt+Del"
  {
    assert Lower("Ctrl+Alt+Del") == "ctrl+alt+del";
    assert VALID_COMBINATIONS[0] == "ctrl+alt+del";
  }

  /** A connection that is not connected is refused before its keys are looked at. */
  lemma InactiveBeforeInvalidKeys(c: RdpConnection, connectionId: string, keys: string)
    requires c.status != Connected
    ensures SendKeys(Ok(c), connectionId, keys) == Err(Fail(400, "Connection is not active"))
  {
  }

  // ---------------------------------------------------------------------------
  // Clipboard

  const CLIPBOARD_LIMIT := 10000

  datatype ClipboardSetReply = ClipboardSetReply(message: string, connectionId: string, contentLength: nat)

  /** Setting the clipboard: at most 10000 characters. */
  function SetClipboard(found: Result<RdpConnection>, connectionId: string, content: string)
    : (r: Result<ClipboardSetReply>)
    ensures r.Ok? <==> ActiveGate(found).Ok? && |content| <= CLIPBOARD_LIMIT
    ensures ActiveGate(found).Err? ==> r == Err(ActiveGate(found).error)
    ensures ActiveGate(found).Ok? && |content| > CLIPBOARD_LIMIT ==> r == Err(Fail(400, "Clipboard content too large"))
    ensures r.Ok? ==> r.value.contentLength == |content| && r.value.connectionId == connectionId
  {
    match ActiveGate(found)
    case Err(e) => Err(e)
    case Ok(_) =>
      if |content| > CLIPBOARD_LIMIT then Err(Fail(400, "Clipboard content too large"))
      else Ok(ClipboardSetReply("Clipboard content set successfully", connectionId, |content|))
  }

  datatype ClipboardGetReply = ClipboardGetReply(content: string, contentType: string, timestamp: string)

  /** Reading the clipboard: an empty text placeholder for a connected connection. */
  function GetClipboard(found: Result<RdpConnection>): (r: Result<ClipboardGetReply>)
    ensures r.Ok? <==> ActiveGate(found).Ok?
    ensures r.Err? ==> r.error == ActiveGate(found).error
    ensures r.Ok? ==> r.value.content == "" && r.value.contentType == "text/plain"
  {
    match ActiveGate(found)
    case Err(e) => Err(e)
    case Ok(_) => Ok(ClipboardGetReply("", "text/plain", "2024-01-01T00:00:00Z"))
  }

  // ---------------------------------------------------------------------------
  // Resize

  predicate ValidResolution(width: int, height: int)
  {
    800 <= width <= 4096 && 600 <= height <= 2160
  }

  datatype ResizeReply = ResizeReply(message: string, connectionId: string, resolution: string)

  /** Resizing: width 800 to 4096 and height 600 to 2160, both inclusive; the resolution is
      reported as "{width}x{height}". */
  function Resize(found: Result<RdpConnection>, connectionId: string, width: int, height: int)
    : (r: Result<ResizeReply>)
    ensures r.Ok? <==> ActiveGate(found).Ok? && ValidResolution(width, height)
    ensures ActiveGate(found).Err? ==> r == Err(ActiveGate(found).error)
    ensures ActiveGate(found).Ok? && !ValidResolution(width, height) ==> r == Err(Fail(400, "Invalid resolution"))
    ensures r.Ok? ==> r.value.connectionId == connectionId
                      && r.value.resolution == IntToString(width) + "x" + IntToString(height)
  {
    match ActiveGate(found)
    case Err(e) => Err(e)
    case Ok(_) =>
      if width < 800 || height < 600 || width > 4096 || height > 2160 then Err(Fail(400, "Invalid resolution"))
      else Ok(ResizeReply("RDP session resized successfully", connectionId,
                          IntToString(width) + "x" + IntToString(height)))
  }

  /** The reported resolution reads back as the requested width and height. */
  lemma ResolutionReadsBack(width: nat, height: nat)
    ensures var res := IntToString(width) + "x" + IntToString(height);
            ParseNat(BeforeFirst(res, 'x')) == width && ParseNat(AfterLast(res, 'x')) == height
  {
    var ws, hs := NatToString(width), NatToString(height);
    var res := ws + "x" + hs;
    assert 'x' !in ws by {
      forall i | 0 <= i < |ws| ensures ws[i] != 'x' {
        assert IsDigit(ws[i]);
      }
    }
    assert 'x' !in hs by {
      forall i | 0 <= i < |hs| ensures hs[i] != 'x' {
        assert IsDigit(hs[i]);
      }
    }
    assert res == ws + ("x" + hs);
    BeforeFirstStopsAtSeparator(ws, "x" + hs, 'x');
    var tail := AfterLast(res, 'x');
    assert res[|ws|] == 'x';
    assert tail == res[|ws| + 1..] == hs;
    ParseNatToString(width);
    ParseNatToString(height);
  }

  // ---------------------------------------------------------------------------
  // Create and terminate

  /** create_rdp_connection: the client address as the login handler computes it. */
  method CreateRdpConnection(manager: RdpManagerService, db: Db, data: RdpConnectionCreate, userId: string,
                             peerHost: string, forwardedFor: Option<string>,
                             connectionId: string, sessionId: string, now: int) returns (c: RdpConnection)
    modifies db
    ensures c == CreatedConnection(connectionId, userId, data)
    ensures db.rdpConnections == old(db.rdpConnections) + [c]
    ensures db.sessions == old(db.sessions)
                           + [NewSession(sessionId, userId, Rdp, AuthRouter.ClientIp(peerHost, forwardedFor), None, now)]
  {
    var ip := AuthRouter.ClientIp(peerHost, forwardedFor);
    c := manager.CreateConnection(db, data, userId, ip, connectionId, sessionId, now);
  }

  /** terminate_rdp_connection: the service answers true or raises, so the route's 500 for a
      false answer is never sent. */
  method TerminateRdpConnection(manager: RdpManagerService, db: Db, connectionId: string, userId: string,
                                now: int) returns (r: Result<SuccessResponse>)
    modifies manager, db
    ensures r.Ok? <==> GetConnection(old(db.rdpConnections), connectionId, userId).Ok?
    ensures r.Ok? ==> r.value == Success("RDP connection terminated successfully")
    ensures r.Err? ==> r.error == Fail(404, "Connection not found")
    ensures old(manager.Consistent(db)) ==> manager.Consistent(db)
  {
    var outcome := manager.TerminateConnection(db, connectionId, userId, now);
    match outcome {
      case Err(e) => r := Err(e);
      case Ok(success) =>
        if success {
          r := Ok(Success("RDP connection terminated successfully"));
        } else {
          r := Err(Fail(500, "Failed to terminate connection"));
        }
    }
  }

  // ---------------------------------------------------------------------------
  // get_active_connections

  /** One entry of the monitoring view. */
  datatype ActiveView = ActiveView(connectionId: string, host: string, port: int, startTime: int,
                                   latency: int, bandwidth: real, resolution: string, fps: int)

  function ViewOf(id: string, c: RdpConnection, info: ActiveInfo): ActiveView
  {
    ActiveView(id, c.host, c.port, info.startTime, info.latency, info.bandwidth, info.resolution, info.fps)
  }

  /** v shows a live connection the caller owns, with its stored host and port and its live metrics. */
  predicate ShowsOwnLive(v: ActiveView, active: map<string, ActiveInfo>, conns: seq<RdpConnection>, userId: string)
  {
    && v.connectionId in active
    && GetConnection(conns, v.connectionId, userId).Ok?
    && v == ViewOf(v.connectionId, GetConnection(conns, v.connectionId, userId).value, active[v.connectionId])
  }

  function ViewIds(views: seq<ActiveView>): (ids: seq<string>)
    ensures |ids| == |views| && forall k :: 0 <= k < |views| ==> ids[k] == views[k].connectionId
  {
    seq(|views|, k requires 0 <= k < |views| => views[k].connectionId)
  }

  lemma ActiveViewFailureText()
    ensures "Error getting active connections: " + ErrorText(Fail(404, "Connection not found"))
         == "Error getting active connections: 404: Connection not found"
  {
    NotFoundText("Connection not found");
    ActiveViewLiteral();
  }

  lemma ActiveViewLiteral()
    ensures "Error getting active connections: " + ("404: " + "Connection not found")
         == "Error getting active connections: 404: Connection not found"
  {
  }

  /** get_active_connections as written: it asks get_connection for every live connection, and
      the 404 for a connection of another user escapes into the catch-all, which answers 500. */
  method ActiveConnectionsAsWritten(active: map<string, ActiveInfo>, conns: seq<RdpConnection>, userId: string)
    returns (r: Result<seq<ActiveView>>)
    ensures r.Ok? <==> forall id :: id in active ==> GetConnection(conns, id, userId).Ok?
    ensures r.Err? ==> r.error == Fail(500, "Error getting active connections: 404: Connection not found")
    ensures r.Ok? ==> forall v :: v in r.value ==> ShowsOwnLive(v, active, conns, userId)
    ensures r.Ok? ==> forall id :: id in active ==> id in ViewIds(r.value)
  {
    var remaining := active.Keys;
    var views: seq<ActiveView> := [];
    while remaining != {}
      invariant remaining <= active.Keys
      invariant forall id :: id in active && id !in remaining ==> GetConnection(conns, id, userId).Ok?
      invariant forall v :: v in views ==> ShowsOwnLive(v, active, conns, userId)
      invariant forall id :: id in active && id !in remaining ==> id in ViewIds(views)
      decreases remaining
    {
      var id :| id in remaining;
      var found := GetConnection(conns, id, userId);
      if found.Err? {
        ActiveViewFailureText();
        r := Err(Fail(500, "Error getting active connections: " + ErrorText(found.error)));
        assert id in active && !GetConnection(conns, id, userId).Ok?;
        return;
      }
      assert ViewIds(views + [ViewOf(id, found.value, active[id])]) == ViewIds(views) + [id];
      views := views + [ViewOf(id, found.value, active[id])];
      remaining := remaining - {id};
    }
    r := Ok(views);
  }

  /** One live connection of another user is enough to make the view fail for everyone else. */
  lemma ForeignLiveConnectionBreaksView(active: map<string, ActiveInfo>, conns: seq<RdpConnection>,
                                        c: RdpConnection, userId: string)
    requires UniqueConnectionIds(conns) && c in conns && c.id in active && c.userId != userId
    ensures !(forall id :: id in active ==> GetConnection(conns, id, userId).Ok?)
  {
    ForeignConnectionNotFound(conns, c, userId);
  }

  /** get_active_connections as intended: the caller's own live connections, each once. */
  method ActiveConnections(active: map<string, ActiveInfo>, conns: seq<RdpConnection>, userId: string)
    returns (views: seq<ActiveView>)
    ensures forall v :: v in views ==> ShowsOwnLive(v, active, conns, userId)
    ensures forall id :: id in active && GetConnection(conns, id, userId).Ok? ==> id in ViewIds(views)
    ensures forall i, j :: 0 <= i < j < |views| ==> views[i].connectionId != views[j].connectionId
  {
    var remaining := active.Keys;
    views := [];
    while remaining != {}
      invariant remaining <= active.Keys
      invariant forall v :: v in views ==> ShowsOwnLive(v, active, conns, userId) && v.connectionId !in remaining
      invariant forall id :: id in active && id !in remaining && GetConnection(conns, id, userId).Ok? ==> id in ViewIds(views)
      invariant forall i, j :: 0 <= i < j < |views| ==> views[i].connectionId != views[j].connectionId
      decreases remaining
    {
      var id :| id in remaining;
      var found := GetConnection(conns, id, userId);
      if found.Ok? {
        assert ViewIds(views + [ViewOf(id, found.value, active[id])]) == ViewIds(views) + [id];
        assert forall k :: 0 <= k < |views| ==> views[k] in views;
        views := views + [ViewOf(id, found.value, active[id])];
      }
      remaining := remaining - {id};
    }
  }

  /** When every live connection is the caller's, the corrected view lists the same entries. */
  lemma ActiveViewsAgreeWhenAllOwned(active: map<string, ActiveInfo>, conns: seq<RdpConnection>, userId: string)
    requires forall c :: c in conns ==> c.userId == userId
    requires forall id :: id in active ==> ConnectionWithId(conns, id).Some?
    ensures forall id :: id in active ==> GetConnection(conns, id, userId).Ok?
  {
    forall id | id in active ensures GetConnection(conns, id, userId).Ok? {
      var i := ConnectionWithId(conns, id).value;
      assert conns[i] in conns;
    }
  }
}
