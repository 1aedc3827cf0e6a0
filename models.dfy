/** The record shapes of backend/models.py and their declared defaults. Timestamps are whole
    seconds; identifiers that the source draws from uuid4 are parameters. */
module Models {
  import opened Outcomes
  import opened Primitives

  // ---------------------------------------------------------------------------
  // Users and authentication

  datatype UserRole = Admin | RegularUser

  /** The string value of the role enum, as stored and as put into token claims. */
  function RoleName(r: UserRole): string
  {
    match r
    case Admin => "admin"
    case RegularUser => "user"
  }

  datatype User = User(
    id: string,
    username: string,
    email: string,
    passwordHash: PasswordHash,
    role: UserRole,
    totpSecret: Option<string>,
    totpEnabled: bool,
    allowedIps: seq<string>,
    lastLogin: Option<int>,
    failedLoginAttempts: nat,
    lockedUntil: Option<int>,
    createdAt: int,
    updatedAt: int)

  /** A user record built from the fields the caller gives; every other field takes the
      default the record declares. */
  function NewUser(id: string, username: string, email: string, hash: PasswordHash,
                   role: UserRole, now: int): (u: User)
    ensures u.id == id && u.username == username && u.email == email
    ensures u.passwordHash == hash && u.role == role
    ensures u.failedLoginAttempts == 0 && u.lockedUntil == None && u.lastLogin == None
    ensures !u.totpEnabled && u.totpSecret == None && u.allowedIps == []
    ensures u.createdAt == now && u.updatedAt == now
  {
    User(id, username, email, hash, role, None, false, [], None, 0, None, now, now)
  }

  /** Username and password are required; the TOTP code is optional. */
  datatype UserLogin = UserLogin(username: string, password: string, totpCode: Option<string>)

  /** What 2FA setup returns. The QR image is not part of this model. */
  datatype TotpSetup = TotpSetup(secret: string)

  /** The `/me` projection: a user without password digest and TOTP secret. */
  datatype UserResponse = UserResponse(
    id: string,
    username: string,
    email: string,
    role: UserRole,
    totpEnabled: bool,
    allowedIps: seq<string>,
    lastLogin: Option<int>,
    failedLoginAttempts: nat,
    lockedUntil: Option<int>,
    createdAt: int,
    updatedAt: int)

  datatype TokenResponse = TokenResponse(
    accessToken: Jwt,
    tokenType: string,
    expiresIn: int,
    refreshToken: Option<string>)

  const DEFAULT_TOKEN_TYPE := "bearer"
  const DEFAULT_EXPIRES_IN := 3600

  /** A token response for the given token, all other fields at their declared defaults. */
  function NewTokenResponse(token: Jwt): (t: TokenResponse)
    ensures t.accessToken == token && t.refreshToken == None
    ensures t.tokenType == "bearer" && t.expiresIn == 3600
  {
    TokenResponse(token, DEFAULT_TOKEN_TYPE, DEFAULT_EXPIRES_IN, None)
  }

  // ---------------------------------------------------------------------------
  // Sessions

  datatype SessionType = Rdp | WebPanel | FileTransfer

  function SessionTypeName(t: SessionType): string
  {
    match t
    case Rdp => "RDP"
    case WebPanel => "Web Panel"
    case FileTransfer => "File Transfer"
  }

  datatype SessionStatus = Active | Inactive | Terminated

  function SessionStatusName(s: SessionStatus): string
  {
    match s
    case Active => "active"
    case Inactive => "inactive"
    case Terminated => "terminated"
  }

  /** The status enum has exactly the three stored values, and they are distinct. */
  lemma SessionStatusValues(s: SessionStatus)
    ensures SessionStatusName(s) in {"active", "inactive", "terminated"}
    ensures forall t: SessionStatus :: SessionStatusName(t) == SessionStatusName(s) ==> t == s
  {
  }

  datatype Session = Session(
    id: string,
    userId: string,
    sessionType: SessionType,
    ipAddress: string,
    country: Option<string>,
    city: Option<string>,
    userAgent: Option<string>,
    startTime: int,
    endTime: Option<int>,
    status: SessionStatus,
    bandwidthUsed: real,
    duration: Option<int>)

  /** A session record with its declared defaults: active, started now, not ended. */
  function NewSession(id: string, userId: string, sessionType: SessionType, ip: string,
                      userAgent: Option<string>, now: int): (s: Session)
    ensures s.id == id && s.userId == userId && s.sessionType == sessionType
    ensures s.ipAddress == ip && s.userAgent == userAgent
    ensures s.status == Active && s.startTime == now && s.endTime == None
    ensures s.country == None && s.city == None && s.duration == None && s.bandwidthUsed == 0.0
  {
    Session(id, userId, sessionType, ip, None, None, userAgent, now, None, Active, 0.0, None)
  }

  // ---------------------------------------------------------------------------
  // Remote desktop connections

  datatype ConnectionStatus = Connecting | Connected | Disconnected | ConnectionError

  datatype RdpConnection = RdpConnection(
    id: string,
    userId: string,
    host: string,
    port: int,
    username: string,
    password: string,
    quality: string,
    status: ConnectionStatus,
    startTime: Option<int>,
    endTime: Option<int>,
    errorMessage: Option<string>)

  const DEFAULT_RDP_PORT := 3389
  const DEFAULT_QUALITY := "high"

  /** A connection record with the declared defaults for port, quality and status. */
  function NewRdpConnection(id: string, userId: string, host: string, username: string,
                            password: string): (c: RdpConnection)
    ensures c.id == id && c.userId == userId && c.host == host
    ensures c.username == username && c.password == password
    ensures c.port == 3389 && c.quality == "high" && c.status == Disconnected
    ensures c.startTime == None && c.endTime == None && c.errorMessage == None
  {
    RdpConnection(id, userId, host, DEFAULT_RDP_PORT, username, password, DEFAULT_QUALITY,
                  Disconnected, None, None, None)
  }

  /** The body of a connection request. */
  datatype RdpConnectionCreate = RdpConnectionCreate(
    host: string, port: int, username: string, password: string, quality: string)

  // ---------------------------------------------------------------------------
  // Files

  datatype FileType = RegularFile | Folder

  datatype FileItem = FileItem(
    name: string,
    path: string,
    fileType: FileType,
    size: Option<int>,
    modified: int,
    permissions: string,
    owner: Option<string>,
    isEncrypted: bool,
    checksum: Option<string>)

  // ---------------------------------------------------------------------------
  // Logs

  datatype LogLevel = DEBUG | INFO | WARNING | ERROR | CRITICAL

  datatype LogSource = AUTH_SERVICE | RDP_SERVER | FILE_MANAGER | SYSTEM | WEB_PANEL

  datatype LogEntry = LogEntry(
    timestamp: int,
    level: LogLevel,
    source: LogSource,
    message: string,
    details: Option<map<string, string>>,
    userId: Option<string>,
    ipAddress: Option<string>)

  // ---------------------------------------------------------------------------
  // Settings

  datatype SecuritySettings = SecuritySettings(
    autoLockTimeout: int,
    requireTwoFactor: bool,
    allowedIps: seq<string>,
    vpnRequired: bool,
    encryptionLevel: string,
    maxFailedLogins: int,
    lockoutDuration: int)

  /** The declared security defaults; lockout duration is in minutes. */
  function DefaultSecuritySettings(): (s: SecuritySettings)
    ensures s.maxFailedLogins == 5 && s.lockoutDuration == 30
    ensures s.autoLockTimeout == 30 && s.requireTwoFactor && s.allowedIps == []
  {
    SecuritySettings(30, true, [], true, "AES-256", 5, 30)
  }

  datatype FileSettings = FileSettings(
    maxFileSize: int,
    allowedExtensions: seq<string>,
    quarantineFiles: bool,
    encryptUploads: bool,
    scanForMalware: bool)

  const DEFAULT_EXTENSIONS: seq<string> := ["pdf", "doc", "docx", "txt", "jpg", "png", "zip"]

  /** The declared file defaults; the size limit is in megabytes. */
  function DefaultFileSettings(): (s: FileSettings)
    ensures s.maxFileSize == 100
    ensures s.allowedExtensions == ["pdf", "doc", "docx", "txt", "jpg", "png", "zip"]
    ensures |s.allowedExtensions| == 7
  {
    FileSettings(100, DEFAULT_EXTENSIONS, true, true, true)
  }

  // ---------------------------------------------------------------------------
  // System metrics (network counters are not part of this model)

  datatype SystemMetrics = SystemMetrics(
    cpuUsage: real,
    cpuTemperature: Option<real>,
    memoryTotal: int,
    memoryUsed: int,
    diskTotal: int,
    diskUsed: int,
    activeConnections: int)
}
