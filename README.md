# RDP Stealth backend: login, lockout, 2FA, files, remote desktop and health checks in Dafny

This project models the control logic of the RDP Stealth management backend:

- The account service (`backend/auth.py`, `backend/routers/auth_router.py`). It covers:
  - bcrypt password checks and HS256 access tokens with a one-hour lifetime;
  - the bearer dependency that turns a token into a user;
  - TOTP verification with a window of one 30-second step on either side;
  - the login gate sequence: lookup, 30-minute lock, password, TOTP, IP allow-list, success;
  - the failure counter that locks an account at the fifth consecutive wrong password;
  - two-phase 2FA enrollment, disabling 2FA and changing the password.
- The record shapes and declared defaults of `backend/models.py`, and the document store's
  rule that `find_one`/`update_one` act on the first matching document (module `Store`).
- The file service (`backend/services/file_manager.py`, `backend/routers/files_router.py`). It covers:
  - path handling;
  - filename sanitising and the 255-character cut;
  - the upload size and extension check;
  - the unique-name loop and the `.encrypted` rename;
  - listing order (folders first, then by lower-cased name);
  - the download/delete/mkdir/move decisions;
  - the router's bulk delete, search and info endpoints.
- The remote desktop service (`backend/services/rdp_manager.py`, `backend/routers/rdp_router.py`). It covers:
  - the connection life cycle (disconnected, connecting, connected or error, disconnected);
  - the in-memory table of live connections;
  - password masking, and the password cipher wrapper;
  - the session records opened and closed beside a connection.
- Session management (`backend/routers/sessions_router.py`). It covers:
  - the duration and location rendering of the active and history views;
  - session details;
  - terminating a session, with the RDP connection behind it;
  - blocking every active session from one IP address.
- The health monitor (`backend/services/system_monitor.py`). It covers:
  - the alert thresholds, with alert messages rendered with one decimal;
  - the overall status;
  - the CRITICAL system-alert log lines;
  - the top processes by CPU;
  - the start and stop switch of the background monitor.

Modelling conventions:

- Time is an integer count of seconds, passed in as `now`.
- Identifiers the source draws from `uuid4`, secrets from `pyotp.random_base32`, and bcrypt salts
  are parameters.
- The cryptographic libraries are idealised terms (`Primitives`). A bcrypt digest records its
  password, and a JWT records its claims, expiry, algorithm and key. The TOTP code derivation is
  an arbitrary function parameter.
- The MongoDB collections are the fields of the class `Store.Db`. Every operation that writes them is a
  method that states the new contents of each collection.
- The filesystem is a finite set of relative paths, or the entries of one directory.
- Paths are compared by their text after pathlib's joining: split at "/", with empty and "." components dropped (`FileManager.NormPath`).
- Host metrics and the process table are given as values.

## Model

| member | source | states |
|---|---|---|
| Auth.HashPassword | backend/auth.py:27-29 | the digest is a bcrypt digest that verifies the password it was made from; every other password is a wrong password for it |
| Auth.CreateAccessToken | backend/auth.py:35-45 | the token is an HS256 token over exactly the given claims; `exp` is now plus the delta, or plus 3600 s when the delta is absent or zero |
| Auth.VerifyToken | backend/auth.py:47-61 | Ok exactly for a token with the right key and algorithm that is not yet expired, carrying its claims; "Token has expired" exactly for a well-signed expired token; every other failure is "Could not validate token" |
| Auth.TokenRoundTrip | backend/auth.py:35-61 | verifying an issued token gives back its claims before expiry and "Token has expired" after it |
| Auth.ForeignTokenRejected | backend/auth.py:47-61 | a token signed with another key is rejected as invalid, whether or not it has expired |
| Auth.GetCurrentUser | backend/auth.py:299-328 | succeeds only for a valid token whose `sub` names a stored user, and returns that stored record; every failure is a 401 |
| Auth.TotpAcceptsAdjacentSteps | backend/auth.py:227-233 | the code of the current time step, or of one step before or after it, is accepted |
| Auth.TotpRejectsDistantSteps | backend/auth.py:227-233 | a code of a step two or more away is refused, unless it collides with a code inside the window |
| Auth.TotpToleratesThirtySecondsSkew | backend/auth.py:227-233 | a code shown at time t is accepted by a server clock anywhere within t ± 30 s |
| Auth.NewUserWellFormed | backend/models.py:12-25 | a new account is well formed, is never locked, has 2FA off and has an empty IP allow-list |
| Auth.LockoutMatchesDefaultSettings | backend/auth.py:130-136 | the hard-coded rule (lock at the fifth failure, for 30 minutes) equals the declared security defaults |
| Auth.RecordFailure | backend/auth.py:120-136 | a wrong password adds one failure and stamps `updated_at`; a 30-minute lock is set exactly when four failures were already recorded; no other field changes |
| Auth.RecordSuccess | backend/auth.py:170-181 | the counter becomes 0, the lock is cleared and `last_login` is set to now; the account is unlocked at every time |
| Auth.SecurityEvent | backend/auth.py:283-296 | the level is WARNING exactly when the event type contains UNAUTHORIZED; the source is AUTH_SERVICE; the details hold the event type and user id |
| Auth.UnauthorizedIpIsWarning | backend/auth.py:288 | UNAUTHORIZED_IP is logged at WARNING; LOGIN_SUCCESS and TOTP_ENABLED are logged at INFO |
| Auth.Authenticate | backend/auth.py:102-201 | a record comes back exactly when the username matched; that record keeps its id, username and digest; a well-formed record stays well formed; a digest passlib cannot identify ends the request with 500 before anything is counted |
| Auth.UnidentifiableDigestFails | backend/auth.py:31-33 | for an unlocked user whose stored digest passlib cannot identify, verification raises: the answer is 500 "Internal Server Error", the record is unchanged and nothing is logged |
| Auth.UnknownUserLooksLikeWrongPassword | backend/auth.py:104-141 | an unknown username and a wrong password on an unlocked account get the same 401 "Invalid credentials" |
| Auth.LockCheckedBeforePassword | backend/auth.py:112-117 | an active lock answers 423, even to a correct password; the record and the log are unchanged |
| Auth.WrongPasswordCounts | backend/auth.py:119-141 | a wrong password adds exactly one failure; the 30-minute lock appears exactly when four failures were already recorded |
| Auth.LockClearedOnlyBySuccess | backend/auth.py:112-181 | a recorded lock is cleared by a successful login and by nothing else |
| Auth.CounterResetOnlyBySuccess | backend/auth.py:119-181 | a non-zero failure count returns to zero exactly when the login succeeds |
| Auth.TotpGate | backend/auth.py:143-156 | with 2FA on: a missing or empty code gets 400 with X-Require-TOTP; a wrong code gets 401 "Invalid TOTP code"; neither changes the counter |
| Auth.WrongTotpDistinguishable | backend/auth.py:143-156 | a wrong TOTP code after a correct password is not answered "Invalid credentials" |
| Auth.IpCheckedLast | backend/auth.py:158-168 | an IP outside the allow-list gets 403 exactly when the password and TOTP pass; one WARNING UNAUTHORIZED_IP event is logged and the record is unchanged |
| Auth.SuccessfulLogin | backend/auth.py:170-201 | success issues a bearer token with {sub, username, role}, expiring in 3600 s; the record is reset; one INFO LOGIN_SUCCESS event is logged |
| Auth.LoginTokenAuthenticates | backend/auth.py:183-200 | the issued token resolves to the same user through the bearer dependency until one hour has passed, and expires after that |
| Auth.ConsecutiveFailures | backend/auth.py:119-141 | n consecutive wrong passwords count n failures; the lock appears exactly at the fifth failure and lasts until 30 minutes after it |
| Auth.FiveFailuresLock | backend/auth.py:130-136 | five wrong passwords on a fresh account lock it for exactly 1800 seconds after the fifth |
| Auth.LockoutScenario | backend/auth.py:112-181 | after the fifth failure, the right password gets 423 a second later; it succeeds 30 minutes later and resets the counter and the lock |
| Auth.StoreSecret | backend/auth.py:244-251 | setup stores the new secret as pending and leaves the enabled flag as it was |
| Auth.EnableTotpOutcome | backend/auth.py:255-274 | 400 "TOTP not setup" without a user or a secret; a valid code of the stored secret turns 2FA on and stamps the update time; any other code gets 400 "Invalid TOTP code" |
| Auth.EnrollmentTwoPhase | backend/auth.py:235-274 | setup followed by enable with a current code of the new secret turns 2FA on with that secret |
| Auth.SetupReplacesActiveSecret | backend/auth.py:247-251 | setup on an account with 2FA on replaces the active secret without asking for a code |
| Auth.CreateUser | backend/auth.py:77-100 | a taken username gets 400 and changes nothing; otherwise exactly one new record with a bcrypt digest is appended; uniqueness and well-formedness are kept |
| Auth.RegisterFailure | backend/auth.py:120-136 | the user collection changes only in the failed user's record, which becomes RecordFailure of it |
| Auth.AuthenticateUser | backend/auth.py:102-201 | the stepwise store updates equal the decision of Authenticate: same response, same record change, same log entries |
| Auth.SetupTotp | backend/auth.py:235-253 | an unknown id gets 404; otherwise the secret is stored as pending in that user's record and returned |
| Auth.EnableTotp | backend/auth.py:255-281 | applies EnableTotpOutcome to the stored record; on success it also logs TOTP_ENABLED without an IP address |
| AuthRouter.ClientIp | backend/routers/auth_router.py:16-19 | without X-Forwarded-For the peer address is used; with it, the client address is the stripped first comma-separated entry |
| AuthRouter.ClientIpIsFirstHop | backend/routers/auth_router.py:18-19 | a padded first hop followed by further hops yields exactly that hop |
| AuthRouter.Login | backend/routers/auth_router.py:11-21 | the login endpoint is the gate sequence, applied with the client address above |
| AuthRouter.UserInfo | backend/routers/auth_router.py:27-39 | the /me projection copies every field of the record except the digest and the secret |
| AuthRouter.UserInfoHidesSecrets | backend/routers/auth_router.py:23-39 | records that differ only in the digest or the TOTP secret give the same /me answer |
| AuthRouter.CurrentUserInfo | backend/routers/auth_router.py:23-39 | /me succeeds exactly when the bearer dependency does; every error is a 401 |
| AuthRouter.SetupTwoFactor | backend/routers/auth_router.py:41-45 | authenticates the caller, then stores the new secret in the caller's own record |
| AuthRouter.EnableTwoFactor | backend/routers/auth_router.py:47-58 | authenticates the caller, then applies the enable decision to the caller's own record |
| AuthRouter.DisableTotp | backend/routers/auth_router.py:76-85 | turns 2FA off, drops the secret, and keeps the record well formed |
| AuthRouter.DisableIdempotent | backend/routers/auth_router.py:76-85 | disabling twice is the same as disabling once, at the later time |
| AuthRouter.DisabledLoginNeedsNoCode | backend/routers/auth_router.py:60-89 | after disabling, the right password logs in without a code |
| AuthRouter.DisableTwoFactor | backend/routers/auth_router.py:60-89 | an unidentifiable stored digest gives 500 and changes nothing; a wrong password gets 401 "Invalid password" and changes nothing; otherwise only the caller's record is changed, with 2FA off |
| AuthRouter.SetPassword | backend/routers/auth_router.py:110-119 | the password change replaces only the digest and `updated_at` |
| AuthRouter.PasswordChangeTakesEffect | backend/routers/auth_router.py:107-119 | afterwards the new password verifies and the old one does not; the counter and the lock are untouched |
| AuthRouter.ChangePassword | backend/routers/auth_router.py:91-123 | an unidentifiable stored digest gives 500 and changes nothing; a wrong current password gets 401 "Invalid current password"; otherwise the new password's digest is stored in the caller's record |
| Models.NewUser | backend/models.py:12-25 | a new user record takes the given fields; every other field has its declared default |
| Models.NewTokenResponse | backend/models.py:232-236 | the default token response is "bearer", 3600 s, with no refresh token |
| Models.SessionStatusValues | backend/models.py:48-51 | the session status values are exactly "active", "inactive" and "terminated", and they are distinct |
| Models.NewSession | backend/models.py:53-65 | a new session is active, started now, not ended, and has no bandwidth used |
| Models.NewRdpConnection | backend/models.py:149-160 | a new connection has port 3389, quality "high" and status disconnected |
| Models.DefaultSecuritySettings | backend/models.py:170-177 | the declared defaults: 5 failed logins and a 30-minute lockout |
| Models.DefaultFileSettings | backend/models.py:187-192 | the declared defaults: 100 MB and the seven listed extensions |
| Store.FirstWhere | backend/auth.py:63-75 | find_one returns the first document that matches the filter, or none when no document matches |
| Store.UpdateByIdReachesFound | backend/auth.py:170-181 | with unique ids, update_one by id reaches the record that was found by username |
| FileManager.StripLeadingSlash | backend/services/file_manager.py:55-56 | drops exactly one leading "/" |
| FileManager.OnlyOneSlashStripped | backend/services/file_manager.py:120-121 | "//x" keeps one leading "/" |
| FileManager.UploadPathNotConfined | backend/services/file_manager.py:120-124 | the upload path is not checked for traversal: "/../x" reaches the join as "uploads/../x" |
| FileManager.PathParts | backend/services/file_manager.py:124 | the components pathlib keeps: none is empty, "." or contains "/" |
| FileManager.PartsOfJoin | backend/services/file_manager.py:124 | joining two relative paths with "/" concatenates their components |
| FileManager.PartsOfJoinParts | backend/services/file_manager.py:165 | splitting the text of joined components gives the components back |
| FileManager.NormPathIdempotent | backend/services/file_manager.py:165 | normalising a path twice is normalising it once, with the same name |
| FileManager.TrailingSlashDropped | backend/services/file_manager.py:124 | a trailing "/" adds no component |
| FileManager.RepeatedAndTrailingSlashes | backend/services/file_manager.py:124-165 | "a//b/" is reported as "a/b", named "b" |
| FileManager.Sanitize | backend/services/file_manager.py:415-426 | a stored name is never empty and holds only letters, digits, ".", "_" and "-" |
| FileManager.SanitizeKeepsSafeNames | backend/services/file_manager.py:415-426 | a safe name of at most 255 characters is kept as given |
| FileManager.SanitizeFallback | backend/services/file_manager.py:426 | a name with no safe character left becomes "unnamed_file" |
| FileManager.SanitizeKeepsDotEntries | backend/services/file_manager.py:418-419 | ".", ".." and "x/../.." survive sanitising as "." and ".." |
| FileManager.SanitizeCutsTo255 | backend/services/file_manager.py:422-424 | a name over 255 characters is cut to exactly 255 and keeps its extension, when that extension is at most 255 long |
| FileManager.SanitizeLongExtensionExceedsLimit | backend/services/file_manager.py:422-424 | with an extension over 255 characters the slice bound is negative, and the result stays over 255 |
| FileManager.UploadLimits | backend/services/file_manager.py:431-438 | without a settings document the limits are 100 MB and the seven default extensions |
| FileManager.ValidateUpload | backend/services/file_manager.py:428-457 | 413 exactly when the size exceeds the limit in bytes; otherwise 400 exactly for a named file whose lower-cased extension is not on a non-empty allow-list |
| FileManager.DefaultUploadRule | backend/services/file_manager.py:431-457 | with the defaults, a file is refused exactly when it is over 104857600 bytes (413) or has an unlisted extension (400) |
| FileManager.DefaultSizeLimit | backend/services/file_manager.py:444-448 | exactly 100 MB passes; one byte more gets 413 |
| FileManager.DefaultAllowList | backend/services/file_manager.py:450-457 | an ".exe" upload gets 400 under the defaults |
| FileManager.MissingAllowListAcceptsAll | backend/services/file_manager.py:436-438 | a stored files section without an allow-list accepts every extension |
| FileManager.CandidateInjective | backend/services/file_manager.py:135 | different counters give different candidate names |
| FileManager.UniqueName | backend/services/file_manager.py:129-137 | the loop ends with the first of the name, name_1, name_2, … that is not taken |
| FileManager.UniqueNameSafe | backend/services/file_manager.py:132-135 | the unique-name step keeps a sanitised name sanitised |
| FileManager.DotNamesMovedAside | backend/services/file_manager.py:129-137 | a name of "." or ".." is never written as such, because both names always exist |
| FileManager.DownloadName | backend/services/file_manager.py:211-213 | a ".encrypted" suffix is dropped from the name served; any other name is kept |
| FileManager.EncryptedNameRoundTrip | backend/services/file_manager.py:155-159 | an encrypted upload's name is marked as encrypted in listings, and downloads under the original name |
| FileManager.UploadNameAsWritten | backend/services/file_manager.py:129-159 | the name is made unique in plain form, then renamed with ".encrypted" |
| FileManager.EncryptedReuploadOverwrites | backend/services/file_manager.py:129-159 | re-uploading a name whose encrypted form is stored writes over that stored file |
| FileManager.UploadName | backend/services/file_manager.py:129-159 | the chosen name is unique in the form it is finally stored under |
| FileManager.UploadNamingAgreesWithoutEncryption | backend/services/file_manager.py:129-137 | without encryption, the corrected naming is the naming as written |
| FileManager.UploadFile | backend/services/file_manager.py:113-179 | a rejection is passed on unchanged; a path still absolute after one "/" is stripped gives 500; otherwise a file item of the given size and checksum whose name comes from the naming as written (unique in plain form, then renamed) and whose path is the normalised upload directory followed by that name |
| FileManager.UploadedPathParts | backend/services/file_manager.py:124-165 | the reported path has the upload directory's components followed by the stored name, and that name is its last component |
| FileManager.DefaultUploadPath | backend/services/file_manager.py:120-165 | with the default path "/", an upload is reported as "uploads/<name>" |
| FileManager.DownloadFile | backend/services/file_manager.py:189-232 | 404 exactly for a missing path, 400 exactly for a directory; otherwise the last path component is served with ".encrypted" dropped |
| FileManager.DeleteFile | backend/services/file_manager.py:242-269 | succeeds exactly when the normalised path exists; otherwise 404 "File not found" |
| FileManager.DeleteRootAccepted | backend/services/file_manager.py:245-263 | "/" names the base directory itself, and deleting it is accepted |
| FileManager.CreateDirectory | backend/services/file_manager.py:279-310 | 400 exactly when the normalised path exists; otherwise a new folder item whose path has the requested components and whose name is the last of them |
| FileManager.CreateDirectoryTrailingSlash | backend/services/file_manager.py:279-310 | "d/" is the directory "d": 400 when "d" exists, otherwise a folder named "d" at "d" |
| FileManager.MoveFile | backend/services/file_manager.py:320-354 | succeeds exactly when the normalised source exists and the normalised destination does not; a missing source is checked first (404), then an existing destination (400) |
| FileManager.ItemOf | backend/services/file_manager.py:76-89 | the path is the listed directory's components followed by the entry name; a folder item has no size; the encrypted flag is set exactly for ".encrypted" names; a checksum exactly for non-empty files under 10 MB |
| FileManager.RootItemPath | backend/services/file_manager.py:76-78 | an entry of the base directory is reported at its own name |
| FileManager.ListingLeqIsTotalPreorder | backend/services/file_manager.py:97 | the listing's sort key is a total preorder |
| FileManager.ListFiles | backend/services/file_manager.py:51-103 | 404 and 400 exactly for a missing path and for a file; otherwise a sorted permutation of the entries' items, with folders first |
| FileManager.CollectItems | backend/services/file_manager.py:72-91 | the loop produces one item per directory entry, in order |
| FileManager.SortedListingShape | backend/services/file_manager.py:96-97 | every sorted arrangement puts folders before files and keeps each item's encrypted flag |
| Sorting.InsertionSort | backend/services/file_manager.py:97 | the sort used for Python's `list.sort` returns a sorted permutation of its input under any total preorder |
| FilesRouter.Matching | backend/routers/files_router.py:203-208 | the results are the listing at the matching positions, in increasing order, one per position; an item is a result exactly when it is listed and its lower-cased name contains the lower-cased query |
| FilesRouter.MatchIndices | backend/routers/files_router.py:205-208 | the matching positions: strictly increasing, each a match, and every matching position included |
| FilesRouter.MatchingKeepsOrder | backend/routers/files_router.py:205-208 | filtering keeps the listing's order: a sorted listing gives sorted results |
| FilesRouter.EmptyQueryMatchesAll | backend/routers/files_router.py:204-208 | an empty query returns the whole listing |
| FilesRouter.SearchFiles | backend/routers/files_router.py:193-213 | any listing failure becomes 500 "Error searching files: …" carrying the service's text; otherwise the matches and their count |
| FilesRouter.GetFileInfo | backend/routers/files_router.py:215-234 | the first root-listing item whose path equals the requested path; 404 exactly when no item has that path; listing errors pass through |
| FilesRouter.NestedPathNotFound | backend/routers/files_router.py:221-229 | since only the base directory is listed, a path inside a subdirectory always gets 404 |
| FilesRouter.RemoveTree | backend/services/file_manager.py:258-263 | deleting removes the path and nothing outside the existing paths |
| FilesRouter.DeleteAllAccounts | backend/routers/files_router.py:125-131 | every path of a bulk delete is either counted as deleted or reported as an error, exactly once |
| FilesRouter.RepeatedPathReported | backend/routers/files_router.py:125-131 | a path listed twice is deleted once; the second attempt is reported as "p: 404: File not found" |
| FilesRouter.BulkDeleteMessage | backend/routers/files_router.py:133-135 | the message starts with the count summary, and is exactly that summary when there are no errors |
| FilesRouter.BulkDelete | backend/routers/files_router.py:115-140 | the loop's report and remaining paths equal the fold of single deletes; counted plus reported equals the number of paths |
| FilesRouter.ErrorEntryName | backend/routers/files_router.py:178-180 | the error entry is "ERROR_", then the path with each "/" turned into "_" and every other character kept, then ".txt"; no "/" remains |
| FilesRouter.ErrorEntryNamesCollide | backend/routers/files_router.py:180 | "a/b" and "a_b" produce the same error entry name |
| FilesRouter.BulkDownloadEntries | backend/routers/files_router.py:158-180 | one archive entry per path, in order: the served name and content, or the error entry with "Error downloading p: …" |
| FilesRouter.DownloadRoute | backend/routers/files_router.py:30-65 | succeeds exactly for a file; every service failure, including 404 and 400, is turned into 500 "Error downloading file: …" |
| FilesRouter.MissingDownloadIs500 | backend/routers/files_router.py:36-65 | a missing file reaches the client as 500 "Error downloading file: 404: File not found" |
| FilesRouter.DeleteRoute | backend/routers/files_router.py:67-78 | true gives "File deleted successfully"; false gives 500; a raised error passes through |
| FilesRouter.DeleteRouteNeverFails500 | backend/routers/files_router.py:73-78 | the service never answers false, so the route's 500 branch is never taken |
| FilesRouter.MoveRoute | backend/routers/files_router.py:88-100 | true gives "File moved successfully"; false gives 500; a raised error passes through |
| RdpManager.EncryptPassword | backend/services/rdp_manager.py:345-348 | the stored form is the password behind the fixed prefix "encrypted_" |
| RdpManager.DecryptSinglePrefix | backend/services/rdp_manager.py:350-353 | the decryption as written keeps text without the prefix, and removes the prefix from text that holds it once, at its head |
| RdpManager.PasswordRoundTrip | backend/services/rdp_manager.py:345-353 | a password that does not contain the prefix is recovered by the decryption as written |
| RdpManager.EmbeddedPrefixLost | backend/services/rdp_manager.py:350-353 | as written, the password "encrypted_" comes back empty |
| RdpManager.RecoverPassword | backend/services/rdp_manager.py:350-353 | removes only a leading prefix; a string without the prefix is kept |
| RdpManager.RecoverInvertsEncrypt | backend/services/rdp_manager.py:345-353 | the corrected decryption inverts encryption for every password |
| RdpManager.RecoverAgreesWithDecrypt | backend/services/rdp_manager.py:345-353 | wherever the decryption as written is right, the corrected one gives the same result |
| RdpManager.GetConnection | backend/services/rdp_manager.py:62-73 | returns a stored record with the given id and owner; 404 "Connection not found" exactly when there is none |
| RdpManager.ForeignConnectionNotFound | backend/services/rdp_manager.py:62-71 | another user's connection gets the same 404 as a missing one |
| RdpManager.FoundIsFirstWithId | backend/services/rdp_manager.py:103-117 | with unique ids, update_one by id reaches the record get_connection found |
| RdpManager.LaterStartIsTotalPreorder | backend/services/rdp_manager.py:83-86 | the listing order (start time descending, missing start times last) is a total preorder |
| RdpManager.OwnedBy | backend/services/rdp_manager.py:83-86 | the listing query selects exactly the user's records |
| RdpManager.MaskAll | backend/services/rdp_manager.py:88-92 | every record is kept, in order, with its password replaced by "***encrypted***" |
| RdpManager.MaskedOwned | backend/services/rdp_manager.py:80-94 | the masked records are exactly the user's records, each masked |
| RdpManager.MaskPasswords | backend/services/rdp_manager.py:88-92 | the masking loop produces MaskAll of its input |
| RdpManager.ListConnections | backend/services/rdp_manager.py:80-94 | the result is a permutation of the user's masked records, sorted newest first; nothing of another user and no password is shown |
| RdpManager.RdpEventLevel | backend/services/rdp_manager.py:359 | INFO exactly for event types containing SUCCESS or ESTABLISHED, WARNING otherwise |
| RdpManager.EventLevels | backend/services/rdp_manager.py:355-367 | of the events written, only CONNECTION_ESTABLISHED is INFO |
| RdpManager.RdpEvent | backend/services/rdp_manager.py:355-369 | the log entry has source RDP_SERVER, no IP address, and details holding the event type and the connection id |
| RdpManager.ColorDepth | backend/services/rdp_manager.py:265 | the colour depth is "32" exactly for quality "high", "16" otherwise |
| RdpManager.GuacConfigFor | backend/services/rdp_manager.py:256-271 | the client parameters copy host, port (as text) and username; the password goes through the decryption as written, so it is right when the stored text holds the prefix once, at its head |
| RdpManager.CorrectedGuacConfigFor | backend/services/rdp_manager.py:256-271 | the same parameters with the corrected decryption: only the leading prefix is removed |
| RdpManager.CreatedConnection | backend/services/rdp_manager.py:22-30 | the stored record carries the request's fields, the prefixed password and status connecting |
| RdpManager.ConfigCarriesRequestPassword | backend/services/rdp_manager.py:256-271 | the client receives the password of the request the connection was created from, when that password does not contain "encrypted_" |
| RdpManager.ConfigLosesEmbeddedPrefix | backend/services/rdp_manager.py:350-353 | a connection created with the password "myencrypted_pw" hands "mypw" to the client |
| RdpManager.EmbeddedPrefixDropped | backend/services/rdp_manager.py:345-353 | as written, "myencrypted_pw" is stored and decrypted as "mypw" |
| RdpManager.CorrectedConfigCarriesRequestPassword | backend/services/rdp_manager.py:256-271 | with the corrected decryption, the client receives the request's password, whatever it is |
| RdpManager.Disconnect | backend/services/rdp_manager.py:109-117 | only the first record with the id changes: it becomes disconnected with end time now |
| RdpManager.DisconnectIsSeen | backend/services/rdp_manager.py:99-117 | after a termination, get_connection sees the record as disconnected, so a second termination changes nothing |
| RdpManager.TerminateRdpSession | backend/services/rdp_manager.py:119-128 | exactly the user's first RDP session changes, to terminated with end time now; when the user has none, nothing changes |
| RdpManager.LiveSessionMissed | backend/services/rdp_manager.py:119-128 | with an older terminated RDP session first, the user's active RDP session stays active |
| RdpManager.GetConnectionStatus | backend/services/rdp_manager.py:162-187 | errors are those of get_connection; the status is the stored one; live metrics appear exactly for a connection in the in-memory table |
| RdpManager.LiveMetricsOnlyWhenConnected | backend/services/rdp_manager.py:177-185 | while the table is consistent, live metrics are shown only for a connected record |
| RdpManager.RdpManagerService.constructor | backend/services/rdp_manager.py:13-16 | the manager starts with an empty table of live connections |
| RdpManager.RdpManagerService.CreateConnection | backend/services/rdp_manager.py:18-53 | appends the connecting record, an active RDP session for the client address and a CONNECTION_CREATED event; the table stays consistent |
| RdpManager.RdpManagerService.EstablishConnection | backend/services/rdp_manager.py:236-322 | unknown id: nothing changes. Otherwise the client configuration written is GuacConfigFor of the stored record; the record becomes connected, enters the live table and CONNECTION_ESTABLISHED is logged; or, when writing the config fails, it becomes error with the failure text and CONNECTION_FAILED is logged |
| RdpManager.RdpManagerService.TerminateConnection | backend/services/rdp_manager.py:99-150 | 404 for a record the caller does not own; true without changes for a disconnected one; otherwise the record is disconnected, the first RDP session terminated, the live entry removed and CONNECTION_TERMINATED logged |
| RdpRouter.ActiveGate | backend/routers/rdp_router.py:69-73 | a per-connection action needs the caller's connection (404) and needs it connected (400 "Connection is not active") |
| RdpRouter.TakeScreenshot | backend/routers/rdp_router.py:62-88 | succeeds exactly when the gate passes, with format "png" for the connection asked about |
| RdpRouter.SendKeys | backend/routers/rdp_router.py:90-122 | succeeds exactly for a connected connection and a combination on the list (compared lower-cased); the reply echoes the keys as sent |
| RdpRouter.KeysMatchIgnoringCase | backend/routers/rdp_router.py:105-117 | "Ctrl+Alt+Del" is accepted and echoed in the caller's spelling |
| RdpRouter.InactiveBeforeInvalidKeys | backend/routers/rdp_router.py:99-111 | an inactive connection is refused before its keys are checked |
| RdpRouter.SetClipboard | backend/routers/rdp_router.py:124-152 | succeeds exactly for a connected connection and content of at most 10000 characters, and reports its length |
| RdpRouter.GetClipboard | backend/routers/rdp_router.py:154-177 | a connected connection gets an empty "text/plain" placeholder |
| RdpRouter.Resize | backend/routers/rdp_router.py:179-208 | succeeds exactly for widths 800..4096 and heights 600..2160 inclusive, reporting "{width}x{height}" |
| RdpRouter.ResolutionReadsBack | backend/routers/rdp_router.py:202 | the reported resolution parses back to the requested width and height |
| RdpRouter.CreateRdpConnection | backend/routers/rdp_router.py:9-21 | the session is opened for the client address the login handler would compute |
| RdpRouter.TerminateRdpConnection | backend/routers/rdp_router.py:36-47 | succeeds exactly when the caller owns the connection; otherwise 404; the route's 500 is unreachable |
| RdpRouter.ActiveConnectionsAsWritten | backend/routers/rdp_router.py:210-236 | the monitoring view as written succeeds only when every live connection belongs to the caller; otherwise it fails with 500 "…404: Connection not found" |
| RdpRouter.ForeignLiveConnectionBreaksView | backend/routers/rdp_router.py:217-219 | one live connection of another user makes the view fail for everyone else |
| RdpRouter.ActiveConnections | backend/routers/rdp_router.py:210-233 | the corrected view lists each of the caller's live connections exactly once, with stored host and port and live metrics, and nothing else |
| RdpRouter.ActiveViewsAgreeWhenAllOwned | backend/routers/rdp_router.py:210-233 | when every live connection is the caller's, the view as written does not fail |
| SessionsRouter.TruncDiv | backend/routers/sessions_router.py:25-26 | `int(a / b)` rounds toward zero |
| SessionsRouter.HistoryParts | backend/routers/sessions_router.py:81-83 | the history form shows the whole hours and the whole minutes of the rest |
| SessionsRouter.DurationsAgree | backend/routers/sessions_router.py:24-31 | for non-negative durations the active view's text equals the history view's text |
| SessionsRouter.NegativeDurationsDisagree | backend/routers/sessions_router.py:24-31 | 90 seconds before the start, one view shows "-1m" and the other "58m" |
| SessionsRouter.HistoryElapsed | backend/routers/sessions_router.py:77-78 | an open session is measured up to now, a closed one up to its end time |
| SessionsRouter.OrUnknown | backend/routers/sessions_router.py:34-35 | a missing or empty value shows as "Unknown" |
| SessionsRouter.LocationNamesCity | backend/routers/sessions_router.py:34-41 | the location text starts with the city, or "Unknown", before the comma |
| SessionsRouter.ActiveSessionView | backend/routers/sessions_router.py:23-41 | an active-view entry is the session, its elapsed seconds, its duration text and its location |
| SessionsRouter.HistorySessionView | backend/routers/sessions_router.py:76-90 | a history entry is measured to the end time, or to now when the session is open |
| SessionsRouter.ViewsAgreeOnOpenSession | backend/routers/sessions_router.py:76-83 | a started open session shows the same text in both views |
| SessionsRouter.GetSessionDetails | backend/routers/sessions_router.py:268-298 | 404 exactly for an unknown id; the owner's username, or "Unknown" when the owner is gone; active exactly when the status is active |
| SessionsRouter.DisconnectUsersLive | backend/routers/sessions_router.py:129-145 | without a connected connection of the user, the connections are unchanged |
| SessionsRouter.DisconnectsOnlyTheLiveOne | backend/routers/sessions_router.py:129-145 | exactly the user's first connected connection changes, and it ends disconnected |
| SessionsRouter.LiveEntryLeftBehind | backend/routers/sessions_router.py:129-145 | a connection disconnected this way stays in the manager's live table, which is then inconsistent |
| SessionsRouter.TerminateSession | backend/routers/sessions_router.py:99-147 | 404 for an unknown id and 400 unless active, both changing nothing; otherwise the session is terminated and, for an RDP session, the user's live connection is disconnected |
| SessionsRouter.BlockSessions | backend/routers/sessions_router.py:161-170 | every active session from the address is terminated; every other session is unchanged |
| SessionsRouter.BlockLeavesNoActive | backend/routers/sessions_router.py:161-170 | no active session from the address remains, and blocking again changes nothing |
| SessionsRouter.BlockEvent | backend/routers/sessions_router.py:174-185 | a WARNING AUTH_SERVICE entry recording the blocked address and the admin's id |
| SessionsRouter.BlockIp | backend/routers/sessions_router.py:154-187 | terminates the address's active sessions, logs the block, and changes nothing else |
| SystemMonitor.RoundHalfEven | backend/services/system_monitor.py:197 | the rounded value is within one half of the exact value, and a whole number rounds to itself |
| SystemMonitor.Fixed1 | backend/services/system_monitor.py:197 | `:.1f` rendering: a sign for negative values, then the magnitude rounded to tenths |
| SystemMonitor.Fixed1Exact | backend/services/system_monitor.py:197 | a value with one decimal n.d renders as exactly "n.d" |
| SystemMonitor.MetricAlert | backend/services/system_monitor.py:194-208 | an alert carries the message "subject: value unit" with one decimal, and is never an error alert |
| SystemMonitor.StatusThresholds | backend/services/system_monitor.py:186-262 | critical exactly when a critical threshold is crossed (CPU 90, memory 90, disk 95, temperature 80); healthy exactly when every value is at or under its warning threshold (80, 80, 85, 70); never "error" |
| SystemMonitor.ZeroTemperatureIgnored | backend/services/system_monitor.py:247 | a temperature reading of 0.0 is treated like a missing one |
| SystemMonitor.AlertsInMetricOrder | backend/services/system_monitor.py:193-262 | alerts come in the order CPU, memory, disk, temperature, at most one per metric, so at most four |
| SystemMonitor.AlertsRanked | backend/services/system_monitor.py:193-262 | the alert list is strictly ordered by metric |
| SystemMonitor.SystemLog | backend/services/system_monitor.py:329-345 | info and error log entries have source SYSTEM, the given level and message, and no details, user or address |
| SystemMonitor.SystemAlertLog | backend/services/system_monitor.py:347-354 | a system alert is logged at CRITICAL as "SYSTEM ALERT: " followed by the message |
| SystemMonitor.LogsComeFromCriticals | backend/services/system_monitor.py:264-267 | every alert log line comes from a critical alert |
| SystemMonitor.CriticalsAreLogged | backend/services/system_monitor.py:264-267 | every critical alert is logged |
| SystemMonitor.CriticalAlertLogsContents | backend/services/system_monitor.py:264-267 | some line is logged exactly when there is a critical alert |
| SystemMonitor.LoggedIffCritical | backend/services/system_monitor.py:186-267 | a check logs system alerts exactly when its status is critical |
| SystemMonitor.ErrorReport | backend/services/system_monitor.py:276-282 | the failure report has status "error", no metrics and the single alert "Unable to check system health" |
| SystemMonitor.WithCpu | backend/services/system_monitor.py:168-176 | exactly the processes that report a CPU value are kept, in order |
| SystemMonitor.CpuOrderIsTotal | backend/services/system_monitor.py:179 | descending CPU order is a total preorder |
| SystemMonitor.PrefixIsTop | backend/services/system_monitor.py:179-180 | a prefix of the sorted list holds the highest CPU values |
| SystemMonitor.CollectWithCpu | backend/services/system_monitor.py:168-176 | the loop produces WithCpu of the process table |
| SystemMonitor.RunningProcesses | backend/services/system_monitor.py:165-180 | the result is sorted by CPU descending, drawn from the processes with a CPU value, of the length `[:limit]` gives (negative limits included), and no left-out process has a higher CPU value |
| SystemMonitor.SystemMonitorService.constructor | backend/services/system_monitor.py:10-12 | the monitor starts stopped, with no task |
| SystemMonitor.SystemMonitorService.StartMonitoring | backend/services/system_monitor.py:284-292 | no-op while monitoring; otherwise starts a task with the interval and logs "System monitoring started"; the flag stays true exactly while a task runs |
| SystemMonitor.SystemMonitorService.StopMonitoring | backend/services/system_monitor.py:294-307 | no-op while stopped; otherwise cancels the task and logs "System monitoring stopped" |
| SystemMonitor.SystemMonitorService.CheckSystemHealth | backend/services/system_monitor.py:186-282 | a failed reading logs both error lines and returns the error report; a zero total logs "division by zero" and returns it; otherwise the report holds the alerts, their status and the metrics, and the critical alerts are logged in order |
| SystemMonitor.RecordAlert | backend/services/system_monitor.py:193-262 | appending an alert updates the running status to the status of the longer list |
| SystemMonitor.LogCriticalAlerts | backend/services/system_monitor.py:264-267 | the logging loop appends exactly CriticalAlertLogs of the alerts |
| SystemMonitor.StatusStep | backend/services/system_monitor.py:200-208 | a critical alert makes the status critical; a warning turns healthy into warning; any other status is kept |

## Left out

- Network statistics, `get_system_info`, `get_current_metrics` sampling, `store_metrics` and the metric-history endpoints: host sampling is a parameter (`SystemMonitor.Reading`), and the process table is a list of values.
- `_monitor_loop` and the connection monitor `_monitor_connection`: background tasks and concurrency are not modelled. The start/stop switch records the task as a value.
- The statistics endpoints (RDP statistics, session statistics, storage statistics), and the file-operation history and its `file_operations` collection: these are aggregation queries.
- The active, history and by-ip session queries: their filters, `sort` and `limit` are not modelled. The per-entry views are.
- QR-code generation in `generate_qr_code`: image rendering. The TOTP setup result carries the secret only.
- `create_default_admin`, `init_directories` and the encryption-key file: start-up steps outside the request paths.
- `_log_file_operation` and `_calculate_file_checksum`: the file-operation audit trail is not modelled, and a checksum is a parameter.
- The list, upload and create-directory routes only forward to the file service, so the service members stand for them.
- `generate_totp_secret`: the secret is a parameter.
- The `CONNECTION_ERROR` and `TERMINATION_ERROR` paths and every other "unexpected exception becomes 500" branch, except those where an HTTPException is re-wrapped: database failures are not modelled.
- File I/O: file contents, encryption with Fernet, checksums (a parameter), the Guacamole config file (its write failure is the `writeFailure` parameter), temporary download files and the zip archive bytes.
- Path resolution for the traversal check: the checks against `resolve()` are not modelled, so the 403 "Access denied" branches are not modelled. Paths are normalised lexically, as pathlib joins them: empty and "." components are dropped and ".." is kept, without following links.
- FileManager.PathKey: a user path that is still absolute after one "/" is stripped is kept as its text rather than resolved; it names no stored relative path, so it counts as missing where the source would answer 403.
- FileManager.UploadFile: the error text relative_to raises for a path outside the storage is a parameter (`outsideError`).
- Character classes: `str.isalnum` and `str.lower` are modelled for ASCII only. A non-ASCII letter is not alphanumeric in the model and is not lower-cased.
- FileManager.Sanitize: drops every non-ASCII character, so "résumé.pdf" is stored as "rsum.pdf" where Python keeps "résumé.pdf".
- FileManager.ListFiles: orders names by their ASCII lower-casing, so names holding non-ASCII capitals may be ordered differently from Python.
- FilesRouter.Matching: compares names and query lower-cased in ASCII only, so a query that matches only after non-ASCII lower-casing finds nothing in the model.
- Process-table exceptions (`NoSuchProcess`, `AccessDenied`): those processes are treated as absent.
- Floating point: metric values are exact reals, and `:.1f` rounds the exact value half to even. Binary floating point can round a decimal tie either way.
- Python dict order for the live-connection table: it is a map, so the order of the monitoring view is not stated.
- Times are whole seconds, so sub-second durations are not modelled.
- SystemMonitor.RunningProcesses: does not state that the sort is stable among equal CPU values.
- Auth.VerifyTotp: the HOTP derivation itself is a parameter; collisions between codes of different steps are not excluded.
- Auth.HashPassword: bcrypt's 72-byte truncation and salt drawing are not modelled; a digest verifies exactly its own password.
- Where the documented behaviour and the code differ, the model follows the code:
  - the lockout threshold and duration are hard-coded (four earlier failures, 30 minutes) and do not read the stored security settings;
  - a wrong TOTP code is answered 401 "Invalid TOTP code", not "Invalid credentials".
- Token expiry: a token is treated as expired from the instant `exp` is reached (section 4.1.4 of RFC 7519, "on or after").

## Findings

| source | as written | input that shows it | evidently intended | confidence | as-written member | corrected member |
|---|---|---|---|---|---|---|
| backend/services/file_manager.py:129-159 | uniqueness is checked on the plain name, then the file is renamed to name + ".encrypted" | an encrypted upload of "report.pdf" while "report.pdf.encrypted" is stored | the name is made unique in the form it is stored under, so a stored file is never overwritten | not executed | FileManager.EncryptedReuploadOverwrites | FileManager.UploadName |
| backend/services/rdp_manager.py:350-353 | decryption removes every occurrence of "encrypted_" | the password "myencrypted_pw" reaches the client as "mypw" | only the leading prefix is removed, so the client receives the request's password | not executed | RdpManager.ConfigLosesEmbeddedPrefix | RdpManager.CorrectedConfigCarriesRequestPassword |
| backend/routers/rdp_router.py:210-236 | the monitoring view calls get_connection for every live connection, and a 404 aborts the whole view | a live connection of user A, then a view request by user B | list only the caller's own live connections | not executed | RdpRouter.ForeignLiveConnectionBreaksView | RdpRouter.ActiveConnections |
