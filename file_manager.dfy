/** backend/services/file_manager.py: the name and path decisions of the file service. The
    filesystem is abstract: a directory listing is given as the entries the directory walk
    yields, and existence checks consult a finite set of relative paths, where "" is the base
    directory itself. */
module FileManager {
  import opened Outcomes
  import opened Text
  import opened Models
  import opened Sorting

  const ENCRYPTED_SUFFIX := ".encrypted"
  const MAX_NAME_LENGTH := 255
  /** Files below 10 MB get a checksum in listings. */
  const CHECKSUM_LIMIT := 10 * 1024 * 1024

  // ---------------------------------------------------------------------------
  // Paths

  /** One leading "/" is dropped before a user path is joined to the base directory. */
  function StripLeadingSlash(p: string): (r: string)
    ensures |p| > 0 && p[0] == '/' ==> p == "/" + r
    ensures (|p| == 0 || p[0] != '/') ==> r == p
  {
    if |p| > 0 && p[0] == '/' then p[1..] else p
  }

  /** Only one slash goes: "//etc" keeps a leading "/". */
  lemma OnlyOneSlashStripped(rest: string)
    ensures StripLeadingSlash("//" + rest) == "/" + rest
  {
  }

  /** The relative directory an upload is written to. */
  function UploadDirectory(path: string): (d: string)
    ensures d == "uploads/" + StripLeadingSlash(path)
  {
    "uploads/" + StripLeadingSlash(path)
  }

  /** Nothing confines the upload path: parent-directory components reach the join as given. */
  lemma UploadPathNotConfined(rest: string)
    ensures UploadDirectory("/../" + rest) == "uploads/../" + rest
    ensures Contains(UploadDirectory("/../" + rest), "..")
  {
    assert ("/../" + rest)[1..] == "../" + rest;
    var d := UploadDirectory("/../" + rest);
    assert d == "uploads/../" + rest;
    assert d[8..10] == "..";
    assert OccursAt(d, "..", 8);
  }

  /** A path component pathlib keeps: not empty, not ".", and without "/". */
  predicate IsPathPart(c: string)
  {
    c != "" && c != "." && '/' !in c
  }

  /** The components pathlib keeps of a relative path: the "/"-separated pieces without the
      empty ones (from "//" or a trailing "/") and without "."; ".." is kept as it is. */
  function PathParts(p: string): (parts: seq<string>)
    ensures forall i :: 0 <= i < |parts| ==> IsPathPart(parts[i])
    decreases |p|
  {
    if p == [] then []
    else
      var first := BeforeFirst(p, '/');
      var rest := if |first| < |p| then p[|first| + 1..] else [];
      (if IsPathPart(first) then [first] else []) + PathParts(rest)
  }

  /** Components joined by single "/"; "" for none, the base directory itself. */
  function JoinParts(parts: seq<string>): string
  {
    if parts == [] then "" else if |parts| == 1 then parts[0] else parts[0] + "/" + JoinParts(parts[1..])
  }

  /** The text of a relative path once pathlib has joined it: str() of the result of
      relative_to, with "" standing for the base directory. */
  function NormPath(p: string): string
  {
    JoinParts(PathParts(p))
  }

  /** pathlib's `name`: the last kept component, "" when there is none. */
  function PathName(p: string): string
  {
    var parts := PathParts(p);
    if parts == [] then "" else parts[|parts| - 1]
  }

  /** A single component is its own path. */
  lemma SinglePart(c: string)
    requires IsPathPart(c)
    ensures PathParts(c) == [c]
  {
    assert BeforeFirst(c, '/') == c by {
      BeforeFirstStopsAtSeparator(c, [], '/');
      assert c + [] == c;
    }
  }

  /** One step of the split: a first piece without "/" followed by "/" and the rest. */
  lemma PathPartsStep(first: string, rest: string)
    requires '/' !in first
    ensures PathParts(first + "/" + rest) == (if IsPathPart(first) then [first] else []) + PathParts(rest)
  {
    var p := first + "/" + rest;
    assert p == first + ("/" + rest);
    BeforeFirstStopsAtSeparator(first, "/" + rest, '/');
    assert p[|first| + 1..] == rest;
  }

  /** A piece without "/" is one component, or none. */
  lemma PathPartsNoSlash(a: string)
    requires '/' !in a
    ensures PathParts(a) == if IsPathPart(a) then [a] else []
  {
    if a != [] {
      BeforeFirstStopsAtSeparator(a, [], '/');
      assert a + [] == a;
    }
  }

  lemma Reassociate(x: string, y: string, z: string)
    ensures (x + "/" + y) + "/" + z == x + "/" + (y + "/" + z)
  {
  }

  /** The inductive step of PartsOfJoin: a leading piece passes through the join. */
  lemma JoinAfterPiece(first: string, a': string, b: string)
    requires '/' !in first
    requires PathParts(a' + "/" + b) == PathParts(a') + PathParts(b)
    ensures PathParts((first + "/" + a') + "/" + b) == PathParts(first + "/" + a') + PathParts(b)
  {
    Reassociate(first, a', b);
    var head := if IsPathPart(first) then [first] else [];
    var pa, pb := PathParts(a'), PathParts(b);
    PathPartsStep(first, a');
    PathPartsStep(first, a' + "/" + b);
    calc {
      PathParts((first + "/" + a') + "/" + b);
      PathParts(first + "/" + (a' + "/" + b));
      head + (pa + pb);
      { AppendAssociates(head, pa, pb); }
      (head + pa) + pb;
      PathParts(first + "/" + a') + pb;
    }
  }

  lemma AppendAssociates(x: seq<string>, y: seq<string>, z: seq<string>)
    ensures x + (y + z) == (x + y) + z
  {
  }

  /** Joining two paths with "/" concatenates their components. */
  lemma {:induction false} PartsOfJoin(a: string, b: string)
    ensures PathParts(a + "/" + b) == PathParts(a) + PathParts(b)
    decreases |a|
  {
    var first := BeforeFirst(a, '/');
    if |first| < |a| {
      var a' := a[|first| + 1..];
      assert a == first + "/" + a';
      PartsOfJoin(a', b);
      JoinAfterPiece(first, a', b);
    } else {
      assert first == a;
      PathPartsStep(a, b);
      PathPartsNoSlash(a);
    }
  }

  /** Components survive a join and a split: joined paths have no empty or "." parts. */
  lemma {:induction false} PartsOfJoinParts(parts: seq<string>)
    requires forall i :: 0 <= i < |parts| ==> IsPathPart(parts[i])
    ensures PathParts(JoinParts(parts)) == parts
  {
    if |parts| == 1 {
      SinglePart(parts[0]);
    } else if |parts| > 1 {
      PartsOfJoin(parts[0], JoinParts(parts[1..]));
      SinglePart(parts[0]);
      PartsOfJoinParts(parts[1..]);
    }
  }

  /** Normalising twice is normalising once, and keeps the name. */
  lemma NormPathIdempotent(p: string)
    ensures PathParts(NormPath(p)) == PathParts(p)
    ensures NormPath(NormPath(p)) == NormPath(p)
    ensures PathName(NormPath(p)) == PathName(p)
  {
    PartsOfJoinParts(PathParts(p));
  }

  /** A trailing "/" adds no component. */
  lemma TrailingSlashDropped(c: string)
    requires IsPathPart(c)
    ensures PathParts(c + "/") == [c]
  {
    assert c + "/" == c + "/" + "";
    PartsOfJoin(c, "");
    SinglePart(c);
  }

  /** "a//b/" is "a/b" to pathlib, and its name is "b". */
  lemma RepeatedAndTrailingSlashes(a: string, b: string)
    requires IsPathPart(a) && IsPathPart(b)
    ensures NormPath(a + "//" + b + "/") == a + "/" + b
    ensures PathName(a + "//" + b + "/") == b
  {
    assert a + "//" + b + "/" == (a + "/") + "/" + (b + "/");
    PartsOfJoin(a + "/", b + "/");
    TrailingSlashDropped(a);
    TrailingSlashDropped(b);
    assert PathParts(a + "//" + b + "/") == [a, b];
    assert [a, b][1..] == [b];
    assert JoinParts([a, b]) == a + "/" + b;
  }

  /** A user path that still starts with "/" once one "/" is stripped: joined to a directory,
      pathlib lets it replace that directory. */
  predicate StillAbsolute(userPath: string)
  {
    var p := StripLeadingSlash(userPath);
    |p| > 0 && p[0] == '/'
  }

  /** The key the existence checks use: the stripped user path, normalised as pathlib joins
      it. A path that is still absolute is kept as it is: it lies outside the base directory,
      which no stored relative path names. */
  function PathKey(userPath: string): string
  {
    if StillAbsolute(userPath) then StripLeadingSlash(userPath) else NormPath(StripLeadingSlash(userPath))
  }

  /** os.path.basename: the text after the last "/". */
  function Basename(p: string): (r: string)
    ensures '/' !in r
    ensures |r| <= |p| && r == p[|p| - |r|..]
    ensures '/' !in p ==> r == p
  {
    AfterLast(p, '/')
  }

  /** os.path.splitext on a POSIX path: the extension starts at the last "." of the last
      component, provided some character before it in that component is not a "."; leading
      dots do not start an extension. */
  function SplitExt(p: string): (parts: (string, string))
    ensures parts.0 + parts.1 == p
    ensures parts.1 == [] || (parts.1[0] == '.' && '.' !in parts.1[1..] && '/' !in parts.1)
  {
    match LastIndexOf(p, '.')
    case None => (p, [])
    case Some(d) =>
      var start := match LastIndexOf(p, '/') case None => 0 case Some(s) => s + 1;
      if start <= d && exists k | start <= k < d :: p[k] != '.' then
        assert p == p[..d] + p[d..];
        assert p[d..][1..] == p[d + 1..];
        (p[..d], p[d..])
      else (p, [])
  }

  // ---------------------------------------------------------------------------
  // _sanitize_filename

  /** The characters a stored name may contain: ASCII letters and digits, ".", "_" and "-". */
  predicate SafeChar(c: char)
  {
    IsAlnum(c) || c == '.' || c == '_' || c == '-'
  }

  predicate AllSafe(s: string)
  {
    forall i :: 0 <= i < |s| ==> SafeChar(s[i])
  }

  /** The characters of s that are safe, in order. */
  function KeepSafe(s: string): (r: string)
    ensures |r| <= |s| && AllSafe(r)
    ensures AllSafe(s) ==> r == s
  {
    if s == [] then [] else (if SafeChar(s[0]) then [s[0]] else []) + KeepSafe(s[1..])
  }

  /** The name-length cut: a name over 255 characters keeps its extension and loses the end
      of its stem; Python's name[:255 - len(ext)] counts from the end once that is negative. */
  function CutToLimit(kept: string): (r: string)
  {
    if |kept| > MAX_NAME_LENGTH then
      var parts := SplitExt(kept);
      SliceTo(parts.0, MAX_NAME_LENGTH - |parts.1|) + parts.1
    else kept
  }

  /** The cut keeps a prefix of the stem and the whole extension, so it adds no character. */
  lemma CutKeepsSafe(kept: string)
    requires AllSafe(kept)
    ensures AllSafe(CutToLimit(kept))
  {
    if |kept| > MAX_NAME_LENGTH {
      var parts := SplitExt(kept);
      var stem := SliceTo(parts.0, MAX_NAME_LENGTH - |parts.1|);
      var cut := stem + parts.1;
      assert stem <= parts.0;
      forall i | 0 <= i < |cut| ensures SafeChar(cut[i]) {
        if i < |stem| {
          assert cut[i] == kept[i];
        } else {
          assert cut[i] == kept[|parts.0| + i - |stem|];
        }
      }
    }
  }

  /** A stored name is never empty and contains only safe characters. */
  function Sanitize(filename: string): (r: string)
    ensures r != [] && AllSafe(r)
  {
    var kept := KeepSafe(Basename(filename));
    var cut := CutToLimit(kept);
    CutKeepsSafe(kept);
    if cut == [] then "unnamed_file" else cut
  }

  /** Names made only of safe characters and at most 255 long are stored as given. */
  lemma SanitizeKeepsSafeNames(filename: string)
    requires filename != [] && AllSafe(filename) && |filename| <= 255
    ensures Sanitize(filename) == filename
  {
  }

  /** A name that fails everything falls back to "unnamed_file". */
  lemma SanitizeFallback(filename: string)
    requires KeepSafe(Basename(filename)) == []
    ensures Sanitize(filename) == "unnamed_file"
  {
  }

  /** The dot entries survive sanitising unchanged, also behind a directory part. */
  lemma SanitizeKeepsDotEntries()
    ensures Sanitize(".") == "." && Sanitize("..") == ".." && Sanitize("x/../..") == ".."
  {
    assert Basename("x/../..") == "..";
    assert KeepSafe("..") == "..";
  }

  /** A long name is cut to exactly 255 characters and keeps its extension, provided the
      extension itself is at most 255 characters. */
  lemma SanitizeCutsTo255(filename: string)
    requires |KeepSafe(Basename(filename))| > 255
    requires |SplitExt(KeepSafe(Basename(filename))).1| <= 255
    ensures |Sanitize(filename)| == 255
    ensures EndsWith(Sanitize(filename), SplitExt(KeepSafe(Basename(filename))).1)
  {
    var kept := KeepSafe(Basename(filename));
    var parts := SplitExt(kept);
    var stem := parts.0[..255 - |parts.1|];
    CutKeepsExtension(kept);
    SanitizeIsCut(filename);
    assert Sanitize(filename) == stem + parts.1;
    assert (stem + parts.1)[|stem|..] == parts.1;
  }

  lemma SanitizeIsCut(filename: string)
    requires CutToLimit(KeepSafe(Basename(filename))) != []
    ensures Sanitize(filename) == CutToLimit(KeepSafe(Basename(filename)))
  {
  }

  lemma CutKeepsExtension(kept: string)
    requires |kept| > 255 && |SplitExt(kept).1| <= 255
    ensures |SplitExt(kept).0| >= 255 - |SplitExt(kept).1|
    ensures CutToLimit(kept) == SplitExt(kept).0[..255 - |SplitExt(kept).1|] + SplitExt(kept).1
  {
    var parts := SplitExt(kept);
    assert |parts.0| + |parts.1| == |kept|;
  }

  /** With an extension over 255 characters the slice index goes negative and the name stays
      longer than 255. */
  lemma SanitizeLongExtensionExceedsLimit(filename: string)
    requires |KeepSafe(Basename(filename))| > 255
    requires |SplitExt(KeepSafe(Basename(filename))).1| > 255
    ensures |Sanitize(filename)| > 255
  {
  }

  // ---------------------------------------------------------------------------
  // _validate_file_upload

  /** The stored settings document as far as the check reads it: the `files` section and its
      two keys, each of which may be missing. */
  datatype StoredFileSettings = StoredFileSettings(maxFileSize: Option<int>,
                                                   allowedExtensions: Option<seq<string>>)
  datatype StoredSettings = StoredSettings(files: Option<StoredFileSettings>)

  /** Size limit (MB) and allow-list: the declared defaults without a settings document; with
      one, each missing key reads as 100 MB and an EMPTY allow-list respectively. */
  function UploadLimits(settings: Option<StoredSettings>): (limits: (int, seq<string>))
    ensures settings.None? ==> limits == (100, ["pdf", "doc", "docx", "txt", "jpg", "png", "zip"])
  {
    if settings.None? then (DefaultFileSettings().maxFileSize, DefaultFileSettings().allowedExtensions)
    else
      var files := if settings.value.files.Some? then settings.value.files.value
                   else StoredFileSettings(None, None);
      (if files.maxFileSize.Some? then files.maxFileSize.value else 100,
       if files.allowedExtensions.Some? then files.allowedExtensions.value else [])
  }

  /** The extension the allow-list is checked against: the lower-cased text after the last
      ".", or the whole lower-cased name when it has no ".". */
  function ExtensionOf(filename: string): (e: string)
    ensures '.' !in e
  {
    var tail := AfterLast(filename, '.');
    assert forall i :: 0 <= i < |tail| ==> LowerChar(tail[i]) != '.';
    Lower(tail)
  }

  lemma ExtensionOfDotted(stem: string, ext: string)
    requires '.' !in ext
    ensures ExtensionOf(stem + "." + ext) == Lower(ext)
  {
    var s := stem + "." + ext;
    assert s[|stem|] == '.';
    var tail := AfterLast(s, '.');
    assert |tail| == |ext|;
    assert tail == ext;
  }

  /** The upload check: 413 when the content exceeds the limit in bytes; otherwise, for a
      non-empty file name, 400 exactly when the allow-list is non-empty and lacks the name's
      extension. None means the upload may proceed. */
  function ValidateUpload(settings: Option<StoredSettings>, size: nat, filename: string): (rejection: Option<HttpError>)
    ensures var (maxMb, allowed) := UploadLimits(settings);
            && (size > maxMb * 1024 * 1024 <==> rejection.Some? && rejection.value.status == 413)
            && (size <= maxMb * 1024 * 1024 ==>
                  (rejection.Some? <==> filename != "" && |allowed| > 0 && ExtensionOf(filename) !in allowed))
            && (rejection.Some? ==> rejection.value.status in {400, 413})
  {
    var (maxMb, allowed) := UploadLimits(settings);
    if size > maxMb * 1024 * 1024 then
      Some(Fail(413, "File size exceeds limit of " + IntToString(maxMb) + "MB"))
    else if filename != "" && |allowed| > 0 && ExtensionOf(filename) !in allowed then
      Some(Fail(400, "File type not allowed. Allowed: " + Join(allowed, ", ")))
    else None
  }

  /** Without a settings document: 413 exactly above 100 MB, otherwise 400 exactly for a
      non-empty name whose extension is not among the seven listed. */
  lemma DefaultUploadRule(size: nat, filename: string)
    ensures ValidateUpload(None, size, filename).Some? <==>
      size > 104857600 || (filename != "" && ExtensionOf(filename) !in DEFAULT_EXTENSIONS)
    ensures ValidateUpload(None, size, filename).Some? ==>
      ValidateUpload(None, size, filename).value.status == (if size > 104857600 then 413 else 400)
  {
    var (maxMb, allowed) := UploadLimits(None);
    assert maxMb == 100 && allowed == DEFAULT_EXTENSIONS;
    assert maxMb * 1024 * 1024 == 104857600;
  }

  /** A file of exactly 100 MB with an allowed extension passes; one byte more is refused
      with 413. */
  lemma DefaultSizeLimit(stem: string)
    ensures ValidateUpload(None, 104857600, stem + ".pdf") == None
    ensures ValidateUpload(None, 104857601, stem + ".pdf").Some?
    ensures ValidateUpload(None, 104857601, stem + ".pdf").value.status == 413
  {
    var name := stem + ".pdf";
    assert ExtensionOf(name) == "pdf" by {
      assert name == stem + "." + "pdf";
      ExtensionOfDotted(stem, "pdf");
      assert Lower("pdf") == "pdf";
    }
    assert ExtensionOf(name) in DEFAULT_EXTENSIONS by {
      assert DEFAULT_EXTENSIONS[0] == "pdf";
    }
    DefaultUploadRule(104857600, name);
    DefaultUploadRule(104857601, name);
  }

  /** An extension outside the seven listed is refused with 400. */
  lemma DefaultAllowList(stem: string)
    ensures ValidateUpload(None, 1, stem + ".exe").Some?
    ensures ValidateUpload(None, 1, stem + ".exe").value.status == 400
  {
    var name := stem + ".exe";
    assert ExtensionOf(name) == "exe" by {
      assert name == stem + "." + "exe";
      ExtensionOfDotted(stem, "exe");
      assert Lower("exe") == "exe";
    }
    assert name != "" && ExtensionOf(name) !in DEFAULT_EXTENSIONS by {
      assert |name| == |stem| + 4;
      ExeNotListed();
    }
    DefaultUploadRule(1, name);
  }

  lemma ExeNotListed()
    ensures "exe" !in DEFAULT_EXTENSIONS
  {
    assert forall k :: 0 <= k < |DEFAULT_EXTENSIONS| ==> DEFAULT_EXTENSIONS[k][0] != 'e';
  }

  /** A settings document whose files section lacks the allow-list accepts every type. */
  lemma MissingAllowListAcceptsAll(maxMb: Option<int>, size: nat, filename: string)
    requires size <= (if maxMb.Some? then maxMb.value else 100) * 1024 * 1024
    ensures ValidateUpload(Some(StoredSettings(Some(StoredFileSettings(maxMb, None)))), size, filename) == None
  {
  }

  // ---------------------------------------------------------------------------
  // Unique names for uploads

  /** "{base}_{k}{ext}" for the splitext parts of the name. */
  function Candidate(filename: string, k: nat): (c: string)
    ensures |c| > |filename|
  {
    var parts := SplitExt(filename);
    parts.0 + "_" + NatToString(k) + parts.1
  }

  lemma {:induction false} CandidateInjective(filename: string, j: nat, k: nat)
    requires Candidate(filename, j) == Candidate(filename, k)
    ensures j == k
  {
    var parts := SplitExt(filename);
    var a := NatToString(j);
    var b := NatToString(k);
    var cj := parts.0 + "_" + a + parts.1;
    var ck := parts.0 + "_" + b + parts.1;
    assert |a| == |b|;
    assert a == cj[|parts.0| + 1..|parts.0| + 1 + |a|];
    assert b == ck[|parts.0| + 1..|parts.0| + 1 + |b|];
    NatToStringInjective(j, k);
  }

  function CandidateSet(filename: string, n: nat): set<string>
  {
    set j | 1 <= j <= n :: Candidate(filename, j)
  }

  /** The first n candidates are n different names. */
  lemma {:induction false} CandidateSetSize(filename: string, n: nat)
    ensures |CandidateSet(filename, n)| == n
  {
    if n > 0 {
      CandidateSetSize(filename, n - 1);
      assert CandidateSet(filename, n) == CandidateSet(filename, n - 1) + {Candidate(filename, n)};
      if Candidate(filename, n) in CandidateSet(filename, n - 1) {
        var j :| 1 <= j <= n - 1 && Candidate(filename, j) == Candidate(filename, n);
        CandidateInjective(filename, j, n);
      }
    } else {
      assert CandidateSet(filename, 0) == {};
    }
  }

  lemma SubsetSize<T>(a: set<T>, b: set<T>)
    requires a <= b
    ensures |a| <= |b|
  {
    assert b == a + (b - a);
  }

  /** The name chosen for an upload into a directory whose taken names are `taken`: the
      name itself if free, else the first free "{base}_{k}{ext}" for k = 1, 2, ... */
  ghost predicate IsUniqueNameFor(taken: set<string>, filename: string, name: string)
  {
    && name !in taken
    && (filename !in taken ==> name == filename)
    && (filename in taken ==>
          exists k: nat :: k >= 1 && name == Candidate(filename, k)
                           && forall j :: 1 <= j < k ==> Candidate(filename, j) in taken)
  }

  /** The unique-name loop of upload_file. */
  method UniqueName(taken: set<string>, filename: string) returns (name: string)
    ensures IsUniqueNameFor(taken, filename, name)
  {
    name := filename;
    if name in taken {
      var counter: nat := 1;
      while name in taken
        invariant counter >= 1
        invariant name == (if counter == 1 then filename else Candidate(filename, counter - 1))
        invariant forall j :: 1 <= j < counter - 1 ==> Candidate(filename, j) in taken
        invariant counter == 1 ==> filename in taken
        decreases |taken| + 2 - counter
      {
        if counter > 1 {
          assert CandidateSet(filename, counter - 1) <= taken;
          CandidateSetSize(filename, counter - 1);
          SubsetSize(CandidateSet(filename, counter - 1), taken);
        }
        name := Candidate(filename, counter);
        counter := counter + 1;
      }
      assert counter > 1;
    }
  }

  /** A candidate built from a safe name is safe. */
  lemma CandidateSafe(name: string, k: nat)
    requires AllSafe(name)
    ensures AllSafe(Candidate(name, k))
  {
    var parts := SplitExt(name);
    var digits := NatToString(k);
    var c := Candidate(name, k);
    forall i | 0 <= i < |c| ensures SafeChar(c[i]) {
      if i < |parts.0| {
        assert c[i] == name[i];
      } else if i == |parts.0| {
      } else if i < |parts.0| + 1 + |digits| {
        assert c[i] == digits[i - |parts.0| - 1];
      } else {
        assert c[i] == name[i - 1 - |digits|];
      }
    }
  }

  /** Unique naming keeps a sanitised name sanitised. */
  lemma UniqueNameSafe(taken: set<string>, name: string, written: string)
    requires AllSafe(name) && IsUniqueNameFor(taken, name, written)
    ensures AllSafe(written)
  {
    if name in taken {
      var k: nat :| k >= 1 && written == Candidate(name, k)
                    && forall j :: 1 <= j < k ==> Candidate(name, j) in taken;
      CandidateSafe(name, k);
    }
  }

  /** Every directory has "." and "..", so those names are always taken. */
  function Occupied(existing: set<string>): set<string>
  {
    existing + {".", ".."}
  }

  /** A sanitised name of "." or ".." is moved aside to "._1" or ".._1". */
  lemma DotNamesMovedAside(existing: set<string>, name: string)
    requires IsUniqueNameFor(Occupied(existing), "..", name)
    ensures name != "." && name != ".." && name !in existing
  {
  }

  function EncryptedName(name: string): (r: string)
    ensures r == name + ".encrypted"
  {
    name + ENCRYPTED_SUFFIX
  }

  /** The name a listing marks as encrypted. */
  predicate IsEncryptedName(name: string)
  {
    EndsWith(name, ENCRYPTED_SUFFIX)
  }

  /** The name a download is served under: a ".encrypted" suffix (10 characters) is dropped. */
  function DownloadName(name: string): (r: string)
    ensures IsEncryptedName(name) ==> name == r + ".encrypted"
    ensures !IsEncryptedName(name) ==> r == name
  {
    if IsEncryptedName(name) then
      assert name == name[..|name| - 10] + name[|name| - 10..];
      name[..|name| - 10]
    else name
  }

  /** Encrypting then downloading gives back the original name, and the stored name is
      marked encrypted in listings. */
  lemma EncryptedNameRoundTrip(name: string)
    ensures IsEncryptedName(EncryptedName(name))
    ensures DownloadName(EncryptedName(name)) == name
  {
    var e := EncryptedName(name);
    assert e[|e| - 10..] == ".encrypted";
    assert e[..|e| - 10] == name;
  }

  /** The final name of an upload: renamed with the suffix when encrypting. */
  function StoredName(written: string, encrypt: bool): string
  {
    if encrypt then EncryptedName(written) else written
  }

  /** upload_file's naming as written: uniqueness is checked for the plain name only, and an
      encrypted upload is then renamed to that name plus ".encrypted". */
  method UploadNameAsWritten(existing: set<string>, filename: string, encrypt: bool)
    returns (written: string, stored: string)
    ensures IsUniqueNameFor(Occupied(existing), filename, written)
    ensures stored == StoredName(written, encrypt)
  {
    written := UniqueName(Occupied(existing), filename);
    stored := StoredName(written, encrypt);
  }

  /** As written, uploading a name whose encrypted form is already stored renames the new
      file onto the old one: e.g. with "report.pdf.encrypted" present, an encrypted upload of
      "report.pdf" is stored as "report.pdf.encrypted". */
  lemma EncryptedReuploadOverwrites(existing: set<string>, filename: string, written: string)
    requires filename !in Occupied(existing) && EncryptedName(filename) in existing
    requires IsUniqueNameFor(Occupied(existing), filename, written)
    ensures StoredName(written, true) == EncryptedName(filename)
    ensures StoredName(written, true) in existing
  {
  }

  lemma EncryptedReuploadExample(written: string)
    requires IsUniqueNameFor(Occupied({"report.pdf.encrypted"}), "report.pdf", written)
    ensures StoredName(written, true) == "report.pdf.encrypted"
  {
    assert "report.pdf" != "report.pdf.encrypted";
    assert EncryptedName("report.pdf") == "report.pdf.encrypted";
    EncryptedReuploadOverwrites({"report.pdf.encrypted"}, "report.pdf", written);
  }

  /** The stems whose encrypted form is already stored. */
  function EncryptedStems(existing: set<string>): set<string>
  {
    set x | x in existing && IsEncryptedName(x) :: x[..|x| - 10]
  }

  /** The names an upload must avoid: taken names and, when encrypting, the stems of stored
      encrypted names. */
  function UploadTaken(existing: set<string>, encrypt: bool): set<string>
  {
    if encrypt then Occupied(existing) + EncryptedStems(existing) else Occupied(existing)
  }

  /** The intended naming: the chosen name is checked in the form it is finally stored under,
      so neither the plain file written first nor the renamed file replaces anything. */
  method UploadName(existing: set<string>, filename: string, encrypt: bool)
    returns (written: string, stored: string)
    ensures IsUniqueNameFor(UploadTaken(existing, encrypt), filename, written)
    ensures stored == StoredName(written, encrypt)
    ensures written !in Occupied(existing) && stored !in Occupied(existing)
  {
    written := UniqueName(UploadTaken(existing, encrypt), filename);
    stored := StoredName(written, encrypt);
  }

  /** Without encryption the intended naming is the naming as written. */
  lemma UploadNamingAgreesWithoutEncryption(existing: set<string>, filename: string)
    ensures UploadTaken(existing, false) == Occupied(existing)
  {
  }

  /** A safe name other than "" and "." is a single path component. */
  lemma SafeNameIsPart(name: string)
    requires AllSafe(name) && name != "" && name != "."
    ensures IsPathPart(name)
  {
  }

  /** The ".encrypted" rename keeps a name a single path component. */
  lemma EncryptedNameIsPart(name: string)
    requires IsPathPart(name)
    ensures IsPathPart(EncryptedName(name))
  {
    assert '/' !in ".encrypted";
    assert |EncryptedName(name)| > 1;
  }

  /** The relative path upload_file reports: the upload directory joined with the stored name,
      as relative_to gives it. */
  function UploadedPath(path: string, stored: string): string
  {
    NormPath(UploadDirectory(path) + "/" + stored)
  }

  /** The reported path is the upload directory's components followed by the stored name. */
  lemma UploadedPathParts(path: string, stored: string)
    requires IsPathPart(stored)
    ensures PathParts(UploadedPath(path, stored)) == PathParts(UploadDirectory(path)) + [stored]
    ensures PathName(UploadedPath(path, stored)) == stored
  {
    NormPathIdempotent(UploadDirectory(path) + "/" + stored);
    PartsOfJoin(UploadDirectory(path), stored);
    SinglePart(stored);
  }

  lemma UploadsDirectoryParts()
    ensures PathParts("uploads/") == ["uploads"]
  {
    assert IsPathPart("uploads");
    TrailingSlashDropped("uploads");
    assert "uploads" + "/" == "uploads/";
  }

  /** With the upload route's default path "/", an upload is reported as "uploads/<name>". */
  lemma DefaultUploadPath(stored: string)
    requires IsPathPart(stored)
    ensures UploadedPath("/", stored) == "uploads/" + stored
  {
    var dir := UploadDirectory("/");
    assert dir == "uploads/";
    UploadsDirectoryParts();
    PartsOfJoin(dir, stored);
    SinglePart(stored);
    assert PathParts(dir + "/" + stored) == ["uploads", stored];
    assert ["uploads", stored][1..] == [stored];
    assert JoinParts(["uploads", stored]) == "uploads" + "/" + stored;
    assert "uploads" + "/" + stored == "uploads/" + stored;
  }

  /** upload_file: validation, sanitising, the unique-name loop on the plain name, the
      ".encrypted" rename, and the item it reports. `existing` holds the names in the target
      directory, `digest` stands for the SHA-256 of the content and `mtime`/`mode` for the
      stat of the stored file. A path that is still absolute after one "/" is stripped sends
      the file outside the storage, where relative_to raises; `outsideError` is the text of
      that exception, which the handler reports as a 500. */
  method UploadFile(settings: Option<StoredSettings>, existing: set<string>, path: string,
                    filename: string, size: nat, encrypt: bool, digest: string, mtime: int,
                    mode: string, outsideError: string) returns (r: Result<FileItem>)
    ensures ValidateUpload(settings, size, filename).Some? ==>
              r == Err(ValidateUpload(settings, size, filename).value)
    ensures ValidateUpload(settings, size, filename).None? && StillAbsolute(path) ==>
              r == Err(Fail(500, "Error uploading file: " + outsideError))
    ensures ValidateUpload(settings, size, filename).None? && !StillAbsolute(path) ==>
              && r.Ok?
              && r.value.fileType == RegularFile && r.value.size == Some(size)
              && r.value.isEncrypted == encrypt && r.value.checksum == Some(digest)
              && r.value.path == UploadedPath(path, r.value.name)
              && PathParts(r.value.path) == PathParts(UploadDirectory(path)) + [r.value.name]
              && (var plain := if encrypt then DownloadName(r.value.name) else r.value.name;
                  && IsUniqueNameFor(Occupied(existing), Sanitize(filename), plain)
                  && r.value.name == StoredName(plain, encrypt)
                  && AllSafe(plain))
  {
    var rejection := ValidateUpload(settings, size, filename);
    if rejection.Some? {
      return Err(rejection.value);
    }
    if StillAbsolute(path) {
      return Err(Fail(500, "Error uploading file: " + outsideError));
    }
    var name := Sanitize(filename);
    var written, stored := UploadNameAsWritten(existing, name, encrypt);
    UniqueNameSafe(Occupied(existing), name, written);
    assert written != "" && written != "." by {
      if name in Occupied(existing) {
        var k: nat :| k >= 1 && written == Candidate(name, k);
      }
    }
    SafeNameIsPart(written);
    if encrypt {
      EncryptedNameRoundTrip(written);
      EncryptedNameIsPart(written);
    }
    UploadedPathParts(path, stored);
    r := Ok(FileItem(stored, UploadedPath(path, stored), RegularFile, Some(size), mtime,
                     mode, None, encrypt, Some(digest)));
  }

  // ---------------------------------------------------------------------------
  // download_file, delete_file, create_directory, move_file: the existence checks

  /** The existing relative paths; "" stands for the base directory itself. */
  predicate PathExists(existing: set<string>, p: string)
  {
    p in existing
  }

  /** What download_file finds at a path. */
  datatype Target = Missing | DirectoryAt | FileAt(size: nat)

  /** download_file: 404 for a missing path, 400 for a directory, else the name to serve
      (suffix dropped for an encrypted file). */
  function DownloadFile(filePath: string, target: Target): (r: Result<string>)
    ensures target.Missing? <==> r == Err(Fail(404, "File not found"))
    ensures target.DirectoryAt? <==> r == Err(Fail(400, "Path is not a file"))
    ensures r.Ok? ==> r.value == DownloadName(PathName(StripLeadingSlash(filePath)))
  {
    match target
    case Missing => Err(Fail(404, "File not found"))
    case DirectoryAt => Err(Fail(400, "Path is not a file"))
    case FileAt(_) => Ok(DownloadName(PathName(StripLeadingSlash(filePath))))
  }

  /** delete_file: 404 for a missing path, else true (a file is unlinked, a directory removed
      with everything under it). */
  function DeleteFile(existing: set<string>, filePath: string): (r: Result<bool>)
    ensures r.Ok? <==> PathExists(existing, PathKey(filePath))
    ensures r.Ok? ==> r.value
    ensures r.Err? ==> r.error == Fail(404, "File not found")
  {
    if PathExists(existing, PathKey(filePath)) then Ok(true)
    else Err(Fail(404, "File not found"))
  }

  /** "/" names the base directory itself: while it exists, deleting it is accepted. */
  lemma DeleteRootAccepted(existing: set<string>)
    requires "" in existing
    ensures DeleteFile(existing, "/") == Ok(true)
  {
    assert StripLeadingSlash("/") == "";
  }

  /** create_directory: 400 when the path exists, else a folder item for it, named and
      placed as pathlib reports the new directory. */
  function CreateDirectory(existing: set<string>, dirPath: string, mtime: int, mode: string)
    : (r: Result<FileItem>)
    ensures PathExists(existing, PathKey(dirPath)) <==> r == Err(Fail(400, "Directory already exists"))
    ensures r.Ok? ==> r.value.fileType == Folder && !r.value.isEncrypted
                      && r.value.name == PathName(r.value.path)
                      && PathParts(r.value.path) == PathParts(StripLeadingSlash(dirPath))
    ensures r.Ok? && !StillAbsolute(dirPath) ==>
              r.value.path == PathKey(dirPath) && !PathExists(existing, r.value.path)
  {
    var p := StripLeadingSlash(dirPath);
    NormPathIdempotent(p);
    if PathExists(existing, PathKey(dirPath)) then Err(Fail(400, "Directory already exists"))
    else Ok(FileItem(PathName(p), NormPath(p), Folder, None, mtime, mode, None, false, None))
  }

  /** "docs/" names the directory "docs": an existing "docs" makes it 400, otherwise the new
      folder is reported as "docs" at "docs". */
  lemma CreateDirectoryTrailingSlash(existing: set<string>, d: string, mtime: int, mode: string)
    requires IsPathPart(d)
    ensures d in existing ==> CreateDirectory(existing, d + "/", mtime, mode) == Err(Fail(400, "Directory already exists"))
    ensures d !in existing ==> CreateDirectory(existing, d + "/", mtime, mode)
                               == Ok(FileItem(d, d, Folder, None, mtime, mode, None, false, None))
  {
    TrailingSlashDropped(d);
    assert StripLeadingSlash(d + "/") == d + "/";
    assert [d][1..] == [];
    assert PathKey(d + "/") == d;
  }

  /** move_file: 404 for a missing source, then 400 for an existing destination, else true. */
  function MoveFile(existing: set<string>, sourcePath: string, destPath: string): (r: Result<bool>)
    ensures r.Ok? <==> PathExists(existing, PathKey(sourcePath))
                       && !PathExists(existing, PathKey(destPath))
    ensures r.Ok? ==> r.value
    ensures !PathExists(existing, PathKey(sourcePath)) ==> r == Err(Fail(404, "Source file not found"))
    ensures PathExists(existing, PathKey(sourcePath)) && PathExists(existing, PathKey(destPath))
            ==> r == Err(Fail(400, "Destination already exists"))
  {
    if !PathExists(existing, PathKey(sourcePath)) then Err(Fail(404, "Source file not found"))
    else if PathExists(existing, PathKey(destPath)) then Err(Fail(400, "Destination already exists"))
    else Ok(true)
  }

  // ---------------------------------------------------------------------------
  // list_files

  /** A directory entry as the walk yields it: its name and its stat. `digest` stands for
      the SHA-256 of a file's content. */
  datatype DirEntry = DirEntry(name: string, isDir: bool, size: nat, mtime: int, mode: string,
                               uid: string, digest: string)

  /** What list_files finds at the requested path. */
  datatype Listing = NotFound | NotADirectory | Directory(entries: seq<DirEntry>)

  /** The item reported for one entry: its path relative to the base directory, a size for
      files only, a checksum for non-empty files under 10 MB, and the encrypted mark from the
      name. */
  function ItemOf(dir: string, e: DirEntry): (item: FileItem)
    ensures item.name == e.name
    ensures IsPathPart(e.name) ==> PathParts(item.path) == PathParts(dir) + [e.name]
    ensures item.isEncrypted <==> IsEncryptedName(e.name)
    ensures item.fileType == Folder <==> e.isDir
    ensures item.checksum.Some? <==> !e.isDir && 0 < e.size < CHECKSUM_LIMIT
  {
    ItemPathParts(dir, e.name);
    FileItem(e.name, NormPath(dir + "/" + e.name),
             if e.isDir then Folder else RegularFile,
             if e.isDir then None else Some(e.size as int), e.mtime, e.mode, Some(e.uid),
             IsEncryptedName(e.name),
             if !e.isDir && e.size != 0 && e.size < CHECKSUM_LIMIT then Some(e.digest) else None)
  }

  lemma ItemPathParts(dir: string, name: string)
    ensures IsPathPart(name) ==> PathParts(NormPath(dir + "/" + name)) == PathParts(dir) + [name]
  {
    if IsPathPart(name) {
      NormPathIdempotent(dir + "/" + name);
      PartsOfJoin(dir, name);
      SinglePart(name);
    }
  }

  /** An entry of the base directory is reported at its own name. */
  lemma RootItemPath(e: DirEntry)
    requires IsPathPart(e.name)
    ensures ItemOf("", e).path == e.name
  {
    PartsOfJoin("", e.name);
    SinglePart(e.name);
    assert PathParts("" + "/" + e.name) == [e.name];
  }

  function ItemsOf(dir: string, entries: seq<DirEntry>): (items: seq<FileItem>)
    ensures |items| == |entries|
    ensures forall i :: 0 <= i < |entries| ==> items[i] == ItemOf(dir, entries[i])
  {
    seq(|entries|, i requires 0 <= i < |entries| => ItemOf(dir, entries[i]))
  }

  /** The sort key (type is file, lower-cased name), compared as Python compares tuples. */
  predicate ListingLeq(a: FileItem, b: FileItem)
  {
    || (a.fileType == Folder && b.fileType == RegularFile)
    || (a.fileType == b.fileType && LexLeq(Lower(a.name), Lower(b.name)))
  }

  lemma ListingLeqIsTotalPreorder()
    ensures TotalPreorder(ListingLeq)
  {
    forall a, b ensures ListingLeq(a, b) || ListingLeq(b, a) {
      LexLeqTotal(Lower(a.name), Lower(b.name));
    }
    forall a, b, c | ListingLeq(a, b) && ListingLeq(b, c) ensures ListingLeq(a, c) {
      if a.fileType == b.fileType == c.fileType {
        LexLeqTransitive(Lower(a.name), Lower(b.name), Lower(c.name));
      }
    }
  }

  /** list_files: 404 / 400 for a missing path or a file; otherwise the items of the entries,
      folders first and each group ordered by lower-cased name. */
  method ListFiles(path: string, target: Listing) returns (r: Result<seq<FileItem>>)
    ensures target.NotFound? <==> r == Err(Fail(404, "Path not found"))
    ensures target.NotADirectory? <==> r == Err(Fail(400, "Path is not a directory"))
    ensures target.Directory? ==>
              && r.Ok?
              && multiset(r.value) == multiset(ItemsOf(StripLeadingSlash(path), target.entries))
              && Sorted(r.value, ListingLeq)
    ensures r.Ok? ==> forall i, j :: 0 <= i < j < |r.value| && r.value[j].fileType == Folder
                                     ==> r.value[i].fileType == Folder
    ensures r.Ok? ==> forall i :: 0 <= i < |r.value| ==>
                        (r.value[i].isEncrypted <==> IsEncryptedName(r.value[i].name))
  {
    var dir := StripLeadingSlash(path);
    match target {
      case NotFound => return Err(Fail(404, "Path not found"));
      case NotADirectory => return Err(Fail(400, "Path is not a directory"));
      case Directory(entries) =>
        var files := CollectItems(dir, entries);
        ListingLeqIsTotalPreorder();
        var sorted := InsertionSort(files, ListingLeq);
        SortedListingShape(files, sorted);
        r := Ok(sorted);
    }
  }

  /** The walk over the directory: one item appended per entry. */
  method CollectItems(dir: string, entries: seq<DirEntry>) returns (files: seq<FileItem>)
    ensures files == ItemsOf(dir, entries)
  {
    files := [];
    var i := 0;
    while i < |entries|
      invariant 0 <= i <= |entries|
      invariant files == ItemsOf(dir, entries[..i])
    {
      files := files + [ItemOf(dir, entries[i])];
      i := i + 1;
      assert entries[..i][..i - 1] == entries[..i - 1];
    }
    assert entries[..i] == entries;
  }

  /** A sorted arrangement of listing items has its folders first and keeps each item's
      encrypted mark in step with its name. */
  lemma SortedListingShape(files: seq<FileItem>, sorted: seq<FileItem>)
    requires Sorted(sorted, ListingLeq) && multiset(sorted) == multiset(files)
    requires forall i :: 0 <= i < |files| ==> (files[i].isEncrypted <==> IsEncryptedName(files[i].name))
    ensures forall i, j :: 0 <= i < j < |sorted| && sorted[j].fileType == Folder ==> sorted[i].fileType == Folder
    ensures forall i :: 0 <= i < |sorted| ==> (sorted[i].isEncrypted <==> IsEncryptedName(sorted[i].name))
  {
    forall k | 0 <= k < |sorted| ensures sorted[k].isEncrypted <==> IsEncryptedName(sorted[k].name) {
      assert sorted[k] in multiset(files);
    }
  }
}
