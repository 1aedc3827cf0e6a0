/** backend/routers/files_router.py: search, info lookup, bulk delete and bulk download over
    the file service, and the success/500 mapping of the delete and move routes. */
module FilesRouter {
  import opened Outcomes
  import opened Text
  import opened Models
  import opened Store
  import opened Sorting
  import opened FileManager

  // ---------------------------------------------------------------------------
  // search_files

  predicate NameMatches(item: FileItem, queryLower: string)
  {
    Contains(Lower(item.name), queryLower)
  }

  /** The positions of the listing whose item matches, in increasing order: an
      independent description of the search results. */
  function MatchIndices(files: seq<FileItem>, queryLower: string): (idx: seq<nat>)
    ensures forall k :: 0 <= k < |idx| ==> idx[k] < |files| && NameMatches(files[idx[k]], queryLower)
    ensures forall k, l :: 0 <= k < l < |idx| ==> idx[k] < idx[l]
    ensures forall i :: 0 <= i < |files| && NameMatches(files[i], queryLower) ==> i in idx
  {
    if files == [] then []
    else
      var rest := MatchIndices(files[..|files| - 1], queryLower);
      if NameMatches(files[|files| - 1], queryLower) then rest + [|files| - 1] else rest
  }

  /** The items whose lower-cased name contains the lower-cased query, in listing order:
      the result picks the listing at the matching positions, one item per position. */
  function Matching(files: seq<FileItem>, queryLower: string): (r: seq<FileItem>)
    ensures |r| == |MatchIndices(files, queryLower)|
    ensures forall k :: 0 <= k < |r| ==> r[k] == files[MatchIndices(files, queryLower)[k]]
    ensures forall x :: x in r <==> x in files && NameMatches(x, queryLower)
  {
    if files == [] then []
    else
      var rest := Matching(files[..|files| - 1], queryLower);
      ExtendPicked(files, queryLower, rest);
      ExtendMembers(files, queryLower, rest);
      if NameMatches(files[|files| - 1], queryLower) then rest + [files[|files| - 1]] else rest
  }

  /** One more listed item: the picked positions grow by its position exactly when it matches. */
  lemma ExtendPicked(files: seq<FileItem>, queryLower: string, rest: seq<FileItem>)
    requires files != []
    requires var idx := MatchIndices(files[..|files| - 1], queryLower);
             |rest| == |idx| && forall k :: 0 <= k < |rest| ==> rest[k] == files[..|files| - 1][idx[k]]
    ensures var last := files[|files| - 1];
            var r := if NameMatches(last, queryLower) then rest + [last] else rest;
            |r| == |MatchIndices(files, queryLower)|
            && forall k :: 0 <= k < |r| ==> r[k] == files[MatchIndices(files, queryLower)[k]]
  {
  }

  /** One more listed item: it joins the results exactly when it matches. */
  lemma ExtendMembers(files: seq<FileItem>, queryLower: string, rest: seq<FileItem>)
    requires files != []
    requires forall x :: x in rest <==> x in files[..|files| - 1] && NameMatches(x, queryLower)
    ensures var last := files[|files| - 1];
            var r := if NameMatches(last, queryLower) then rest + [last] else rest;
            forall x :: x in r <==> x in files && NameMatches(x, queryLower)
  {
    assert files == files[..|files| - 1] + [files[|files| - 1]];
  }

  /** Filtering keeps the listing's order: a sorted listing gives sorted results. */
  lemma MatchingKeepsOrder(files: seq<FileItem>, queryLower: string)
    requires Sorted(files, ListingLeq)
    ensures Sorted(Matching(files, queryLower), ListingLeq)
  {
    var r := Matching(files, queryLower);
    var idx := MatchIndices(files, queryLower);
    forall k, l | 0 <= k < l < |r| ensures ListingLeq(r[k], r[l]) {
      assert r[k] == files[idx[k]] && r[l] == files[idx[l]];
    }
  }

  /** An empty query matches every item. */
  lemma {:induction false} EmptyQueryMatchesAll(files: seq<FileItem>)
    ensures Matching(files, "") == files
  {
    if files != [] {
      var init, last := files[..|files| - 1], files[|files| - 1];
      assert files == init + [last];
      EmptyQueryMatchesAll(init);
      assert OccursAt(Lower(last.name), "", 0);
    }
  }

  datatype SearchResult = SearchResult(results: seq<FileItem>, count: int)

  /** search_files over the listing of the requested path: any listing failure is reported
      as 500 "Error searching files: ...", since the handler catches every exception. */
  function SearchFiles(listing: Result<seq<FileItem>>, query: string): (r: Result<SearchResult>)
    ensures listing.Err? ==> r == Err(Fail(500, "Error searching files: " + ErrorText(listing.error)))
    ensures listing.Ok? ==> r.Ok? && r.value.results == Matching(listing.value, Lower(query))
                            && r.value.count == |r.value.results|
  {
    match listing
    case Err(e) => Err(Fail(500, "Error searching files: " + ErrorText(e)))
    case Ok(files) =>
      var results := Matching(files, Lower(query));
      Ok(SearchResult(results, |results|))
  }

  // ---------------------------------------------------------------------------
  // get_file_info

  /** get_file_info over the listing of the base directory: the first item whose path is the
      requested one, else 404; a listing failure passes through unchanged. */
  function GetFileInfo(rootListing: Result<seq<FileItem>>, filePath: string): (r: Result<FileItem>)
    ensures rootListing.Err? ==> r == Err(rootListing.error)
    ensures rootListing.Ok? && r.Ok? ==>
              r.value.path == filePath
              && exists i :: 0 <= i < |rootListing.value| && rootListing.value[i] == r.value
                             && forall j :: 0 <= j < i ==> rootListing.value[j].path != filePath
    ensures rootListing.Ok? ==>
              (r == Err(Fail(404, "File not found")) <==> forall x :: x in rootListing.value ==> x.path != filePath)
  {
    match rootListing
    case Err(e) => Err(e)
    case Ok(files) =>
      match FirstWhere(files, (f: FileItem) => f.path == filePath)
      case None => Err(Fail(404, "File not found"))
      case Some(i) => Ok(files[i])
  }

  /** Only the base directory is listed, so a path inside a subdirectory is never found. */
  lemma NestedPathNotFound(files: seq<FileItem>, entries: seq<DirEntry>, filePath: string)
    requires multiset(files) == multiset(ItemsOf("", entries))
    requires forall e :: e in entries ==> IsPathPart(e.name)
    requires '/' in filePath
    ensures GetFileInfo(Ok(files), filePath) == Err(Fail(404, "File not found"))
  {
    forall x | x in files ensures x.path != filePath {
      assert x in multiset(ItemsOf("", entries));
      var k :| 0 <= k < |entries| && ItemsOf("", entries)[k] == x;
      RootItemPath(entries[k]);
      assert x.path == entries[k].name;
    }
  }

  // ---------------------------------------------------------------------------
  // bulk_delete_files

  /** Paths under p (p itself included); every path is under the base directory "". */
  predicate Under(q: string, p: string)
  {
    p == "" || q == p || StartsWith(q, p + "/")
  }

  /** The paths left once p and everything under it are removed. */
  function RemoveTree(existing: set<string>, p: string): (r: set<string>)
    ensures r <= existing && p !in r
  {
    set q | q in existing && !Under(q, p)
  }

  datatype BulkDeleteState = BulkDeleteState(deleted: nat, errors: seq<string>, existing: set<string>)

  /** One delete of the bulk loop: counted when the service returns true, recorded as
      "{path}: {error}" when it raises, and passed over silently when it returns false. */
  function DeleteStep(st: BulkDeleteState, path: string): BulkDeleteState
  {
    var outcome := DeleteFile(st.existing, path);
    if outcome.Err? then BulkDeleteState(st.deleted, st.errors + [path + ": " + ErrorText(outcome.error)], st.existing)
    else if outcome.value then BulkDeleteState(st.deleted + 1, st.errors, RemoveTree(st.existing, PathKey(path)))
    else st
  }

  /** The deletes of the given paths, in order. */
  function DeleteAll(existing: set<string>, paths: seq<string>): BulkDeleteState
  {
    if paths == [] then BulkDeleteState(0, [], existing)
    else DeleteStep(DeleteAll(existing, paths[..|paths| - 1]), paths[|paths| - 1])
  }

  /** The deletes of one more path are one more step. */
  lemma DeleteAllStep(existing: set<string>, paths: seq<string>, i: nat)
    requires i < |paths|
    ensures DeleteAll(existing, paths[..i + 1]) == DeleteStep(DeleteAll(existing, paths[..i]), paths[i])
  {
    assert paths[..i + 1][..i] == paths[..i];
  }

  /** Since the service never answers false, every path is either counted or reported, once. */
  lemma {:induction false} DeleteAllAccounts(existing: set<string>, paths: seq<string>)
    ensures DeleteAll(existing, paths).deleted + |DeleteAll(existing, paths).errors| == |paths|
  {
    if paths != [] {
      DeleteAllAccounts(existing, paths[..|paths| - 1]);
    }
  }

  /** Deleting a path twice in one request: the second attempt is reported 404. */
  lemma RepeatedPathReported(existing: set<string>, p: string)
    requires PathKey(p) in existing
    ensures DeleteAll(existing, [p, p]) == BulkDeleteState(1, [p + ": 404: File not found"],
                                                          RemoveTree(existing, PathKey(p)))
  {
    assert [p, p][..1] == [p];
    assert [p][..0] == [];
    assert DeleteAll(existing, [p][..0]) == BulkDeleteState(0, [], existing);
    assert DeleteFile(existing, p) == Ok(true);
    var first := DeleteAll(existing, [p]);
    assert first == BulkDeleteState(1, [], RemoveTree(existing, PathKey(p)));
    assert DeleteFile(first.existing, p) == Err(Fail(404, "File not found"));
    NotFoundText("File not found");
    assert ErrorText(Fail(404, "File not found")) == "404: File not found";
    RepeatedPathText();
    assert p + ": " + "404: File not found" == p + (": " + "404: File not found");
  }

  lemma RepeatedPathText()
    ensures ": " + "404: File not found" == ": 404: File not found"
  {
  }

  /** The reply message: the count summary, followed by the joined errors when there are any. */
  function BulkDeleteMessage(deleted: nat, errors: seq<string>): (m: string)
    ensures StartsWith(m, "Deleted " + NatToString(deleted) + " files successfully")
    ensures m == "Deleted " + NatToString(deleted) + " files successfully" <==> errors == []
  {
    var summary := "Deleted " + NatToString(deleted) + " files successfully";
    if errors == [] then summary
    else
      var m := summary + ". Errors: " + Join(errors, "; ");
      assert m[..|summary|] == summary;
      assert |m| > |summary|;
      m
  }

  datatype BulkDeleteReport = BulkDeleteReport(message: string, deletedCount: nat, errors: seq<string>)

  /** bulk_delete_files: the loop over the paths, against the set of existing paths. */
  method BulkDelete(existing: set<string>, paths: seq<string>) returns (report: BulkDeleteReport, after: set<string>)
    ensures var st := DeleteAll(existing, paths);
            report == BulkDeleteReport(BulkDeleteMessage(st.deleted, st.errors), st.deleted, st.errors)
            && after == st.existing
    ensures report.deletedCount + |report.errors| == |paths|
  {
    var deleted: nat := 0;
    var errors: seq<string> := [];
    var fs := existing;
    var i := 0;
    while i < |paths|
      invariant 0 <= i <= |paths|
      invariant DeleteAll(existing, paths[..i]) == BulkDeleteState(deleted, errors, fs)
    {
      ghost var before := BulkDeleteState(deleted, errors, fs);
      DeleteAllStep(existing, paths, i);
      var outcome := DeleteFile(fs, paths[i]);
      if outcome.Err? {
        errors := errors + [paths[i] + ": " + ErrorText(outcome.error)];
      } else if outcome.value {
        deleted := deleted + 1;
        fs := RemoveTree(fs, PathKey(paths[i]));
      }
      assert BulkDeleteState(deleted, errors, fs) == DeleteStep(before, paths[i]);
      i := i + 1;
    }
    assert paths[..i] == paths;
    DeleteAllAccounts(existing, paths);
    report := BulkDeleteReport(BulkDeleteMessage(deleted, errors), deleted, errors);
    after := fs;
  }

  // ---------------------------------------------------------------------------
  // bulk_download_files

  /** The archive entry written for a path that could not be downloaded. */
  function ErrorEntryName(path: string): (n: string)
    ensures '/' !in n
    ensures StartsWith(n, "ERROR_") && EndsWith(n, ".txt") && |n| == |path| + 10
    ensures forall i :: 0 <= i < |path| ==> n[6 + i] == if path[i] == '/' then '_' else path[i]
  {
    ReplaceCharRemoves(path, '/', '_');
    ReplaceCharPointwise(path, '/', '_');
    var flat := ReplaceAll(path, "/", "_");
    var n := "ERROR_" + flat + ".txt";
    assert n[..6] == "ERROR_";
    assert n[|n| - 4..] == ".txt";
    n
  }

  /** Two different paths can yield the same error entry name. */
  lemma ErrorEntryNamesCollide()
    ensures ErrorEntryName("a/b") == ErrorEntryName("a_b")
  {
    assert ReplaceAll("a/b", "/", "_") == "a_b";
    assert ReplaceAll("a_b", "/", "_") == "a_b";
  }

  datatype ZipEntry = ZipEntry(name: string, content: string)

  /** One archive entry per path: the downloaded file under its served name, or an error
      entry carrying "Error downloading {path}: {error}". `contentOf` stands for the bytes read. */
  function BulkDownloadEntries(paths: seq<string>, lookup: string -> Target, contentOf: string -> string)
    : (entries: seq<ZipEntry>)
    ensures |entries| == |paths|
    ensures forall i :: 0 <= i < |paths| ==>
              match DownloadFile(paths[i], lookup(paths[i]))
              case Ok(name) => entries[i] == ZipEntry(name, contentOf(paths[i]))
              case Err(e) => entries[i] == ZipEntry(ErrorEntryName(paths[i]),
                                                    "Error downloading " + paths[i] + ": " + ErrorText(e))
  {
    seq(|paths|, i requires 0 <= i < |paths| =>
      match DownloadFile(paths[i], lookup(paths[i]))
      case Ok(name) => ZipEntry(name, contentOf(paths[i]))
      case Err(e) => ZipEntry(ErrorEntryName(paths[i]), "Error downloading " + paths[i] + ": " + ErrorText(e)))
  }

  // ---------------------------------------------------------------------------
  // The delete and move routes

  /** download route: every failure of the service, the 404 and 400 included, is reported as
      500 "Error downloading file: ..."; on success the served name goes into the
      Content-Disposition header. */
  function DownloadRoute(filePath: string, target: Target): (r: Result<string>)
    ensures r.Ok? <==> target.FileAt?
    ensures r.Ok? ==> r.value == DownloadName(PathName(StripLeadingSlash(filePath)))
    ensures r.Err? ==> r.error.status == 500 && r.error.headers == map[]
                       && StartsWith(r.error.detail, "Error downloading file: ")
  {
    match DownloadFile(filePath, target)
    case Ok(name) => Ok(name)
    case Err(e) =>
      var detail := "Error downloading file: " + ErrorText(e);
      assert detail[..|"Error downloading file: "|] == "Error downloading file: ";
      Err(Fail(500, detail))
  }

  /** A missing file reaches the client as a 500 carrying the service's 404 text. */
  lemma MissingDownloadIs500(filePath: string)
    ensures DownloadRoute(filePath, Missing) == Err(Fail(500, "Error downloading file: 404: File not found"))
  {
    var detail := "Error downloading file: " + ErrorText(Fail(404, "File not found"));
    assert DownloadRoute(filePath, Missing) == Err(Fail(500, detail));
    NotFoundText("File not found");
    assert detail == "Error downloading file: " + "404: File not found";
    MissingDownloadText();
  }

  lemma MissingDownloadText()
    ensures "Error downloading file: " + "404: File not found"
         == "Error downloading file: 404: File not found"
  {
  }

  /** delete route: true gives the success message, false 500; a raised error passes through. */
  function DeleteRoute(outcome: Result<bool>): (r: Result<SuccessResponse>)
    ensures r.Ok? <==> outcome == Ok(true)
    ensures r.Ok? ==> r.value == Success("File deleted successfully") && r.value.success
    ensures outcome == Ok(false) ==> r == Err(Fail(500, "Failed to delete file"))
    ensures outcome.Err? ==> r == Err(outcome.error)
  {
    match outcome
    case Err(e) => Err(e)
    case Ok(success) =>
      if success then Ok(Success("File deleted successfully")) else Err(Fail(500, "Failed to delete file"))
  }

  /** The service never answers false, so the route's 500 branch is unreachable. */
  lemma DeleteRouteNeverFails500(existing: set<string>, filePath: string)
    ensures DeleteRoute(DeleteFile(existing, filePath)) != Err(Fail(500, "Failed to delete file"))
  {
  }

  function MoveRoute(outcome: Result<bool>): (r: Result<SuccessResponse>)
    ensures r.Ok? <==> outcome == Ok(true)
    ensures r.Ok? ==> r.value == Success("File moved successfully") && r.value.success
    ensures outcome == Ok(false) ==> r == Err(Fail(500, "Failed to move file"))
    ensures outcome.Err? ==> r == Err(outcome.error)
  {
    match outcome
    case Err(e) => Err(e)
    case Ok(success) =>
      if success then Ok(Success("File moved successfully")) else Err(Fail(500, "Failed to move file"))
  }
}
