/** The document collections the handlers read and write, and the selection rule of the
    store's single-document operations: find_one and update_one act on the FIRST document
    (in the collection's natural order) that matches the filter. */
module Store {
  import opened Outcomes
  import opened Models

  /** The database: each collection is a sequence of documents in natural order. */
  class Db {
    var users: seq<User>
    var sessions: seq<Session>
    var rdpConnections: seq<RdpConnection>
    var logs: seq<LogEntry>

    constructor ()
      ensures users == [] && sessions == [] && rdpConnections == [] && logs == []
    {
      users, sessions, rdpConnections, logs := [], [], [], [];
    }
  }

  /** The index of the first document satisfying the filter: the document find_one returns
      and update_one changes. */
  function FirstWhere<T>(docs: seq<T>, matches: T -> bool): (r: Option<nat>)
    ensures r.Some? ==> r.value < |docs| && matches(docs[r.value])
    ensures r.Some? ==> forall j :: 0 <= j < r.value ==> !matches(docs[j])
    ensures r.None? ==> forall j :: 0 <= j < |docs| ==> !matches(docs[j])
  {
    if docs == [] then None
    else if matches(docs[0]) then Some(0)
    else
      match FirstWhere(docs[1..], matches)
      case None => None
      case Some(i) => Some(i + 1)
  }

  /** Two filters that agree position by position select the same document. */
  lemma {:induction false} FirstWhereAgrees<T, U>(a: seq<T>, pa: T -> bool, b: seq<U>, pb: U -> bool)
    requires |a| == |b| && forall i :: 0 <= i < |a| ==> pa(a[i]) == pb(b[i])
    ensures FirstWhere(a, pa) == FirstWhere(b, pb)
  {
    if a != [] {
      FirstWhereAgrees(a[1..], pa, b[1..], pb);
    }
  }

  /** Inserting documents after the first match does not change which one is found. */
  lemma FirstWhereAppend<T>(a: seq<T>, extra: seq<T>, matches: T -> bool)
    requires FirstWhere(a, matches).Some?
    ensures FirstWhere(a + extra, matches) == FirstWhere(a, matches)
  {
    var i := FirstWhere(a, matches).value;
    assert (a + extra)[i] == a[i];
    forall j | 0 <= j < i ensures !matches((a + extra)[j]) {
      assert (a + extra)[j] == a[j];
    }
  }

  function UserNamed(users: seq<User>, username: string): Option<nat>
  {
    FirstWhere(users, (u: User) => u.username == username)
  }

  function UserWithId(users: seq<User>, id: string): Option<nat>
  {
    FirstWhere(users, (u: User) => u.id == id)
  }

  /** Identifiers and usernames are unique across the users collection. */
  predicate UniqueUsers(users: seq<User>)
  {
    && (forall i, j :: 0 <= i < j < |users| ==> users[i].id != users[j].id)
    && (forall i, j :: 0 <= i < j < |users| ==> users[i].username != users[j].username)
  }

  /** With unique ids, the document found by username is the one update_one on its id reaches. */
  lemma UpdateByIdReachesFound(users: seq<User>, i: nat)
    requires UniqueUsers(users) && i < |users|
    ensures UserWithId(users, users[i].id) == Some(i)
  {
  }
}
