/**
 * UserService: the ordered in-memory roster, the queries over a snapshot of it
 * (getPaginatedUsers, filterUsers, getTotalPages, getUserById) and the mutators
 * (addUser, updateUser, toggleStatus, deleteUser), each of which writes the roster
 * through to local storage.
 */
module Roster {
  import opened Optional
  import opened Text
  import opened JsNumber
  import opened Seqs
  import opened UserModel

  // ---------------------------------------------------------------------------
  // getPaginatedUsers

  /** What getPaginatedUsers returns: one page and the number of records that matched. */
  datatype PageResult = PageResult(users: seq<User>, totalUsers: nat)

  predicate StatusMatches(u: User, status: StatusFilter) {
    match status
    case All => true
    case Active => u.isActive
    case Inactive => !u.isActive
  }

  /** The search test for an already lower-cased, non-empty term: name, e-mail or phone. */
  predicate SearchHit(u: User, lower: string) {
    Includes(Lower(u.name), lower) || Includes(Lower(u.email), lower) || Includes(Lower(u.phone), lower)
  }

  /** An empty search text skips the search; any other text, white space included, is searched for. */
  predicate SearchMatches(u: User, searchText: string) {
    searchText == "" || SearchHit(u, Lower(searchText))
  }

  /** `u.role === roleFilter`: NaN equals no role. */
  predicate RoleMatches(u: User, role: RoleFilter) {
    match role
    case AllRoles => true
    case OnlyRole(code) => code == Finite(u.role)
  }

  predicate Matches(u: User, status: StatusFilter, searchText: string, role: RoleFilter) {
    StatusMatches(u, status) && SearchMatches(u, searchText) && RoleMatches(u, role)
  }

  /** The filter stages of getPaginatedUsers, in the order the service runs them. */
  function FilteredUsers(users: seq<User>, status: StatusFilter, searchText: string, role: RoleFilter): (r: seq<User>)
    ensures |r| <= |users|
    ensures forall u :: u in r ==> u in users && Matches(u, status, searchText, role)
  {
    var byStatus :=
      match status
      case Active => Filter(users, (u: User) => u.isActive)
      case Inactive => Filter(users, (u: User) => !u.isActive)
      case All => users;
    var bySearch :=
      if searchText != "" then
        var lower := Lower(searchText);
        Filter(byStatus, (u: User) => SearchHit(u, lower))
      else byStatus;
    if role != AllRoles then Filter(bySearch, (u: User) => RoleMatches(u, role)) else bySearch
  }

  /** Where page `page` starts: `(page - 1) * itemsPerPage`. */
  function PageStart(page: int, itemsPerPage: int): (start: int)
    ensures page >= 1 && itemsPerPage >= 1 ==> start >= 0
  {
    MulNonNegative(page - 1, itemsPerPage);
    (page - 1) * itemsPerPage
  }

  /** The pagination stage: the slice `[start, start + itemsPerPage)` for the page's start. */
  function PageOf(xs: seq<User>, page: int, itemsPerPage: int): (r: seq<User>)
    ensures forall i :: 0 <= i < |r| ==> r[i] in xs
    ensures page >= 1 && itemsPerPage >= 1 ==> |r| <= itemsPerPage
    ensures page >= 1 && itemsPerPage >= 1 && PageStart(page, itemsPerPage) >= |xs| ==> r == []
    ensures page >= 1 && itemsPerPage >= 1 ==>
      r == xs[Min(PageStart(page, itemsPerPage), |xs|)..Min(PageStart(page, itemsPerPage) + itemsPerPage, |xs|)]
  {
    var start := PageStart(page, itemsPerPage);
    Slice(xs, start, start + itemsPerPage)
  }

  /**
   * getPaginatedUsers: filter by status, search text and role, count the survivors,
   * then cut one page out of them.
   */
  function GetPaginatedUsers(users: seq<User>, page: int, itemsPerPage: int,
                             status: StatusFilter, searchText: string, role: RoleFilter): (r: PageResult)
    ensures r.totalUsers <= |users|
    ensures forall i :: 0 <= i < |r.users| ==> r.users[i] in users && Matches(r.users[i], status, searchText, role)
    ensures page >= 1 && itemsPerPage >= 1 ==> |r.users| <= itemsPerPage
    ensures page >= 1 && itemsPerPage >= 1 && (page - 1) * itemsPerPage >= r.totalUsers ==> r.users == []
  {
    var filtered := FilteredUsers(users, status, searchText, role);
    FilteredIsConjunction(users, status, searchText, role);
    PageResult(PageOf(filtered, page, itemsPerPage), |filtered|)
  }

  /** The stages keep exactly the records that pass all three tests, whatever order they run in. */
  lemma FilteredIsConjunction(users: seq<User>, status: StatusFilter, searchText: string, role: RoleFilter)
    ensures FilteredUsers(users, status, searchText, role) == Filter(users, (u: User) => Matches(u, status, searchText, role))
    ensures Filter(Filter(Filter(users, (u: User) => RoleMatches(u, role)), (u: User) => SearchMatches(u, searchText)), (u: User) => StatusMatches(u, status))
         == Filter(users, (u: User) => Matches(u, status, searchText, role))
  {
    var st := (u: User) => StatusMatches(u, status);
    var se := (u: User) => SearchMatches(u, searchText);
    var ro := (u: User) => RoleMatches(u, role);
    var byStatus := match status
      case Active => Filter(users, (u: User) => u.isActive)
      case Inactive => Filter(users, (u: User) => !u.isActive)
      case All => users;
    match status {
      case All => FilterKeepsAll(users, st);
      case Active => FilterAgree(users, (u: User) => u.isActive, st);
      case Inactive => FilterAgree(users, (u: User) => !u.isActive, st);
    }
    assert byStatus == Filter(users, st);
    var bySearch := if searchText != "" then Filter(byStatus, (u: User) => SearchHit(u, Lower(searchText))) else byStatus;
    if searchText != "" {
      FilterAgree(byStatus, (u: User) => SearchHit(u, Lower(searchText)), se);
    } else {
      FilterKeepsAll(byStatus, se);
    }
    assert bySearch == Filter(byStatus, se);
    if role == AllRoles {
      FilterKeepsAll(bySearch, ro);
    }
    assert FilteredUsers(users, status, searchText, role) == Filter(bySearch, ro);
    FilterThree(users, st, se, ro, (u: User) => Matches(u, status, searchText, role));
    FilterThree(users, ro, se, st, (u: User) => Matches(u, status, searchText, role));
  }

  /** totalUsers counts the records passing all three filters; page and page size play no part. */
  lemma TotalCountsMatches(users: seq<User>, page: int, itemsPerPage: int,
                           status: StatusFilter, searchText: string, role: RoleFilter)
    ensures GetPaginatedUsers(users, page, itemsPerPage, status, searchText, role).totalUsers
         == |Filter(users, (u: User) => Matches(u, status, searchText, role))|
  {
    FilteredIsConjunction(users, status, searchText, role);
  }

  /** Filtering never reorders: the matching records form a subsequence of the roster. */
  lemma FilteringKeepsOrder(users: seq<User>, status: StatusFilter, searchText: string, role: RoleFilter)
    ensures IsSubsequence(FilteredUsers(users, status, searchText, role), users)
  {
    FilteredIsConjunction(users, status, searchText, role);
    FilterIsSubsequence(users, (u: User) => Matches(u, status, searchText, role));
  }

  /** Pages 1 to k of `xs`, concatenated. */
  function PagesUpTo(xs: seq<User>, itemsPerPage: int, k: nat): seq<User> {
    if k == 0 then [] else PagesUpTo(xs, itemsPerPage, k - 1) + PageOf(xs, k, itemsPerPage)
  }

  lemma {:induction false} PagesUpToIsPrefix(xs: seq<User>, itemsPerPage: int, k: nat)
    requires itemsPerPage >= 1
    ensures PagesUpTo(xs, itemsPerPage, k) == xs[..Min(k * itemsPerPage, |xs|)]
  {
    if k > 0 {
      PagesUpToIsPrefix(xs, itemsPerPage, k - 1);
      PageOfIsWindow(xs, k, itemsPerPage);
      var a, b := Min((k - 1) * itemsPerPage, |xs|), Min(k * itemsPerPage, |xs|);
      assert PagesUpTo(xs, itemsPerPage, k) == xs[..a] + xs[a..b];
      PrefixThenSlice(xs, a, b);
    }
  }

  /** Page k covers the positions from (k-1)*itemsPerPage up to k*itemsPerPage. */
  lemma PageOfIsWindow(xs: seq<User>, k: int, itemsPerPage: int)
    requires k >= 1 && itemsPerPage >= 1
    ensures 0 <= (k - 1) * itemsPerPage <= k * itemsPerPage
    ensures PageOf(xs, k, itemsPerPage) == xs[Min((k - 1) * itemsPerPage, |xs|)..Min(k * itemsPerPage, |xs|)]
  {
    MulNonNegative(k - 1, itemsPerPage);
    assert (k - 1) * itemsPerPage + itemsPerPage == k * itemsPerPage;
  }

  /**
   * Reading every page from 1 to ceil(totalUsers / itemsPerPage) gives back the
   * filtered records exactly: in order, none twice, none missing.
   */
  lemma AllPagesReproduceFiltered(users: seq<User>, itemsPerPage: int,
                                  status: StatusFilter, searchText: string, role: RoleFilter)
    requires itemsPerPage >= 1
    ensures var total := GetPaginatedUsers(users, 1, itemsPerPage, status, searchText, role).totalUsers;
            CeilDiv(total, itemsPerPage) >= 0 &&
            PagesUpTo(FilteredUsers(users, status, searchText, role), itemsPerPage, CeilDiv(total, itemsPerPage))
              == FilteredUsers(users, status, searchText, role)
    ensures forall page :: GetPaginatedUsers(users, page, itemsPerPage, status, searchText, role).users
                        == PageOf(FilteredUsers(users, status, searchText, role), page, itemsPerPage)
  {
    var xs := FilteredUsers(users, status, searchText, role);
    var k := CeilDiv(|xs|, itemsPerPage);
    PagesUpToIsPrefix(xs, itemsPerPage, k);
    assert xs[..|xs|] == xs;
  }

  // ---------------------------------------------------------------------------
  // filterUsers and getTotalPages: the older query, searching address instead of phone

  predicate LegacySearchHit(u: User, term: string) {
    Includes(Lower(u.name), Lower(term)) || Includes(Lower(u.email), Lower(term)) || Includes(Lower(u.address), Lower(term))
  }

  /** filterUsers: search first (when the term is non-empty), then status; no role filter. */
  function FilterUsers(users: seq<User>, term: string, status: StatusFilter): (r: seq<User>)
    ensures |r| <= |users|
    ensures forall u :: u in r ==> u in users && (term == "" || LegacySearchHit(u, term)) && StatusMatches(u, status)
  {
    var bySearch := if term != "" then Filter(users, (u: User) => LegacySearchHit(u, term)) else users;
    match status
    case Active => Filter(bySearch, (u: User) => u.isActive)
    case Inactive => Filter(bySearch, (u: User) => !u.isActive)
    case All => bySearch
  }

  /** filterUsers keeps the records passing both of its tests, in roster order. */
  lemma FilterUsersIsConjunction(users: seq<User>, term: string, status: StatusFilter)
    ensures FilterUsers(users, term, status)
         == Filter(users, (u: User) => (term == "" || LegacySearchHit(u, term)) && StatusMatches(u, status))
    ensures IsSubsequence(FilterUsers(users, term, status), users)
  {
    var se := (u: User) => term == "" || LegacySearchHit(u, term);
    var st := (u: User) => StatusMatches(u, status);
    var both := (u: User) => (term == "" || LegacySearchHit(u, term)) && StatusMatches(u, status);
    var bySearch := if term != "" then Filter(users, (u: User) => LegacySearchHit(u, term)) else users;
    if term != "" {
      FilterAgree(users, (u: User) => LegacySearchHit(u, term), se);
    } else {
      FilterKeepsAll(users, se);
    }
    match status {
      case All => FilterKeepsAll(bySearch, st);
      case Active => FilterAgree(bySearch, (u: User) => u.isActive, st);
      case Inactive => FilterAgree(bySearch, (u: User) => !u.isActive, st);
    }
    FilterFuse(users, se, st, both);
    FilterIsSubsequence(users, both);
  }

  /** Without a search term the two queries agree on the records that pass the status filter. */
  lemma LegacyAgreesWithoutSearch(users: seq<User>, status: StatusFilter)
    ensures FilterUsers(users, "", status) == FilteredUsers(users, status, "", AllRoles)
  {
    FilterUsersIsConjunction(users, "", status);
    FilteredIsConjunction(users, status, "", AllRoles);
    FilterAgree(users, (u: User) => ("" == "" || LegacySearchHit(u, "")) && StatusMatches(u, status),
                       (u: User) => Matches(u, status, "", AllRoles));
  }

  /** getTotalPages: Math.ceil(filterUsers(term, status).length / perPage). */
  function GetTotalPages(users: seq<User>, perPage: int, term: string, status: StatusFilter): (r: int)
    requires perPage != 0
    ensures perPage > 0 ==> (r - 1) * perPage < |FilterUsers(users, term, status)| <= r * perPage
    ensures perPage > 0 ==> r >= 0 && (r == 0 <==> FilterUsers(users, term, status) == [])
  {
    CeilDiv(|FilterUsers(users, term, status)|, perPage)
  }

  // ---------------------------------------------------------------------------
  // getUserById and the id bookkeeping of the mutators

  /** `users.findIndex((u: User) => u.id === id)`: the first index holding `id`, or -1. */
  function IndexOfId(users: seq<User>, id: int): (i: int)
    ensures -1 <= i < |users|
    ensures i >= 0 ==> users[i].id == id && forall j :: 0 <= j < i ==> users[j].id != id
    ensures i == -1 ==> forall j :: 0 <= j < |users| ==> users[j].id != id
  {
    if users == [] then -1
    else if users[0].id == id then 0
    else
      var k := IndexOfId(users[1..], id);
      if k == -1 then -1 else k + 1
  }

  /** getUserById: the first record with that id, if there is one. */
  function GetUserById(users: seq<User>, id: int): (r: Option<User>)
    ensures r.Some? <==> exists j :: 0 <= j < |users| && users[j].id == id
    ensures r.Some? ==> r.value.id == id && r.value in users
    ensures r.Some? ==> forall j :: 0 <= j < |users| && users[j].id == id ==> r.value == users[IndexOfId(users, id)]
  {
    var i := IndexOfId(users, id);
    if i == -1 then None else Some(users[i])
  }

  /** `Math.max(...users.map((u: User) => u.id))`. */
  function MaxId(users: seq<User>): (m: int)
    requires users != []
    ensures forall j :: 0 <= j < |users| ==> users[j].id <= m
    ensures exists j :: 0 <= j < |users| && users[j].id == m
  {
    if |users| == 1 then users[0].id
    else
      var rest := MaxId(users[1..]);
      assert forall j :: 1 <= j < |users| ==> users[j] == users[1..][j - 1];
      if users[0].id > rest then users[0].id else rest
  }

  /** The id addUser assigns: one more than the largest id, or 1 for an empty roster. */
  function NextId(users: seq<User>): (id: int)
    ensures forall j :: 0 <= j < |users| ==> users[j].id < id
    ensures users == [] ==> id == 1
    ensures users != [] ==> exists j :: 0 <= j < |users| && users[j].id == id - 1
  {
    if |users| > 0 then MaxId(users) + 1 else 1
  }

  /** No two records share an id. */
  predicate UniqueIds(users: seq<User>) {
    forall i, j :: 0 <= i < j < |users| ==> users[i].id != users[j].id
  }

  /** The roster after updateUser: the first record with the same id is replaced, nothing else. */
  function Replaced(users: seq<User>, updated: User): (r: seq<User>)
    ensures |r| == |users|
    ensures forall j :: 0 <= j < |users| ==> r[j].id == users[j].id
    ensures forall j :: 0 <= j < |users| && j != IndexOfId(users, updated.id) ==> r[j] == users[j]
    ensures IndexOfId(users, updated.id) >= 0 ==> r[IndexOfId(users, updated.id)] == updated
    ensures IndexOfId(users, updated.id) == -1 ==> r == users
  {
    var i := IndexOfId(users, updated.id);
    if i == -1 then users else users[i := updated]
  }

  /** The roster after toggleStatus: only the first record with the id has its flag flipped. */
  function Toggled(users: seq<User>, id: int): (r: seq<User>)
    ensures |r| == |users|
    ensures forall j :: 0 <= j < |users| ==> r[j] == users[j].(isActive := r[j].isActive)
    ensures forall j :: 0 <= j < |users| ==> (r[j].isActive != users[j].isActive <==> j == IndexOfId(users, id))
  {
    var i := IndexOfId(users, id);
    if i == -1 then users else users[i := users[i].(isActive := !users[i].isActive)]
  }

  /** The roster after deleteUser: every record with the id is dropped. */
  function Removed(users: seq<User>, id: int): (r: seq<User>)
    ensures forall j :: 0 <= j < |r| ==> r[j].id != id
    ensures forall x :: multiset(r)[x] == if x.id == id then 0 else multiset(users)[x]
  {
    var r := Filter(users, (u: User) => u.id != id);
    FilterCounts(users, (u: User) => u.id != id);
    assert forall j :: 0 <= j < |r| ==> r[j] in r;
    r
  }

  /** The record addUser appends is found under its new id, and ids stay distinct. */
  lemma AddedIsFound(users: seq<User>, user: User)
    ensures var added := user.(id := NextId(users));
            GetUserById(users + [added], added.id) == Some(added) &&
            (UniqueIds(users) ==> UniqueIds(users + [added]))
  {
    var added := user.(id := NextId(users));
    var all := users + [added];
    assert forall j :: 0 <= j < |users| ==> all[j] == users[j];
    assert all[|users|].id == added.id;
    assert IndexOfId(all, added.id) == |users|;
  }

  lemma {:induction false} IndexOfIdFollowsIds(a: seq<User>, b: seq<User>, id: int)
    requires |a| == |b| && forall j :: 0 <= j < |a| ==> a[j].id == b[j].id
    ensures IndexOfId(a, id) == IndexOfId(b, id)
  {
    if a != [] {
      IndexOfIdFollowsIds(a[1..], b[1..], id);
    }
  }

  /** After updateUser the id finds the new record; updating again with it changes nothing. */
  lemma UpdatedIsFound(users: seq<User>, updated: User)
    requires exists j :: 0 <= j < |users| && users[j].id == updated.id
    ensures GetUserById(Replaced(users, updated), updated.id) == Some(updated)
    ensures Replaced(Replaced(users, updated), updated) == Replaced(users, updated)
    ensures UniqueIds(users) ==> UniqueIds(Replaced(users, updated))
  {
    IndexOfIdFollowsIds(users, Replaced(users, updated), updated.id);
  }

  /** Toggling the same id twice restores the roster. */
  lemma ToggleTwiceRestores(users: seq<User>, id: int)
    ensures Toggled(Toggled(users, id), id) == users
  {
    var once := Toggled(users, id);
    IndexOfIdFollowsIds(users, once, id);
    var i := IndexOfId(users, id);
    if i >= 0 {
      assert once[i] == users[i].(isActive := !users[i].isActive);
    }
  }

  /** Looking up in a roster with a record in front: that record if it holds the id, else the rest's answer. */
  lemma GetUserByIdCons(u: User, rest: seq<User>, id: int)
    ensures GetUserById([u] + rest, id) == if u.id == id then Some(u) else GetUserById(rest, id)
  {
    var all := [u] + rest;
    assert all[0] == u && all[1..] == rest;
    var k := IndexOfId(rest, id);
    assert IndexOfId(all, id) == if u.id == id then 0 else if k == -1 then -1 else k + 1;
  }

  /** A filter that keeps every record holding `other` leaves its lookup as it was. */
  lemma {:induction false} FilterKeepsLookup(users: seq<User>, keep: User -> bool, other: int)
    requires forall u: User :: u.id == other ==> keep(u)
    ensures GetUserById(Filter(users, keep), other) == GetUserById(users, other)
  {
    if users != [] {
      var tail := users[1..];
      FilterKeepsLookup(tail, keep, other);
      var rest := Filter(tail, keep);
      assert users == [users[0]] + tail;
      GetUserByIdCons(users[0], tail, other);
      if keep(users[0]) {
        assert Filter(users, keep) == [users[0]] + rest;
        GetUserByIdCons(users[0], rest, other);
      } else {
        assert Filter(users, keep) == rest;
      }
    }
  }

  /** Deleting one id leaves the lookup of every other id as it was. */
  lemma RemovedKeepsOthers(users: seq<User>, id: int, other: int)
    requires other != id
    ensures GetUserById(Removed(users, id), other) == GetUserById(users, other)
  {
    FilterKeepsLookup(users, (u: User) => u.id != id, other);
  }

  /** Filtering a roster whose ids are distinct leaves them distinct. */
  lemma {:induction false} FilterKeepsUniqueIds(users: seq<User>, keep: User -> bool)
    requires UniqueIds(users)
    ensures UniqueIds(Filter(users, keep))
  {
    if users != [] {
      var tail := users[1..];
      assert UniqueIds(tail);
      FilterKeepsUniqueIds(tail, keep);
      var rest := Filter(tail, keep);
      if keep(users[0]) {
        HeadIdNotInTail(users);
        assert forall x :: x in rest ==> x.id != users[0].id;
        ConsKeepsUniqueIds(users[0], rest);
        assert Filter(users, keep) == [users[0]] + rest;
      } else {
        assert Filter(users, keep) == rest;
      }
    }
  }

  /** A record whose id is not among distinct ids can go in front of them. */
  lemma ConsKeepsUniqueIds(u: User, rest: seq<User>)
    requires UniqueIds(rest) && forall x :: x in rest ==> x.id != u.id
    ensures UniqueIds([u] + rest)
  {
    var r := [u] + rest;
    forall i, j | 0 <= i < j < |r|
      ensures r[i].id != r[j].id
    {
      assert r[j] == rest[j - 1] && rest[j - 1] in rest;
      if i != 0 {
        assert r[i] == rest[i - 1];
      }
    }
  }

  /** With distinct ids, the front record's id occurs nowhere after it. */
  lemma HeadIdNotInTail(users: seq<User>)
    requires users != [] && UniqueIds(users)
    ensures forall x :: x in users[1..] ==> x.id != users[0].id
  {
    forall x | x in users[1..]
      ensures x.id != users[0].id
    {
      var k :| 0 <= k < |users| - 1 && users[1..][k] == x;
      assert users[k + 1] == x;
    }
  }

  /** After deleteUser nothing is found under the id, and ids that were distinct stay distinct. */
  lemma RemovedDropsId(users: seq<User>, id: int)
    ensures GetUserById(Removed(users, id), id) == None
    ensures UniqueIds(users) ==> UniqueIds(Removed(users, id))
  {
    if UniqueIds(users) {
      FilterKeepsUniqueIds(users, (u: User) => u.id != id);
    }
  }

  lemma RemovedAbsentIsNoOp(users: seq<User>, id: int)
    ensures IsSubsequence(Removed(users, id), users)
    ensures (forall j :: 0 <= j < |users| ==> users[j].id != id) ==> Removed(users, id) == users
  {
    FilterIsSubsequence(users, (u: User) => u.id != id);
    if forall j :: 0 <= j < |users| ==> users[j].id != id {
      FilterKeepsAll(users, (u: User) => u.id != id);
    }
  }

  // ---------------------------------------------------------------------------
  // The service object

  class UserService {
    /** The roster, in insertion order. */
    var users: seq<User>
    /** What was last written to local storage under 'saved-users-data'. */
    ghost var persisted: seq<User>

    /** Start from the saved roster when there is one, otherwise from the seed data, and save it. */
    constructor(saved: Option<seq<User>>, seed: seq<User>)
      ensures users == (if saved.Some? then saved.value else seed)
      ensures persisted == users
    {
      users := if saved.Some? then saved.value else seed;
      persisted := users;
    }

    method AddUser(user: User) returns (added: User)
      modifies this
      ensures added == user.(id := NextId(old(users)))
      ensures users == old(users) + [added]
      ensures persisted == users
    {
      added := user.(id := NextId(users));
      users := users + [added];
      persisted := users;
    }

    method UpdateUser(updated: User)
      modifies this
      ensures users == Replaced(old(users), updated)
      ensures persisted == if IndexOfId(old(users), updated.id) == -1 then old(persisted) else users
    {
      var index := IndexOfId(users, updated.id);
      if index != -1 {
        users := users[index := updated];
        persisted := users;
      }
    }

    method ToggleStatus(id: int)
      modifies this
      ensures users == Toggled(old(users), id)
      ensures persisted == if IndexOfId(old(users), id) == -1 then old(persisted) else users
    {
      var index := IndexOfId(users, id);
      if index != -1 {
        var user := users[index];
        users := users[index := user.(isActive := !user.isActive)];
        persisted := users;
      }
    }

    method DeleteUser(id: int)
      modifies this
      ensures users == Removed(old(users), id)
      ensures persisted == users
    {
      users := Filter(users, (u: User) => u.id != id);
      persisted := users;
    }
  }
}
