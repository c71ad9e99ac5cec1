/**
 * UserListComponent: the roster page. Its view state (page, page size, search
 * term, status and role filters) lives in the address bar's query parameters; the
 * component decodes them, asks the service for the page to show, writes the state
 * back after a filter, search or pagination change, and after a toggle or a delete
 * pulls the page back in range (writing the address bar only when it had to move).
 */
module UserList {
  import opened Optional
  import opened JsNumber
  import opened Seqs
  import opened UserModel
  import opened Roster
  import opened Pagination

  /** StatusTypeEnum's all and active members, taken as a numeric enumeration in declaration order. */
  const STATUS_ALL := 0
  const STATUS_ACTIVE := 1

  /** The query parameters of the address bar. */
  type Params = map<string, string>

  /** The query parameters the component owns. */
  const UrlKeys: set<string> := {"page", "itemsPerPage", "search", "status", "role"}

  /** A `queryParams` argument of `navigate`: `None` is `null` and removes the key. */
  type ParamUpdate = map<string, Option<string>>

  /** The component fields that the address bar carries. */
  datatype ViewState = ViewState(
    currentPage: int,
    itemsPerPage: int,
    searchTerm: string,
    statusFilter: int,
    roleFilter: RoleFilter)

  /** One extra column of a record, as grouped for display. */
  datatype ExtraColumn = ExtraColumn(column: string, value: string)

  /** `+params[key]`, where a missing key reads as `undefined` and so as NaN. */
  function ParamNumber(params: Params, key: string): Number {
    if key in params then ToNumber(params[key]) else NaN
  }

  /**
   * The query-parameter subscriber's reading of the address bar: page and page size
   * fall back to 1 and 5 when missing, zero or not numeric; a missing search is "";
   * a missing, empty or non-numeric status means "active"; a missing, empty or "all"
   * role means every role, any other role text is read as a number (possibly NaN).
   */
  function Decode(params: Params): (st: ViewState)
    ensures st.currentPage != 0 && st.itemsPerPage != 0
    ensures !Truthy(ParamNumber(params, "page")) ==> st.currentPage == 1
    ensures Truthy(ParamNumber(params, "page")) ==> Finite(st.currentPage) == ParamNumber(params, "page")
    ensures !Truthy(ParamNumber(params, "itemsPerPage")) ==> st.itemsPerPage == 5
    ensures Truthy(ParamNumber(params, "itemsPerPage")) ==> Finite(st.itemsPerPage) == ParamNumber(params, "itemsPerPage")
    ensures "search" !in params ==> st.searchTerm == ""
    ensures "search" in params ==> st.searchTerm == params["search"]
    ensures ("status" in params && params["status"] != "" && ToNumber(params["status"]).Finite?)
              ==> st.statusFilter == ToNumber(params["status"]).value
    ensures ("status" !in params || params["status"] == "" || ToNumber(params["status"]) == NaN)
              ==> st.statusFilter == STATUS_ACTIVE
    ensures st.roleFilter == AllRoles <==> ("role" !in params || params["role"] == "" || params["role"] == "all")
    ensures st.roleFilter.OnlyRole? ==> st.roleFilter.code == ToNumber(params["role"])
  {
    ViewState(
      OrElse(ParamNumber(params, "page"), 1),
      OrElse(ParamNumber(params, "itemsPerPage"), 5),
      if "search" in params then params["search"] else "",
      if "status" in params && params["status"] != "" && ToNumber(params["status"]).Finite?
      then ToNumber(params["status"]).value
      else STATUS_ACTIVE,
      if "role" in params && params["role"] != "" && params["role"] != "all"
      then OnlyRole(ToNumber(params["role"]))
      else AllRoles)
  }

  /**
   * updateUrl's `queryParams`: page, page size and status always, the search term
   * unless it is empty, the role unless it is "all".
   */
  function Encode(st: ViewState): (u: ParamUpdate)
    ensures u.Keys == UrlKeys
    ensures u["page"].Some? && u["itemsPerPage"].Some? && u["status"].Some?
    ensures u["search"] == None <==> st.searchTerm == ""
    ensures u["role"] == None <==> st.roleFilter == AllRoles
  {
    map[
      "page" := Some(NumberToString(Finite(st.currentPage))),
      "itemsPerPage" := Some(NumberToString(Finite(st.itemsPerPage))),
      "search" := if st.searchTerm == "" then None else Some(st.searchTerm),
      "status" := Some(NumberToString(Finite(st.statusFilter))),
      "role" := if st.roleFilter == AllRoles then None else Some(NumberToString(st.roleFilter.code))]
  }

  /** The router's `queryParamsHandling: 'merge'`: null removes a key, any other value replaces it. */
  function Merge(current: Params, update: ParamUpdate): (r: Params)
    ensures forall k :: k in r <==> (k in update && update[k].Some?) || (k !in update && k in current)
    ensures forall k :: k in update && update[k].Some? ==> r[k] == update[k].value
    ensures forall k :: k !in update && k in current ==> r[k] == current[k]
  {
    map k | k in current.Keys + update.Keys && (k in update ==> update[k].Some?) ::
      if k in update then update[k].value else current[k]
  }

  /**
   * Writing the state to the address bar and reading it back gives the same state,
   * whatever else the address bar held, as long as page and page size are not 0
   * (0 would be read back as the default).
   */
  lemma DecodeEncodeRoundTrip(current: Params, st: ViewState)
    requires st.currentPage != 0 && st.itemsPerPage != 0
    ensures Decode(Merge(current, Encode(st))) == st
  {
    var update := Encode(st);
    var params := Merge(current, update);
    MergedNumber(current, update, "page", Finite(st.currentPage));
    MergedNumber(current, update, "itemsPerPage", Finite(st.itemsPerPage));
    MergedNumber(current, update, "status", Finite(st.statusFilter));
    if st.searchTerm == "" {
      assert "search" !in params;
    } else {
      assert params["search"] == st.searchTerm;
    }
    if st.roleFilter.OnlyRole? {
      MergedNumber(current, update, "role", st.roleFilter.code);
    } else {
      assert "role" !in params;
    }
  }

  /** A number written by updateUrl is read back as the same number, from a text that is neither "" nor "all". */
  lemma MergedNumber(current: Params, update: ParamUpdate, key: string, x: Number)
    requires key in update && update[key] == Some(NumberToString(x))
    ensures key in Merge(current, update)
    ensures Merge(current, update)[key] == NumberToString(x)
    ensures ToNumber(Merge(current, update)[key]) == x
    ensures Merge(current, update)[key] != "" && Merge(current, update)[key] != "all"
  {
    var text := NumberToString(x);
    ToNumberOfString(x);
    if x.Finite? {
      assert text[0] == '-' || IsDigit(text[0]);
    }
  }

  /** A state read from the address bar is a fixed point: writing it back changes nothing that is read. */
  lemma DecodeIsStable(params: Params)
    ensures Decode(Merge(params, Encode(Decode(params)))) == Decode(params)
  {
    DecodeEncodeRoundTrip(params, Decode(params));
  }

  /** updateUrl leaves query parameters other than its five untouched. */
  lemma MergeKeepsOtherParams(current: Params, st: ViewState, k: string)
    requires k !in UrlKeys
    ensures k in Merge(current, Encode(st)) <==> k in current
    ensures k in current ==> Merge(current, Encode(st))[k] == current[k]
  {
  }

  /** The clamp's test: a non-zero page size and a page beyond `Math.ceil(total / size)`. */
  predicate PageOverflows(page: int, total: nat, itemsPerPage: int) {
    itemsPerPage != 0 && page > CeilDiv(total, itemsPerPage)
  }

  /**
   * The page after a record left the filter: the last page when the current one ran
   * past it (page 1 when nothing is left), the current page otherwise. A zero page size
   * makes the quotient Infinity or NaN, and the comparison then fails.
   */
  function ClampedPage(page: int, total: nat, itemsPerPage: int): (r: int)
    ensures page >= 1 && itemsPerPage >= 1 ==> 1 <= r <= Max(1, CeilDiv(total, itemsPerPage))
    ensures r != page ==> PageOverflows(page, total, itemsPerPage)
    ensures PageOverflows(page, total, itemsPerPage) ==> r == Max(1, CeilDiv(total, itemsPerPage))
  {
    if PageOverflows(page, total, itemsPerPage) then
      var totalPages := CeilDiv(total, itemsPerPage);
      if totalPages > 0 then totalPages else 1
    else
      page
  }

  /** Clamping a clamped page changes nothing. */
  lemma ClampIsIdempotent(page: int, total: nat, itemsPerPage: int)
    ensures ClampedPage(ClampedPage(page, total, itemsPerPage), total, itemsPerPage) == ClampedPage(page, total, itemsPerPage)
  {
  }

  /** After the clamp, the page shown holds at least one record whenever any record matches. */
  lemma ClampedPageIsFilled(xs: seq<User>, page: int, itemsPerPage: int)
    requires page >= 1 && itemsPerPage >= 1 && xs != []
    ensures PageOf(xs, ClampedPage(page, |xs|, itemsPerPage), itemsPerPage) != []
  {
    var c := CeilDiv(|xs|, itemsPerPage);
    var r := ClampedPage(page, |xs|, itemsPerPage);
    assert 1 <= r <= c;
    var gap, before := (c - r) * itemsPerPage, (r - 1) * itemsPerPage;
    MulSign(c - r, itemsPerPage);
    MulSign(r - 1, itemsPerPage);
    assert (c - 1) * itemsPerPage == gap + before;
    var start := PageStart(r, itemsPerPage);
    assert start == before && 0 <= start < |xs|;
    assert PageOf(xs, r, itemsPerPage) == xs[start..Min(start + itemsPerPage, |xs|)];
  }

  /**
   * When the current page overflowed, the clamp lands on the last page that holds
   * records: that page is filled and the one after it is empty.
   */
  lemma ClampLandsOnLastPage(xs: seq<User>, page: int, itemsPerPage: int)
    requires itemsPerPage >= 1 && xs != [] && PageOverflows(page, |xs|, itemsPerPage)
    ensures PageOf(xs, ClampedPage(page, |xs|, itemsPerPage), itemsPerPage) != []
    ensures PageOf(xs, ClampedPage(page, |xs|, itemsPerPage) + 1, itemsPerPage) == []
  {
    var c := CeilDiv(|xs|, itemsPerPage);
    assert ClampedPage(page, |xs|, itemsPerPage) == c;
    ClampedPageIsFilled(xs, page, itemsPerPage);
    assert PageStart(c + 1, itemsPerPage) == c * itemsPerPage >= |xs|;
  }

  /**
   * The value of chunkChildren's index after `k` rounds of its loop, which adds
   * `size` each round whatever its sign.
   */
  function ChunkIndexAfter(size: int, k: nat): (i: int)
    ensures size <= 0 ==> i <= 0
    ensures size > 0 ==> i >= k
  {
    if k == 0 then 0 else ChunkIndexAfter(size, k - 1) + size
  }

  /**
   * As written, chunkChildren loops while the index is below the number of columns,
   * so with a page size of 0 or less and at least one column the test never fails.
   */
  lemma {:induction false} ChunkLoopNeverExits(children: seq<ExtraColumn>, size: int, k: nat)
    requires size <= 0 && children != []
    ensures ChunkIndexAfter(size, k) < |children|
  {
    if k > 0 {
      ChunkLoopNeverExits(children, size, k - 1);
    }
  }

  class UserListComponent {
    const userService: UserService
    /** How a status code reaches the service's 'all' | 'active' | 'inactive' test. */
    const statusView: int -> StatusFilter
    var currentPage: int
    var itemsPerPage: int
    var statusFilter: int
    var roleFilter: RoleFilter
    var searchTerm: string
    var displayedUsers: seq<User>
    var totalUsers: nat
    /** The address bar's query parameters. */
    var url: Params

    /** The field initialisers, before any query parameters arrive. */
    constructor(userService: UserService, statusView: int -> StatusFilter, url: Params)
      ensures this.userService == userService && this.statusView == statusView && this.url == url
      ensures State() == ViewState(1, 5, "", STATUS_ALL, AllRoles)
      ensures displayedUsers == [] && totalUsers == 0
    {
      this.userService := userService;
      this.statusView := statusView;
      this.url := url;
      currentPage, itemsPerPage := 1, 5;
      statusFilter, roleFilter, searchTerm := STATUS_ALL, AllRoles, "";
      displayedUsers, totalUsers := [], 0;
    }

    function State(): ViewState
      reads this`currentPage, this`itemsPerPage, this`searchTerm, this`statusFilter, this`roleFilter
    {
      ViewState(currentPage, itemsPerPage, searchTerm, statusFilter, roleFilter)
    }

    /** What getPaginatedUsers answers for the current state. */
    function Query(): PageResult
      reads this`currentPage, this`itemsPerPage, this`searchTerm, this`statusFilter, this`roleFilter
      reads userService`users
    {
      GetPaginatedUsers(userService.users, currentPage, itemsPerPage, statusView(statusFilter), searchTerm, roleFilter)
    }

    /** The table shows the service's answer for the current state. */
    predicate Shown()
      reads this`displayedUsers, this`totalUsers
      reads this`currentPage, this`itemsPerPage, this`searchTerm, this`statusFilter, this`roleFilter
      reads userService`users
    {
      displayedUsers == Query().users && totalUsers == Query().totalUsers
    }

    /** refreshDisplayedUsers: fetch the page for the current state. */
    method RefreshDisplayedUsers()
      modifies this`displayedUsers, this`totalUsers
      ensures Shown()
      ensures State() == old(State())
    {
      var result := GetPaginatedUsers(userService.users, currentPage, itemsPerPage,
                                      statusView(statusFilter), searchTerm, roleFilter);
      displayedUsers := result.users;
      totalUsers := result.totalUsers;
    }

    /** updateUrl: merge the state into the address bar, which then reads back as that state. */
    method UpdateUrl()
      modifies this`url
      ensures url == Merge(old(url), Encode(State()))
      ensures currentPage != 0 && itemsPerPage != 0 ==> Decode(url) == State()
    {
      var before, st := url, State();
      if st.currentPage != 0 && st.itemsPerPage != 0 {
        DecodeEncodeRoundTrip(before, st);
      }
      url := Merge(before, Encode(st));
    }

    /** The query-parameter subscriber: decode the address bar into the fields, then refresh. */
    method OnQueryParams(params: Params)
      modifies this`currentPage, this`itemsPerPage, this`searchTerm, this`statusFilter, this`roleFilter
      modifies this`displayedUsers, this`totalUsers
      ensures State() == Decode(params)
      ensures Shown()
    {
      currentPage := OrElse(ParamNumber(params, "page"), 1);
      itemsPerPage := OrElse(ParamNumber(params, "itemsPerPage"), 5);
      searchTerm := if "search" in params then params["search"] else "";
      var statusParam := if "status" in params then params["status"] else "";
      if statusParam != "" && ToNumber(statusParam).Finite? {
        statusFilter := ToNumber(statusParam).value;
      } else {
        statusFilter := STATUS_ACTIVE;
      }
      if "role" in params && params["role"] != "" && params["role"] != "all" {
        roleFilter := OnlyRole(ToNumber(params["role"]));
      } else {
        roleFilter := AllRoles;
      }
      assert State() == Decode(params);
      RefreshDisplayedUsers();
    }

    /** reload: optionally back to page 1, refresh, write the address bar. */
    method Reload(resetPage: bool)
      modifies this`currentPage, this`displayedUsers, this`totalUsers, this`url
      ensures currentPage == if resetPage then 1 else old(currentPage)
      ensures Shown()
      ensures url == Merge(old(url), Encode(State()))
      ensures currentPage != 0 && itemsPerPage != 0 ==> Decode(url) == State()
    {
      if resetPage {
        currentPage := 1;
      }
      RefreshDisplayedUsers();
      UpdateUrl();
    }

    /** onRoleChange: the new role filter (already bound) applies from page 1. */
    method OnRoleChange()
      modifies this`currentPage, this`displayedUsers, this`totalUsers, this`url
      ensures currentPage == 1 && Shown()
      ensures url == Merge(old(url), Encode(State()))
      ensures itemsPerPage != 0 ==> Decode(url) == State()
    {
      Reload(true);
    }

    /** onStatusChange: the new status filter (already bound) applies from page 1. */
    method OnStatusChange()
      modifies this`currentPage, this`displayedUsers, this`totalUsers, this`url
      ensures currentPage == 1 && Shown()
      ensures url == Merge(old(url), Encode(State()))
      ensures itemsPerPage != 0 ==> Decode(url) == State()
    {
      Reload(true);
    }

    /** The debounced search subscriber: the settled text becomes the term, from page 1. */
    method OnSearchSettled(text: string)
      modifies this`searchTerm, this`currentPage, this`displayedUsers, this`totalUsers, this`url
      ensures searchTerm == text && currentPage == 1 && Shown()
      ensures url == Merge(old(url), Encode(State()))
      ensures itemsPerPage != 0 ==> Decode(url) == State()
    {
      searchTerm := text;
      Reload(true);
    }

    /** onPaginationChange: adopt the page bar's page and size, refresh, write the address bar. */
    method OnPaginationChange(event: PaginationEvent)
      modifies this`currentPage, this`itemsPerPage, this`displayedUsers, this`totalUsers, this`url
      ensures currentPage == event.currentPage && itemsPerPage == event.itemsPerPage
      ensures Shown()
      ensures url == Merge(old(url), Encode(State()))
      ensures currentPage != 0 && itemsPerPage != 0 ==> Decode(url) == State()
    {
      itemsPerPage := event.itemsPerPage;
      currentPage := event.currentPage;
      RefreshDisplayedUsers();
      UpdateUrl();
    }

    /** The clamp shared by onToggleStatus and onDeleteUser, run on a fresh count. */
    method ClampPage()
      requires Shown()
      modifies this`currentPage, this`displayedUsers, this`totalUsers, this`url
      ensures totalUsers == old(totalUsers)
      ensures currentPage == ClampedPage(old(currentPage), totalUsers, itemsPerPage)
      ensures url == if PageOverflows(old(currentPage), totalUsers, itemsPerPage)
                     then Merge(old(url), Encode(State())) else old(url)
      ensures Shown()
    {
      if PageOverflows(currentPage, totalUsers, itemsPerPage) {
        currentPage := ClampedPage(currentPage, totalUsers, itemsPerPage);
        TotalCountsMatches(userService.users, old(currentPage), itemsPerPage,
                           statusView(statusFilter), searchTerm, roleFilter);
        TotalCountsMatches(userService.users, currentPage, itemsPerPage,
                           statusView(statusFilter), searchTerm, roleFilter);
        RefreshDisplayedUsers();
        UpdateUrl();
      }
    }

    /**
     * onToggleStatus: flip the record in the service, refresh, and pull the page back
     * in range; a page that started in range stays in range and is not empty while
     * any record matches.
     */
    method OnToggleStatus(id: int)
      modifies userService, this`currentPage, this`displayedUsers, this`totalUsers, this`url
      ensures userService.users == Toggled(old(userService.users), id)
      ensures currentPage == ClampedPage(old(currentPage), totalUsers, itemsPerPage)
      ensures Shown()
      ensures url == if PageOverflows(old(currentPage), totalUsers, itemsPerPage)
                     then Merge(old(url), Encode(State())) else old(url)
      ensures userService.persisted == if IndexOfId(old(userService.users), id) == -1
                                       then old(userService.persisted) else userService.users
      ensures old(currentPage) >= 1 && itemsPerPage >= 1 ==>
                1 <= currentPage <= Max(1, CeilDiv(totalUsers, itemsPerPage)) &&
                (totalUsers > 0 ==> displayedUsers != [])
    {
      userService.ToggleStatus(id);
      RefreshDisplayedUsers();
      ClampPage();
      PageStaysFilled(old(currentPage));
    }

    /** onDeleteUser: unless the user declines the confirmation, delete, refresh and clamp. */
    method OnDeleteUser(id: int, confirmed: bool)
      modifies userService, this`currentPage, this`displayedUsers, this`totalUsers, this`url
      ensures !confirmed ==> userService.users == old(userService.users) && currentPage == old(currentPage)
      ensures !confirmed ==> displayedUsers == old(displayedUsers) && url == old(url)
      ensures !confirmed ==> totalUsers == old(totalUsers) && userService.persisted == old(userService.persisted)
      ensures confirmed ==> userService.persisted == userService.users
      ensures confirmed ==> userService.users == Removed(old(userService.users), id)
      ensures confirmed ==> currentPage == ClampedPage(old(currentPage), totalUsers, itemsPerPage) && Shown()
      ensures confirmed ==> url == if PageOverflows(old(currentPage), totalUsers, itemsPerPage)
                                   then Merge(old(url), Encode(State())) else old(url)
      ensures confirmed && old(currentPage) >= 1 && itemsPerPage >= 1 ==>
                1 <= currentPage <= Max(1, CeilDiv(totalUsers, itemsPerPage)) &&
                (totalUsers > 0 ==> displayedUsers != [])
    {
      if confirmed {
        userService.DeleteUser(id);
        RefreshDisplayedUsers();
        ClampPage();
        PageStaysFilled(old(currentPage));
      }
    }

    /** The clamp's guarantee seen on the table: a clamped page is filled when anything matches. */
    lemma PageStaysFilled(before: int)
      requires Shown()
      requires currentPage == ClampedPage(before, totalUsers, itemsPerPage)
      ensures before >= 1 && itemsPerPage >= 1 && totalUsers > 0 ==> displayedUsers != []
    {
      var xs := FilteredUsers(userService.users, statusView(statusFilter), searchTerm, roleFilter);
      if before >= 1 && itemsPerPage >= 1 && totalUsers > 0 {
        assert |xs| == totalUsers;
        ClampedPageIsFilled(xs, before, itemsPerPage);
      }
    }

    /**
     * chunkChildren: cut the extra columns into rows of `size`. The rows, joined, give
     * the columns back; every row but the last is full and none is empty.
     */
    method ChunkChildren(children: seq<ExtraColumn>, size: int) returns (chunks: seq<seq<ExtraColumn>>)
      requires size > 0
      ensures |chunks| == CeilDiv(|children|, size)
      ensures Flatten(chunks) == children
      ensures forall k :: 0 <= k < |chunks| - 1 ==> |chunks[k]| == size
      ensures forall k :: 0 <= k < |chunks| ==> 0 < |chunks[k]| <= size
    {
      chunks := [];
      var i := 0;
      while i < |children|
        invariant 0 <= i && i == |chunks| * size
        invariant chunks != [] ==> i - size < |children|
        invariant Flatten(chunks) == children[..Min(i, |children|)]
        invariant forall k :: 0 <= k < |chunks| ==> 0 < |chunks[k]| <= size
        invariant forall k :: 0 <= k < |chunks| && (k < |chunks| - 1 || i <= |children|) ==> |chunks[k]| == size
      {
        var chunk := Slice(children, i, i + size);
        var end := Min(i + size, |children|);
        assert chunk == children[i..end];
        PrefixThenSlice(children, i, end);
        FlattenAppend(chunks, chunk);
        assert (|chunks| + 1) * size == |chunks| * size + size;
        chunks := chunks + [chunk];
        i := i + size;
      }
      if chunks != [] {
        assert (|chunks| - 1) * size == |chunks| * size - size;
        CeilDivUnique(|children|, size, |chunks|);
      }
    }
  }
}
