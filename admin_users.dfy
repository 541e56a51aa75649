/** The admin user list (AdminUsers.jsx): the request parameters built
    from the filters, the pagination arithmetic, and the guard that keeps
    an admin from switching off their own staff or active flag. */
module AdminUsers {
  import opened Wrappers

  const PageSize: nat := 20

  datatype Filters = Filters(search: string, isStaff: string, isActive: string)
  datatype FilterKey = Search | IsStaff | IsActive

  /** The two flags a toggle switches. */
  datatype UserField = StaffField | ActiveField

  /** One update request: the user and the one field with its new value. */
  datatype Update = Update(userId: nat, field: UserField, value: bool)

  datatype ParamValue = Num(n: nat) | Text(s: string)

  /** Math.ceil(count / 20): enough pages for every row, no page left
      empty, and no page at all only when there are no rows. */
  function TotalPages(count: nat): (n: nat)
    ensures n * PageSize >= count
    ensures count > 0 ==> (n - 1) * PageSize < count
    ensures n == 0 <==> count == 0
  {
    var n := (count + PageSize - 1) / PageSize;
    assert count + PageSize - 1 == n * PageSize + (count + PageSize - 1) % PageSize;
    n
  }

  /** The first and last row numbers shown on page `page`. */
  function RangeStart(page: int): int {
    (page - 1) * PageSize + 1
  }

  function RangeEnd(page: int, count: nat): int {
    if page * PageSize < count then page * PageSize else count
  }

  /** The page the previous and next buttons move to. */
  function Prev(page: int): int {
    if 1 > page - 1 then 1 else page - 1
  }

  function Next(page: int, totalPages: nat): int {
    if totalPages < page + 1 then totalPages else page + 1
  }

  /** The guard of handleToggle: switching off a flag of one's own account. */
  predicate Refused(currentUserId: Option<nat>, userId: nat, currentValue: bool) {
    currentUserId == Some(userId) && currentValue
  }

  /** The disabled condition of a toggle button. */
  predicate ToggleDisabled(updatingUserId: Option<nat>, currentUserId: Option<nat>, userId: nat, currentValue: bool) {
    updatingUserId == Some(userId) || (currentUserId == Some(userId) && currentValue)
  }

  /** The filters after handleFilterChange writes one key. */
  function WithFilter(f: Filters, key: FilterKey, value: string): Filters {
    match key
    case Search => f.(search := value)
    case IsStaff => f.(isStaff := value)
    case IsActive => f.(isActive := value)
  }

  /** fetchUsers' params: the page always, and each filter only when it is
      not the empty string. */
  method BuildParams(page: nat, filters: Filters) returns (params: map<string, ParamValue>)
    ensures params.Keys <= {"page", "search", "is_staff", "is_active"}
    ensures "page" in params && params["page"] == Num(page)
    ensures ("search" in params <==> filters.search != "") && ("search" in params ==> params["search"] == Text(filters.search))
    ensures ("is_staff" in params <==> filters.isStaff != "") && ("is_staff" in params ==> params["is_staff"] == Text(filters.isStaff))
    ensures ("is_active" in params <==> filters.isActive != "") && ("is_active" in params ==> params["is_active"] == Text(filters.isActive))
  {
    params := map["page" := Num(page)];
    if filters.search != "" {
      params := params["search" := Text(filters.search)];
    }
    if filters.isStaff != "" {
      params := params["is_staff" := Text(filters.isStaff)];
    }
    if filters.isActive != "" {
      params := params["is_active" := Text(filters.isActive)];
    }
  }

  // ---------------------------------------------------------------------
  // Properties of the arithmetic

  /** On every page from 1 to TotalPages the shown range is nonempty, lies
      within 1..count, holds at most 20 rows, and ends just before the next
      page's range starts. */
  lemma RangeWithinCount(page: int, count: nat)
    requires 1 <= page <= TotalPages(count)
    ensures 1 <= RangeStart(page) <= RangeEnd(page, count) <= count
    ensures RangeEnd(page, count) - RangeStart(page) < PageSize
    ensures page < TotalPages(count) ==> RangeEnd(page, count) + 1 == RangeStart(page + 1)
    ensures page == TotalPages(count) ==> RangeEnd(page, count) == count
  {
    assert (page - 1) * PageSize <= (TotalPages(count) - 1) * PageSize;
    if page < TotalPages(count) {
      assert page * PageSize <= (TotalPages(count) - 1) * PageSize;
    } else {
      assert page * PageSize >= count;
    }
  }

  /** Prev and next keep a page of 1..totalPages inside that range, and
      move by one when they can. */
  lemma StepsStayInRange(page: int, totalPages: nat)
    requires 1 <= page <= totalPages
    ensures 1 <= Prev(page) <= totalPages && 1 <= Next(page, totalPages) <= totalPages
    ensures page > 1 ==> Prev(page) == page - 1
    ensures page == 1 ==> Prev(page) == 1
    ensures page < totalPages ==> Next(page, totalPages) == page + 1
    ensures page == totalPages ==> Next(page, totalPages) == totalPages
  {
  }

  /** A toggle the page lets one press never hits the guard: the button is
      disabled wherever the handler would refuse. */
  lemma EnabledToggleNotRefused(updatingUserId: Option<nat>, currentUserId: Option<nat>, userId: nat, currentValue: bool)
    ensures Refused(currentUserId, userId, currentValue) ==> ToggleDisabled(updatingUserId, currentUserId, userId, currentValue)
    ensures !ToggleDisabled(updatingUserId, currentUserId, userId, currentValue) ==> !Refused(currentUserId, userId, currentValue)
    ensures !currentValue ==> !Refused(currentUserId, userId, currentValue)
  {
  }

  // ---------------------------------------------------------------------
  // The page

  class UsersPage {
    const currentUserId: Option<nat>
    var currentPage: int
    var filters: Filters
    /** pagination: the count of the last response and whether it came
        with a next and a previous page link. */
    var count: nat
    var hasNext: bool
    var hasPrevious: bool
    var updatingUserId: Option<nat>
    /** Every update request sent, in order. */
    var updates: seq<Update>

    /** The page opens on page 1 with every filter empty. */
    constructor (currentUserId: Option<nat>)
      ensures this.currentUserId == currentUserId
      ensures currentPage == 1 && filters == Filters("", "", "")
      ensures count == 0 && !hasNext && !hasPrevious
      ensures updatingUserId == None && updates == []
    {
      this.currentUserId := currentUserId;
      currentPage := 1;
      filters := Filters("", "", "");
      count := 0;
      hasNext := false;
      hasPrevious := false;
      updatingUserId := None;
      updates := [];
    }

    /** handleFilterChange: one filter takes the new value and the page
        goes back to 1. */
    method HandleFilterChange(key: FilterKey, value: string)
      modifies this
      ensures filters == WithFilter(old(filters), key, value)
      ensures currentPage == 1
      ensures count == old(count) && updatingUserId == old(updatingUserId) && updates == old(updates)
      ensures hasNext == old(hasNext) && hasPrevious == old(hasPrevious)
    {
      match key {
        case Search => filters := filters.(search := value);
        case IsStaff => filters := filters.(isStaff := value);
        case IsActive => filters := filters.(isActive := value);
      }
      currentPage := 1;
    }

    /** handleToggle up to the request: a refused toggle sends nothing;
        otherwise the user is marked as updating and one request with the
        negated value of that one field is sent. */
    method HandleToggle(userId: nat, field: UserField, currentValue: bool) returns (sent: bool)
      modifies this
      ensures sent <==> !Refused(currentUserId, userId, currentValue)
      ensures !sent ==> updates == old(updates) && updatingUserId == old(updatingUserId)
      ensures sent ==> updates == old(updates) + [Update(userId, field, !currentValue)] && updatingUserId == Some(userId)
      ensures currentPage == old(currentPage) && filters == old(filters) && count == old(count)
      ensures hasNext == old(hasNext) && hasPrevious == old(hasPrevious)
    {
      if currentUserId == Some(userId) && currentValue == true {
        return false;
      }
      updatingUserId := Some(userId);
      updates := updates + [Update(userId, field, !currentValue)];
      sent := true;
    }

    /** The finally block: the request has settled, nobody is updating. */
    method ToggleSettled()
      modifies this
      ensures updatingUserId == None
      ensures currentPage == old(currentPage) && filters == old(filters) && count == old(count)
      ensures hasNext == old(hasNext) && hasPrevious == old(hasPrevious)
      ensures updates == old(updates)
    {
      updatingUserId := None;
    }

    /** fetchUsers' setPagination: the response's count and its next and
        previous links replace the old ones; nothing else changes. */
    method Loaded(count: nat, next: bool, previous: bool)
      modifies this
      ensures this.count == count && hasNext == next && hasPrevious == previous
      ensures currentPage == old(currentPage) && filters == old(filters)
      ensures updatingUserId == old(updatingUserId) && updates == old(updates)
    {
      this.count := count;
      hasNext := next;
      hasPrevious := previous;
    }

    /** The previous-page button: shown only when there is more than one
        page, and enabled only when the response had a previous link. */
    method GoPrev()
      requires TotalPages(count) > 1 && hasPrevious
      modifies this
      ensures currentPage == Prev(old(currentPage))
      ensures filters == old(filters) && count == old(count)
      ensures hasNext == old(hasNext) && hasPrevious == old(hasPrevious)
      ensures updatingUserId == old(updatingUserId) && updates == old(updates)
    {
      currentPage := if 1 > currentPage - 1 then 1 else currentPage - 1;
    }

    /** The next-page button: shown only when there is more than one page,
        and enabled only when the response had a next link. */
    method GoNext()
      requires TotalPages(count) > 1 && hasNext
      modifies this
      ensures currentPage == Next(old(currentPage), TotalPages(count))
      ensures filters == old(filters) && count == old(count)
      ensures hasNext == old(hasNext) && hasPrevious == old(hasPrevious)
      ensures updatingUserId == old(updatingUserId) && updates == old(updates)
    {
      var totalPages := (count + PageSize - 1) / PageSize;
      currentPage := if totalPages < currentPage + 1 then totalPages else currentPage + 1;
    }
  }
}
