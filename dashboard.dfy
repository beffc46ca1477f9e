/** The dashboard page's state and its event handlers. The component keeps
    three state cells that its handlers overwrite (the fetched `userList`,
    the current `page`, the search box's `filter`); the filtered list, the
    rows on show and the page count are derived from them on every render. */
module Dashboard {
  import opened JsString
  import opened UserFilter
  import opened Pagination

  class DashboardPage {
    var userList: seq<User>
    var page: int
    var filter: string

    /** No handler ever lowers the page counter below 1. It may well stand
        past the page count: see `StrandedPage`. */
    ghost predicate Valid()
      reads this
    {
      page >= 1
    }

    /** The initial state: no users yet, page 1, an empty search box. */
    constructor ()
      ensures Valid()
      ensures userList == [] && page == 1 && filter == ""
    {
      userList := [];
      page := 1;
      filter := "";
    }

    /** `filteredUserList`: the users of `userList` that the search text
        lets through. */
    function FilteredUserList(): (r: seq<User>)
      reads this
      ensures |r| <= |userList|
      ensures forall u :: u in r <==> u in userList && (filter == "" || Matches(u, Trim(filter)))
    {
      FilteredUsers(userList, filter)
    }

    /** `paginatedList`: the rows on show, at most five consecutive entries
        of the filtered list starting at entry `(page - 1) * 5`. */
    function PaginatedList(): (r: seq<User>)
      reads this
      ensures |r| <= PageSize
      ensures page >= 1 ==> r == FilteredUserList()[
        Min((page - 1) * PageSize, |FilteredUserList()|)..Min(page * PageSize, |FilteredUserList()|)]
    {
      PageOf(FilteredUserList(), page)
    }

    /** `totalPages`: the fewest pages of five that hold the filtered list. */
    function TotalPages(): (r: nat)
      reads this
      ensures r * PageSize >= |FilteredUserList()|
      ensures r > 0 ==> (r - 1) * PageSize < |FilteredUserList()|
      ensures r == 0 <==> FilteredUserList() == []
    {
      PageCount(|FilteredUserList()|)
    }

    /** The Prev button's `disabled` condition: in any state the handlers
        reach, Prev is disabled exactly on page 1. */
    predicate PrevDisabled()
      reads this
      ensures Valid() ==> (PrevDisabled() <==> page == 1)
    {
      page <= 1
    }

    /** The Next button's `disabled` condition: in any state the handlers
        reach, Next is disabled exactly when the page after the current one
        would show no row. */
    predicate NextDisabled()
      reads this
      ensures Valid() ==> (NextDisabled() <==> PageOf(FilteredUserList(), page + 1) == [])
    {
      page >= TotalPages()
    }

    /** The fetch's completion: `setUserList(result.data)`. The page counter
        and the search text stay as they are. */
    method SetUserList(result: seq<User>)
      requires Valid()
      modifies this
      ensures Valid()
      ensures userList == result && page == old(page) && filter == old(filter)
    {
      userList := result;
    }

    /** Typing in the search box: `setFilter(e.target.value)`. The page counter
        is not reset, so it can end up past the new page count. */
    method SetFilter(value: string)
      requires Valid()
      modifies this
      ensures Valid()
      ensures filter == value && page == old(page) && userList == old(userList)
    {
      filter := value;
    }

    /** A click on Prev, which only an enabled button delivers:
        `setPage(page - 1)`. The counter drops by one and stays at least 1;
        leaving a page that was on show always lands on a full page. */
    method ClickPrev()
      requires Valid() && !PrevDisabled()
      modifies this
      ensures Valid()
      ensures page == old(page) - 1 && userList == old(userList) && filter == old(filter)
      ensures old(page) <= TotalPages() ==> |PaginatedList()| == PageSize
    {
      page := page - 1;
      if page + 1 <= TotalPages() {
        PagesBeforeLastAreFull(FilteredUserList(), page);
      }
    }

    /** A click on Next, which only an enabled button delivers:
        `setPage(page + 1)`. The counter rises by one and does not pass the
        page count, so the new page shows at least one row. */
    method ClickNext()
      requires Valid() && !NextDisabled()
      modifies this
      ensures Valid()
      ensures page == old(page) + 1 && userList == old(userList) && filter == old(filter)
      ensures page <= TotalPages() && PaginatedList() != []
    {
      page := page + 1;
      PagesInRangeAreNonEmpty(FilteredUserList(), page);
    }
  }

  /** The page counter can be left past the page count: with six users loaded,
      a click on Next shows page 2 of 2; a search text that matches nobody then
      leaves page 2 of 0 with no rows. */
  method StrandedPage() returns (page: int, totalPages: nat, rows: seq<User>)
    ensures page == 2 && totalPages == 0 && rows == []
  {
    var u := User(0, "ann");
    var users := [u, u, u, u, u, u];
    var needle := "Z";
    assert Trim(needle) == needle by {
      assert !IsWhitespace(needle[0]);
    }
    UppercaseFilterMatchesNone(users, needle, 0);
    assert PageCount(|users|) == 2;

    var d := new DashboardPage();
    d.SetUserList(users);
    assert d.TotalPages() == 2;
    d.ClickNext();
    d.SetFilter(needle);
    assert d.FilteredUserList() == [];
    page, totalPages, rows := d.page, d.TotalPages(), d.PaginatedList();
  }
}
