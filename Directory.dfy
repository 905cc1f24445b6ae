/** The page's module-level state (`allUsers`, `currentPage`, the search
    box's value), what the user container shows, and the pagination
    controls with the view their Prev and Next handlers were built over. */
module Directory {
  import opened Search
  import opened Paging

  datatype Option<T> = None | Some(value: T)

  /** What the user container shows: nothing yet, the "User not found"
      message, or one card per record. */
  datatype Screen = Blank | NotFound | Cards(shown: seq<User>)

  /** The pagination controls element. `view` is the list the Prev and Next
      handlers close over; `page` and `totalPages` are the "Page X of Y"
      label; the flags are the buttons' `disabled` properties. */
  datatype Controls = Controls(view: seq<User>, page: nat, totalPages: nat, prevDisabled: bool, nextDisabled: bool)

  /** The controls `createPaginationControls` builds over `view` while the
      current page is `page`. Prev is disabled exactly on page 1, Next
      exactly when the page equals the page count, so never over an empty
      view, whose page count is 0. */
  function BuildControls(view: seq<User>, page: nat): (c: Controls)
    requires page >= 1
    ensures c.view == view && c.page == page
    ensures c.totalPages == 0 <==> view == []
    ensures view != [] ==> (c.totalPages - 1) * PageSize < |view| <= c.totalPages * PageSize
    ensures c.prevDisabled <==> page == 1
    ensures c.nextDisabled <==> page == c.totalPages
    ensures view == [] ==> !c.nextDisabled
  {
    var total := TotalPages(|view|);
    Controls(view, page, total, page == 1, page == total)
  }

  /** What `displayUsers(users)` puts in the container on `page`. */
  function Render(users: seq<User>, page: nat): (s: Screen)
    requires page >= 1
    ensures users == [] <==> s == NotFound
    ensures users != [] ==> s.Cards? && |s.shown| <= PageSize && s.shown == PageSlice(users, page)
  {
    if users == [] then NotFound else Cards(PageSlice(users, page))
  }

  ghost predicate WellFormed(c: Controls)
  {
    c.page >= 1 && c == BuildControls(c.view, c.page)
  }

  class Controller {
    var allUsers: seq<User>
    var currentPage: nat
    var searchValue: string
    var screen: Screen
    var controls: Option<Controls>
    /** The list last passed to `displayUsers`. */
    ghost var shown: seq<User>
    /** Whether `fetchUsers` has completed. */
    ghost var loaded: bool

    /** The container shows the current page of the list last displayed,
        and that page is never past the list's page count. */
    ghost predicate ScreenAgrees()
      reads this
    {
      currentPage >= 1 &&
      (screen == Blank || screen == Render(shown, currentPage)) &&
      (shown != [] ==> currentPage <= TotalPages(|shown|))
    }

    /** Before the fetch there are no users and the page is 1. */
    ghost predicate LoadAgrees()
      reads this
    {
      !loaded ==> allUsers == [] && currentPage == 1
    }

    /** Controls `c` hold only records of the collection, and their label
        is never behind the current page. It is ahead only over an empty
        view, whose early return in `displayUsers` leaves a stale label in
        place. Past page 1, a non-empty view is the raw-box view, and the
        label's page is at most one past that view's page count. */
    ghost predicate ControlsAgree(c: Controls)
      reads this
    {
      && WellFormed(c)
      && (forall u :: u in c.view ==> u in allUsers)
      && currentPage <= c.page
      && (c.view != [] ==> currentPage == c.page)
      && (c.view != [] && c.page > 1 ==>
            c.view == ControlsView(allUsers, searchValue) && c.page <= TotalPages(|c.view|) + 1)
    }

    ghost predicate Valid()
      reads this
    {
      ScreenAgrees() && LoadAgrees() && (controls.Some? ==> ControlsAgree(controls.value))
    }

    /** Whatever `Valid` promises, the container never shows an empty page
        of cards. */
    lemma NoEmptyPage()
      requires Valid()
      ensures screen != Cards([])
      ensures shown != [] ==> (currentPage - 1) * PageSize < |shown|
    {
      if shown != [] {
        assert TotalPages(|shown|) * PageSize < |shown| + PageSize;
      }
    }

    /** The page before the fetch: no users, page 1, an empty box. */
    constructor ()
      ensures Valid() && !loaded
      ensures allUsers == [] && currentPage == 1 && searchValue == ""
      ensures screen == Blank && controls == None
    {
      allUsers := [];
      currentPage := 1;
      searchValue := "";
      screen := Blank;
      controls := None;
      shown := [];
      loaded := false;
    }

    /** `createPaginationControls(view)`: replaces the controls with fresh
        ones over `view` on the current page. */
    method CreatePaginationControls(view: seq<User>)
      requires currentPage >= 1
      modifies this`controls
      ensures controls == Some(BuildControls(view, currentPage))
      ensures ScreenAgrees() && LoadAgrees() && ControlsAgree(BuildControls(view, currentPage)) ==> Valid()
    {
      controls := Some(BuildControls(view, currentPage));
    }

    /** `updatePaginationControls`: rebuilds the controls over the view the
        raw box value selects. */
    method UpdatePaginationControls()
      requires currentPage >= 1
      modifies this`controls
      ensures controls == Some(BuildControls(ControlsView(allUsers, searchValue), currentPage))
      ensures ScreenAgrees() && LoadAgrees() ==>
        (Valid() <==> currentPage == 1 || ControlsView(allUsers, searchValue) == [] ||
                      currentPage <= TotalPages(|ControlsView(allUsers, searchValue)|) + 1)
    {
      CreatePaginationControls(ControlsView(allUsers, searchValue));
    }

    /** `displayUsers(users)`: an empty list puts up "User not found" and
        leaves the controls as they were; otherwise the current page's
        slice is rendered and the controls are rebuilt. */
    method DisplayUsers(users: seq<User>)
      requires currentPage >= 1
      modifies this
      ensures allUsers == old(allUsers) && currentPage == old(currentPage) && searchValue == old(searchValue)
      ensures loaded == old(loaded) && shown == users
      ensures screen == Render(users, currentPage)
      ensures users == [] ==> controls == old(controls)
      ensures users != [] ==> controls == Some(BuildControls(ControlsView(allUsers, searchValue), currentPage))
      ensures users == [] && old(LoadAgrees()) && (old(controls).Some? ==> old(ControlsAgree(controls.value))) ==> Valid()
      ensures var rebuilt := ControlsView(allUsers, searchValue);
        (users != [] && old(LoadAgrees()) && currentPage <= TotalPages(|users|) &&
         (currentPage > 1 && rebuilt != [] ==> currentPage <= TotalPages(|rebuilt|) + 1)) ==> Valid()
    {
      shown := users;
      if |users| == 0 {
        screen := NotFound;
        return;
      }
      screen := Cards(PageSlice(users, currentPage));
      UpdatePaginationControls();
    }

    /** A successful `fetchUsers`, which the page runs once: stores the
        records, displays them and builds the controls over the whole
        collection. */
    method Load(users: seq<User>)
      requires Valid() && !loaded
      modifies this
      ensures Valid() && loaded
      ensures allUsers == users && currentPage == 1 && searchValue == old(searchValue)
      ensures screen == Render(users, 1)
      ensures controls == Some(BuildControls(users, 1))
    {
      allUsers := users;
      loaded := true;
      DisplayUsers(allUsers);
      CreatePaginationControls(allUsers);
    }

    /** The box's value becomes `raw` and `handleSearch` runs: back to page
        1, the view for the normalised term is displayed, and the controls
        end up over that view when the term is not blank. */
    method Search(raw: string)
      requires Valid()
      modifies this
      ensures Valid() && loaded == old(loaded)
      ensures currentPage == 1
      ensures allUsers == old(allUsers) && searchValue == raw
      ensures screen == Render(DisplayedView(allUsers, raw), 1)
      ensures SearchTerm(raw) != "" ==> controls == Some(BuildControls(DisplayedView(allUsers, raw), 1))
      ensures SearchTerm(raw) == "" && allUsers != [] ==> controls == Some(BuildControls(ControlsView(allUsers, raw), 1))
      ensures SearchTerm(raw) == "" && allUsers == [] ==> controls == old(controls)
    {
      searchValue := raw;
      currentPage := 1;
      var term := SearchTerm(raw);
      if term == "" {
        assert DisplayedView(allUsers, raw) == allUsers;
        if allUsers == [] && controls.Some? && controls.value.view != [] {
          assert controls.value.view[0] in controls.value.view;
        }
        DisplayUsers(allUsers);
        return;
      }
      var filtered := FilterUsers(allUsers, term);
      assert DisplayedView(allUsers, raw) == filtered;
      DisplayUsers(filtered);
      assert screen == Render(filtered, 1);
      CreatePaginationControls(filtered);
      assert controls == Some(BuildControls(filtered, 1));
    }

    /** A click on Prev. With no controls there is no button. A disabled
        button does not fire; otherwise the handler steps back one page if
        the current page is past 1 and displays the view it closes over. */
    method Prev()
      requires Valid()
      modifies this
      ensures Valid() && loaded == old(loaded)
      ensures allUsers == old(allUsers) && searchValue == old(searchValue)
      ensures old(controls).None? || old(currentPage) == 1 ==>
        currentPage == old(currentPage) && screen == old(screen) && controls == old(controls)
      ensures old(controls).Some? && old(currentPage) > 1 ==>
        var view := old(controls).value.view;
        && currentPage == old(currentPage) - 1
        && screen == Render(view, currentPage)
        && controls == if view == [] then old(controls) else Some(BuildControls(ControlsView(allUsers, searchValue), currentPage))
    {
      if controls.None? {
        return;
      }
      var c := controls.value;
      if c.prevDisabled {
        return;
      }
      if currentPage > 1 {
        currentPage := currentPage - 1;
        DisplayUsers(c.view);
      }
    }

    /** A click on Next. With no controls there is no button. A disabled
        button does not fire; otherwise the handler steps forward one page
        if the current page is below the page count it closes over, and
        displays the view it closes over. By `Valid` the button is disabled
        only where the handler would do nothing anyway. */
    method Next()
      requires Valid()
      modifies this
      ensures Valid() && loaded == old(loaded)
      ensures allUsers == old(allUsers) && searchValue == old(searchValue)
      ensures var moves := old(controls).Some? && old(currentPage) < old(controls).value.totalPages;
        && (!moves ==> currentPage == old(currentPage) && screen == old(screen) && controls == old(controls))
        && (moves ==>
              && currentPage == old(currentPage) + 1
              && screen == Render(old(controls).value.view, currentPage)
              && controls == Some(BuildControls(ControlsView(allUsers, searchValue), currentPage)))
    {
      if controls.None? {
        return;
      }
      var c := controls.value;
      if c.nextDisabled {
        return;
      }
      if currentPage < c.totalPages {
        if c.view != [] {
          assert c.view[0] in c.view;
        }
        currentPage := currentPage + 1;
        DisplayUsers(c.view);
      }
    }
  }
}
