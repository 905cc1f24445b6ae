/** Sessions driven through the controller's contracts only: two with
    eight users U1 to U8, and two that search " an" and show the controls
    drifting away from the displayed view, one over seven copies of Ann Lee
    and one over Jo an Lee followed by six copies of Ann Lee. */
module Scenarios {
  import opened Text
  import opened Search
  import opened Paging
  import opened Directory

  function Named(first: string): User
  {
    User(first, "Doe", Details("", "", "", "", ""))
  }

  function EightUsers(): seq<User>
  {
    [Named("U1"), Named("U2"), Named("U3"), Named("U4"),
     Named("U5"), Named("U6"), Named("U7"), Named("U8")]
  }

  /** Loading shows U1 to U6 under "Page 1 of 2" with Prev disabled and
      Next enabled; Next shows U7 and U8 under "Page 2 of 2" with Next
      disabled; a second Next changes nothing. */
  method BrowseTwoPages()
  {
    var users := EightUsers();
    var d := new Controller();
    d.Load(users);
    assert d.screen == Cards(users[..6]);
    assert d.controls == Some(Controls(users, 1, 2, true, false));
    d.Next();
    assert d.currentPage == 2;
    assert d.screen == Cards(users[6..]);
    assert d.controls == Some(Controls(users, 2, 2, false, true));
    d.Next();
    assert d.currentPage == 2;
    d.Prev();
    assert d.currentPage == 1;
    assert d.screen == Cards(users[..6]);
  }

  /** Neither "U<digit>" nor "Doe" holds a "z". */
  lemma NamedMissesZz(first: string)
    requires |first| == 2 && first[0] == 'U' && '0' <= first[1] <= '9'
    ensures !Matches(Named(first), "zz")
  {
    var low := Lower(first);
    assert low[0] == 'u' && low[1] == first[1];
    assert 'z' !in low;
    assert Lower("Doe") == "doe";
    AbsentFirstCharNotIncluded(low, "zz");
    AbsentFirstCharNotIncluded("doe", "zz");
  }

  /** None of the eight users matches "zz". */
  lemma NobodyMatchesZz()
    ensures FilterUsers(EightUsers(), "zz") == []
  {
    NamedMissesZz("U1"); NamedMissesZz("U2"); NamedMissesZz("U3"); NamedMissesZz("U4");
    NamedMissesZz("U5"); NamedMissesZz("U6"); NamedMissesZz("U7"); NamedMissesZz("U8");
  }

  /** After browsing to page 2, searching "zz" returns to page 1, shows
      "User not found", and leaves controls over the empty view labelled
      "Page 1 of 0" whose Next is enabled and does nothing. */
  method SearchWithoutMatch()
  {
    var users := EightUsers();
    var d := new Controller();
    d.Load(users);
    d.Next();
    assert d.currentPage == 2;
    assert Lower("zz") == "zz";
    assert SearchTerm("zz") == "zz";
    NobodyMatchesZz();
    d.Search("zz");
    assert d.currentPage == 1;
    assert d.screen == NotFound;
    assert d.controls == Some(Controls([], 1, 0, true, false));
    d.Next();
    assert d.currentPage == 1 && d.screen == NotFound;
  }

  function SevenAnns(): seq<User>
  {
    [Ann(), Ann(), Ann(), Ann(), Ann(), Ann(), Ann()]
  }

  /** Every copy of Ann matches "an" and none matches " an". */
  lemma SevenAnnsFiltered()
    ensures FilterUsers(SevenAnns(), "an") == SevenAnns()
    ensures FilterUsers(SevenAnns(), " an") == []
  {
    AnnMatches();
    FilterAllMatching(SevenAnns(), "an");
  }

  /** The views for " an" over the seven copies. */
  lemma SevenAnnsViews()
    ensures SearchTerm(" an") == "an"
    ensures DisplayedView(SevenAnns(), " an") == SevenAnns()
    ensures ControlsView(SevenAnns(), " an") == []
  {
    PaddedTermNormalised();
    SevenAnnsFiltered();
  }

  /** Seven records make two pages: six, then one. */
  lemma SevenAnnsPages()
    ensures PageSlice(SevenAnns(), 1) == SevenAnns()[..6]
    ensures PageSlice(SevenAnns(), 2) == SevenAnns()[6..]
    ensures TotalPages(7) == 2 && TotalPages(0) == 0
  {
  }

  /** With seven copies of Ann Lee, searching " an" displays all seven on
      page 1 of 2. Next shows the seventh on page 2 but rebuilds the
      controls over the untrimmed term, which matches nobody: "Page 2 of
      0". Prev then displays that empty view: "User not found" on page 1,
      under the stale "Page 2 of 0" label. A further Next does nothing. */
  method PaddedSearchSession()
  {
    var anns := SevenAnns();
    var d := new Controller();
    d.Load(anns);
    SevenAnnsViews();
    SevenAnnsPages();
    d.Search(" an");
    assert d.currentPage == 1;
    assert d.screen == Cards(anns[..6]);
    assert d.controls == Some(Controls(anns, 1, 2, true, false));
    d.Next();
    assert d.currentPage == 2;
    assert d.screen == Cards(anns[6..]);
    assert d.controls == Some(Controls([], 2, 0, false, false));
    d.Prev();
    assert d.currentPage == 1;
    assert d.screen == NotFound;
    assert d.controls == Some(Controls([], 2, 0, false, false));
    d.Next();
    assert d.currentPage == 1 && d.screen == NotFound;
  }

  /** A record whose first name holds " an" with its space. */
  function JoAn(): User
  {
    User("Jo an", "Lee", Details("", "", "", "", ""))
  }

  function JoAnThenSixAnns(): seq<User>
  {
    [JoAn(), Ann(), Ann(), Ann(), Ann(), Ann(), Ann()]
  }

  /** "jo an" holds both "an" and " an". */
  lemma JoAnMatches()
    ensures Matches(JoAn(), "an") && Matches(JoAn(), " an")
  {
    assert Lower("Jo an") == "jo an";
    assert OccursAt("an", "jo an", 3);
    assert OccursAt(" an", "jo an", 2);
    IncludesIsOccurs("jo an", "an");
    IncludesIsOccurs("jo an", " an");
  }

  /** Every record matches "an"; only Jo an matches " an". */
  lemma JoAnThenSixAnnsFiltered()
    ensures FilterUsers(JoAnThenSixAnns(), "an") == JoAnThenSixAnns()
    ensures FilterUsers(JoAnThenSixAnns(), " an") == [JoAn()]
  {
    AnnMatches();
    JoAnMatches();
    FilterAllMatching(JoAnThenSixAnns(), "an");
    var rest := JoAnThenSixAnns()[1..];
    assert FilterUsers(JoAnThenSixAnns(), " an") == [JoAn()] + FilterUsers(rest, " an");
  }

  /** The views for " an": all seven displayed, the controls over Jo an alone. */
  lemma JoAnThenSixAnnsViews()
    ensures SearchTerm(" an") == "an"
    ensures DisplayedView(JoAnThenSixAnns(), " an") == JoAnThenSixAnns()
    ensures ControlsView(JoAnThenSixAnns(), " an") == [JoAn()]
  {
    PaddedTermNormalised();
    JoAnThenSixAnnsFiltered();
  }

  /** Seven records make two pages, six and one; Jo an alone makes one. */
  lemma JoAnThenSixAnnsPages()
    ensures PageSlice(JoAnThenSixAnns(), 1) == JoAnThenSixAnns()[..6]
    ensures PageSlice(JoAnThenSixAnns(), 2) == [Ann()]
    ensures PageSlice([JoAn()], 1) == [JoAn()]
    ensures TotalPages(7) == 2 && TotalPages(1) == 1
  {
  }

  /** Searching " an" over Jo an and six Anns displays all seven on page 1
      of 2. Next shows the last Ann on page 2 but rebuilds the controls
      over the untrimmed term, which only Jo an holds: "Page 2 of 1". Prev
      then displays that one-record view: Jo an alone on page 1, under
      "Page 1 of 1" with both buttons disabled, although the search still
      matches seven records. */
  method DriftingSearchSession()
  {
    var users := JoAnThenSixAnns();
    var d := new Controller();
    d.Load(users);
    JoAnThenSixAnnsViews();
    JoAnThenSixAnnsPages();
    d.Search(" an");
    assert d.screen == Cards(users[..6]);
    assert d.controls == Some(Controls(users, 1, 2, true, false));
    d.Next();
    assert d.currentPage == 2;
    assert d.screen == Cards([Ann()]);
    assert d.controls == Some(Controls([JoAn()], 2, 1, false, false));
    d.Prev();
    assert d.currentPage == 1;
    assert d.screen == Cards([JoAn()]);
    assert d.controls == Some(Controls([JoAn()], 1, 1, true, true));
    d.Next();
    assert d.currentPage == 1 && d.screen == Cards([JoAn()]);
  }
}
