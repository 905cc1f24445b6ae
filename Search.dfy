/** The user records and the two ways the page derives a view of them from
    the search box: the view `handleSearch` displays, and the view
    `updatePaginationControls` builds the page controls over. */
module Search {
  import opened Text

  /** The fields of a record the directory shows but never inspects. */
  datatype Details = Details(email: string, image: string, company: string, city: string, state: string)

  datatype User = User(firstName: string, lastName: string, details: Details)

  /** The test of the `filter` callback: the term is a substring of the
      lower-cased first name or of the lower-cased last name. Every record
      matches the empty term, and a term longer than both names matches
      nothing. */
  predicate Matches(u: User, term: string): (b: bool)
    ensures term == [] ==> b
    ensures |term| > |u.firstName| && |term| > |u.lastName| ==> !b
  {
    Includes(Lower(u.firstName), term) || Includes(Lower(u.lastName), term)
  }

  /** `users.filter(u => Matches(u, term))`: keeps exactly the matching
      records, and never more of them than there were. */
  function FilterUsers(users: seq<User>, term: string): (r: seq<User>)
    ensures |r| <= |users|
    ensures forall u :: u in r <==> u in users && Matches(u, term)
  {
    if users == [] then []
    else if Matches(users[0], term) then [users[0]] + FilterUsers(users[1..], term)
    else FilterUsers(users[1..], term)
  }

  /** `a` is what is left of `b` after deleting some of its elements, the
      rest kept in their order. */
  predicate IsSubsequence<T(==)>(a: seq<T>, b: seq<T>)
    decreases |b|
  {
    if a == [] then true
    else if b == [] then false
    else if a[0] == b[0] then IsSubsequence(a[1..], b[1..])
    else IsSubsequence(a, b[1..])
  }

  /** Filtering keeps the records in the order they had. */
  lemma {:induction false} FilterIsSubsequence(users: seq<User>, term: string)
    ensures IsSubsequence(FilterUsers(users, term), users)
  {
    if users != [] {
      FilterIsSubsequence(users[1..], term);
      var rest := FilterUsers(users[1..], term);
      if !Matches(users[0], term) && rest != [] {
        assert rest[0] in rest;
        assert rest[0] != users[0];
        SubsequenceOfTail(rest, users);
      }
    }
  }

  /** Putting one more element in front of `b` keeps `a` a subsequence of it. */
  lemma {:induction false} SubsequenceOfTail<T>(a: seq<T>, b: seq<T>)
    requires b != [] && IsSubsequence(a, b[1..])
    ensures IsSubsequence(a, b)
    decreases |a| + |b|, 1
  {
    if a != [] && a[0] == b[0] {
      SubsequenceDrop(a, b[1..]);
    }
  }

  /** Deleting the first element of `a` keeps it a subsequence of `b`. */
  lemma {:induction false} SubsequenceDrop<T>(a: seq<T>, b: seq<T>)
    requires a != [] && IsSubsequence(a, b)
    ensures IsSubsequence(a[1..], b)
    decreases |a| + |b|, 0
  {
    if a[0] == b[0] {
      if a[1..] != [] {
        SubsequenceOfTail(a[1..], b);
      }
    } else {
      SubsequenceDrop(a, b[1..]);
      if a[1..] != [] {
        SubsequenceOfTail(a[1..], b);
      }
    }
  }

  /** Filtering keeps every copy of a matching record and no copy of any other. */
  lemma {:induction false} FilterCounts(users: seq<User>, term: string, u: User)
    ensures multiset(FilterUsers(users, term))[u] == if Matches(u, term) then multiset(users)[u] else 0
  {
    if users != [] {
      var head, tail := users[0], users[1..];
      FilterCounts(tail, term, u);
      assert users == [head] + tail;
      assert multiset(users) == multiset([head]) + multiset(tail);
      if Matches(head, term) {
        assert multiset(FilterUsers(users, term)) == multiset([head]) + multiset(FilterUsers(tail, term));
      } else {
        assert FilterUsers(users, term) == FilterUsers(tail, term);
      }
    }
  }

  /** A filter that every record passes returns the input as it was. */
  lemma {:induction false} FilterAllMatching(users: seq<User>, term: string)
    requires forall u :: u in users ==> Matches(u, term)
    ensures FilterUsers(users, term) == users
  {
    if users != [] {
      assert users[0] in users;
      FilterAllMatching(users[1..], term);
    }
  }

  /** Every name includes the empty term, so filtering by it keeps everything. */
  lemma {:induction false} FilterByEmptyTerm(users: seq<User>)
    ensures FilterUsers(users, "") == users
  {
    if users != [] {
      IncludesEmpty(Lower(users[0].firstName));
      FilterByEmptyTerm(users[1..]);
    }
  }

  /** The normalised term of `handleSearch`: lower-cased, then trimmed, so
      never longer than the box value and, when not empty, starting and
      ending with something besides white space. */
  function SearchTerm(raw: string): (term: string)
    ensures |term| <= |raw|
    ensures term != [] ==> !IsSpace(term[0]) && !IsSpace(term[|term| - 1])
  {
    TrimSpec(Lower(raw));
    Trim(Lower(raw))
  }

  /** The view `handleSearch` displays: everything for a blank term,
      otherwise the records matching the normalised term. */
  function DisplayedView(all: seq<User>, raw: string): (view: seq<User>)
    ensures |view| <= |all|
    ensures forall u :: u in view ==> u in all
  {
    var term := SearchTerm(raw);
    if term == "" then all else FilterUsers(all, term)
  }

  /** The view `updatePaginationControls` rebuilds the controls over: the
      raw box value is lower-cased but not trimmed, and only the empty
      string counts as no filter. */
  function ControlsView(all: seq<User>, raw: string): (view: seq<User>)
    ensures |view| <= |all|
    ensures forall u :: u in view ==> u in all
    ensures raw != [] ==> forall u :: u in view <==> u in all && Matches(u, Lower(raw))
  {
    if raw != "" then FilterUsers(all, Lower(raw)) else all
  }

  /** A term that is empty or all white space shows the whole collection,
      in its own order. */
  lemma BlankSearchShowsAll(all: seq<User>, raw: string)
    requires forall i :: 0 <= i < |raw| ==> IsSpace(raw[i])
    ensures DisplayedView(all, raw) == all
  {
    LowerKeepsSpaces(raw);
    TrimSpec(Lower(raw));
  }

  /** A term with something besides white space shows an order-preserving
      subsequence of the collection, holding exactly the records whose
      lower-cased first or last name contains the normalised term, each as
      often as in the collection. */
  lemma NonBlankSearchFilters(all: seq<User>, raw: string)
    requires exists i :: 0 <= i < |raw| && !IsSpace(raw[i])
    ensures SearchTerm(raw) != ""
    ensures IsSubsequence(DisplayedView(all, raw), all)
    ensures forall u :: u in DisplayedView(all, raw) <==> u in all && Matches(u, SearchTerm(raw))
    ensures forall u :: multiset(DisplayedView(all, raw))[u] == if Matches(u, SearchTerm(raw)) then multiset(all)[u] else 0
  {
    LowerKeepsSpaces(raw);
    TrimSpec(Lower(raw));
    FilterIsSubsequence(all, SearchTerm(raw));
    forall u {
      FilterCounts(all, SearchTerm(raw), u);
    }
  }

  /** When the box holds no white space at either end, the two paths agree. */
  lemma PathsAgreeWithoutPadding(all: seq<User>, raw: string)
    requires raw == [] || (!IsSpace(raw[0]) && !IsSpace(raw[|raw| - 1]))
    ensures ControlsView(all, raw) == DisplayedView(all, raw)
  {
    var low := Lower(raw);
    LowerKeepsSpaces(raw);
    assert low == [] || (!IsSpace(low[0]) && !IsSpace(low[|low| - 1]));
    TrimSpec(low);
    assert SearchTerm(raw) == low;
  }

  /** A sample record for the lemmas below: Ann Lee. */
  function Ann(): User
  {
    User("Ann", "Lee", Details("", "", "", "", ""))
  }

  /** Filtering a single record keeps it exactly when it matches. */
  lemma FilterSingle(u: User, term: string)
    ensures FilterUsers([u], term) == if Matches(u, term) then [u] else []
  {
    assert [u][1..] == [];
  }

  /** Ann's names hold "an" but neither holds a space. */
  lemma AnnMatches()
    ensures Matches(Ann(), "an")
    ensures !Matches(Ann(), " ") && !Matches(Ann(), " an")
  {
    assert Lower("Ann") == "ann";
    assert Lower("Lee") == "lee";
    assert "ann"[..2] == "an";
    AbsentFirstCharNotIncluded("ann", " an");
    AbsentFirstCharNotIncluded("lee", " an");
    AbsentFirstCharNotIncluded("ann", " ");
    AbsentFirstCharNotIncluded("lee", " ");
  }

  /** Normalising " an" lowers nothing and trims the leading space. */
  lemma PaddedTermNormalised()
    ensures Lower(" an") == " an" && SearchTerm(" an") == "an"
  {
    assert Lower(" an") == " an";
    assert TrimStart(" an") == "an";
    assert TrimEnd("an") == "an";
  }

  /** A padded term makes the two paths differ: " an" displays Ann, whose
      first name holds "an", while the controls are built over nobody,
      because no name holds " an". */
  lemma PaddedTermSplitsPaths()
    ensures DisplayedView([Ann()], " an") == [Ann()]
    ensures ControlsView([Ann()], " an") == []
  {
    PaddedTermNormalised();
    AnnMatches();
    FilterSingle(Ann(), "an");
    FilterSingle(Ann(), " an");
  }

  /** A term of white space only shows everybody, while the controls are
      built over the records whose names hold that white space. */
  lemma SpaceOnlyTermSplitsPaths()
    ensures DisplayedView([Ann()], " ") == [Ann()]
    ensures ControlsView([Ann()], " ") == []
  {
    BlankSearchShowsAll([Ann()], " ");
    assert Lower(" ") == " ";
    AnnMatches();
    FilterSingle(Ann(), " ");
  }
}
