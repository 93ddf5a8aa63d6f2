/** The user-directory page: the state it keeps, the load that merges the
    remote list with the stored one, the add handler that re-persists the
    locally created records, and the filtered, name-sorted view it renders. */
module DirectoryPage {
  import opened Wrappers
  import opened Text
  import opened Users

  // ---------------------------------------------------------------------
  // Filtering

  /** `s.filter(keep)`: the elements of `s` that `keep` accepts, in order. */
  function Select<T>(s: seq<T>, keep: T -> bool): seq<T> {
    if s == [] then []
    else (if keep(s[0]) then [s[0]] else []) + Select(s[1..], keep)
  }

  /** Filtering keeps each accepted element as often as it occurs and drops
      the others, so it never lengthens the sequence. */
  lemma {:induction false} SelectCount<T>(s: seq<T>, keep: T -> bool)
    ensures |Select(s, keep)| <= |s|
    ensures forall x :: multiset(Select(s, keep))[x] == if keep(x) then multiset(s)[x] else 0
  {
    if s != [] {
      var head := if keep(s[0]) then [s[0]] else [];
      SelectCount(s[1..], keep);
      assert Select(s, keep) == head + Select(s[1..], keep);
      assert s == [s[0]] + s[1..];
      assert multiset(s) == multiset{s[0]} + multiset(s[1..]);
      assert multiset(Select(s, keep)) == multiset(head) + multiset(Select(s[1..], keep));
    }
  }

  /** Filtering keeps exactly the accepted elements, each as often as it
      occurs, and never lengthens the sequence. */
  lemma SelectSpec<T>(s: seq<T>, keep: T -> bool)
    ensures var r := Select(s, keep);
      && |r| <= |s|
      && (forall x :: x in r ==> keep(x))
      && (forall x :: multiset(r)[x] == if keep(x) then multiset(s)[x] else 0)
      && (forall x :: x in r <==> x in s && keep(x))
  {
    SelectCount(s, keep);
    var r := Select(s, keep);
    forall x
      ensures x in r <==> x in s && keep(x)
    {
      assert x in r <==> x in multiset(r);
      assert x in s <==> x in multiset(s);
    }
  }

  /** Filtering a concatenation filters each part. */
  lemma {:induction false} SelectAppend<T>(a: seq<T>, b: seq<T>, keep: T -> bool)
    ensures Select(a + b, keep) == Select(a, keep) + Select(b, keep)
  {
    if a == [] {
      assert a + b == b;
    } else {
      var head := if keep(a[0]) then [a[0]] else [];
      assert (a + b)[0] == a[0] && (a + b)[1..] == a[1..] + b;
      assert Select(a + b, keep) == head + Select(a[1..] + b, keep);
      SelectAppend(a[1..], b, keep);
      assert Select(a, keep) == head + Select(a[1..], keep);
    }
  }

  /** A filter that accepts every element keeps the sequence as it is. */
  lemma {:induction false} SelectAll<T>(s: seq<T>, keep: T -> bool)
    requires forall x :: x in s ==> keep(x)
    ensures Select(s, keep) == s
  {
    if s != [] {
      SelectAll(s[1..], keep);
      assert s == [s[0]] + s[1..];
    }
  }

  /** A filter that accepts no element yields nothing. */
  lemma {:induction false} SelectNone<T>(s: seq<T>, keep: T -> bool)
    requires forall x :: x in s ==> !keep(x)
    ensures Select(s, keep) == []
  {
    if s != [] {
      SelectNone(s[1..], keep);
    }
  }

  // ---------------------------------------------------------------------
  // Search

  /** The search predicate: the lower-cased name or the lower-cased email
      includes the lower-cased query. */
  predicate Matches(user: User, query: string) {
    var q := Lower(query);
    Contains(Lower(user.name), q) || Contains(Lower(user.email), q)
  }

  function MatchesQuery(query: string): User -> bool {
    (u: User) => Matches(u, query)
  }

  /** `users.filter(...)` with the search predicate. */
  function SearchResults(users: seq<User>, query: string): seq<User> {
    Select(users, MatchesQuery(query))
  }

  /** The empty query keeps every user, in order. */
  lemma EmptyQueryKeepsAll(users: seq<User>)
    ensures SearchResults(users, "") == users
  {
    forall u | u in users ensures MatchesQuery("")(u) {
      ContainsEmpty(Lower(u.name));
    }
    SelectAll(users, MatchesQuery(""));
  }

  // ---------------------------------------------------------------------
  // Sorting by name

  /** The comparator handed to `sort`: the names compared, with the sign
      negated when the order is descending. */
  function NameOrder(a: User, b: User, ascending: bool): int {
    var c := Compare(a.name, b.name);
    if ascending then c else -c
  }

  /** Each element is ordered no later than its successor by the comparator. */
  predicate SortedBy(s: seq<User>, ascending: bool) {
    forall k :: 0 < k < |s| ==> NameOrder(s[k - 1], s[k], ascending) <= 0
  }

  /** One step of a stable insertion sort: `x` goes after every element of
      `sorted` that the comparator does not place after it. */
  function Insert(sorted: seq<User>, x: User, ascending: bool): seq<User> {
    if sorted == [] then [x]
    else if NameOrder(sorted[|sorted| - 1], x, ascending) > 0 then
      Insert(sorted[..|sorted| - 1], x, ascending) + [sorted[|sorted| - 1]]
    else sorted + [x]
  }

  /** The order `sort` leaves the filtered users in: a stable sort by the
      comparator, as `Array.prototype.sort` is. */
  function SortByName(s: seq<User>, ascending: bool): seq<User> {
    if s == [] then []
    else Insert(SortByName(s[..|s| - 1], ascending), s[|s| - 1], ascending)
  }

  /** The users with the given name, in order. */
  function NameIs(name: string): User -> bool {
    (u: User) => u.name == name
  }

  function Named(s: seq<User>, name: string): seq<User> {
    Select(s, NameIs(name))
  }

  lemma NamedAppend(a: seq<User>, b: seq<User>, name: string)
    ensures Named(a + b, name) == Named(a, name) + Named(b, name)
  {
    SelectAppend(a, b, NameIs(name));
  }

  lemma NamedSingle(x: User, name: string)
    ensures Named([x], name) == if x.name == name then [x] else []
  {
    assert [x][1..] == [];
    assert NameIs(name)(x) == (x.name == name);
    assert Select([x], NameIs(name)) == (if x.name == name then [x] else []) + Select([], NameIs(name));
  }

  lemma {:induction false} InsertPermutes(sorted: seq<User>, x: User, ascending: bool)
    ensures multiset(Insert(sorted, x, ascending)) == multiset(sorted) + multiset{x}
    ensures |Insert(sorted, x, ascending)| == |sorted| + 1
  {
    if sorted != [] && NameOrder(sorted[|sorted| - 1], x, ascending) > 0 {
      var init := sorted[..|sorted| - 1];
      InsertPermutes(init, x, ascending);
      assert sorted == init + [sorted[|sorted| - 1]];
    }
  }

  /** The last element after an insertion is the inserted one or the last of
      the sequence inserted into. */
  lemma {:induction false} InsertLast(sorted: seq<User>, x: User, ascending: bool)
    ensures var r := Insert(sorted, x, ascending);
      |r| > 0 && (r[|r| - 1] == x || (sorted != [] && r[|r| - 1] == sorted[|sorted| - 1]))
  {
  }

  /** Appending an element that is not placed before the last one keeps a
      sequence sorted. */
  lemma SortedSnoc(s: seq<User>, y: User, ascending: bool)
    requires SortedBy(s, ascending)
    requires s == [] || NameOrder(s[|s| - 1], y, ascending) <= 0
    ensures SortedBy(s + [y], ascending)
  {
    var t := s + [y];
    forall k | 0 < k < |t|
      ensures NameOrder(t[k - 1], t[k], ascending) <= 0
    {
      if k < |s| {
        assert t[k - 1] == s[k - 1] && t[k] == s[k];
      }
    }
  }

  lemma {:induction false} InsertSorted(sorted: seq<User>, x: User, ascending: bool)
    requires SortedBy(sorted, ascending)
    ensures SortedBy(Insert(sorted, x, ascending), ascending)
  {
    if sorted == [] {
      assert Insert(sorted, x, ascending) == [x];
    } else {
      var init, y := sorted[..|sorted| - 1], sorted[|sorted| - 1];
      if NameOrder(y, x, ascending) > 0 {
        assert SortedBy(init, ascending) by {
          forall k | 0 < k < |init|
            ensures NameOrder(init[k - 1], init[k], ascending) <= 0
          {
            assert init[k - 1] == sorted[k - 1] && init[k] == sorted[k];
          }
        }
        InsertSorted(init, x, ascending);
        var r' := Insert(init, x, ascending);
        InsertLast(init, x, ascending);
        assert NameOrder(r'[|r'| - 1], y, ascending) <= 0 by {
          if r'[|r'| - 1] == x {
            CompareFlip(x.name, y.name);
          } else {
            assert r'[|r'| - 1] == sorted[|sorted| - 2];
          }
        }
        SortedSnoc(r', y, ascending);
        assert Insert(sorted, x, ascending) == r' + [y];
      } else {
        SortedSnoc(sorted, x, ascending);
        assert Insert(sorted, x, ascending) == sorted + [x];
      }
    }
  }

  /** Insertion keeps the relative order of the users of every name: `x` lands
      after every earlier user of its own name. */
  lemma {:induction false} InsertStable(sorted: seq<User>, x: User, ascending: bool, name: string)
    ensures Named(Insert(sorted, x, ascending), name)
         == Named(sorted, name) + Named([x], name)
  {
    if sorted == [] {
      assert Insert(sorted, x, ascending) == [x];
      assert Named(sorted, name) == [];
    } else {
      var init, y := sorted[..|sorted| - 1], sorted[|sorted| - 1];
      assert sorted == init + [y];
      if NameOrder(y, x, ascending) > 0 {
        var r' := Insert(init, x, ascending);
        assert Insert(sorted, x, ascending) == r' + [y];
        InsertStable(init, x, ascending, name);
        StableSkip(init, r', x, y, name);
      } else {
        assert Insert(sorted, x, ascending) == sorted + [x];
        NamedAppend(sorted, [x], name);
      }
    }
  }

  /** The step of InsertStable where `x` moves before `y`: since the two have
      different names, the order among the users of each name is unchanged. */
  lemma StableSkip(init: seq<User>, r: seq<User>, x: User, y: User, name: string)
    requires x.name != y.name
    requires Named(r, name) == Named(init, name) + Named([x], name)
    ensures Named(r + [y], name) == Named(init + [y], name) + Named([x], name)
  {
    NamedAppend(r, [y], name);
    NamedAppend(init, [y], name);
    NamedSingle(x, name);
    NamedSingle(y, name);
  }

  /** The sort is a permutation. */
  lemma {:induction false} SortByNamePermutes(s: seq<User>, ascending: bool)
    ensures multiset(SortByName(s, ascending)) == multiset(s)
    ensures |SortByName(s, ascending)| == |s|
  {
    if s != [] {
      var init := s[..|s| - 1];
      SortByNamePermutes(init, ascending);
      InsertPermutes(SortByName(init, ascending), s[|s| - 1], ascending);
      assert s == init + [s[|s| - 1]];
    }
  }

  /** The sort leaves every pair of neighbours in comparator order. */
  lemma {:induction false} SortByNameSorted(s: seq<User>, ascending: bool)
    ensures SortedBy(SortByName(s, ascending), ascending)
  {
    if s != [] {
      SortByNameSorted(s[..|s| - 1], ascending);
      InsertSorted(SortByName(s[..|s| - 1], ascending), s[|s| - 1], ascending);
    }
  }

  /** The sort is stable: users of equal name keep their relative order. */
  lemma {:induction false} SortByNameStable(s: seq<User>, ascending: bool, name: string)
    ensures Named(SortByName(s, ascending), name) == Named(s, name)
  {
    if s != [] {
      var init, x := s[..|s| - 1], s[|s| - 1];
      SortByNameStable(init, ascending, name);
      InsertStable(SortByName(init, ascending), x, ascending, name);
      assert s == init + [x];
      NamedAppend(init, [x], name);
    }
  }

  // ---------------------------------------------------------------------
  // The derived view

  /** `filteredUsers`: the users the search keeps, sorted by name in the
      chosen direction. */
  function View(users: seq<User>, query: string, ascending: bool): seq<User> {
    SortByName(SearchResults(users, query), ascending)
  }

  /** A user is shown exactly when the search keeps it, and as often as it
      occurs in the list. */
  lemma ViewMembers(users: seq<User>, query: string, ascending: bool)
    ensures var v := View(users, query, ascending);
      && multiset(v) == multiset(SearchResults(users, query))
      && (forall u :: u in v <==> u in users && Matches(u, query))
  {
    var found := SearchResults(users, query);
    SortByNamePermutes(found, ascending);
    SelectSpec(users, MatchesQuery(query));
    forall u ensures u in View(users, query, ascending) <==> u in found {
      assert u in View(users, query, ascending) <==> u in multiset(View(users, query, ascending));
    }
  }

  /** Neighbours in the view are in non-decreasing name order when ascending
      and in non-increasing name order when descending. */
  lemma ViewOrdered(users: seq<User>, query: string, ascending: bool)
    ensures var v := View(users, query, ascending);
      forall k :: 0 < k < |v| ==>
        if ascending then Compare(v[k - 1].name, v[k].name) <= 0
        else Compare(v[k - 1].name, v[k].name) >= 0
  {
    SortByNameSorted(SearchResults(users, query), ascending);
  }

  /** In either direction, the users of one name appear in the view in the
      order they have in the list. */
  lemma ViewStable(users: seq<User>, query: string, ascending: bool, name: string)
    ensures Named(View(users, query, ascending), name) == Named(SearchResults(users, query), name)
  {
    SortByNameStable(SearchResults(users, query), ascending, name);
  }

  /** Inserting `x` puts it right after the last element the comparator
      does not place after it. */
  lemma {:induction false} InsertPosition(prefix: seq<User>, j: int, x: User, ascending: bool)
    requires 0 <= j <= |prefix|
    requires forall k :: j <= k < |prefix| ==> NameOrder(prefix[k], x, ascending) > 0
    requires j == 0 || NameOrder(prefix[j - 1], x, ascending) <= 0
    ensures Insert(prefix, x, ascending) == prefix[..j] + [x] + prefix[j..]
    decreases |prefix|
  {
    if j == |prefix| {
      assert prefix[..j] == prefix && prefix[j..] == [];
    } else {
      var init, last := prefix[..|prefix| - 1], prefix[|prefix| - 1];
      assert Insert(prefix, x, ascending) == Insert(init, x, ascending) + [last];
      InsertPosition(init, j, x, ascending);
      assert init[..j] == prefix[..j];
      assert init[j..] + [last] == prefix[j..];
    }
  }

  /** A sequence that agrees with `prefix` before `j`, holds `x` at `j` and
      holds `prefix` shifted by one after `j` is `prefix` with `x` inserted
      at `j`. */
  lemma Reassemble(b: seq<User>, prefix: seq<User>, j: int, x: User)
    requires 0 <= j <= |prefix| && |b| == |prefix| + 1
    requires forall k :: 0 <= k < j ==> b[k] == prefix[k]
    requires b[j] == x
    requires forall k :: j < k < |b| ==> b[k] == prefix[k - 1]
    ensures b == prefix[..j] + [x] + prefix[j..]
  {
  }

  /** Inserts `a[i]` into the sorted run `a[..i]`, shifting right the
      elements the comparator places after it. */
  method InsertAt(a: array<User>, i: int, ascending: bool)
    requires 0 <= i < a.Length
    modifies a
    ensures a[..i + 1] == Insert(old(a[..i]), old(a[i]), ascending)
    ensures forall k :: i < k < a.Length ==> a[k] == old(a[k])
  {
    var x := a[i];
    ghost var prefix := a[..i];
    var j := i;
    while j > 0 && NameOrder(a[j - 1], x, ascending) > 0
      invariant 0 <= j <= i
      invariant forall k :: 0 <= k < j ==> a[k] == prefix[k]
      invariant forall k :: j < k <= i ==> a[k] == prefix[k - 1]
      invariant forall k :: i < k < a.Length ==> a[k] == old(a[k])
      invariant forall k :: j <= k < i ==> NameOrder(prefix[k], x, ascending) > 0
    {
      a[j] := a[j - 1];
      j := j - 1;
    }
    a[j] := x;
    InsertPosition(prefix, j, x, ascending);
    Reassemble(a[..i + 1], prefix, j, x);
  }

  /** The in-place sort of the filtered copy: an insertion sort over a
      growing sorted prefix. */
  method SortInPlace(a: array<User>, ascending: bool)
    modifies a
    ensures a[..] == SortByName(old(a[..]), ascending)
  {
    ghost var input := a[..];
    var i := 0;
    while i < a.Length
      invariant 0 <= i <= a.Length
      invariant a[..i] == SortByName(input[..i], ascending)
      invariant forall k :: i <= k < a.Length ==> a[k] == input[k]
    {
      assert input[..i + 1] == input[..i] + [input[i]];
      InsertAt(a, i, ascending);
      i := i + 1;
    }
    assert a[..] == a[..a.Length];
    assert input == input[..a.Length];
  }

  // ---------------------------------------------------------------------
  // Loading and persisting

  /** What the browser's storage yields for the "customUsers" key, as the
      page reads it: nothing (a missing key or an empty string, both read as
      "[]"), the JSON text of a list of records, or a value that parsing or
      spreading rejects with an error carrying the given message. */
  datatype Stored = Absent | Records(users: seq<User>) | Unreadable(message: string)

  /** What was thrown inside the load: an `Error` with its message, or some
      other value. */
  datatype Thrown = ErrorObject(message: string) | OtherValue

  /** How the request to the remote directory ends: a successful response
      whose body is a list of records, a response whose status is not
      successful, or a throw while fetching or reading the body. */
  datatype FetchOutcome = Received(apiUsers: seq<User>) | NotOk | Threw(thrown: Thrown)

  const FetchFailed: string := "Failed to fetch users"
  const LoadFallback: string := "An error occurred while fetching users"

  /** The message the page shows for what was thrown. */
  function ErrorMessage(t: Thrown): (m: string)
    ensures t.ErrorObject? ==> m == t.message
    ensures t.OtherValue? ==> m == LoadFallback
  {
    match t
    case ErrorObject(message) => message
    case OtherValue => LoadFallback
  }

  /** The records kept in the browser, when they can be read. */
  function StoredList(stored: Stored): seq<User>
    requires !stored.Unreadable?
  {
    if stored.Records? then stored.users else []
  }

  /** `fetchUsers`: the remote records followed by the stored ones, or the
      message the page shows instead. */
  function LoadResult(outcome: FetchOutcome, stored: Stored): (r: Result<seq<User>>)
    ensures r.Ok? <==> outcome.Received? && !stored.Unreadable?
    ensures r.Ok? ==> r.value == outcome.apiUsers + StoredList(stored)
    ensures outcome.NotOk? ==> r == Err(FetchFailed)
    ensures outcome.Threw? ==> r == Err(ErrorMessage(outcome.thrown))
    ensures outcome.Received? && stored.Unreadable? ==> r == Err(stored.message)
  {
    match outcome
    case NotOk => Err(FetchFailed)
    case Threw(thrown) => Err(ErrorMessage(thrown))
    case Received(apiUsers) =>
      match stored
      case Absent => Ok(apiUsers + [])
      case Records(localUsers) => Ok(apiUsers + localUsers)
      case Unreadable(message) => Err(message)
  }

  /** The records created on this page: those whose id is above 100. */
  predicate IsCustom(u: User) {
    u.id > 100
  }

  function CustomUsers(users: seq<User>): seq<User> {
    Select(users, IsCustom)
  }

  /** Appending a record extends the custom records exactly when its id is
      above 100. */
  lemma CustomUsersAppend(users: seq<User>, u: User)
    ensures CustomUsers(users + [u]) == CustomUsers(users) + (if u.id > 100 then [u] else [])
  {
    SelectAppend(users, [u], IsCustom);
    assert [u][1..] == [];
  }

  /** When the remote ids are at most 100 and the local ones above 100, the
      custom records are exactly the local ones. */
  lemma CustomUsersOfMerge(api: seq<User>, local: seq<User>)
    requires forall u :: u in api ==> u.id <= 100
    requires forall u :: u in local ==> u.id > 100
    ensures CustomUsers(api + local) == local
  {
    SelectAppend(api, local, IsCustom);
    SelectNone(api, IsCustom);
    SelectAll(local, IsCustom);
  }

  /** Persisting after an add and loading again restores the collection, as
      long as the remote records keep ids of at most 100 and the local ones
      ids above 100. */
  lemma ReloadRestoresCollection(api: seq<User>, local: seq<User>)
    requires forall u :: u in api ==> u.id <= 100
    requires forall u :: u in local ==> u.id > 100
    ensures LoadResult(Received(api), Records(CustomUsers(api + local))) == Ok(api + local)
  {
    CustomUsersOfMerge(api, local);
  }

  /** An added record with an id above 100 is appended to what is stored;
      one with a smaller id is not stored at all. */
  lemma AddExtendsStore(api: seq<User>, local: seq<User>, newUser: Profile, now: int)
    requires forall u :: u in api ==> u.id <= 100
    requires forall u :: u in local ==> u.id > 100
    ensures CustomUsers(api + local + [WithId(newUser, now)])
         == local + (if now > 100 then [WithId(newUser, now)] else [])
  {
    CustomUsersOfMerge(api, local);
    CustomUsersAppend(api + local, WithId(newUser, now));
  }

  // ---------------------------------------------------------------------
  // The page

  /** The page's state. The stored list is the value the page writes to and
      reads from the browser under the "customUsers" key. */
  class UserDirectoryPage {
    var users: seq<User>
    var searchQuery: string
    var isLoading: bool
    var error: Option<string>
    var showAddForm: bool
    var sortAscending: bool
    var stored: Stored

    /** The first render, before the load has run, over what the browser
        holds. */
    constructor (stored: Stored)
      ensures users == [] && searchQuery == "" && isLoading && error == None
      ensures !showAddForm && sortAscending && this.stored == stored
    {
      users := [];
      searchQuery := "";
      isLoading := true;
      error := None;
      showAddForm := false;
      sortAscending := true;
      this.stored := stored;
    }

    /** The load run on mount: the remote records followed by the stored
        ones, or the error message with the previous list kept; the page
        stops loading either way. */
    method FetchUsers(outcome: FetchOutcome)
      modifies this
      ensures !isLoading
      ensures LoadResult(outcome, old(stored)).Ok? ==>
        users == LoadResult(outcome, old(stored)).value && error == None
      ensures LoadResult(outcome, old(stored)).Err? ==>
        users == old(users) && error == Some(LoadResult(outcome, old(stored)).message)
      ensures searchQuery == old(searchQuery) && showAddForm == old(showAddForm)
      ensures sortAscending == old(sortAscending) && stored == old(stored)
    {
      isLoading := true;
      error := None;
      match outcome {
        case NotOk =>
          error := Some(FetchFailed);
        case Threw(thrown) =>
          error := Some(ErrorMessage(thrown));
        case Received(apiUsers) =>
          match stored {
            case Absent =>
              users := apiUsers + [];
            case Records(localUsers) =>
              users := apiUsers + localUsers;
            case Unreadable(message) =>
              error := Some(message);
          }
      }
      isLoading := false;
    }

    /** `filteredUsers`: the search results copied into a fresh array and
        sorted in place. */
    method FilteredUsers() returns (filtered: seq<User>)
      ensures filtered == View(users, searchQuery, sortAscending)
    {
      var found := SearchResults(users, searchQuery);
      var a := new User[|found|](i requires 0 <= i < |found| => found[i]);
      assert a[..] == found;
      SortInPlace(a, sortAscending);
      filtered := a[..];
    }

    /** `handleAddUser`: the new record, with the clock reading `now` as its
        id, is appended; the records with ids above 100 are stored; the form
        closes. */
    method HandleAddUser(newUser: Profile, now: int)
      modifies this
      ensures users == old(users) + [WithId(newUser, now)]
      ensures stored == Records(CustomUsers(users))
      ensures !showAddForm
      ensures searchQuery == old(searchQuery) && isLoading == old(isLoading)
      ensures error == old(error) && sortAscending == old(sortAscending)
    {
      var userWithId := WithId(newUser, now);
      var updatedUsers := users + [userWithId];
      users := updatedUsers;
      var customUsers := CustomUsers(updatedUsers);
      stored := Records(customUsers);
      showAddForm := false;
    }

    /** `toggleSort`: flips the direction and nothing else. */
    method ToggleSort()
      modifies this
      ensures sortAscending == !old(sortAscending)
      ensures users == old(users) && searchQuery == old(searchQuery) && isLoading == old(isLoading)
      ensures error == old(error) && showAddForm == old(showAddForm) && stored == old(stored)
    {
      sortAscending := !sortAscending;
    }

    /** The search box's change handler. */
    method SetSearchQuery(query: string)
      modifies this
      ensures searchQuery == query
      ensures users == old(users) && sortAscending == old(sortAscending) && isLoading == old(isLoading)
      ensures error == old(error) && showAddForm == old(showAddForm) && stored == old(stored)
    {
      searchQuery := query;
    }

    /** The header button: shows the form when hidden and hides it when
        shown. */
    method ToggleAddForm()
      modifies this
      ensures showAddForm == !old(showAddForm)
      ensures users == old(users) && searchQuery == old(searchQuery) && sortAscending == old(sortAscending)
      ensures isLoading == old(isLoading) && error == old(error) && stored == old(stored)
    {
      showAddForm := !showAddForm;
    }

    /** The form's cancel handler: hides the form. */
    method CancelAddForm()
      modifies this
      ensures !showAddForm
      ensures users == old(users) && searchQuery == old(searchQuery) && sortAscending == old(sortAscending)
      ensures isLoading == old(isLoading) && error == old(error) && stored == old(stored)
    {
      showAddForm := false;
    }
  }

  /** A load that fails leaves the list empty, and an add after it rewrites
      the stored list from that empty list: whatever records were stored
      before are replaced by the new record alone, or by nothing when its
      clock id is 100 or less. */
  method FailedLoadThenAdd(stored: Stored, newUser: Profile, now: int) returns (after: Stored)
    ensures after == Records(if now > 100 then [WithId(newUser, now)] else [])
  {
    var page := new UserDirectoryPage(stored);
    page.FetchUsers(NotOk);
    page.HandleAddUser(newUser, now);
    CustomUsersAppend([], WithId(newUser, now));
    assert page.users == [] + [WithId(newUser, now)];
    after := page.stored;
  }
}
