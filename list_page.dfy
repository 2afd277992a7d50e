/**
 * The user list page: the search rule, ordering by name, and the handlers
 * that sort the list, toggle the order and delete a user.
 */
module ListPage {
  import opened Basics
  import opened Seqs
  import opened Strings
  import opened Users
  import opened Storage

  /**
   * The search rule of the debounced filter: the lower-cased term occurs in
   * the lower-cased name, company, role or status, or the term mentions
   * "yes" and the user is verified, or it mentions "no" and the user is not.
   * ("Yes"/"No" is how the list shows the verified flag.)
   */
  predicate MatchesSearch(user: User, term: string)
    ensures term == "" ==> MatchesSearch(user, term)
  {
    var t := Lower(term);
    Contains(Lower(user.name), t)
    || Contains(Lower(user.company), t)
    || Contains(Lower(user.role), t)
    || (Contains(t, "yes") && user.verified)
    || (Contains(t, "no") && !user.verified)
    || Contains(Lower(user.status), t)
  }

  /** The list shown for a search term: `users.filter(user => MatchesSearch(user, term))`. */
  function SearchFilter(users: seq<User>, term: string): (r: seq<User>)
    ensures forall i :: 0 <= i < |r| ==> r[i] in users && MatchesSearch(r[i], term)
    ensures forall i :: 0 <= i < |users| && MatchesSearch(users[i], term) ==> users[i] in r
    ensures Embeds(r, users)
    ensures |r| == CountWhere(users, (u: User) => MatchesSearch(u, term))
  {
    Filter(users, (u: User) => MatchesSearch(u, term))
  }

  /** Every matching record is shown as many times as it is stored; no other record is shown. */
  lemma SearchFilterMultiplicity(users: seq<User>, term: string)
    ensures forall x :: multiset(SearchFilter(users, term))[x] == if MatchesSearch(x, term) then multiset(users)[x] else 0
  {
    forall x ensures multiset(SearchFilter(users, term))[x] == if MatchesSearch(x, term) then multiset(users)[x] else 0 {
      FilterMultiplicity(users, (u: User) => MatchesSearch(u, term), x);
    }
  }

  /** The empty term shows every user, in order: every string contains "". */
  lemma EmptySearchKeepsAll(users: seq<User>)
    ensures SearchFilter(users, "") == users
  {
    FilterKeepsAll(users, (u: User) => MatchesSearch(u, ""));
  }

  /**
   * A term that contains "no" shows every unverified user, whatever else it
   * says: a search for "Arnold" lists all unverified users.
   */
  lemma NoInTermShowsUnverified(users: seq<User>, term: string, i: int)
    requires Contains(Lower(term), "no")
    requires 0 <= i < |users| && !users[i].verified
    ensures users[i] in SearchFilter(users, term)
  {
  }

  /** A term that contains "yes" shows every verified user. */
  lemma YesInTermShowsVerified(users: seq<User>, term: string, i: int)
    requires Contains(Lower(term), "yes")
    requires 0 <= i < |users| && users[i].verified
    ensures users[i] in SearchFilter(users, term)
  {
  }

  /** The name "Arnold" contains "no" once lowered. */
  lemma ArnoldMatchesEveryUnverifiedUser(user: User)
    requires !user.verified
    ensures MatchesSearch(user, "Arnold")
  {
    assert Lower("Arnold") == "arnold";
    assert "arnold"[2..] == "nold";
    assert Contains("nold", "no");
    assert Contains("arnold", "no");
  }

  /** The comparator the page hands to `sort`. */
  function Comparator(a: User, b: User, ascending: bool): (r: int)
    ensures r == 0 <==> a.name == b.name
    ensures !ascending ==> r == -CompareNames(a.name, b.name)
  {
    CompareNamesAntisymmetric(a.name, b.name);
    if ascending then CompareNames(a.name, b.name) else CompareNames(b.name, a.name)
  }

  /** `a` may stand before `b` in the chosen direction. */
  predicate InOrder(a: User, b: User, ascending: bool)
  {
    Comparator(a, b, ascending) <= 0
  }

  /** Neighbours are in order. */
  predicate Sorted(s: seq<User>, ascending: bool)
  {
    forall k :: 0 < k < |s| ==> InOrder(s[k - 1], s[k], ascending)
  }

  /** Any two users can be put in order one way or the other. */
  lemma InOrderTotal(a: User, b: User, ascending: bool)
    ensures InOrder(a, b, ascending) || InOrder(b, a, ascending)
  {
    CompareNamesAntisymmetric(a.name, b.name);
  }

  /** In a sorted list every earlier user is in order with every later one. */
  lemma {:induction false} SortedPairwise(s: seq<User>, ascending: bool)
    requires Sorted(s, ascending)
    ensures forall i, j :: 0 <= i < j < |s| ==> InOrder(s[i], s[j], ascending)
  {
    if |s| > 1 {
      SortedPairwise(s[1..], ascending);
      forall j | 1 < j < |s| ensures InOrder(s[0], s[j], ascending) {
        assert InOrder(s[1..][0], s[1..][j - 1], ascending);
        if ascending {
          CompareNamesTransitive(s[0].name, s[1].name, s[j].name);
        } else {
          CompareNamesTransitive(s[j].name, s[1].name, s[0].name);
        }
      }
      forall i, j | 0 < i < j < |s| ensures InOrder(s[i], s[j], ascending) {
        assert InOrder(s[1..][i - 1], s[1..][j - 1], ascending);
      }
    }
  }

  /** Exchange two neighbouring elements. */
  method SwapDown(a: array<User>, j: int)
    requires 0 < j < a.Length
    modifies a
    ensures a[j - 1] == old(a[j]) && a[j] == old(a[j - 1])
    ensures forall k :: 0 <= k < a.Length && k != j - 1 && k != j ==> a[k] == old(a[k])
    ensures multiset(a[..]) == old(multiset(a[..]))
  {
    a[j - 1], a[j] := a[j], a[j - 1];
  }

  /** Sink `a[i]` into the sorted prefix `a[..i]`, leaving `a[..i + 1]` sorted. */
  method InsertIntoPrefix(a: array<User>, i: int, ascending: bool)
    requires 0 < i < a.Length
    requires forall k :: 0 < k < i ==> InOrder(a[k - 1], a[k], ascending)
    modifies a
    ensures forall k :: 0 < k <= i ==> InOrder(a[k - 1], a[k], ascending)
    ensures multiset(a[..]) == old(multiset(a[..]))
    ensures a[i + 1..] == old(a[i + 1..])
  {
    var j := i;
    while 0 < j && !InOrder(a[j - 1], a[j], ascending)
      invariant 0 <= j <= i
      invariant forall k :: 0 < k <= i && k != j ==> InOrder(a[k - 1], a[k], ascending)
      invariant 0 < j < i ==> InOrder(a[j - 1], a[j + 1], ascending)
      invariant multiset(a[..]) == old(multiset(a[..]))
      invariant a[i + 1..] == old(a[i + 1..])
    {
      InOrderTotal(a[j - 1], a[j], ascending);
      SwapDown(a, j);
      j := j - 1;
    }
  }

  /** `a.sort(comparator)` in place: sorted by name in the chosen direction, same elements. */
  method SortByName(a: array<User>, ascending: bool)
    modifies a
    ensures Sorted(a[..], ascending)
    ensures multiset(a[..]) == old(multiset(a[..]))
  {
    if a.Length == 0 {
      return;
    }
    var i := 1;
    while i < a.Length
      invariant 1 <= i <= a.Length
      invariant forall k :: 0 < k < i ==> InOrder(a[k - 1], a[k], ascending)
      invariant multiset(a[..]) == old(multiset(a[..]))
    {
      InsertIntoPrefix(a, i, ascending);
      i := i + 1;
    }
  }

  /** Sorting two users named "Bob" and "Ann" ascending puts Ann first. */
  lemma BobAnnSortsToAnnBob(s: seq<User>, bob: User, ann: User)
    requires bob.name == "Bob" && ann.name == "Ann"
    requires multiset(s) == multiset([bob, ann])
    requires Sorted(s, true)
    ensures s == [ann, bob]
  {
    assert |s| == 2 by {
      assert |multiset(s)| == |s|;
    }
    assert s[0] in multiset(s) && s[1] in multiset(s);
    assert CompareNames("Bob", "Ann") == 1;
  }

  /** `users` sorted in the chosen direction, as the array method leaves it. */
  method SortedCopy(users: seq<User>, ascending: bool) returns (r: seq<User>)
    ensures Sorted(r, ascending)
    ensures multiset(r) == multiset(users)
  {
    var a := new User[|users|](k requires 0 <= k < |users| => users[k]);
    assert a[..] == users;
    SortByName(a, ascending);
    r := a[..];
  }

  /**
   * The page's state. The displayed list `filteredUsers` is always the search
   * result for the current term over the current list.
   */
  class UsersPage {
    var users: seq<User>
    var searchTerm: string
    var filteredUsers: seq<User>
    var userIdToRemove: Option<string>
    var isAscending: bool

    ghost predicate Valid()
      reads this
    {
      filteredUsers == SearchFilter(users, searchTerm)
    }

    constructor ()
      ensures Valid()
      ensures users == [] && searchTerm == "" && userIdToRemove == None && isAscending
    {
      users := [];
      searchTerm := "";
      filteredUsers := [];
      userIdToRemove := None;
      isAscending := true;
    }

    /** The loading effect: read the stored users and show them sorted ascending by name. */
    method LoadUsers(storage: LocalStorage) returns (r: Result<(), StorageError>)
      requires Valid()
      modifies this
      ensures Valid()
      ensures r.Ok? <==> GetUsers(storage.items).Ok?
      ensures r.Ok? ==> Sorted(users, true) && multiset(users) == multiset(GetUsers(storage.items).value)
      ensures r.Err? ==> users == old(users)
      ensures searchTerm == old(searchTerm) && userIdToRemove == old(userIdToRemove)
      ensures isAscending == old(isAscending)
    {
      var data := GetUsers(storage.items);
      if data.Err? {
        return Err(data.error);
      }
      var sorted := SortedCopy(data.value, true);
      users := sorted;
      filteredUsers := SearchFilter(users, searchTerm);
      r := Ok(());
    }

    /** `handleSearchChange` followed by the debounced filter. */
    method HandleSearchChange(term: string)
      requires Valid()
      modifies this
      ensures Valid()
      ensures searchTerm == term
      ensures users == old(users) && userIdToRemove == old(userIdToRemove) && isAscending == old(isAscending)
    {
      searchTerm := term;
      filteredUsers := SearchFilter(users, searchTerm);
    }

    /** `sortUsers(users, ascending)`. */
    method SortUsers(ascending: bool)
      requires Valid()
      modifies this
      ensures Valid()
      ensures Sorted(users, ascending) && multiset(users) == multiset(old(users))
      ensures searchTerm == old(searchTerm) && userIdToRemove == old(userIdToRemove)
      ensures isAscending == old(isAscending)
    {
      var sorted := SortedCopy(users, ascending);
      users := sorted;
      filteredUsers := SearchFilter(users, searchTerm);
    }

    /** `handleToggleSortUsersOrder`: flip the direction and re-sort in the new one. */
    method HandleToggleSortUsersOrder()
      requires Valid()
      modifies this
      ensures Valid()
      ensures isAscending == !old(isAscending)
      ensures Sorted(users, isAscending) && multiset(users) == multiset(old(users))
      ensures searchTerm == old(searchTerm) && userIdToRemove == old(userIdToRemove)
    {
      isAscending := !isAscending;
      SortUsers(isAscending);
    }

    /** `openDeleteModal(userId)`: remember which user the dialog is about. */
    method OpenDeleteModal(userId: string)
      requires Valid()
      modifies this
      ensures Valid()
      ensures userIdToRemove == Some(userId)
      ensures users == old(users) && searchTerm == old(searchTerm) && isAscending == old(isAscending)
    {
      userIdToRemove := Some(userId);
    }

    /**
     * `handleRemove`: when an id is pending and is not the empty string, drop
     * every user with that id from the list and from the store, then clear
     * the pending id. A parse error thrown by the store leaves the id pending.
     */
    method HandleRemove(storage: LocalStorage) returns (r: Result<(), StorageError>)
      requires Valid()
      modifies this, storage
      ensures Valid()
      ensures old(userIdToRemove) == None || old(userIdToRemove) == Some("") ==>
                r.Ok? && users == old(users) && userIdToRemove == old(userIdToRemove)
                && storage.items == old(storage.items)
      ensures old(userIdToRemove).Some? && old(userIdToRemove).value != "" ==>
                var id := old(userIdToRemove).value;
                && users == WithoutId(old(users), id)
                && (r.Ok? <==> GetUsers(old(storage.items)).Ok?)
                && (r.Ok? ==> userIdToRemove == None
                              && storage.items == old(storage.items)[UserKey := Json(WithoutId(GetUsers(old(storage.items)).value, id))])
                && (r.Err? ==> userIdToRemove == old(userIdToRemove) && storage.items == old(storage.items))
      ensures r.Ok? && GetUsers(old(storage.items)).Ok?
              && multiset(old(users)) == multiset(GetUsers(old(storage.items)).value)
              ==> multiset(users) == multiset(GetUsers(storage.items).value)
      ensures searchTerm == old(searchTerm) && isAscending == old(isAscending)
    {
      if userIdToRemove.None? || userIdToRemove.value == "" {
        return Ok(());
      }
      var id := userIdToRemove.value;
      ghost var stored := GetUsers(storage.items);
      users := WithoutId(users, id);
      filteredUsers := SearchFilter(users, searchTerm);
      r := RemoveUserById(storage, id);
      if r.Err? {
        return;
      }
      if multiset(old(users)) == multiset(stored.value) {
        FilterPreservesPermutation(old(users), stored.value, HasOtherId(id));
      }
      userIdToRemove := None;
    }
  }

  /** Toggling the order twice restores the direction; the users are still the same ones. */
  method ToggleTwice(page: UsersPage)
    requires page.Valid()
    modifies page
    ensures page.Valid()
    ensures page.isAscending == old(page.isAscending)
    ensures Sorted(page.users, page.isAscending)
    ensures multiset(page.users) == multiset(old(page.users))
  {
    page.HandleToggleSortUsersOrder();
    page.HandleToggleSortUsersOrder();
  }
}
