/**
 * The user management screen: the list of enrolled users loaded from the
 * backend, a search box that filters it, deletion through the backend, and a
 * status toggle kept on the page only. The filtered list is recomputed from
 * the users and the search term after every change to either.
 */
module ManagePage {
  import opened Wrappers
  import opened Text
  import opened Lists
  import opened Api

  // ---------------------------------------------------------------------------
  // Search

  /** An optional text field contains the term, both lower-cased; a missing field never matches. */
  predicate FieldMatches(field: Option<string>, term: string) {
    field.Some? && Includes(ToLowerCase(field.value), ToLowerCase(term))
  }

  /**
   * The search predicate: name, email or department contain the term
   * ignoring case, or a non-empty phone does, or the id's decimal form
   * contains the term as typed.
   */
  predicate Matches(u: User, term: string) {
    || FieldMatches(u.name, term)
    || FieldMatches(u.email, term)
    || FieldMatches(u.department, term)
    || (u.phone.Some? && u.phone.value != "" && FieldMatches(u.phone, term))
    || Includes(IntToString(u.id), term)
  }

  /** The users the search shows: the matching ones, in their order, each as often as listed. */
  function FilterUsers(users: seq<User>, term: string): (r: seq<User>)
    ensures IsSubsequence(r, users)
    ensures forall u :: u in r ==> Matches(u, term)
    ensures forall u :: multiset(r)[u] == if Matches(u, term) then multiset(users)[u] else 0
  {
    Filter(users, u => Matches(u, term))
  }

  /** An empty search term keeps every user: the empty string occurs in every id. */
  lemma EmptySearchKeepsAll(users: seq<User>)
    ensures FilterUsers(users, "") == users
  {
    forall i | 0 <= i < |users|
      ensures Matches(users[i], "")
    {
      assert OccursAt("", IntToString(users[i].id), 0);
    }
    FilterKeepsAll(users, u => Matches(u, ""));
  }

  /** No ASCII letter, of either case. */
  predicate NoLetters(s: string) {
    forall i :: 0 <= i < |s| ==> !('A' <= s[i] <= 'Z') && !('a' <= s[i] <= 'z')
  }

  lemma NumeralHasNoLetters(n: int)
    ensures NoLetters(IntToString(n))
  {
    var s := IntToString(n);
    forall i | 0 <= i < |s|
      ensures !('A' <= s[i] <= 'Z') && !('a' <= s[i] <= 'z')
    {
      if s[0] == '-' && i > 0 {
        assert s[i] == s[1..][i - 1];
      }
    }
  }

  lemma OccurrenceHasNoLetters(hay: string, needle: string)
    requires NoLetters(hay) && Includes(hay, needle)
    ensures NoLetters(needle)
  {
    var k :| OccursAt(needle, hay, k);
    forall i | 0 <= i < |needle|
      ensures !('A' <= needle[i] <= 'Z') && !('a' <= needle[i] <= 'z')
    {
      assert needle[i] == hay[k..k + |needle|][i] == hay[k + i];
    }
  }

  /** A letter-free string is the only string with its lower-case form. */
  lemma SameLowerCaseWithoutLetters(a: string, b: string)
    requires NoLetters(a) && ToLowerCase(a) == ToLowerCase(b)
    ensures a == b
  {
    forall i | 0 <= i < |a|
      ensures a[i] == b[i]
    {
      assert ToLowerCase(a)[i] == LowerChar(a[i]) == a[i];
      assert ToLowerCase(b)[i] == LowerChar(b[i]);
    }
  }

  /**
   * Two search terms that agree once lower-cased find the same users: the
   * text fields are compared lower-cased, and an id's numeral holds no
   * letter, so only a letter-free term can occur in it.
   */
  lemma SearchIgnoresCase(u: User, t1: string, t2: string)
    requires ToLowerCase(t1) == ToLowerCase(t2)
    ensures Matches(u, t1) <==> Matches(u, t2)
  {
    var n := IntToString(u.id);
    NumeralHasNoLetters(u.id);
    if Includes(n, t1) {
      OccurrenceHasNoLetters(n, t1);
      SameLowerCaseWithoutLetters(t1, t2);
    }
    if Includes(n, t2) {
      OccurrenceHasNoLetters(n, t2);
      SameLowerCaseWithoutLetters(t2, t1);
    }
  }

  // ---------------------------------------------------------------------------
  // Delete and toggle

  /** `users.filter(user => user.id.toString() !== userId)`. */
  function RemoveById(users: seq<User>, userId: string): (r: seq<User>)
    ensures IsSubsequence(r, users)
    ensures forall u :: u in r ==> IntToString(u.id) != userId
    ensures forall u :: multiset(r)[u] == if IntToString(u.id) == userId then 0 else multiset(users)[u]
  {
    Filter(users, (u: User) => IntToString(u.id) != userId)
  }

  /** Deleting by the string form of an id removes exactly the users with that id and keeps every other. */
  lemma RemoveByIdRemovesExactlyThatId(users: seq<User>, id: int)
    ensures forall u :: multiset(RemoveById(users, IntToString(id)))[u] == if u.id == id then 0 else multiset(users)[u]
  {
    forall u
      ensures multiset(RemoveById(users, IntToString(id)))[u] == if u.id == id then 0 else multiset(users)[u]
    {
      IntToStringInjective(u.id, id);
    }
  }

  /** `users.find(u => u.id.toString() === userId)`, as the index of the first match. */
  function FindById(users: seq<User>, userId: string): (r: Option<nat>)
    ensures r.Some? ==> r.value < |users| && IntToString(users[r.value].id) == userId
    ensures r.Some? ==> forall j :: 0 <= j < r.value ==> IntToString(users[j].id) != userId
    ensures r.None? ==> forall j :: 0 <= j < |users| ==> IntToString(users[j].id) != userId
  {
    FindFirst(users, (u: User) => IntToString(u.id) == userId)
  }

  /** `user.status === "active" ? "inactive" : "active"`. */
  function ToggledStatus(status: Option<string>): (s: string)
    ensures s == "inactive" <==> status == Some("active")
    ensures s == "active" || s == "inactive"
  {
    if status == Some("active") then "inactive" else "active"
  }

  /**
   * `handleToggleStatus`'s new list: when some user has the id, every user
   * with that id gets the status toggled from the first such user's; all
   * other users, and every other field, are kept. An unknown id changes
   * nothing.
   */
  function ToggleStatus(users: seq<User>, userId: string): (r: seq<User>)
    ensures |r| == |users|
    ensures FindById(users, userId).None? ==> r == users
    ensures forall j :: 0 <= j < |users| && IntToString(users[j].id) != userId ==> r[j] == users[j]
    ensures forall j :: 0 <= j < |users| ==> r[j].(status := users[j].status) == users[j]
    ensures forall j :: 0 <= j < |users| && IntToString(users[j].id) == userId ==>
              r[j].status == Some(ToggledStatus(users[FindById(users, userId).value].status))
  {
    match FindById(users, userId)
    case None => users
    case Some(i) =>
      var newStatus := ToggledStatus(users[i].status);
      seq(|users|, j requires 0 <= j < |users| =>
        if IntToString(users[j].id) == userId then users[j].(status := Some(newStatus)) else users[j])
  }

  /** Where ids are unique, at most one user has a given id's string form. */
  lemma UniqueIdsMatchOnce(users: seq<User>, userId: string, i: nat, j: nat)
    requires forall a, b :: 0 <= a < b < |users| ==> users[a].id != users[b].id
    requires i < |users| && j < |users|
    requires IntToString(users[i].id) == userId && IntToString(users[j].id) == userId
    ensures i == j
  {
    IntToStringInjective(users[i].id, users[j].id);
  }

  /** The search for an id looks at ids only: the first match is the same in both lists. */
  lemma FindByIdReadsIds(a: seq<User>, b: seq<User>, userId: string)
    requires |a| == |b| && forall j :: 0 <= j < |a| ==> a[j].id == b[j].id
    ensures FindById(a, userId) == FindById(b, userId)
  {
  }

  /**
   * With unique ids, toggling the same user twice restores the list when
   * that user's status was "active" or "inactive".
   */
  lemma ToggleTwiceRestores(users: seq<User>, userId: string)
    requires forall a, b :: 0 <= a < b < |users| ==> users[a].id != users[b].id
    requires FindById(users, userId).Some? ==>
               var s := users[FindById(users, userId).value].status;
               s == Some("active") || s == Some("inactive")
    ensures ToggleStatus(ToggleStatus(users, userId), userId) == users
  {
    var once := ToggleStatus(users, userId);
    var twice := ToggleStatus(once, userId);
    match FindById(users, userId)
    case None =>
    case Some(i) =>
      FindByIdReadsIds(users, once, userId);
      forall j | 0 <= j < |users|
        ensures twice[j] == users[j]
      {
        if IntToString(users[j].id) == userId {
          UniqueIdsMatchOnce(users, userId, i, j);
        }
      }
  }

  // ---------------------------------------------------------------------------
  // The page

  class ManagePage {
    var users: seq<User>
    var searchTerm: string
    var filteredUsers: seq<User>
    var isLoading: bool
    var isRefreshing: bool

    /** Once the filter effect has run, the shown list is the search applied to the users. */
    ghost predicate Valid()
      reads this
    {
      filteredUsers == FilterUsers(users, searchTerm)
    }

    /** The first render: no users, an empty search, and the loading skeleton. */
    constructor()
      ensures Valid()
      ensures users == [] && searchTerm == "" && filteredUsers == [] && isLoading && !isRefreshing
    {
      users := [];
      searchTerm := "";
      filteredUsers := [];
      isLoading := true;
      isRefreshing := false;
    }

    /**
     * The effect that runs whenever the users or the search term change: the
     * shown list becomes the matching users, and nothing else changes.
     */
    method ApplySearch()
      modifies this
      ensures Valid()
      ensures users == old(users) && searchTerm == old(searchTerm)
      ensures isLoading == old(isLoading) && isRefreshing == old(isRefreshing)
    {
      filteredUsers := FilterUsers(users, searchTerm);
    }

    /**
     * `loadUsers`, followed by the filter effect: the users become the
     * response's list when the backend answers with success, and the empty
     * list otherwise. Both indicators are off afterwards.
     */
    method LoadUsers(showRefresh: bool, reply: HttpReply<GetUsersResponse>)
      modifies this
      ensures Valid()
      ensures users == if GetUsers(reply).Success? && GetUsers(reply).value.success then GetUsers(reply).value.users else []
      ensures searchTerm == old(searchTerm)
      ensures !isLoading && !isRefreshing
    {
      // the indicator for this load
      isRefreshing := isRefreshing || showRefresh;
      isLoading := isLoading || !showRefresh;
      var response := GetUsers(reply);
      var loaded := if response.Success? && response.value.success then response.value.users else [];
      users := loaded;
      // `setFilteredUsers(response.users)`, which the effect then replaces
      filteredUsers := loaded;
      isLoading := false;
      isRefreshing := false;
      ApplySearch();
    }

    /** With an empty search term the shown list is the whole list, as right after a load. */
    lemma EmptySearchShowsAll()
      requires Valid() && searchTerm == ""
      ensures filteredUsers == users
    {
      EmptySearchKeepsAll(users);
    }

    /** Typing in the search box: the shown list follows the new term. */
    method SetSearchTerm(term: string)
      modifies this
      ensures Valid()
      ensures searchTerm == term && users == old(users) && isLoading == old(isLoading) && isRefreshing == old(isRefreshing)
    {
      searchTerm := term;
      ApplySearch();
    }

    /**
     * `handleDeleteUser`: when the backend reports success the users with
     * that id string are dropped, and the list is otherwise unchanged.
     */
    method HandleDeleteUser(userId: string, reply: HttpReply<DeleteUserResponse>)
      modifies this
      ensures Valid()
      ensures users == if DeleteUser(reply).Success? && DeleteUser(reply).value.success
                       then RemoveById(old(users), userId) else old(users)
      ensures searchTerm == old(searchTerm) && isLoading == old(isLoading) && isRefreshing == old(isRefreshing)
    {
      var result := DeleteUser(reply);
      if result.Success? && result.value.success {
        users := RemoveById(users, userId);
      }
      ApplySearch();
    }

    /** `handleToggleStatus`: a local change of the matching users' status. */
    method HandleToggleStatus(userId: string)
      modifies this
      ensures Valid()
      ensures users == ToggleStatus(old(users), userId)
      ensures searchTerm == old(searchTerm) && isLoading == old(isLoading) && isRefreshing == old(isRefreshing)
    {
      users := ToggleStatus(users, userId);
      ApplySearch();
    }
  }
}
