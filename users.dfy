/**
 * The admin area's user management (UserController): the searchable, paged
 * user list, and the lockout toggle, profile edit with role replacement and
 * delete on a directory of users. Each identity-store call is reduced to
 * whether it succeeded, which the caller passes in.
 */
module Users {
  import opened Wrappers
  import opened Text
  import Paging
  import opened Filtering

  const PageSize: nat := 10

  /** Clock readings are whole seconds. */
  const OneMinute: int := 60
  /** DateTimeOffset.AddYears(100), taken as 100 years of 365.24 days. */
  const HundredYears: int := 36524 * 86400

  /** An identity user: profile fields, the end of its lockout (if one was ever set) and its roles. */
  datatype AppUser = AppUser(
    id: string,
    userName: string,
    email: string,
    phoneNumber: Option<string>,
    city: string,
    lockoutEnd: Option<int>,
    roles: set<string>)

  /** Where an admin action sends the browser. */
  datatype AdminOutcome = BackToIndex | EditForm | NotFoundPage

  datatype UserIndex = UserIndex(page: seq<AppUser>, totalItems: nat, currentPage: int)

  // ----- Index: search and paging -----

  /** The user search: term (already trimmed and lower-cased) occurs in a lower-cased field or role name. */
  predicate UserMatches(u: AppUser, term: string) {
    Contains(ToLower(u.userName), term) ||
    Contains(ToLower(u.email), term) ||
    (u.phoneNumber.Some? && Contains(ToLower(u.phoneNumber.value), term)) ||
    exists role :: role in u.roles && Contains(ToLower(role), term)
  }

  function SearchUsers(users: seq<AppUser>, term: string): (r: seq<AppUser>)
    ensures forall u :: u in r <==> u in users && UserMatches(u, term)
    ensures |r| <= |users|
  {
    if users == [] then []
    else (if UserMatches(users[0], term) then [users[0]] else []) + SearchUsers(users[1..], term)
  }

  /** The search test SearchUsers applies. */
  function UserSearch(term: string): AppUser -> bool {
    (u: AppUser) => UserMatches(u, term)
  }

  /** SearchUsers is LINQ's Where with the UserSearch test. */
  lemma {:induction false} SearchUsersIsWhere(s: seq<AppUser>, term: string)
    ensures SearchUsers(s, term) == Where(s, UserSearch(term))
  {
    if s != [] {
      SearchUsersIsWhere(s[1..], term);
    }
  }

  /** SearchUsers keeps the list's order: it distributes over concatenation and keeps or drops a single item. */
  lemma SearchUsersKeepsOrder(a: seq<AppUser>, b: seq<AppUser>, x: AppUser, term: string)
    ensures SearchUsers(a + b, term) == SearchUsers(a, term) + SearchUsers(b, term)
    ensures SearchUsers([x], term) == if UserMatches(x, term) then [x] else []
  {
    SearchUsersIsWhere(a + b, term);
    SearchUsersIsWhere(a, term);
    SearchUsersIsWhere(b, term);
    SearchUsersIsWhere([x], term);
    WhereAppend(a, b, UserSearch(term));
    WhereSingle(x, UserSearch(term));
  }

  /** SearchUsers holds each matching item once: its length is the number of matching positions. */
  lemma SearchUsersCount(s: seq<AppUser>, term: string)
    ensures |SearchUsers(s, term)| == |set i | 0 <= i < |s| && UserMatches(s[i], term)|
  {
    SearchUsersIsWhere(s, term);
    WhereCount(s, UserSearch(term));
    assert Positions(s, |s|, UserSearch(term)) == (set i | 0 <= i < |s| && UserMatches(s[i], term));
  }


  /** The term the search box yields: none when it is empty or blank, else the trimmed, lower-cased text. */
  function SearchTerm(search: Option<string>): (t: Option<string>)
    ensures t.None? <==> IsNullOrWhiteSpace(search)
    ensures t.Some? ==> LowerTrimmed(search.value, t.value)
  {
    if IsNullOrWhiteSpace(search) then None
    else
      LowerTrimIsTrimmedLower(search.value);
      Some(ToLower(Trim(search.value)))
  }

  /** term is lower-case, and is the text lower-cased with only white space cut from its ends, none left at them. */
  ghost predicate LowerTrimmed(text: string, term: string) {
    && ToLower(term) == term
    && term != [] && !IsWhiteSpace(term[0]) && !IsWhiteSpace(term[|term| - 1])
    && exists i :: OccursAt(ToLower(text), term, i) && IsBlank(ToLower(text)[..i]) && IsBlank(ToLower(text)[i + |term|..])
  }

  lemma LowerTrimIsTrimmedLower(text: string)
    requires !IsBlank(text)
    ensures LowerTrimmed(text, ToLower(Trim(text)))
  {
    TrimToLowerCommute(text);
    ToLowerIdempotent(Trim(text));
    var l := ToLower(text);
    assert !IsBlank(l) by {
      var i :| 0 <= i < |text| && !IsWhiteSpace(text[i]);
      assert l[i] == LowerChar(text[i]);
    }
  }

  function FilteredUsers(users: seq<AppUser>, search: Option<string>): seq<AppUser> {
    var term := SearchTerm(search);
    if term.None? then users else SearchUsers(users, term.value)
  }

  /** UserController.Index over the users in the order the identity store lists them. */
  function Index(users: seq<AppUser>, search: Option<string>, pageNumber: int): (r: UserIndex)
    requires pageNumber >= 1
    ensures r.totalItems == |FilteredUsers(users, search)|
    ensures r.currentPage == pageNumber
    ensures |r.page| <= PageSize
    ensures forall k :: 0 <= k < |r.page| ==>
              Paging.PageStart(pageNumber, PageSize) + k < |FilteredUsers(users, search)| &&
              r.page[k] == FilteredUsers(users, search)[Paging.PageStart(pageNumber, PageSize) + k]
    ensures forall u :: u in r.page ==> u in users
    ensures r.page == Paging.Page(FilteredUsers(users, search), pageNumber, PageSize)
  {
    var filtered := FilteredUsers(users, search);
    var page := Paging.Page(filtered, pageNumber, PageSize);
    assert forall u :: u in page ==> u in filtered;
    UserIndex(page, |filtered|, pageNumber)
  }

  /** Two search texts that differ only in letter case yield the same term. */
  lemma TermIgnoresCase(a: string, b: string)
    requires ToLower(a) == ToLower(b)
    ensures SearchTerm(Some(a)) == SearchTerm(Some(b))
  {
    TrimToLowerCommute(a);
    TrimToLowerCommute(b);
    var term := ToLower(Trim(a));
    assert term == ToLower(Trim(b));
    assert |term| == |Trim(a)| == |Trim(b)|;
  }

  /** Two searches that differ only in letter case list the same users. */
  lemma SearchIgnoresCase(users: seq<AppUser>, a: string, b: string)
    requires ToLower(a) == ToLower(b)
    ensures FilteredUsers(users, Some(a)) == FilteredUsers(users, Some(b))
  {
    TermIgnoresCase(a, b);
  }

  /** A non-blank search lists a user exactly when the trimmed, lower-cased text occurs in one of its fields or roles. */
  lemma SearchKeepsMatching(users: seq<AppUser>, u: AppUser, search: string)
    requires !IsBlank(search)
    ensures u in FilteredUsers(users, Some(search)) <==> u in users && UserMatches(u, ToLower(Trim(search)))
  {
  }

  /** Searching for a term found in one of a user's role names lists that user. */
  lemma RoleSearchFinds(users: seq<AppUser>, u: AppUser, role: string, term: string)
    requires u in users && role in u.roles && !IsBlank(term)
    requires Contains(ToLower(role), ToLower(Trim(term)))
    ensures u in FilteredUsers(users, Some(term))
  {
  }

  // ----- Lockout -----

  /** A user is locked out while its lockout end lies after now. */
  predicate IsLockedOut(u: AppUser, now: int) {
    u.lockoutEnd.Some? && u.lockoutEnd.value > now
  }

  /** The new lockout end Lockout sets: a minute ago when the user is locked out, a hundred years ahead otherwise. */
  function ToggledLockout(u: AppUser, now: int): (r: AppUser)
    ensures IsLockedOut(r, now) <==> !IsLockedOut(u, now)
    ensures IsLockedOut(u, now) ==> r.lockoutEnd == Some(now - OneMinute)
    ensures !IsLockedOut(u, now) ==> r.lockoutEnd == Some(now + HundredYears)
    ensures r.(lockoutEnd := u.lockoutEnd) == u
  {
    if IsLockedOut(u, now) then u.(lockoutEnd := Some(now - OneMinute))
    else u.(lockoutEnd := Some(now + HundredYears))
  }

  /** Toggling twice at the same instant restores the locked-out state. */
  lemma ToggleTwice(u: AppUser, now: int)
    ensures IsLockedOut(ToggledLockout(ToggledLockout(u, now), now), now) == IsLockedOut(u, now)
  {
  }

  /** A freshly locked user stays locked out for a hundred years. */
  lemma LockHolds(u: AppUser, now: int, later: int)
    requires !IsLockedOut(u, now) && now <= later < now + HundredYears
    ensures IsLockedOut(ToggledLockout(u, now), later)
  {
  }

  // ----- Edit -----

  /** The profile fields Edit copies from the form; the user name becomes the new e-mail address. */
  function WithProfile(u: AppUser, email: string, phoneNumber: Option<string>, city: string): (r: AppUser)
    ensures r.email == email && r.userName == email && r.phoneNumber == phoneNumber && r.city == city
    ensures r.id == u.id && r.lockoutEnd == u.lockoutEnd && r.roles == u.roles
  {
    u.(email := email, userName := email, phoneNumber := phoneNumber, city := city)
  }

  /** The users of the identity store, by id. */
  class UserDirectory {
    var users: map<string, AppUser>

    ghost predicate Valid()
      reads this
    {
      forall id :: id in users ==> users[id].id == id
    }

    constructor (initial: map<string, AppUser>)
      requires forall id :: id in initial ==> initial[id].id == id
      ensures Valid() && users == initial
    {
      users := initial;
    }

    /**
     * UserController.Lockout. An unknown id leads to the not-found page and
     * changes nothing; otherwise the user's lockout is toggled when the store
     * accepts the new end (setSucceeded) and the admin is sent back to the list
     * either way.
     */
    method Lockout(id: string, now: int, setSucceeded: bool) returns (outcome: AdminOutcome)
      requires Valid()
      modifies this
      ensures Valid()
      ensures id !in old(users) ==> outcome == NotFoundPage && users == old(users)
      ensures id in old(users) ==> outcome == BackToIndex
      ensures id in old(users) && setSucceeded ==>
                users == old(users)[id := ToggledLockout(old(users)[id], now)] &&
                (IsLockedOut(users[id], now) <==> !IsLockedOut(old(users)[id], now))
      ensures !setSucceeded ==> users == old(users)
    {
      if id !in users {
        return NotFoundPage;
      }
      var user := users[id];
      var newEnd: int;
      if IsLockedOut(user, now) {
        newEnd := now - OneMinute;
      } else {
        newEnd := now + HundredYears;
      }
      if setSucceeded {
        users := users[id := user.(lockoutEnd := Some(newEnd))];
      }
      return BackToIndex;
    }

    /**
     * UserController.Edit (POST). The profile is updated first; only when that
     * succeeds are the old roles removed, and only when removal succeeds is the
     * single new role added. A failed step ends the request and leaves what
     * earlier steps stored in place.
     */
    method Edit(id: string, email: string, phoneNumber: Option<string>, city: string, role: string,
                updateSucceeded: bool, removeSucceeded: bool, addSucceeded: bool)
      returns (outcome: AdminOutcome)
      requires Valid()
      modifies this
      ensures Valid()
      ensures id !in old(users) ==> outcome == NotFoundPage && users == old(users)
      ensures id in old(users) && !updateSucceeded ==> outcome == EditForm && users == old(users)
      ensures id in old(users) && updateSucceeded ==>
                var edited := WithProfile(old(users)[id], email, phoneNumber, city);
                && users.Keys == old(users).Keys
                && (forall other :: other in users && other != id ==> users[other] == old(users)[other])
                && (!removeSucceeded ==> outcome == NotFoundPage && users[id] == edited)
                && (removeSucceeded && !addSucceeded ==> outcome == NotFoundPage && users[id] == edited.(roles := {}))
                && (removeSucceeded && addSucceeded ==> outcome == BackToIndex && users[id] == edited.(roles := {role}))
      ensures outcome == BackToIndex <==> id in old(users) && updateSucceeded && removeSucceeded && addSucceeded
    {
      if id !in users {
        return NotFoundPage;
      }
      var user := WithProfile(users[id], email, phoneNumber, city);
      if !updateSucceeded {
        return EditForm;
      }
      users := users[id := user];
      if !removeSucceeded {
        return NotFoundPage;
      }
      user := user.(roles := user.roles - user.roles);
      users := users[id := user];
      if !addSucceeded {
        return NotFoundPage;
      }
      user := user.(roles := user.roles + {role});
      users := users[id := user];
      return BackToIndex;
    }

    /** UserController.Delete: removes a known user when the store's delete succeeds; otherwise nothing changes. */
    method Delete(id: string, deleteSucceeded: bool) returns (outcome: AdminOutcome)
      requires Valid()
      modifies this
      ensures Valid()
      ensures id !in old(users) ==> outcome == NotFoundPage && users == old(users)
      ensures id in old(users) && deleteSucceeded ==> outcome == BackToIndex && users == old(users) - {id}
      ensures id in old(users) && !deleteSucceeded ==> outcome == NotFoundPage && users == old(users)
    {
      if id !in users {
        return NotFoundPage;
      }
      if !deleteSucceeded {
        return NotFoundPage;
      }
      users := users - {id};
      return BackToIndex;
    }
  }
}
