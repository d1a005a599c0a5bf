/**
 * The administrator's dashboard (components/dashboards/admin-dashboard.tsx):
 * a user list filtered by name and role, a journal of operations filtered
 * by text, type and date and sorted by time, form validation gates, and the
 * handlers that call the API and then patch the local lists (append on
 * create, replace by id on edit, remove by id on delete).  API calls are
 * not modelled: each handler receives the call's outcome as a parameter and
 * returns the request it would send, `None` when it sends none.
 */
module Admin {
  import opened Types
  import opened Text
  import opened Listing
  import opened Utils
  import opened Pagination
  import Accountant
  import Api

  // ---------------------------------------------------------------------------
  // Local list updates
  // ---------------------------------------------------------------------------

  /** `list.map(s => s.id === updated.id ? updated : s)` */
  function ReplaceById<T>(s: seq<T>, id: T -> string, updated: T): (r: seq<T>)
    ensures |r| == |s|
  {
    seq(|s|, i requires 0 <= i < |s| => if id(s[i]) == id(updated) then updated else s[i])
  }

  /** `list.filter(s => s.id !== key)`: no element with the id is left. */
  function RemoveById<T(==,!new)>(s: seq<T>, id: T -> string, key: string): (r: seq<T>)
    ensures |r| <= |s|
    ensures forall i :: 0 <= i < |r| ==> id(r[i]) != key
  {
    Filter(s, (x: T) => id(x) != key)
  }

  /** No two elements share an id. */
  predicate UniqueIds<T>(s: seq<T>, id: T -> string)
  {
    forall i, j :: 0 <= i < j < |s| ==> id(s[i]) != id(s[j])
  }

  /**
   * Editing touches only the element with the edited id: the others keep
   * their place and value, and, when ids are unique, the list is the old
   * one with that one position updated (or unchanged if the id is absent).
   */
  lemma ReplaceByIdSpec<T>(s: seq<T>, id: T -> string, updated: T)
    ensures var r := ReplaceById(s, id, updated);
      && (forall i :: 0 <= i < |s| && id(s[i]) != id(updated) ==> r[i] == s[i])
      && (forall i :: 0 <= i < |s| && id(s[i]) == id(updated) ==> r[i] == updated)
      && ReplaceById(r, id, updated) == r
    ensures UniqueIds(s, id) ==>
      (forall k :: 0 <= k < |s| && id(s[k]) == id(updated) ==> ReplaceById(s, id, updated) == s[k := updated])
    ensures (forall k :: 0 <= k < |s| ==> id(s[k]) != id(updated)) ==> ReplaceById(s, id, updated) == s
  {
  }

  /**
   * Deleting removes every element with the id and keeps the others, each
   * as often as before and in order.
   */
  lemma RemoveByIdSpec<T(!new)>(s: seq<T>, id: T -> string, key: string)
    ensures var r := RemoveById(s, id, key);
      && IsSubsequence(r, s)
      && (forall x :: id(x) != key ==> multiset(r)[x] == multiset(s)[x])
    ensures (forall i :: 0 <= i < |s| ==> id(s[i]) != key) ==> RemoveById(s, id, key) == s
  {
    FilterContents(s, (x: T) => id(x) != key);
    if forall i :: 0 <= i < |s| ==> id(s[i]) != key {
      FilterAll(s, (x: T) => id(x) != key);
    }
  }

  /** Deleting what was just appended under a fresh id restores the list. */
  lemma RemoveUndoesAppend<T(!new)>(s: seq<T>, id: T -> string, x: T)
    requires forall i :: 0 <= i < |s| ==> id(s[i]) != id(x)
    ensures RemoveById(s + [x], id, id(x)) == s
  {
    var p := (y: T) => id(y) != id(x);
    FilterAppend(s, [x], p);
    FilterAll(s, p);
    FilterSingleton(x, p);
  }

  // ---------------------------------------------------------------------------
  // The user list
  // ---------------------------------------------------------------------------

  /** `roleFilter === "all" || user.role === roleFilter`, with the name search. */
  function UserPasses(term: string, roleFilter: string): User -> bool
  {
    (u: User) => Matches(FullName(u.surname, u.name, u.patronymic), term)
      && (roleFilter == "all" || u.role == roleFilter)
  }

  /**
   * `filteredUsers`: only users whose name contains the term and whose role
   * is the selected one; an empty search with "all" shows every user.
   */
  function FilteredUsers(users: seq<User>, term: string, roleFilter: string): (r: seq<User>)
    ensures |r| <= |users|
    ensures forall i :: 0 <= i < |r| ==>
      Matches(FullName(r[i].surname, r[i].name, r[i].patronymic), term)
      && (roleFilter == "all" || r[i].role == roleFilter)
    ensures term == [] && roleFilter == "all" ==> r == users
  {
    if term == [] && roleFilter == "all" then
      assert forall i :: 0 <= i < |users| ==> UserPasses(term, roleFilter)(users[i]);
      FilterAll(users, UserPasses(term, roleFilter));
      Filter(users, UserPasses(term, roleFilter))
    else
      Filter(users, UserPasses(term, roleFilter))
  }

  /**
   * The user list keeps, in order, exactly the users whose name contains the
   * term and whose role is the selected one; with "all" it is the same
   * name search as the accountant's student list.
   */
  lemma FilteredUsersSpec(users: seq<User>, term: string, roleFilter: string)
    ensures var r := FilteredUsers(users, term, roleFilter);
      && IsSubsequence(r, users)
      && (forall u :: multiset(r)[u] == if UserPasses(term, roleFilter)(u) then multiset(users)[u] else 0)
    ensures roleFilter == "all" ==> FilteredUsers(users, term, roleFilter) == Accountant.FilteredStudents(users, term)
  {
    FilterContents(users, UserPasses(term, roleFilter));
    if roleFilter == "all" {
      FilterExt(users, UserPasses(term, roleFilter), Accountant.NameMatches(term));
    }
  }

  // ---------------------------------------------------------------------------
  // The journal of operations
  // ---------------------------------------------------------------------------

  /** The date filter values that consult the clock. */
  predicate IsPeriod(dateFilter: string)
  {
    dateFilter == "today" || dateFilter == "week" || dateFilter == "month"
  }

  /**
   * The text, type and date tests of one operation.  `withinPeriod(f, t)`
   * stands for the clock-dependent test of timestamp `t` against the period
   * `f`; "all" and any value other than a period impose nothing.
   */
  function OperationPasses(term: string, typeFilter: string, dateFilter: string,
                           withinPeriod: (string, int) -> bool): (pass: Operation -> bool)
    ensures term == [] && typeFilter == "all" && !IsPeriod(dateFilter) ==> forall o :: pass(o)
  {
    var pass := (o: Operation) =>
      && (Matches(o.comment, term)
          || Matches(FullName(o.initiator.surname, o.initiator.name, o.initiator.patronymic), term))
      && (typeFilter == "all" || o.opType == typeFilter)
      && (!IsPeriod(dateFilter) || withinPeriod(dateFilter, o.createdAt));
    assert term == [] ==> forall o: Operation :: Matches(o.comment, term);
    pass
  }

  function OperationTime(o: Operation): int { o.createdAt }

  /** `filteredOperations`: some of the operations, in time order for the direction. */
  function OperationsView(operations: seq<Operation>, term: string, typeFilter: string, dateFilter: string,
                          withinPeriod: (string, int) -> bool, direction: SortDirection): (r: seq<Operation>)
    ensures |r| <= |operations|
    ensures SortedBy(r, OperationTime, direction)
  {
    SortBySorted(Filter(operations, OperationPasses(term, typeFilter, dateFilter, withinPeriod)), OperationTime, direction);
    SortBy(Filter(operations, OperationPasses(term, typeFilter, dateFilter, withinPeriod)), OperationTime, direction)
  }

  /**
   * The journal is a permutation of the passing operations, in time order
   * for the direction, with operations of the same instant in list order.
   */
  lemma OperationsViewSpec(operations: seq<Operation>, term: string, typeFilter: string, dateFilter: string,
                           withinPeriod: (string, int) -> bool, direction: SortDirection, k: int)
    ensures var pass := OperationPasses(term, typeFilter, dateFilter, withinPeriod);
      var r := OperationsView(operations, term, typeFilter, dateFilter, withinPeriod, direction);
      && (forall o :: multiset(r)[o] == if pass(o) then multiset(operations)[o] else 0)
      && Filter(r, WithKey(OperationTime, k)) == Filter(Filter(operations, pass), WithKey(OperationTime, k))
  {
    var pass := OperationPasses(term, typeFilter, dateFilter, withinPeriod);
    FilterContents(operations, pass);
    SortByPermutation(Filter(operations, pass), OperationTime, direction);
    SortByStable(Filter(operations, pass), OperationTime, direction, k);
  }

  /** With an empty search, type "all" and date "all" the journal lists every operation. */
  lemma OpenFiltersKeepAll(operations: seq<Operation>, withinPeriod: (string, int) -> bool, direction: SortDirection)
    ensures OperationsView(operations, "", "all", "all", withinPeriod, direction) == SortBy(operations, OperationTime, direction)
  {
    assert !IsPeriod("all") by {
      assert "all"[0] != "today"[0] && "all"[0] != "week"[0] && "all"[0] != "month"[0];
    }
    FilterAll(operations, OperationPasses("", "all", "all", withinPeriod));
  }

  /** `sortDirection === "desc" ? "asc" : "desc"` */
  function Toggled(d: SortDirection): (r: SortDirection)
    ensures r != d
  {
    if d == Desc then Asc else Desc
  }

  /**
   * Toggling twice restores the direction, and re-sorting a journal in the
   * other direction keeps operations of one instant in their list order.
   */
  lemma ToggleTwice(d: SortDirection, s: seq<Operation>, k: int)
    ensures Toggled(Toggled(d)) == d
    ensures Filter(SortBy(SortBy(s, OperationTime, d), OperationTime, Toggled(d)), WithKey(OperationTime, k))
      == Filter(s, WithKey(OperationTime, k))
  {
    SortByStable(SortBy(s, OperationTime, d), OperationTime, Toggled(d), k);
    SortByStable(s, OperationTime, d, k);
  }

  // ---------------------------------------------------------------------------
  // Validation
  // ---------------------------------------------------------------------------

  const PhoneErrorText: string := "Введите корректный номер телефона"
  const PasswordErrorText: string := "Пароль должен содержать минимум 8 символов"
  const MinPasswordLength: nat := 8

  /** The phone error shown under the field for a formatted phone. */
  function PhoneMessage(formatted: string): string
  {
    if formatted != [] && !IsValidPhoneNumber(formatted) then PhoneErrorText else []
  }

  /** The password error shown under the field. */
  function PasswordMessage(password: string): string
  {
    if password != [] && |password| < MinPasswordLength then PasswordErrorText else []
  }

  /**
   * Typing a phone shows the error exactly when some digit was typed but
   * fewer than eleven survive normalisation.
   */
  lemma PhoneMessageSpec(value: string)
    ensures PhoneMessage(FormattedPhone(value)) != [] <==>
      DigitsOf(value) != [] && |NormalizedDigits(value)| < PhoneDigits
  {
    ValidAfterFormat(value);
  }

  /** The password error shows exactly for a non-empty password under eight characters. */
  lemma PasswordMessageSpec(password: string)
    ensures PasswordMessage(password) != [] <==> 0 < |password| < MinPasswordLength
    ensures PasswordMessage(password) != [] ==> PasswordMessage(password) == PasswordErrorText
  {
  }

  /** The create-user gate: a valid phone, then a password of at least eight characters. */
  predicate CreateAllowed(form: UserCreate)
  {
    IsValidPhoneNumber(form.phone) && |form.password| >= MinPasswordLength
  }

  /**
   * The field messages and the gate disagree on empty fields: an untouched
   * form shows no error under either field, yet the gate refuses it.
   */
  lemma EmptyFormSilentButRefused()
    ensures PhoneMessage("") == [] && PasswordMessage("") == []
    ensures !CreateAllowed(UserCreate("", "", "", StudentRole, "", "", ""))
  {
  }

  /** `getRoleName` of the user table. */
  function RoleName(role: string): (r: string)
    ensures role == StudentRole ==> r == "Студент"
    ensures role == ObserverRole ==> r == "Наблюдатель"
    ensures role == AccountantRole ==> r == "Бухгалтер"
    ensures role == AdminRole ==> r == "Администратор"
    ensures role !in {StudentRole, ObserverRole, AccountantRole, AdminRole} ==> r == role
  {
    if role == StudentRole then "Студент"
    else if role == ObserverRole then "Наблюдатель"
    else if role == AccountantRole then "Бухгалтер"
    else if role == AdminRole then "Администратор"
    else role
  }

  /** The four labels are different, so the label tells the role. */
  lemma RoleNamesDistinct()
    ensures var labels := [RoleName(StudentRole), RoleName(ObserverRole), RoleName(AccountantRole), RoleName(AdminRole)];
      forall i, j :: 0 <= i < j < 4 ==> labels[i] != labels[j]
  {
    assert "Студент"[0] != "Наблюдатель"[0] && "Студент"[0] != "Бухгалтер"[0] && "Студент"[0] != "Администратор"[0];
    assert "Наблюдатель"[0] != "Бухгалтер"[0] && "Наблюдатель"[0] != "Администратор"[0];
    assert "Бухгалтер"[0] != "Администратор"[0];
  }

  // ---------------------------------------------------------------------------
  // The dashboard's state and handlers
  // ---------------------------------------------------------------------------

  /** The outcome of an API call: the value it resolved to, or a thrown error. */
  datatype Outcome<T> = Resolved(value: T) | Threw

  /**
   * The journal after a handler's closing `getOperations()`.  The handler
   * stores whatever the fetch returns, which is `[]` for any failed
   * response.  The fetch returns `response.json()` unawaited, so an OK
   * response whose body does not parse rejects past the fetcher's `catch`
   * into the handler's: the journal is then left as it was, while the
   * updates the handler made before the refetch stand.
   */
  function Refetched(journal: seq<Operation>, hasDocument: bool, response: Api.Response<seq<Operation>>)
    : (r: seq<Operation>)
    ensures response.NetworkError? || !Api.IsOk(response.status) ==> r == []
    ensures response.Response? && Api.IsOk(response.status) ==>
      r == if response.body.Some? then response.body.value else journal
  {
    match Api.FetchList(hasDocument, response).result
    case Returned(fetched) => fetched
    case Rejected => journal
  }

  const EmptyUserForm: UserCreate := UserCreate("", "", "", StudentRole, "", "", "")

  class AdminDashboard {
    var users: seq<User>
    var groups: seq<Group>
    var operations: seq<Operation>
    var searchTerm: string
    var roleFilter: string
    var operationFilter: string
    var dateFilter: string
    var sortDirection: SortDirection
    var currentPage: int
    var phoneError: string
    var passwordError: string
    var newUserForm: UserCreate
    var editUserForm: UserEdit
    var newGroupForm: string
    var editGroupForm: string
    var newSemesterForm: string
    var editSemesterForm: string
    var selectedUser: Option<User>
    var selectedGroup: Option<Group>
    var selectedSemester: Option<Semester>
    var selectedUserForGroup: Option<User>
    var addToGroupForm: string
    var isNewUserOpen: bool
    var isEditUserOpen: bool
    var isNewGroupOpen: bool
    var isEditGroupOpen: bool
    var isNewSemesterOpen: bool
    var isEditSemesterOpen: bool
    var isAddToGroupOpen: bool

    /** The initial state: empty lists and forms, filters "all", newest first, page 1. */
    constructor()
      ensures users == [] && groups == [] && operations == []
      ensures searchTerm == [] && roleFilter == "all" && operationFilter == "all" && dateFilter == "all"
      ensures sortDirection == Desc && currentPage == 1
      ensures phoneError == [] && passwordError == []
      ensures newUserForm == EmptyUserForm && editUserForm == UserEdit("", "", "", "")
      ensures newGroupForm == [] && editGroupForm == [] && newSemesterForm == [] && editSemesterForm == []
      ensures addToGroupForm == []
      ensures selectedUser.None? && selectedGroup.None? && selectedSemester.None? && selectedUserForGroup.None?
      ensures !isNewUserOpen && !isEditUserOpen && !isNewGroupOpen && !isEditGroupOpen
      ensures !isNewSemesterOpen && !isEditSemesterOpen && !isAddToGroupOpen
    {
      users, groups, operations := [], [], [];
      searchTerm, roleFilter, operationFilter, dateFilter := [], "all", "all", "all";
      sortDirection, currentPage := Desc, 1;
      phoneError, passwordError := [], [];
      newUserForm := EmptyUserForm;
      editUserForm := UserEdit("", "", "", "");
      newGroupForm, editGroupForm, newSemesterForm, editSemesterForm, addToGroupForm := [], [], [], [], [];
      selectedUser, selectedGroup, selectedSemester, selectedUserForGroup := None, None, None, None;
      isNewUserOpen, isEditUserOpen, isNewGroupOpen, isEditGroupOpen := false, false, false, false;
      isNewSemesterOpen, isEditSemesterOpen, isAddToGroupOpen := false, false, false;
    }

    /** `filteredUsers` of the current state: with no search and "all", every user. */
    function UsersView(): (r: seq<User>)
      reads this
      ensures |r| <= |users|
      ensures searchTerm == [] && roleFilter == "all" ==> r == users
    {
      FilteredUsers(users, searchTerm, roleFilter)
    }

    /** `filteredOperations` of the current state, in time order for `sortDirection`. */
    function JournalView(withinPeriod: (string, int) -> bool): (r: seq<Operation>)
      reads this
      ensures |r| <= |operations|
      ensures SortedBy(r, OperationTime, sortDirection)
    {
      OperationsView(operations, searchTerm, operationFilter, dateFilter, withinPeriod, sortDirection)
    }

    /**
     * `paginatedOperations`: at most ten operations, and some whenever the
     * current page is one of the journal's pages.
     */
    function JournalPage(withinPeriod: (string, int) -> bool): (r: seq<Operation>)
      reads this
      ensures |r| <= ItemsPerPage
      ensures 1 <= currentPage <= TotalPages(|JournalView(withinPeriod)|) ==> r != []
    {
      if 1 <= currentPage <= TotalPages(|JournalView(withinPeriod)|) then
        PageInRange(JournalView(withinPeriod), currentPage);
        Page(JournalView(withinPeriod), currentPage)
      else
        Page(JournalView(withinPeriod), currentPage)
    }

    /** `renderPagination`: the navigator's rules applied to the journal. */
    function JournalControls(withinPeriod: (string, int) -> bool): (r: Option<NavButtons>)
      reads this
      ensures r.None? <==> |JournalView(withinPeriod)| <= ItemsPerPage
    {
      Controls(currentPage, TotalPages(|JournalView(withinPeriod)|))
    }

    /**
     * `filteredOperations` as the source computes it: filter into a fresh
     * array, then sort that array in place.
     */
    method FilteredOperations(withinPeriod: (string, int) -> bool) returns (result: seq<Operation>)
      ensures result == JournalView(withinPeriod)
    {
      var filtered := Filter(operations, OperationPasses(searchTerm, operationFilter, dateFilter, withinPeriod));
      var a := new Operation[|filtered|](i requires 0 <= i < |filtered| => filtered[i]);
      assert a[..] == filtered;
      SortInPlace(a, OperationTime, sortDirection);
      result := a[..];
    }

    /** One search field serves both the user tab and the journal tab. */
    method SetSearchTerm(term: string)
      modifies this`searchTerm
      ensures searchTerm == term
    {
      searchTerm := term;
    }

    method ToggleSortDirection()
      modifies this`sortDirection
      ensures sortDirection == Toggled(old(sortDirection))
    {
      sortDirection := if sortDirection == Desc then Asc else Desc;
    }

    /** A click on a navigation button: a disabled button does nothing. */
    method Navigate(button: NavButton)
      modifies this`currentPage
      ensures currentPage == if button.disabled then old(currentPage) else button.target
    {
      if !button.disabled {
        currentPage := button.target;
      }
    }

    /** The role select of the user tab; the page is not reset. */
    method SetRoleFilter(role: string)
      modifies this`roleFilter
      ensures roleFilter == role
    {
      roleFilter := role;
    }

    /** The type select of the journal; the page is not reset. */
    method SetOperationFilter(opType: string)
      modifies this`operationFilter
      ensures operationFilter == opType
    {
      operationFilter := opType;
    }

    /** The period select of the journal; the page is not reset. */
    method SetDateFilter(period: string)
      modifies this`dateFilter
      ensures dateFilter == period
    {
      dateFilter := period;
    }

    /** The three "add" buttons only open their dialogs, keeping whatever the forms hold. */
    method OpenNewUser()
      modifies this`isNewUserOpen
      ensures isNewUserOpen
    {
      isNewUserOpen := true;
    }

    method OpenNewGroup()
      modifies this`isNewGroupOpen
      ensures isNewGroupOpen
    {
      isNewGroupOpen := true;
    }

    method OpenNewSemester()
      modifies this`isNewSemesterOpen
      ensures isNewSemesterOpen
    {
      isNewSemesterOpen := true;
    }

    /** `handlePhoneChange` on the create form: format, store, flag. */
    method NewUserPhoneChange(value: string)
      modifies this`newUserForm, this`phoneError
      ensures newUserForm == old(newUserForm).(phone := FormattedPhone(value))
      ensures phoneError == PhoneMessage(FormattedPhone(value))
    {
      var formatted := FormatPhoneNumber(value);
      newUserForm := newUserForm.(phone := formatted);
      phoneError := PhoneMessage(formatted);
    }

    /** `handlePhoneChange` on the edit form. */
    method EditUserPhoneChange(value: string)
      modifies this`editUserForm, this`phoneError
      ensures editUserForm == old(editUserForm).(phone := FormattedPhone(value))
      ensures phoneError == PhoneMessage(FormattedPhone(value))
    {
      var formatted := FormatPhoneNumber(value);
      editUserForm := editUserForm.(phone := formatted);
      phoneError := PhoneMessage(formatted);
    }

    /** `handlePasswordChange` */
    method PasswordChange(password: string)
      modifies this`newUserForm, this`passwordError
      ensures newUserForm == old(newUserForm).(password := password)
      ensures passwordError == PasswordMessage(password)
    {
      newUserForm := newUserForm.(password := password);
      passwordError := PasswordMessage(password);
    }

    /**
     * `handleCreateUser`: no request unless the gate passes; on success the
     * new user goes last, the dialog closes, the form resets and the journal
     * is refetched; a failed call changes nothing.
     */
    method CreateUser(created: Outcome<User>, hasDocument: bool,
                      operationsResponse: Api.Response<seq<Operation>>) returns (request: Option<UserCreate>)
      modifies this`users, this`isNewUserOpen, this`newUserForm, this`passwordError, this`operations
      ensures request == if CreateAllowed(old(newUserForm)) then Some(old(newUserForm)) else None
      ensures request.Some? && created.Resolved? ==>
        && users == old(users) + [created.value]
        && !isNewUserOpen && newUserForm == EmptyUserForm && passwordError == []
        && operations == Refetched(old(operations), hasDocument, operationsResponse)
      ensures request.None? || created.Threw? ==>
        && users == old(users) && isNewUserOpen == old(isNewUserOpen) && newUserForm == old(newUserForm)
        && passwordError == old(passwordError) && operations == old(operations)
    {
      if !IsValidPhoneNumber(newUserForm.phone) {
        return None;
      }
      if |newUserForm.password| < MinPasswordLength {
        return None;
      }
      request := Some(newUserForm);
      if created.Resolved? {
        users := users + [created.value];
        isNewUserOpen := false;
        newUserForm := EmptyUserForm;
        passwordError := [];
        operations := Refetched(operations, hasDocument, operationsResponse);
      }
    }

    /**
     * `handleEditUser`: nothing without a selected user or with an invalid
     * phone; on success the user with the returned id is replaced.
     */
    method EditUser(updated: Outcome<User>, hasDocument: bool,
                    operationsResponse: Api.Response<seq<Operation>>) returns (request: Option<(string, UserEdit)>)
      modifies this`users, this`isEditUserOpen, this`operations
      ensures request == if old(selectedUser).Some? && IsValidPhoneNumber(old(editUserForm).phone)
        then Some((old(selectedUser).value.id, old(editUserForm))) else None
      ensures request.Some? && updated.Resolved? ==>
        users == ReplaceById(old(users), UserId, updated.value) && !isEditUserOpen
        && operations == Refetched(old(operations), hasDocument, operationsResponse)
      ensures request.None? || updated.Threw? ==>
        users == old(users) && isEditUserOpen == old(isEditUserOpen) && operations == old(operations)
    {
      if selectedUser.None? {
        return None;
      }
      if !IsValidPhoneNumber(editUserForm.phone) {
        return None;
      }
      request := Some((selectedUser.value.id, editUserForm));
      if updated.Resolved? {
        users := ReplaceById(users, UserId, updated.value);
        isEditUserOpen := false;
        operations := Refetched(operations, hasDocument, operationsResponse);
      }
    }

    /** `handleDeleteUser`: asks for confirmation; on success every user with the id is dropped. */
    method DeleteUser(userId: string, confirmed: bool, deleted: Outcome<()>, hasDocument: bool,
                      operationsResponse: Api.Response<seq<Operation>>)
      returns (request: Option<string>)
      modifies this`users, this`operations
      ensures request == if confirmed then Some(userId) else None
      ensures request.Some? && deleted.Resolved? ==>
        users == RemoveById(old(users), UserId, userId)
        && operations == Refetched(old(operations), hasDocument, operationsResponse)
      ensures request.None? || deleted.Threw? ==> users == old(users) && operations == old(operations)
    {
      if !confirmed {
        return None;
      }
      request := Some(userId);
      if deleted.Resolved? {
        users := RemoveById(users, UserId, userId);
        operations := Refetched(operations, hasDocument, operationsResponse);
      }
    }

    /** `handleCreateGroup`: always sends the name; on success the group goes last. */
    method CreateGroup(created: Outcome<Group>, hasDocument: bool,
                       operationsResponse: Api.Response<seq<Operation>>) returns (request: string)
      modifies this`groups, this`isNewGroupOpen, this`newGroupForm, this`operations
      ensures request == old(newGroupForm)
      ensures created.Resolved? ==>
        groups == old(groups) + [created.value] && !isNewGroupOpen && newGroupForm == []
        && operations == Refetched(old(operations), hasDocument, operationsResponse)
      ensures created.Threw? ==>
        && groups == old(groups) && isNewGroupOpen == old(isNewGroupOpen)
        && newGroupForm == old(newGroupForm) && operations == old(operations)
    {
      request := newGroupForm;
      if created.Resolved? {
        groups := groups + [created.value];
        isNewGroupOpen := false;
        newGroupForm := [];
        operations := Refetched(operations, hasDocument, operationsResponse);
      }
    }

    /** `handleEditGroup`: nothing without a selected group; on success the group with the returned id is replaced. */
    method EditGroup(updated: Outcome<Group>, hasDocument: bool,
                     operationsResponse: Api.Response<seq<Operation>>) returns (request: Option<(string, string)>)
      modifies this`groups, this`isEditGroupOpen, this`operations
      ensures request == if old(selectedGroup).Some? then Some((old(selectedGroup).value.id, old(editGroupForm))) else None
      ensures request.Some? && updated.Resolved? ==>
        groups == ReplaceById(old(groups), GroupId, updated.value) && !isEditGroupOpen
        && operations == Refetched(old(operations), hasDocument, operationsResponse)
      ensures request.None? || updated.Threw? ==>
        groups == old(groups) && isEditGroupOpen == old(isEditGroupOpen) && operations == old(operations)
    {
      if selectedGroup.None? {
        return None;
      }
      request := Some((selectedGroup.value.id, editGroupForm));
      if updated.Resolved? {
        groups := ReplaceById(groups, GroupId, updated.value);
        isEditGroupOpen := false;
        operations := Refetched(operations, hasDocument, operationsResponse);
      }
    }

    /** `handleDeleteGroup`: asks for confirmation; on success every group with the id is dropped. */
    method DeleteGroup(groupId: string, confirmed: bool, deleted: Outcome<()>, hasDocument: bool,
                       operationsResponse: Api.Response<seq<Operation>>)
      returns (request: Option<string>)
      modifies this`groups, this`operations
      ensures request == if confirmed then Some(groupId) else None
      ensures request.Some? && deleted.Resolved? ==>
        groups == RemoveById(old(groups), GroupId, groupId)
        && operations == Refetched(old(operations), hasDocument, operationsResponse)
      ensures request.None? || deleted.Threw? ==> groups == old(groups) && operations == old(operations)
    {
      if !confirmed {
        return None;
      }
      request := Some(groupId);
      if deleted.Resolved? {
        groups := RemoveById(groups, GroupId, groupId);
        operations := Refetched(operations, hasDocument, operationsResponse);
      }
    }

    /**
     * `handleCreateSemester`: the semester list belongs to the enclosing
     * page, which is reloaded; here only the dialog, the form and the
     * journal change, and only on success.
     */
    method CreateSemester(created: Outcome<Semester>, hasDocument: bool,
                          operationsResponse: Api.Response<seq<Operation>>) returns (request: string)
      modifies this`isNewSemesterOpen, this`newSemesterForm, this`operations
      ensures request == old(newSemesterForm)
      ensures created.Resolved? ==>
        !isNewSemesterOpen && newSemesterForm == [] && operations == Refetched(old(operations), hasDocument, operationsResponse)
      ensures created.Threw? ==>
        isNewSemesterOpen == old(isNewSemesterOpen) && newSemesterForm == old(newSemesterForm) && operations == old(operations)
    {
      request := newSemesterForm;
      if created.Resolved? {
        isNewSemesterOpen := false;
        newSemesterForm := [];
        operations := Refetched(operations, hasDocument, operationsResponse);
      }
    }

    /** `handleEditSemester`: nothing without a selected semester; sends the form's name; on success the dialog closes. */
    method EditSemester(updated: Outcome<Semester>, hasDocument: bool,
                        operationsResponse: Api.Response<seq<Operation>>) returns (request: Option<(string, string)>)
      modifies this`isEditSemesterOpen, this`operations
      ensures request == if old(selectedSemester).Some?
        then Some((old(selectedSemester).value.id, old(editSemesterForm))) else None
      ensures request.Some? && updated.Resolved? ==>
        !isEditSemesterOpen && operations == Refetched(old(operations), hasDocument, operationsResponse)
      ensures request.None? || updated.Threw? ==>
        isEditSemesterOpen == old(isEditSemesterOpen) && operations == old(operations)
    {
      if selectedSemester.None? {
        return None;
      }
      request := Some((selectedSemester.value.id, editSemesterForm));
      if updated.Resolved? {
        isEditSemesterOpen := false;
        operations := Refetched(operations, hasDocument, operationsResponse);
      }
    }

    /** `handleDeleteSemester`: asks for confirmation; on success the journal is refetched. */
    method DeleteSemester(semesterId: string, confirmed: bool, deleted: Outcome<()>, hasDocument: bool,
                          operationsResponse: Api.Response<seq<Operation>>)
      returns (request: Option<string>)
      modifies this`operations
      ensures request == if confirmed then Some(semesterId) else None
      ensures request.Some? && deleted.Resolved? ==>
        operations == Refetched(old(operations), hasDocument, operationsResponse)
      ensures request.None? || deleted.Threw? ==> operations == old(operations)
    {
      if !confirmed {
        return None;
      }
      request := Some(semesterId);
      if deleted.Resolved? {
        operations := Refetched(operations, hasDocument, operationsResponse);
      }
    }

    /**
     * `handleAddToGroup`: nothing without a selected user.  After the call
     * the users are refetched with `getAllUsers` (given here by its HTTP
     * response) and the groups with `getGroups`; whatever the user fetch
     * settles to is stored, so a failed fetch, which `getAllUsers` turns
     * into `[]`, empties the list.  Only a thrown error — from the call,
     * from an unparsable user list, or from `getGroups` — leaves the lists.
     */
    method AddToGroup(added: Outcome<()>, usersResponse: Api.Response<seq<User>>, hasDocument: bool,
                      fetchedGroups: Outcome<seq<Group>>, operationsResponse: Api.Response<seq<Operation>>)
      returns (request: Option<(string, string)>)
      modifies this`users, this`groups, this`isAddToGroupOpen, this`operations
      ensures request == if old(selectedUserForGroup).Some?
        then Some((old(addToGroupForm), old(selectedUserForGroup).value.id)) else None
      ensures var fetched := Api.FetchList(hasDocument, usersResponse).result;
        request.Some? && added.Resolved? && fetched.Returned? && fetchedGroups.Resolved? ==>
          && users == fetched.value && groups == fetchedGroups.value
          && !isAddToGroupOpen && operations == Refetched(old(operations), hasDocument, operationsResponse)
      ensures (request.Some? && added.Resolved? && fetchedGroups.Resolved? &&
               (usersResponse.NetworkError? || !Api.IsOk(usersResponse.status))) ==>
          users == []
      ensures var fetched := Api.FetchList(hasDocument, usersResponse).result;
        request.None? || added.Threw? || fetched.Rejected? || fetchedGroups.Threw? ==>
          && users == old(users) && groups == old(groups)
          && isAddToGroupOpen == old(isAddToGroupOpen) && operations == old(operations)
    {
      if selectedUserForGroup.None? {
        return None;
      }
      request := Some((addToGroupForm, selectedUserForGroup.value.id));
      var fetched := Api.FetchList(hasDocument, usersResponse).result;
      if added.Resolved? && fetched.Returned? && fetchedGroups.Resolved? {
        users := fetched.value;
        groups := fetchedGroups.value;
        isAddToGroupOpen := false;
        operations := Refetched(operations, hasDocument, operationsResponse);
      }
    }

    /**
     * `handleRemoveFromGroup`: the same refetch as `handleAddToGroup`, so a
     * failed user fetch after a successful removal empties the user list.
     */
    method RemoveFromGroup(userId: string, removed: Outcome<()>, usersResponse: Api.Response<seq<User>>,
                           hasDocument: bool, fetchedGroups: Outcome<seq<Group>>,
                           operationsResponse: Api.Response<seq<Operation>>)
      returns (request: string)
      modifies this`users, this`groups, this`operations
      ensures request == userId
      ensures var fetched := Api.FetchList(hasDocument, usersResponse).result;
        removed.Resolved? && fetched.Returned? && fetchedGroups.Resolved? ==>
          users == fetched.value && groups == fetchedGroups.value
          && operations == Refetched(old(operations), hasDocument, operationsResponse)
      ensures (removed.Resolved? && fetchedGroups.Resolved? &&
               (usersResponse.NetworkError? || !Api.IsOk(usersResponse.status))) ==>
          users == []
      ensures var fetched := Api.FetchList(hasDocument, usersResponse).result;
        removed.Threw? || fetched.Rejected? || fetchedGroups.Threw? ==>
          users == old(users) && groups == old(groups) && operations == old(operations)
    {
      request := userId;
      var fetched := Api.FetchList(hasDocument, usersResponse).result;
      if removed.Resolved? && fetched.Returned? && fetchedGroups.Resolved? {
        users := fetched.value;
        groups := fetchedGroups.value;
        operations := Refetched(operations, hasDocument, operationsResponse);
      }
    }

    /**
     * The initial load: users, groups and operations are fetched together
     * and stored only if all three settle; otherwise a toast is shown and
     * the lists stay as they are.  A failed user or operation fetch yields
     * `[]` and so counts as settled.
     */
    method LoadData(hasDocument: bool, usersResponse: Api.Response<seq<User>>,
                    fetchedGroups: Outcome<seq<Group>>, operationsResponse: Api.Response<seq<Operation>>)
      modifies this`users, this`groups, this`operations
      ensures var fetchedUsers := Api.FetchList(hasDocument, usersResponse).result;
        var fetchedOperations := Api.FetchList(hasDocument, operationsResponse).result;
        if fetchedUsers.Returned? && fetchedGroups.Resolved? && fetchedOperations.Returned?
        then users == fetchedUsers.value && groups == fetchedGroups.value && operations == fetchedOperations.value
        else users == old(users) && groups == old(groups) && operations == old(operations)
      ensures (usersResponse.NetworkError? && fetchedGroups.Resolved? &&
               Api.FetchList(hasDocument, operationsResponse).result.Returned?) ==>
          users == [] && groups == fetchedGroups.value
    {
      var fetchedUsers := Api.FetchList(hasDocument, usersResponse).result;
      var fetchedOperations := Api.FetchList(hasDocument, operationsResponse).result;
      if fetchedUsers.Returned? && fetchedGroups.Resolved? && fetchedOperations.Returned? {
        users := fetchedUsers.value;
        groups := fetchedGroups.value;
        operations := fetchedOperations.value;
      }
    }

    /** The "Группа" button of a student row: select, prefill with the current group or "", open. */
    method OpenAddToGroup(u: User)
      modifies this`selectedUserForGroup, this`addToGroupForm, this`isAddToGroupOpen
      ensures selectedUserForGroup == Some(u) && isAddToGroupOpen
      ensures addToGroupForm == if u.groupId.Some? then u.groupId.value else ""
    {
      selectedUserForGroup := Some(u);
      addToGroupForm := if u.groupId.Some? then u.groupId.value else "";
      isAddToGroupOpen := true;
    }

    /** The edit button of a user row: select, prefill the four editable fields, open. */
    method OpenEditUser(u: User)
      modifies this`selectedUser, this`editUserForm, this`isEditUserOpen
      ensures selectedUser == Some(u) && isEditUserOpen
      ensures editUserForm == UserEdit(u.name, u.surname, u.patronymic, u.phone)
    {
      selectedUser := Some(u);
      editUserForm := UserEdit(u.name, u.surname, u.patronymic, u.phone);
      isEditUserOpen := true;
    }

    /** The edit button of a group row: select, prefill the name, open. */
    method OpenEditGroup(g: Group)
      modifies this`selectedGroup, this`editGroupForm, this`isEditGroupOpen
      ensures selectedGroup == Some(g) && editGroupForm == g.name && isEditGroupOpen
    {
      selectedGroup := Some(g);
      editGroupForm := g.name;
      isEditGroupOpen := true;
    }

    /** The edit button of a semester row: select, prefill the name, open. */
    method OpenEditSemester(sem: Semester)
      modifies this`selectedSemester, this`editSemesterForm, this`isEditSemesterOpen
      ensures selectedSemester == Some(sem) && editSemesterForm == sem.name && isEditSemesterOpen
    {
      selectedSemester := Some(sem);
      editSemesterForm := sem.name;
      isEditSemesterOpen := true;
    }

    /** The input of the edit-semester dialog. */
    method EditSemesterNameChange(name: string)
      modifies this`editSemesterForm
      ensures editSemesterForm == name
    {
      editSemesterForm := name;
    }

    /** The select of the add-to-group dialog. */
    method AddToGroupChange(groupId: string)
      modifies this`addToGroupForm
      ensures addToGroupForm == groupId
    {
      addToGroupForm := groupId;
    }
  }
}
