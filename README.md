# Tuition payments front end — a verified model of its rules

The front end of the tuition-payment service shows four dashboards. Students pay for semesters and download receipts. The accountant checks payments and exports reports. The observer (the director) reads summary statistics. The administrator manages users, groups, semesters and the journal of operations. Most of the front end is rendering and HTTP. Beneath that sits a set of small rules, and this project models them in Dafny and proves what they promise:

- **Phone numbers** (`Utils`): `formatPhoneNumber` normalises the digits to a leading 8, keeps at most eleven and lays them out as `8 (999)12-34-567`. `isValidPhoneNumber` accepts exactly eleven digits starting with 8. The formatter is a method proved against a functional specification. Its fixed point, its digit content and the accepted numbers are proved as lemmas. The administrator's form shows the placeholder `8 (999) 123-45-67`, but the formatter produces `8 (999)12-34-567`. The model follows the formatter.
- **The listing engine** (`Listing`, `Text`):
  - case-insensitive search over "surname name patronymic";
  - JavaScript's `filter` and `slice`;
  - ten-item pages and `ceil(n/10)` page counts;
  - the in-place, stable `sort` by creation time, as an insertion sort on an `array` proved equal to a stable sorting function.
- **Report aggregation** (`Report`): paid and unpaid counts, the rounded percentage, semester totals and population totals. The accountant's dashboard, the observer's dashboard and the spreadsheet export each compute these separately. The model defines them once and proves every call site equal to them.
- **The dashboards**:
  - `Accountant`: the flattened payment history, the filters, pagination, the five-column chunking loop and the receipt handlers.
  - `Observer`: the report table and the summary cards.
  - `Admin`: the list updates after create, edit and delete, the user and journal filters, the sort toggle and the validation gates. The initial load, the form handlers, the buttons that select a row and prefill its dialog, and the create, edit, delete and group handlers are methods on a class holding the dashboard's state.
  - `Student`: the row actions and the receipt lookup.
- **Widgets**:
  - `Pagination`: the page navigator and the rule that accepts a typed page.
  - `Payment`: the card-number grouping, field handlers, validation and the two-step dialog.
  - `Header`: the header's role labels and menu toggle.
- **The API layer** (`Api`, `Auth`, `Activity`):
  - the `getCookie` parser, which accepts a cookie name only when it occurs exactly once;
  - the rule mapping an HTTP status to a result in `getUserSelf`, `getStudents`, `getAllUsers` and `getOperations`;
  - the auth provider's `checkAuth` and `logout`;
  - the presentation of operation types.

The model follows the code in several places where its behaviour is surprising:

- After a narrower search, the accountant's page number is not reset, so a page past the end lists nobody.
- The user list and the journal share one search term.
- An untouched create-user form shows no field errors, yet submitting it is refused.
- A duplicated semester name overwrites a spreadsheet column.
- The header calls the observer "Директор", while the user table calls them "Наблюдатель".
- A duplicated cookie name reads as no cookie.
- `getAllUsers` turns every failure into `[]`. When the refetch after adding a student to a group, or removing one, fails this way, the administrator's user list is emptied.
- A 401 from `createUser` resolves to `{}`, which the administrator's dashboard appends as a user.
- A successful response whose JSON cannot be parsed escapes `getUserSelf`'s `catch`. The auth provider's own `catch` then clears the token.

The contracts in the table below state each of these.

I/O is modelled as parameters:

- An API response is a `Response(status, body)`, where a `None` body stands for a JSON parse failure, or a `NetworkError`.
- A handler's API call has an `Outcome`: it resolves or it throws. The admin handlers end with `getOperations()`. That call is given by its HTTP response, because its `response.json()` is returned unawaited: an OK body that does not parse rejects into the handler's `catch` after the handler's other updates have been made.
- The date filter's calendar test is a function parameter `withinPeriod`, and `created_at` is an integer timestamp.

## Model

| member | source | states |
|---|---|---|
| Utils.NormalizedDigits | lib/utils.ts:36-49 | at most 11 digits, empty exactly when the input has no digit, otherwise starting with 8 |
| Utils.NormalizedDigitsSpec | lib/utils.ts:39-45 | a leading 7 or 8 becomes 8, any other leading digit gets an 8 prepended, and the result is cut to 11 digits |
| Utils.FormatPhoneNumber | lib/utils.ts:34-71 | the step-by-step rewriting of `formattedNumber` returns exactly the specified formatted phone |
| Utils.LayoutDigits | lib/utils.ts:52-67 | the separator layout adds no digit and drops none |
| Utils.FormattedPhoneDigits | lib/utils.ts:34-71 | stripping non-digits from the output gives the normalised, truncated digits |
| Utils.FormattedPhone | lib/utils.ts:34-71 | the output is empty exactly when the input contains no digit, and is at most 16 characters long |
| Utils.PhoneLayout | lib/utils.ts:52-67 | the separator layout never shortens its input, is empty only for no digits, and lays out at most eleven digits in at most 16 characters |
| Utils.NormalizedDigitsFixed | lib/utils.ts:39-49 | digits already normalised are left as they are |
| Utils.IsValidPhoneNumber | lib/utils.ts:74-80 | an accepted number's digits are already normalised, and its formatted form is the full 16 characters |
| Utils.FormatPhoneIdempotent | lib/utils.ts:34-71 | formatting a formatted number changes nothing |
| Utils.ValidAfterFormat | lib/utils.ts:74-80 | a formatted number is valid exactly when eleven normalised digits survive |
| Utils.PhoneLayoutExample | lib/utils.ts:52-67 | "89991234567" is laid out as "8 (999)12-34-567" |
| Utils.SevenPrefixAccepted | lib/utils.ts:40-41 | an eleven-digit number starting with 7 is rejected as typed and accepted once formatted, with the 7 replaced by 8 |
| Text.DigitsOf | lib/utils.ts:36 | `replace(/\D/g, "")` keeps only digits and never lengthens |
| Text.DigitsOfAppend | lib/utils.ts:76 | stripping non-digits distributes over concatenation |
| Text.RemoveSpaces | components/payment-dialog.tsx:72 | `replace(/\s/g, "")` leaves no whitespace and never lengthens |
| Text.Lower | components/dashboards/accountant-dashboard.tsx:72-73 | `toLowerCase` maps every character and keeps the length |
| Text.Upper | components/payment-dialog.tsx:167 | `toUpperCase` maps every character and keeps the length |
| Text.UpperIdempotent | components/payment-dialog.tsx:167 | uppercasing twice is uppercasing once |
| Text.NatToString | components/pagination.tsx:17 | `toString` of a count gives digits denoting that number, with no leading zero |
| Text.IntToString | lib/excel-utils.ts:106-110 | `${n}` of an integer gives decimal digits denoting it, after a "-" when it is negative |
| Text.ParseInt | components/pagination.tsx:30 | `Number.parseInt` of a digit string gives its decimal value, and of "-" followed by digits the negated value |
| Text.ParseIntToString | components/pagination.tsx:21 | parsing the rendered page number gives the page back, negative numbers included |
| Text.Find | lib/api/users.ts:224 | the search behind `split` finds the first occurrence, and finds none exactly when there is none |
| Text.Split | lib/api/users.ts:224 | `split` always returns at least one piece |
| Text.SplitFirst | lib/api/users.ts:225 | the first piece of a split is a prefix holding no separator |
| Text.SplitJoin | lib/api/users.ts:224 | joining the pieces of a split with its separator rebuilds the string |
| Listing.Matches | components/dashboards/accountant-dashboard.tsx:72-73 | the empty search term matches every name |
| Listing.MatchesInfix | components/dashboards/accountant-dashboard.tsx:73 | a term matches every text that contains it |
| Listing.Filter | components/dashboards/accountant-dashboard.tsx:71-74 | `filter` keeps only passing elements and never lengthens |
| Listing.FilterContents | components/dashboards/accountant-dashboard.tsx:71-74 | `filter` is the order-preserving sublist that keeps every passing element as often as before and drops the rest |
| Listing.FilterAppend | components/dashboards/accountant-dashboard.tsx:94-98 | filtering distributes over concatenation |
| Listing.FoldLeftSum | components/dashboards/accountant-dashboard.tsx:283 | the `reduce((s, t) => s + t.amount, 0)` fold is the sum of the amounts |
| Listing.SortBy | components/dashboards/admin-dashboard.tsx:238-242 | the sort keeps the length; order, permutation and stability follow |
| Listing.SortBySorted | components/dashboards/admin-dashboard.tsx:238-242 | the sort puts the list in time order for the direction |
| Listing.SortByPermutation | components/dashboards/admin-dashboard.tsx:238-242 | the sorted list is a permutation of the input |
| Listing.SortByStable | components/dashboards/admin-dashboard.tsx:238-242 | the sort is stable: items of one instant keep their list order |
| Listing.FilterSortBy | components/dashboards/accountant-dashboard.tsx:84-98 | filtering after sorting gives the same list as sorting after filtering |
| Listing.InsertLast | components/dashboards/admin-dashboard.tsx:238-242 | one in-place insertion step puts the next element into the sorted prefix and leaves the rest of the array alone |
| Listing.SortInPlace | components/dashboards/admin-dashboard.tsx:238 | sorting the array in place leaves exactly the stable sort of its old contents |
| Listing.Page | components/dashboards/accountant-dashboard.tsx:78-81 | a page holds at most ten items |
| Listing.TotalPages | components/dashboards/accountant-dashboard.tsx:77 | `Math.ceil(n/10)`: the fewest ten-item pages that hold n items |
| Listing.PageInRange | components/dashboards/accountant-dashboard.tsx:77-81 | a page from 1 to the page count is the non-empty slice [(p-1)·10, p·10) |
| Listing.PagePastEnd | components/dashboards/accountant-dashboard.tsx:101-105 | a page past the last one, or page 0, is empty |
| Listing.PagesPrefix | components/dashboards/accountant-dashboard.tsx:101-105 | the first k pages concatenated are the first 10·k items |
| Listing.PagesCover | components/dashboards/accountant-dashboard.tsx:77-81 | pages 1 to `ceil(n/10)` concatenated reproduce the list |
| Report.TransactionBySemester | components/dashboards/accountant-dashboard.tsx:65-68 | a transaction is found exactly when the semester is paid; it is the first payment for the semester |
| Report.FindSemester | components/dashboards/student-dashboard.tsx:198 | the first semester with the id, or none exactly when no semester has it |
| Report.PaidIffFiltered | components/dashboards/accountant-dashboard.tsx:61-63 | `isSemesterPaid` (`some`) holds exactly when filtering the transactions by the semester leaves one |
| Report.PaidCount | components/dashboards/accountant-dashboard.tsx:287-289 | the paid count is at most the number of students, and positive exactly when one student paid for the semester |
| Report.TotalPaid | components/dashboards/observer-dashboard.tsx:311 | a student's `totalPaid` is the sum of their amounts, repeated payments included |
| Report.TotalAmount | components/dashboards/accountant-dashboard.tsx:283 | `totalAmount` is the sum of the students' totals |
| Report.TotalPaidStudents | components/dashboards/accountant-dashboard.tsx:282 | the students with a payment are at most all students, and there are some exactly when one student has a payment |
| Report.SemesterStats | components/dashboards/accountant-dashboard.tsx:286-303 | one statistic per semester, in order |
| Report.Percentage | components/dashboards/accountant-dashboard.tsx:300 | 0 when there are no students; otherwise 100·paid/total rounded half up |
| Report.PercentageBounds | components/dashboards/accountant-dashboard.tsx:300 | for 0 ≤ paid ≤ total the percentage lies in 0..100: it is 100 when everyone paid and 0 when nobody did or there are no students |
| Report.PaidCountBounded | components/dashboards/accountant-dashboard.tsx:281-289 | the paid count of a semester is at most `totalPaidStudents`, which is at most the number of students |
| Report.StatFor | components/dashboards/accountant-dashboard.tsx:286-303 | the statistic is for the semester, paid + unpaid = students, 0 ≤ unpaid, and the percentage lies in 0..100 (0 without students) |
| Report.SemesterAmount | components/dashboards/accountant-dashboard.tsx:290-294 | the semester total is the sum over students of their payments for that semester |
| Report.SemesterTotalsAddUp | components/dashboards/accountant-dashboard.tsx:283-302 | when semester ids are distinct and cover every payment, the semester totals add up to `totalAmount` |
| Report.ThreeStudentExample | components/dashboards/accountant-dashboard.tsx:281-303 | a three-student, two-semester example gives 2/1 paid at 67%, 1/2 at 33%, and 4000 in total |
| Accountant.FilteredStudents | components/dashboards/accountant-dashboard.tsx:71-74 | every listed student's lowercased full name contains the term, and the empty term keeps all |
| Accountant.FilteredStudentsSpec | components/dashboards/accountant-dashboard.tsx:71-74 | the filtered students are the order-preserving sublist that keeps every student whose lowercased full name contains the term, as often as before |
| Accountant.Owned | components/dashboards/accountant-dashboard.tsx:86-90 | each of a student's transactions, in order, tagged with that student |
| Accountant.Flatten | components/dashboards/accountant-dashboard.tsx:84-90 | one entry per (student, transaction): the length is the sum of the transaction counts |
| Accountant.FlattenSpec | components/dashboards/accountant-dashboard.tsx:84-90 | every entry is a transaction of a listed student tagged with that student, and every (student, transaction) pair appears |
| Accountant.AllTransactions | components/dashboards/accountant-dashboard.tsx:84-91 | the history holds every flattened entry, newest first |
| Accountant.AllTransactionsSpec | components/dashboards/accountant-dashboard.tsx:84-91 | `allTransactions` is a permutation of the flattened list, with payments of one instant in list order |
| Accountant.FilteredTransactions | components/dashboards/accountant-dashboard.tsx:94-98 | the history filter never lengthens, every listed payment's owner matches the term, and the empty term keeps all |
| Accountant.FilteredTransactionsOfFilteredStudents | components/dashboards/accountant-dashboard.tsx:94-98 | filtering the history by owner name gives exactly the history of the filtered students |
| Accountant.SemesterGroups | components/dashboards/accountant-dashboard.tsx:306-313 | the loop builds at most five non-empty chunks of `ceil(n/5)` (the last possibly shorter) whose concatenation is the semester list, and none for no semesters |
| Accountant.AccountantView.constructor | components/dashboards/accountant-dashboard.tsx:32-39 | empty search, both pages at 1, nothing selected, receipt closed |
| Accountant.AccountantView.Search | components/dashboards/accountant-dashboard.tsx:331 | typing sets the search term and nothing else, and leaves both page numbers where they were |
| Accountant.AccountantView.SetTransactionsPage | components/dashboards/accountant-dashboard.tsx:397 | the navigator sets the history page |
| Accountant.AccountantView.SetStudentsPage | components/dashboards/accountant-dashboard.tsx:497 | the navigator sets the student page |
| Accountant.AccountantView.ViewReceipt | components/dashboards/accountant-dashboard.tsx:107-116 | selects the transaction, student and semester and opens the receipt |
| Accountant.AccountantView.ViewPaymentReceipt | components/dashboards/accountant-dashboard.tsx:363-378 | a history row opens its payment with the semester looked up by id (none when unlisted) |
| Accountant.AccountantView.ViewSemesterReceipt | components/dashboards/accountant-dashboard.tsx:445-458 | a paid cell opens the first payment for the semester; an unpaid one changes nothing |
| Accountant.AccountantView.StudentsPage | components/dashboards/accountant-dashboard.tsx:76-80 | a student page holds at most ten students, and some whenever the page is one of the pages of the matching students |
| Accountant.AccountantView.TransactionsPage | components/dashboards/accountant-dashboard.tsx:99-104 | a history page holds at most ten payments, and some whenever the page is one of the pages of the matching history |
| Accountant.AccountantView.StalePageShowsNothing | components/dashboards/accountant-dashboard.tsx:77-81 | a student page left past the new last page lists nobody |
| Observer.Cell | components/dashboards/observer-dashboard.tsx:325-336 | a cell shows "paid" exactly when the student paid, with the first payment's amount, so the fallback 0 never shows |
| Observer.CellMatchesSpreadsheet | components/dashboards/observer-dashboard.tsx:327-333 | the report cell and the spreadsheet cell show the same text |
| Observer.RowOf | components/dashboards/observer-dashboard.tsx:311-343 | a row has one cell per semester |
| Observer.Rows | components/dashboards/observer-dashboard.tsx:310-344 | one row per student |
| Observer.RowTotalsAddUp | components/dashboards/observer-dashboard.tsx:311-341 | the rows' "Всего оплачено" totals add up to `totalAmount` |
| Observer.Cards | components/dashboards/observer-dashboard.tsx:262-280 | the cards show the student count, the students with a payment (at most the count, and 0 exactly when nobody paid) and the sum of all payments |
| Observer.ObserverStats | components/dashboards/observer-dashboard.tsx:217-234 | per semester: paid + unpaid = students, the percentage lies in 0..100 (0 without students), and the total sums that semester's payments |
| Pagination.Controls | components/pagination.tsx:38-75 | nothing renders exactly when there is at most one page |
| Pagination.EnabledTargetsInRange | components/pagination.tsx:42-71 | first and previous are disabled exactly on page 1 and next and last exactly on the last page; every enabled button asks for another page within range |
| Pagination.PastEndNextEnabled | components/pagination.tsx:59-74 | on a page past the end, "next" stays enabled and asks for a page further out of range |
| Pagination.AcceptedPage | components/pagination.tsx:28-36 | a page is requested exactly when the text parses as an integer from 1 to the page count, and it is that integer |
| Pagination.AcceptedPageRendered | components/pagination.tsx:30-31 | the rendered page number is accepted exactly when it is in range |
| Pagination.AcceptedPageNoDigits | components/pagination.tsx:30-31 | empty or non-numeric text is refused |
| Pagination.PageInput.constructor | components/pagination.tsx:17 | the input starts as the current page's text |
| Pagination.PageInput.Resync | components/pagination.tsx:20-22 | a page change or blur resets the input to the current page |
| Pagination.PageInput.Change | components/pagination.tsx:24-26 | typing stores the text |
| Pagination.PageInput.Submit | components/pagination.tsx:28-36 | submitting requests the accepted page, or resets the input to the current page and requests nothing |
| Admin.ReplaceById | components/dashboards/admin-dashboard.tsx:321 | editing keeps the list's length |
| Admin.ReplaceByIdSpec | components/dashboards/admin-dashboard.tsx:321 | only elements with the edited id change; with unique ids it is a single update, and with the id absent nothing changes |
| Admin.RemoveById | components/dashboards/admin-dashboard.tsx:347 | deleting never lengthens the list and leaves no element with the id |
| Admin.RemoveByIdSpec | components/dashboards/admin-dashboard.tsx:347 | deleting keeps the other elements in order, each as often as before, and changes nothing when the id is absent |
| Admin.RemoveUndoesAppend | components/dashboards/admin-dashboard.tsx:275 | deleting an element just appended under a fresh id restores the list |
| Admin.FilteredUsers | components/dashboards/admin-dashboard.tsx:193-198 | never lengthens; every listed user's name contains the term and has the filtered role (any for "all"); with no term and "all" it is the whole list |
| Admin.FilteredUsersSpec | components/dashboards/admin-dashboard.tsx:194-199 | the order-preserving sublist keeping every user whose name contains the term and whose role matches the filter, as often as before; with "all" it is the accountant's student filter |
| Admin.OperationPasses | components/dashboards/admin-dashboard.tsx:203-233 | with an empty term, type "all" and no period selected, every operation passes |
| Admin.OperationsView | components/dashboards/admin-dashboard.tsx:201-245 | the journal never lengthens and is sorted by time for the direction |
| Admin.OperationsViewSpec | components/dashboards/admin-dashboard.tsx:202-245 | the journal is a permutation of the passing operations, and operations of one instant keep their list order |
| Admin.OpenFiltersKeepAll | components/dashboards/admin-dashboard.tsx:204-235 | with an empty term and both filters at "all" every operation is listed |
| Admin.Toggled | components/dashboards/admin-dashboard.tsx:630-632 | toggling always changes the direction |
| Admin.ToggleTwice | components/dashboards/admin-dashboard.tsx:630-632 | toggling twice restores the direction, and re-sorting keeps items of one instant in order |
| Admin.PhoneMessageSpec | components/dashboards/admin-dashboard.tsx:169-179 | the phone error shows exactly when a digit was typed but fewer than eleven survive normalisation |
| Admin.PasswordMessageSpec | components/dashboards/admin-dashboard.tsx:182-191 | the password error shows exactly for a non-empty password shorter than 8 |
| Admin.EmptyFormSilentButRefused | components/dashboards/admin-dashboard.tsx:252-271 | an untouched form shows no error, yet the create gate refuses it |
| Admin.RoleName | components/dashboards/admin-dashboard.tsx:597-610 | the four roles get their labels, and any other value is returned unchanged |
| Admin.RoleNamesDistinct | components/dashboards/admin-dashboard.tsx:597-610 | the four labels differ from each other |
| Admin.AdminDashboard.constructor | components/dashboards/admin-dashboard.tsx:63-140 | empty lists and forms, filters at "all", descending sort, page 1, no dialogs open |
| Admin.AdminDashboard.UsersView | components/dashboards/admin-dashboard.tsx:193-198 | the shown users are at most all users, and all of them with no search and role "all" |
| Admin.AdminDashboard.JournalView | components/dashboards/admin-dashboard.tsx:201-245 | the shown journal is at most all operations, in time order for the current direction |
| Admin.AdminDashboard.JournalPage | components/dashboards/admin-dashboard.tsx:248-249 | a journal page holds at most ten operations, and some whenever the current page is one of the journal's pages |
| Admin.AdminDashboard.JournalControls | components/dashboards/admin-dashboard.tsx:635-636 | the journal navigator is hidden exactly when the journal fits on one page |
| Admin.AdminDashboard.FilteredOperations | components/dashboards/admin-dashboard.tsx:202-245 | filtering then sorting in place yields the journal view |
| Admin.AdminDashboard.LoadData | components/dashboards/admin-dashboard.tsx:145-166 | the lists are stored only when all three fetches settle, otherwise left as they were; a failed user fetch stores `[]` |
| Admin.AdminDashboard.SetSearchTerm | components/dashboards/admin-dashboard.tsx:716-717 | the one search term both tabs read is set |
| Admin.AdminDashboard.SetRoleFilter | components/dashboards/admin-dashboard.tsx:723 | the role select sets the role filter and leaves the page where it was |
| Admin.AdminDashboard.SetOperationFilter | components/dashboards/admin-dashboard.tsx:971 | the type select sets the type filter and leaves the page where it was |
| Admin.AdminDashboard.SetDateFilter | components/dashboards/admin-dashboard.tsx:986 | the period select sets the date filter and leaves the page where it was |
| Admin.AdminDashboard.OpenNewUser | components/dashboards/admin-dashboard.tsx:706 | the add-user button opens its dialog |
| Admin.AdminDashboard.OpenNewGroup | components/dashboards/admin-dashboard.tsx:820 | the add-group button opens its dialog |
| Admin.AdminDashboard.OpenNewSemester | components/dashboards/admin-dashboard.tsx:901 | the add-semester button opens its dialog |
| Admin.AdminDashboard.ToggleSortDirection | components/dashboards/admin-dashboard.tsx:630-632 | the direction flips |
| Admin.AdminDashboard.Navigate | components/dashboards/admin-dashboard.tsx:635-674 | an enabled button moves to its target; a disabled one changes nothing |
| Admin.AdminDashboard.NewUserPhoneChange | components/dashboards/admin-dashboard.tsx:169-179 | the new-user form stores the formatted phone and the error is recomputed |
| Admin.AdminDashboard.EditUserPhoneChange | components/dashboards/admin-dashboard.tsx:169-179 | the edit form stores the formatted phone and the error is recomputed |
| Admin.AdminDashboard.PasswordChange | components/dashboards/admin-dashboard.tsx:182-191 | stores the password and recomputes its error |
| Admin.Refetched | lib/api/activity.ts:5-30 | a handler's closing `getOperations` leaves `[]` for a network error, a 401 or another failed status, and the parsed list for an OK body; an OK body that does not parse rejects into the handler's `catch`, and the journal stays as it was |
| Admin.AdminDashboard.CreateUser | components/dashboards/admin-dashboard.tsx:252-304 | the request is sent only when the phone and then the password pass; a call that resolves has its value appended and the form reset; the journal then becomes what `getOperations` settles to, and stays as it was when that fetch rejects; a refused form or a thrown call changes nothing |
| Admin.AdminDashboard.EditUser | components/dashboards/admin-dashboard.tsx:306-340 | with a selection and a valid phone the user with that id is replaced; the journal then becomes what `getOperations` settles to, and stays as it was when that fetch rejects; otherwise no request and nothing changes |
| Admin.AdminDashboard.DeleteUser | components/dashboards/admin-dashboard.tsx:342-365 | only after confirmation are the users with the id removed; the journal then becomes what `getOperations` settles to, and stays as it was when that fetch rejects |
| Admin.AdminDashboard.CreateGroup | components/dashboards/admin-dashboard.tsx:367-390 | the new group is appended on success; the journal then becomes what `getOperations` settles to, and stays as it was when that fetch rejects |
| Admin.AdminDashboard.EditGroup | components/dashboards/admin-dashboard.tsx:392-416 | the group with the returned id is replaced on success; the journal then becomes what `getOperations` settles to, and stays as it was when that fetch rejects |
| Admin.AdminDashboard.DeleteGroup | components/dashboards/admin-dashboard.tsx:418-441 | only after confirmation are the groups with the id removed; the journal then becomes what `getOperations` settles to, and stays as it was when that fetch rejects |
| Admin.AdminDashboard.CreateSemester | components/dashboards/admin-dashboard.tsx:443-471 | the form's name is requested, and on success the dialog closes; the journal then becomes what `getOperations` settles to, and stays as it was when that fetch rejects |
| Admin.AdminDashboard.EditSemester | components/dashboards/admin-dashboard.tsx:473-502 | with a selected semester its id and the edit form's name are requested; on success the dialog closes; the journal then becomes what `getOperations` settles to, and stays as it was when that fetch rejects |
| Admin.AdminDashboard.DeleteSemester | components/dashboards/admin-dashboard.tsx:504-532 | only after confirmation is the semester deleted; the journal then becomes what `getOperations` settles to, and stays as it was when that fetch rejects |
| Admin.AdminDashboard.AddToGroup | components/dashboards/admin-dashboard.tsx:534-565 | with a selected student the form's group and the student are requested; after the call the users become whatever `getAllUsers` settles to, so a failed fetch leaves `[]`; only a thrown call, an unparsable user list or a thrown `getGroups` leaves the lists; the journal then becomes what `getOperations` settles to, and stays as it was when that fetch rejects |
| Admin.AdminDashboard.RemoveFromGroup | components/dashboards/admin-dashboard.tsx:567-594 | after the call the users become whatever `getAllUsers` settles to, so a failed fetch leaves `[]`; only a thrown call, an unparsable user list or a thrown `getGroups` leaves the lists; the journal then becomes what `getOperations` settles to, and stays as it was when that fetch rejects |
| Admin.AdminDashboard.OpenAddToGroup | components/dashboards/admin-dashboard.tsx:769-772 | selects the student, prefills the form with their group id or "" when they have none, and opens the dialog |
| Admin.AdminDashboard.OpenEditUser | components/dashboards/admin-dashboard.tsx:782-790 | selects the user, prefills name, surname, patronymic and phone, and opens the dialog |
| Admin.AdminDashboard.OpenEditGroup | components/dashboards/admin-dashboard.tsx:868-871 | selects the group, prefills its name and opens the dialog |
| Admin.AdminDashboard.OpenEditSemester | components/dashboards/admin-dashboard.tsx:927-930 | selects the semester, prefills its name and opens the dialog |
| Admin.AdminDashboard.EditSemesterNameChange | components/dashboards/admin-dashboard.tsx:1302 | the edit-semester input stores the typed name |
| Admin.AdminDashboard.AddToGroupChange | components/dashboards/admin-dashboard.tsx:1326 | the group select stores the chosen group id |
| Student.StudentView.constructor | components/dashboards/student-dashboard.tsx:17-21 | nothing open and nothing selected |
| Student.StudentView.PayClick | components/dashboards/student-dashboard.tsx:33-36 | selects the semester and opens the payment dialog |
| Student.StudentView.ReceiptClick | components/dashboards/student-dashboard.tsx:38-44 | a paid semester selects its first payment and opens the receipt; otherwise nothing changes |
| Student.RowActionFor | components/dashboards/student-dashboard.tsx:117-125 | a row offers the receipt exactly when a payment exists, and otherwise payment; the payment shown is for that semester |
| Student.StudentView.HistoryReceiptClick | components/dashboards/student-dashboard.tsx:164-171 | a history row's button selects that payment and opens the receipt |
| Student.StudentView.ReceiptSemester | components/dashboards/student-dashboard.tsx:198 | the receipt's semester is a listed one with the payment's semester id, and none only when no listed semester has that id |
| Student.ReceiptNamesRowSemester | components/dashboards/student-dashboard.tsx:198 | with unique semester ids, the receipt names the row's semester |
| Excel.Assign | lib/excel-utils.ts:50 | setting a key gives it the value and leaves every other key alone |
| Excel.AssignKeys | lib/excel-utils.ts:50 | a new key goes at the end; an existing key keeps its position |
| Excel.GroupLabel | lib/excel-utils.ts:44 | "Не назначена" shows exactly for a missing or empty group name, or one with that very text |
| Excel.FormatStudentsForExcel | lib/excel-utils.ts:38-58 | one row per student, in order, each the student's row |
| Excel.BuildStudentRow | lib/excel-utils.ts:39-56 | the callback's assignments — base properties, each semester's cell in turn, then the total — build exactly the student's row |
| Excel.WithSemestersOther | lib/excel-utils.ts:48-51 | the semester loop leaves keys that are not semester names alone |
| Excel.WithSemestersCell | lib/excel-utils.ts:48-51 | a semester's column holds its cell unless a later semester has the same name |
| Excel.WithSemestersKeys | lib/excel-utils.ts:48-51 | distinct fresh semester names become columns in semester order |
| Excel.BaseRowSpec | lib/excel-utils.ts:41-45 | the base row holds ФИО, Телефон and Группа, in that order |
| Excel.StudentRowSpec | lib/excel-utils.ts:41-54 | ФИО is "surname name patronymic", the group falls back, each semester cell reports its first payment, the total sums all payments, and the columns come in order |
| Excel.StudentRow | lib/excel-utils.ts:41-54 | the "Всего оплачено" column holds the sum of all the student's payments in roubles |
| Excel.SemesterCellPaid | lib/excel-utils.ts:49-50 | a cell reads "Не оплачено" exactly when the semester is unpaid |
| Excel.FormatStudentForExcel | lib/excel-utils.ts:61-86 | one row per payment, in order, or the single "-" placeholder row when there is none (a missing list counts as none) |
| Excel.PaymentRowOf | lib/excel-utils.ts:65-72 | a payment row names its semester, or shows the raw id when the semester is unlisted; it carries the payment's id and its amount in roubles |
| Excel.FormatSemesterStatsForExcel | lib/excel-utils.ts:89-114 | one row per semester |
| Excel.StatRowOf | lib/excel-utils.ts:106-111 | an exported row shows the semester's name, the shared paid and unpaid counts with " студентов", the percentage with "%" and the total in roubles |
| Excel.SemesterStatsRowsAgree | lib/excel-utils.ts:89-114 | each exported row shows the shared statistics for its semester, which split the students and give a percentage in 0..100 |
| Payment.CardMatch | components/payment-dialog.tsx:122-124 | the `\d{4,16}` match is the first up to 16 digits, or empty for fewer than 4 |
| Payment.FormatCardNumber | components/payment-dialog.tsx:121-136 | the loop pushing four-digit parts returns exactly the specified grouping |
| Payment.JoinedChunks | components/payment-dialog.tsx:127-132 | the groups joined by spaces hold the digits in order, one space per four digits |
| Payment.CardNumberFormat | components/payment-dialog.tsx:121-136 | with fewer than four digits the input is kept; otherwise removing the spaces gives the first min(16, n) digits, only digits remain besides the spaces, and the result is at most 19 characters |
| Payment.CardNumberFormatIdempotent | components/payment-dialog.tsx:121-136 | formatting a formatted number changes nothing |
| Payment.FullCardNumberPasses | components/payment-dialog.tsx:72 | sixteen typed digits pass the length check once formatted |
| Payment.ExpiryInput | components/payment-dialog.tsx:180-186 | "/" is appended exactly when the value has two characters and no "/" |
| Payment.ExpiryShape | components/payment-dialog.tsx:90 | a value passing `^\d{2}\/\d{2}$` has five characters, and typing its first two yields its first three |
| Payment.CvcInput | components/payment-dialog.tsx:201 | only digits remain |
| Payment.NameInput | components/payment-dialog.tsx:167 | uppercasing keeps the length |
| Payment.InputsSettle | components/payment-dialog.tsx:167-201 | applying each field handler twice changes nothing more |
| Payment.ValidateCardDetails | components/payment-dialog.tsx:71-109 | accepted exactly when all four checks pass; otherwise the first failing check's message |
| Payment.ExpiryNoMonthRange | components/payment-dialog.tsx:90 | "13/99" passes the expiry check |
| Payment.HandlersProduceValidCard | components/payment-dialog.tsx:157-201 | sixteen digits, a name, four expiry digits and three CVC digits typed through the handlers pass validation |
| Payment.PaymentDialog.constructor | components/payment-dialog.tsx:28-35 | step 1, not loading, empty card |
| Payment.PaymentDialog.NumberChange | components/payment-dialog.tsx:157 | stores the formatted number |
| Payment.PaymentDialog.NameChange | components/payment-dialog.tsx:167 | stores the uppercased name |
| Payment.PaymentDialog.ExpiryChange | components/payment-dialog.tsx:180-186 | stores the expiry with the slash rule applied |
| Payment.PaymentDialog.CvcChange | components/payment-dialog.tsx:201 | stores the digits of the CVC |
| Payment.PaymentDialog.HandlePayment | components/payment-dialog.tsx:38-69 | always requests 75000 for the semester, closes only on success, and ends not loading |
| Payment.PaymentDialog.Next | components/payment-dialog.tsx:111-119 | step 1 advances to 2 exactly when the card is valid; step 2 pays and stays; the step never goes back |
| Api.Marker | lib/api/users.ts:224 | the split marker is "; ", the name, then "=" |
| Api.GetCookie | lib/api/users.ts:220-227 | null without a document; a value has no ';' and directly follows the marker in "; " + cookie |
| Api.CookieFound | lib/api/infra.ts:144-146 | with the marker exactly once, the value is the text after it up to the next ';' or the end |
| Api.CookieAbsent | lib/api/operations.ts:60-63 | with no occurrence the result is null |
| Api.CookieRepeated | lib/api/activity.ts:33-40 | with two occurrences the result is null, so a duplicated name reads as absent |
| Api.CookieFoundIff | lib/api/users.ts:223-226 | a value is returned exactly when the marker occurs once |
| Api.SinglePairCookie | lib/api/infra.ts:141-148 | for a single `name=value` cookie the value is found exactly when the cookie starts with `name=`, and is the rest |
| Api.SuffixNameExample | lib/api/operations.ts:57-64 | "xtoken=abc" does not match "token", and "token=abc" gives "abc" |
| Api.UserSelf | lib/api/users.ts:5-32 | only an OK response with a parsable body signs in; 401, other failures and network errors give the unauthorized marker; only 401 clears the token; an unparsable OK body rejects |
| Api.FetchList | lib/api/users.ts:34-63 | an OK parsable body is returned; 401 clears the token and redirects; every other failure gives [] |
| Api.FailuresLookAlike | lib/api/activity.ts:6-30 | every failure gives the same result (the marker or []), and only 401 touches the token |
| Activity.OperationTypeInfo | lib/api/activity.ts:43-64 | known types take their name from the name table, with the fixed icon and colour; any other type gets the file icon, grey and "Другое" |
| Activity.TypeInfoDistinguishes | lib/api/activity.ts:51-64 | a known type differs from every other type in name and colour; a payment shares its icon with unknown types |
| Auth.AuthCookie | components/auth-provider.tsx:72-77 | the provider's variant gives the same result as the API's parser whenever a document exists |
| Auth.EmptyTokenCookie | components/auth-provider.tsx:72-77 | "token=" gives the empty value, and a cookie without the name gives none |
| Auth.TokenToSend | components/auth-provider.tsx:30-35 | a request is made exactly when the token cookie is present and non-empty |
| Auth.AuthProvider.constructor | components/auth-provider.tsx:23-24 | no user, loading |
| Auth.AuthProvider.CheckAuth | components/auth-provider.tsx:29-56 | loading ends on every path; the user is set only on sign-in; a redirect happens exactly when a request was made and did not sign in; the token is cleared on 401 or an unparsable OK body |
| Auth.AuthProvider.Logout | components/auth-provider.tsx:61-66 | clears the user and the token and redirects |
| Header.RoleName | components/dashboard-header.tsx:33-46 | the observer is "Директор"; every other role is labelled as in the user table |
| Header.RoleNameDiffersOnObserver | components/dashboard-header.tsx:37-38 | the header and the user table label the observer differently |
| Header.DashboardHeader.constructor | components/dashboard-header.tsx:23 | the menu starts closed |
| Header.DashboardHeader.ToggleMenu | components/dashboard-header.tsx:82 | the menu flips, so two presses restore it |

## Left out

- `fetch`, URL and query construction, bearer headers and JSON decoding in the API modules: a response is a parameter, and decoding is reduced to whether a body is present.
- `formatDate`, `formatDateTime`, `toLocaleDateString` and the journal's "today/week/month" calendar test depend on the clock and on `Intl`. The date of a payment row is a `formatDate` parameter. The period test is the `withinPeriod` parameter.
- Report.Percentage: `Math.round((paid / total) * 100)` on floating point is modelled as exact round-half-up on integers. The shown percentage can differ by one on ordinary input. For 23 of 40 students, `23 / 40 * 100` is 57.49999999999999 in floating point, so the page shows 57% while `Report.Percentage` gives 58. 46 of 80 behaves the same way.
- `toLowerCase`/`toUpperCase` cover Latin and Russian Cyrillic letters (with Ё). Full Unicode case mapping is not modelled.
- `Number.parseInt` is modelled for leading whitespace, a sign, decimal digits and the `0x` prefix. Exotic whitespace and values beyond the safe-integer range are not modelled.
- JavaScript objects with integer-like keys order those keys first. The spreadsheet row keeps insertion order for every key.
- `downloadExcel`, printing and downloading reports and receipts (`window.open`, `Blob`, anchors), and the receipt dialog's rendering.
- The login form, page routing, role dispatch, toasts, `confirm` (a `confirmed` parameter), `window.location.reload`, `router.refresh`, the payment delay's `setTimeout` and the redirect's `setTimeout`, and `cn`.
- The loading flags of the dashboards' initial fetches, and the initiator-info dialog of the journal: these only choose what to render.
- The semester handlers of the administrator build an updated semester list in a local variable and then discard it. The semester list is a prop, not state of the dashboard, so it is not modelled.
- NumberOk, CvcOk, ExpiryInput, PasswordMessage, CreateAllowed: lengths count characters, while JavaScript's `.length` counts UTF-16 code units, so text with characters outside the Basic Multilingual Plane is measured differently.
- Amounts are modelled as integers, while the API declares them as JavaScript numbers. Fractional amounts, floating-point rounding in the sums, and the `${n}` rendering of non-integers are not modelled.
- Admin.AdminDashboard.CreateUser: the `{}` that a 401 from `createUser` resolves to is modelled as a resolved value of the user type. Its missing fields are not modelled.
- The text inputs of the administrator's dialogs other than the phone, password, edit-semester name and group select only copy the typed text into the form, and the dialogs' close buttons only clear the open flag; neither is modelled.
- Listing.SortInPlace: sorts with insertion sort. JavaScript's `sort` algorithm is unspecified beyond stability, so only its result is modelled, not its steps.
