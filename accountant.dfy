/**
 * The accountant's dashboard (components/dashboards/accountant-dashboard.tsx):
 * one search term narrows both the student report and the payment history;
 * the payment history flattens every student's payments, tags each with its
 * owner and sorts them newest first; the report's semester columns are the
 * semesters split into at most five groups.  Paid checks, statistics and
 * totals are the shared functions of `Report`.
 */
module Accountant {
  import opened Types
  import opened Text
  import opened Listing
  import opened Report

  // ---------------------------------------------------------------------------
  // Search
  // ---------------------------------------------------------------------------

  /** The lowercased "surname name patronymic" of the student contains the lowercased term. */
  function NameMatches(term: string): User -> bool
  {
    (u: User) => Matches(FullName(u.surname, u.name, u.patronymic), term)
  }

  /**
   * `filteredStudents`: only students whose full name contains the term;
   * the empty term keeps everyone.
   */
  function FilteredStudents(students: seq<User>, term: string): (r: seq<User>)
    ensures forall i :: 0 <= i < |r| ==> NameMatches(term)(r[i])
    ensures term == [] ==> r == students
  {
    if term == [] then
      assert forall i :: 0 <= i < |students| ==> NameMatches(term)(students[i]);
      FilterAll(students, NameMatches(term));
      Filter(students, NameMatches(term))
    else
      Filter(students, NameMatches(term))
  }

  /**
   * The filtered students are, in their order, exactly the students whose
   * full name contains the term, each as often as in the list.
   */
  lemma FilteredStudentsSpec(students: seq<User>, term: string)
    ensures var r := FilteredStudents(students, term);
      && IsSubsequence(r, students)
      && (forall u :: multiset(r)[u] == if NameMatches(term)(u) then multiset(students)[u] else 0)
  {
    FilterContents(students, NameMatches(term));
  }

  // ---------------------------------------------------------------------------
  // The payment history
  // ---------------------------------------------------------------------------

  /** `student.transactions.map(transaction => ({...transaction, student}))` */
  function Owned(u: User): (r: seq<OwnedTransaction>)
    ensures |r| == |u.transactions|
    ensures forall k :: 0 <= k < |r| ==> r[k] == OwnedTransaction(u.transactions[k], u)
  {
    seq(|u.transactions|, k requires 0 <= k < |u.transactions| => OwnedTransaction(u.transactions[k], u))
  }

  /**
   * `students.flatMap(...)`: every student's payments, student by student,
   * one entry per payment.
   */
  function Flatten(students: seq<User>): (r: seq<OwnedTransaction>)
    ensures |r| == SumOf(students, TransactionCount)
  {
    if students == [] then [] else Owned(students[0]) + Flatten(students[1..])
  }

  function TransactionCount(u: User): int { |u.transactions| }

  function CreatedAt(o: OwnedTransaction): int { o.tx.createdAt }

  /** `allTransactions`: one entry per payment of every student, newest first. */
  function AllTransactions(students: seq<User>): (r: seq<OwnedTransaction>)
    ensures |r| == SumOf(students, TransactionCount)
    ensures SortedBy(r, CreatedAt, Desc)
  {
    SortBySorted(Flatten(students), CreatedAt, Desc);
    SortBy(Flatten(students), CreatedAt, Desc)
  }

  /**
   * The flattening has one entry per (student, payment) pair: every entry is
   * a payment of its owner, and every payment of every student is there.
   */
  lemma {:induction false} FlattenSpec(students: seq<User>)
    ensures forall o :: o in Flatten(students) ==> o.student in students && o.tx in o.student.transactions
    ensures forall j, k :: 0 <= j < |students| && 0 <= k < |students[j].transactions| ==>
      OwnedTransaction(students[j].transactions[k], students[j]) in Flatten(students)
  {
    if students != [] {
      var u := students[0];
      var rest := students[1..];
      FlattenSpec(rest);
      assert Flatten(students) == Owned(u) + Flatten(rest);
      forall o | o in Flatten(students) ensures o.student in students && o.tx in o.student.transactions {
        if o in Owned(u) {
          var k :| 0 <= k < |Owned(u)| && Owned(u)[k] == o;
        } else {
          assert o in Flatten(rest);
        }
      }
      forall j, k | 0 <= j < |students| && 0 <= k < |students[j].transactions|
        ensures OwnedTransaction(students[j].transactions[k], students[j]) in Flatten(students)
      {
        if j == 0 {
          assert Owned(u)[k] == OwnedTransaction(students[j].transactions[k], students[j]);
        } else {
          assert students[j] == rest[j - 1];
        }
      }
    }
  }

  /**
   * `allTransactions` holds every payment of every student once, tagged with
   * its owner; payments made at the same moment keep their list order.
   */
  lemma AllTransactionsSpec(students: seq<User>, k: int)
    ensures var r := AllTransactions(students);
      && multiset(r) == multiset(Flatten(students))
      && Filter(r, WithKey(CreatedAt, k)) == Filter(Flatten(students), WithKey(CreatedAt, k))
  {
    SortByPermutation(Flatten(students), CreatedAt, Desc);
    SortByStable(Flatten(students), CreatedAt, Desc, k);
  }

  /** The owner of the payment matches the term. */
  function OwnerMatches(term: string): OwnedTransaction -> bool
  {
    (o: OwnedTransaction) => NameMatches(term)(o.student)
  }

  /**
   * `filteredTransactions`: only payments whose owner's name contains the
   * term; the empty term keeps them all.
   */
  function FilteredTransactions(all: seq<OwnedTransaction>, term: string): (r: seq<OwnedTransaction>)
    ensures |r| <= |all|
    ensures forall i :: 0 <= i < |r| ==> NameMatches(term)(r[i].student)
    ensures term == [] ==> r == all
  {
    if term == [] then
      assert forall i :: 0 <= i < |all| ==>
        Matches(FullName(all[i].student.surname, all[i].student.name, all[i].student.patronymic), term);
      assert forall i :: 0 <= i < |all| ==> NameMatches(term)(all[i].student);
      assert forall i :: 0 <= i < |all| ==> OwnerMatches(term)(all[i]);
      FilterAll(all, OwnerMatches(term));
      Filter(all, OwnerMatches(term))
    else
      Filter(all, OwnerMatches(term))
  }

  lemma {:induction false} FlattenFilter(students: seq<User>, term: string)
    ensures Filter(Flatten(students), OwnerMatches(term)) == Flatten(FilteredStudents(students, term))
  {
    if students != [] {
      var u := students[0];
      var rest := students[1..];
      var p := OwnerMatches(term);
      FlattenFilter(rest, term);
      FilterAppend(Owned(u), Flatten(rest), p);
      if NameMatches(term)(u) {
        FilterAll(Owned(u), p);
        assert FilteredStudents(students, term) == [u] + FilteredStudents(rest, term);
        assert ([u] + FilteredStudents(rest, term))[1..] == FilteredStudents(rest, term);
      } else {
        FilterNone(Owned(u), p);
      }
    }
  }

  /**
   * Narrowing the payment history by owner gives exactly the payment history
   * of the narrowed student list.
   */
  lemma FilteredTransactionsOfFilteredStudents(students: seq<User>, term: string)
    ensures FilteredTransactions(AllTransactions(students), term)
      == AllTransactions(FilteredStudents(students, term))
  {
    FilterSortBy(Flatten(students), CreatedAt, Desc, OwnerMatches(term));
    FlattenFilter(students, term);
  }

  // ---------------------------------------------------------------------------
  // Semester columns
  // ---------------------------------------------------------------------------

  const MaxColumns: nat := 5

  /** `SEMESTERS_PER_COLUMN = Math.ceil(semesters.length / MAX_COLUMNS)` */
  function SemestersPerColumn(n: nat): nat { (n + MaxColumns - 1) / MaxColumns }

  /** The groups laid end to end. */
  function Concat(groups: seq<seq<Semester>>): seq<Semester>
  {
    if groups == [] then [] else Concat(groups[..|groups| - 1]) + groups[|groups| - 1]
  }

  lemma ColumnsBound(g: nat, c: nat, n: nat)
    requires c > 0 && g > 0 && (g - 1) * c < n && n <= MaxColumns * c
    ensures g <= MaxColumns
  {
    if g > MaxColumns {
      ScaleBelow(c, MaxColumns, g - 1);
    }
  }

  lemma ConcatPush(groups: seq<seq<Semester>>, g: seq<Semester>)
    ensures Concat(groups + [g]) == Concat(groups) + g
  {
    assert (groups + [g])[..|groups|] == groups;
  }

  /** Pushing the next slice extends the covered prefix up to the slice's end. */
  lemma SliceStep(semesters: seq<Semester>, groups: seq<seq<Semester>>, i: nat, end: nat)
    requires i < end <= |semesters| && Concat(groups) == semesters[..i]
    ensures Concat(groups + [semesters[i..end]]) == semesters[..end]
  {
    ConcatPush(groups, semesters[i..end]);
    assert semesters[..end] == semesters[..i] + semesters[i..end];
  }

  /** One more column of `perColumn` starts where the previous ones end. */
  lemma ColumnStep(columns: nat, perColumn: nat, i: int)
    requires i == columns * perColumn
    ensures (columns + 1) * perColumn == i + perColumn
  {
  }

  /**
   * `semesterGroups`: the loop pushing `semesters.slice(i, i + SEMESTERS_PER_COLUMN)`.
   * The groups, laid end to end, are the semesters; there are at most five,
   * none is empty, all but the last hold exactly `SEMESTERS_PER_COLUMN`, and
   * there is none when there are no semesters.
   */
  method SemesterGroups(semesters: seq<Semester>) returns (groups: seq<seq<Semester>>)
    ensures Concat(groups) == semesters
    ensures |groups| <= MaxColumns
    ensures forall k :: 0 <= k < |groups| ==> groups[k] != []
    ensures forall k :: 0 <= k < |groups| - 1 ==> |groups[k]| == SemestersPerColumn(|semesters|)
    ensures semesters == [] <==> groups == []
  {
    var n := |semesters|;
    var perColumn := SemestersPerColumn(n);
    groups := [];
    var i := 0;
    var covered := 0;
    while i < n
      invariant n > 0 ==> perColumn > 0
      invariant i == |groups| * perColumn
      invariant covered == (if i <= n then i else n)
      invariant Concat(groups) == semesters[..covered]
      invariant groups != [] ==> (|groups| - 1) * perColumn < n
      invariant forall k :: 0 <= k < |groups| ==> groups[k] != []
      invariant forall k :: 0 <= k < |groups| - 1 ==> |groups[k]| == perColumn
      invariant groups != [] ==> |groups[|groups| - 1]| == perColumn || covered == n
      decreases n - i
    {
      var end := if i + perColumn <= n then i + perColumn else n;
      SliceStep(semesters, groups, i, end);
      ColumnStep(|groups|, perColumn, i);
      groups := groups + [semesters[i..end]];
      i := i + perColumn;
      covered := end;
    }
    if groups != [] {
      ColumnsBound(|groups|, perColumn, n);
    }
    assert semesters[..n] == semesters;
  }

  // ---------------------------------------------------------------------------
  // Dashboard state
  // ---------------------------------------------------------------------------

  /** The state the dashboard keeps besides the fetched lists. */
  class AccountantView {
    var searchTerm: string
    var currentTransactionsPage: int
    var currentStudentsPage: int
    var selectedTransaction: Option<Transaction>
    var selectedStudent: Option<User>
    var selectedSemester: Option<Semester>
    var isReceiptOpen: bool

    /** Empty search, both lists on page 1, no receipt. */
    constructor()
      ensures searchTerm == [] && currentTransactionsPage == 1 && currentStudentsPage == 1
      ensures selectedTransaction.None? && selectedStudent.None? && selectedSemester.None?
      ensures !isReceiptOpen
    {
      searchTerm := [];
      currentTransactionsPage := 1;
      currentStudentsPage := 1;
      selectedTransaction := None;
      selectedStudent := None;
      selectedSemester := None;
      isReceiptOpen := false;
    }

    /** Typing in the search field; neither page number is reset. */
    method Search(term: string)
      modifies this`searchTerm
      ensures searchTerm == term
    {
      searchTerm := term;
    }

    method SetTransactionsPage(page: int)
      modifies this`currentTransactionsPage
      ensures currentTransactionsPage == page
    {
      currentTransactionsPage := page;
    }

    method SetStudentsPage(page: int)
      modifies this`currentStudentsPage
      ensures currentStudentsPage == page
    {
      currentStudentsPage := page;
    }

    /** `handleViewReceipt`: select the payment, its owner and its semester, and open the receipt. */
    method ViewReceipt(transaction: Transaction, student: User, semester: Option<Semester>)
      modifies this`selectedTransaction, this`selectedStudent, this`selectedSemester, this`isReceiptOpen
      ensures selectedTransaction == Some(transaction) && selectedStudent == Some(student)
      ensures selectedSemester == semester && isReceiptOpen
    {
      selectedTransaction := Some(transaction);
      selectedStudent := Some(student);
      selectedSemester := semester;
      isReceiptOpen := true;
    }

    /**
     * "Справка" in the payment history: the receipt of that payment, with its
     * semester looked up by id.
     */
    method ViewPaymentReceipt(o: OwnedTransaction, semesters: seq<Semester>)
      modifies this`selectedTransaction, this`selectedStudent, this`selectedSemester, this`isReceiptOpen
      ensures selectedTransaction == Some(o.tx) && selectedStudent == Some(o.student)
      ensures selectedSemester == FindSemester(semesters, o.tx.semesterId) && isReceiptOpen
    {
      ViewReceipt(o.tx, o.student, FindSemester(semesters, o.tx.semesterId));
    }

    /**
     * "Отчет" in a paid semester cell: the receipt of the student's first
     * payment for the semester; without one nothing changes.
     */
    method ViewSemesterReceipt(student: User, semester: Semester)
      modifies this`selectedTransaction, this`selectedStudent, this`selectedSemester, this`isReceiptOpen
      ensures IsSemesterPaid(student.transactions, semester.id) ==>
        && selectedTransaction == TransactionBySemester(student.transactions, semester.id)
        && selectedStudent == Some(student) && selectedSemester == Some(semester) && isReceiptOpen
      ensures !IsSemesterPaid(student.transactions, semester.id) ==>
        && selectedTransaction == old(selectedTransaction) && selectedStudent == old(selectedStudent)
        && selectedSemester == old(selectedSemester) && isReceiptOpen == old(isReceiptOpen)
    {
      var transaction := TransactionBySemester(student.transactions, semester.id);
      if transaction.Some? {
        ViewReceipt(transaction.value, student, Some(semester));
      }
    }

    /**
     * `paginatedStudents`: at most ten students, and some whenever the
     * student page is one of the pages of the matching students.
     */
    function StudentsPage(students: seq<User>): (r: seq<User>)
      reads this
      ensures |r| <= ItemsPerPage
      ensures 1 <= currentStudentsPage <= TotalPages(|FilteredStudents(students, searchTerm)|) ==> r != []
    {
      var shown := FilteredStudents(students, searchTerm);
      if 1 <= currentStudentsPage <= TotalPages(|shown|) then
        PageInRange(shown, currentStudentsPage);
        Page(shown, currentStudentsPage)
      else
        Page(shown, currentStudentsPage)
    }

    /**
     * `paginatedTransactions`: at most ten payments, and some whenever the
     * history page is one of the pages of the matching history.
     */
    function TransactionsPage(students: seq<User>): (r: seq<OwnedTransaction>)
      reads this
      ensures |r| <= ItemsPerPage
      ensures 1 <= currentTransactionsPage <= TotalPages(|FilteredTransactions(AllTransactions(students), searchTerm)|)
        ==> r != []
    {
      var shown := FilteredTransactions(AllTransactions(students), searchTerm);
      if 1 <= currentTransactionsPage <= TotalPages(|shown|) then
        PageInRange(shown, currentTransactionsPage);
        Page(shown, currentTransactionsPage)
      else
        Page(shown, currentTransactionsPage)
    }

    /**
     * A narrower search can leave the student page past the new last page;
     * it then lists nobody although matching students exist.
     */
    lemma StalePageShowsNothing(students: seq<User>)
      requires currentStudentsPage > TotalPages(|FilteredStudents(students, searchTerm)|)
      ensures StudentsPage(students) == []
    {
      PagePastEnd(FilteredStudents(students, searchTerm), currentStudentsPage);
    }
  }
}
