/**
 * The observer's dashboard (components/dashboards/observer-dashboard.tsx):
 * three summary cards and a report table with one row per student, one
 * cell per semester and the student's total.  The counts and sums are the
 * shared functions of `Report`.
 */
module Observer {
  import opened Types
  import opened Text
  import opened Listing
  import opened Report
  import Excel

  /** What a semester cell of the report shows. */
  datatype CellView = PaidCell(amount: int) | UnpaidCell

  /**
   * `isPaid ? "Оплачено (" + (transaction ? transaction.amount : 0) + " ₽)" : "Не оплачено"`.
   * A cell is marked paid exactly when the student paid for the semester,
   * and then shows the amount of the first payment for it: the fallback `0`
   * is never shown.
   */
  function Cell(u: User, semester: Semester): (r: CellView)
    ensures r.PaidCell? <==> IsSemesterPaid(u.transactions, semester.id)
    ensures r.PaidCell? ==> exists i ::
      IsFirstPayment(u.transactions, semester.id, i) && u.transactions[i].amount == r.amount
  {
    if IsSemesterPaid(u.transactions, semester.id) then
      PaidCell(match TransactionBySemester(u.transactions, semester.id)
        case Some(t) => t.amount
        case None => 0)
    else UnpaidCell
  }

  /** The observer's cell and the spreadsheet's cell show the same thing. */
  lemma CellMatchesSpreadsheet(u: User, semester: Semester)
    ensures Excel.SemesterCell(u, semester) ==
      match Cell(u, semester)
      case PaidCell(a) => "Оплачено (" + Excel.Roubles(a) + ")"
      case UnpaidCell => Excel.NotPaid
  {
  }

  /** One row of the report table. */
  datatype ReportRow = ReportRow(student: User, cells: seq<CellView>, totalPaid: int)

  function RowTotal(row: ReportRow): int { row.totalPaid }

  /** The row of one student: a cell per semester, in order, and the student's total. */
  function RowOf(u: User, semesters: seq<Semester>): (r: ReportRow)
    ensures |r.cells| == |semesters|
  {
    ReportRow(u, seq(|semesters|, i requires 0 <= i < |semesters| => Cell(u, semesters[i])), TotalPaid(u))
  }

  /** `students.map(...)`: the rows of the table. */
  function Rows(students: seq<User>, semesters: seq<Semester>): (r: seq<ReportRow>)
    ensures |r| == |students|
  {
    seq(|students|, i requires 0 <= i < |students| => RowOf(students[i], semesters))
  }

  /** The per-row totals add up to `totalAmount`. */
  lemma RowTotalsAddUp(students: seq<User>, semesters: seq<Semester>)
    ensures SumOf(Rows(students, semesters), RowTotal) == TotalAmount(students)
  {
    var rows := Rows(students, semesters);
    forall i | 0 <= i < |students| ensures TotalPaid(students[i]) == RowTotal(rows[i]) {
    }
    SumOfPointwise(students, TotalPaid, rows, RowTotal);
  }

  /** The three summary cards. */
  datatype SummaryCards = SummaryCards(totalStudents: nat, paidStudents: nat, totalAmount: int)

  /**
   * The cards show `totalStudents`, `totalPaidStudents` and `totalAmount`:
   * at most as many payers as students, and the sum of every payment.
   */
  function Cards(students: seq<User>): (r: SummaryCards)
    ensures r.paidStudents <= r.totalStudents == |students|
    ensures r.totalAmount == SumOf(students, TotalPaid)
    ensures r.paidStudents == 0 <==> forall i :: 0 <= i < |students| ==> students[i].transactions == []
  {
    SummaryCards(|students|, TotalPaidStudents(students), TotalAmount(students))
  }

  /**
   * The semester statistics the observer shows: every semester's counts
   * split the population, its percentage lies in 0..100 (0 without
   * students) and its total sums the payments for it.
   */
  lemma ObserverStats(students: seq<User>, semesters: seq<Semester>)
    ensures var stats := SemesterStats(students, semesters);
      && |stats| == |semesters|
      && forall i :: 0 <= i < |stats| ==>
        && stats[i].semester == semesters[i]
        && stats[i].paidCount + stats[i].unpaidCount == |students|
        && 0 <= stats[i].unpaidCount
        && 0 <= stats[i].paidPercentage <= 100
        && (|students| == 0 ==> stats[i].paidPercentage == 0)
        && stats[i].totalAmount == SumOf(students, ShareIn(semesters[i].id))
  {
    var stats := SemesterStats(students, semesters);
    forall i | 0 <= i < |stats|
      ensures stats[i].paidCount + stats[i].unpaidCount == |students|
      ensures 0 <= stats[i].unpaidCount && 0 <= stats[i].paidPercentage <= 100
      ensures |students| == 0 ==> stats[i].paidPercentage == 0
      ensures stats[i].totalAmount == SumOf(students, ShareIn(semesters[i].id))
    {
    }
  }
}
