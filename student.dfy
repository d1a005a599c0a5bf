/**
 * The student's dashboard (components/dashboards/student-dashboard.tsx):
 * one row per semester, marked paid or unpaid, offering the receipt of a
 * paid semester or the payment dialog for an unpaid one.
 */
module Student {
  import opened Types
  import opened Report

  /** The one action a semester row offers. */
  datatype RowAction = ShowReceipt | Pay

  /**
   * "Справка об оплате" when the semester is paid, "Оплатить" otherwise:
   * the receipt is offered exactly when there is a payment to show, so the
   * click's guard never fails in a row that offers it, and the payment shown
   * is for the row's semester.
   */
  function RowActionFor(u: User, semester: Semester): (r: RowAction)
    ensures r == ShowReceipt <==> TransactionBySemester(u.transactions, semester.id).Some?
    ensures r == Pay <==> !IsSemesterPaid(u.transactions, semester.id)
    ensures r == ShowReceipt ==> TransactionBySemester(u.transactions, semester.id).value.semesterId == semester.id
  {
    if IsSemesterPaid(u.transactions, semester.id) then ShowReceipt else Pay
  }

  /** The dialogs and selections of the dashboard. */
  class StudentView {
    var isPaymentOpen: bool
    var isReceiptOpen: bool
    var selectedSemester: Option<Semester>
    var selectedTransaction: Option<Transaction>

    /** Nothing open, nothing selected. */
    constructor()
      ensures !isPaymentOpen && !isReceiptOpen && selectedSemester.None? && selectedTransaction.None?
    {
      isPaymentOpen := false;
      isReceiptOpen := false;
      selectedSemester := None;
      selectedTransaction := None;
    }

    /** `handlePayClick`: select the semester and open the payment dialog. */
    method PayClick(semester: Semester)
      modifies this`selectedSemester, this`isPaymentOpen
      ensures selectedSemester == Some(semester) && isPaymentOpen
    {
      selectedSemester := Some(semester);
      isPaymentOpen := true;
    }

    /**
     * `handleReceiptClick`: the first payment for the semester is selected
     * and the receipt opens; with no payment nothing changes.
     */
    method ReceiptClick(u: User, semester: Semester)
      modifies this`selectedTransaction, this`isReceiptOpen
      ensures IsSemesterPaid(u.transactions, semester.id) ==>
        selectedTransaction == TransactionBySemester(u.transactions, semester.id) && isReceiptOpen
      ensures !IsSemesterPaid(u.transactions, semester.id) ==>
        selectedTransaction == old(selectedTransaction) && isReceiptOpen == old(isReceiptOpen)
    {
      var transaction := TransactionBySemester(u.transactions, semester.id);
      if transaction.Some? {
        selectedTransaction := transaction;
        isReceiptOpen := true;
      }
    }

    /**
     * `selectedTransaction` from the history table's "Справка" button: any
     * payment is selected and the receipt opens.
     */
    method HistoryReceiptClick(t: Transaction)
      modifies this`selectedTransaction, this`isReceiptOpen
      ensures selectedTransaction == Some(t) && isReceiptOpen
    {
      selectedTransaction := Some(t);
      isReceiptOpen := true;
    }

    /**
     * The semester the receipt names: the listed semester with the payment's
     * semester id, `None` when no semester has it.
     */
    function ReceiptSemester(semesters: seq<Semester>): (r: Option<Semester>)
      reads this
      ensures r.Some? ==>
        selectedTransaction.Some? && r.value in semesters && r.value.id == selectedTransaction.value.semesterId
      ensures r.None? && selectedTransaction.Some? ==>
        forall i :: 0 <= i < |semesters| ==> semesters[i].id != selectedTransaction.value.semesterId
    {
      match selectedTransaction
      case None => None
      case Some(t) => FindSemester(semesters, t.semesterId)
    }
  }

  /**
   * With semester ids unique, the receipt opened from a row names that
   * row's semester.
   */
  lemma ReceiptNamesRowSemester(u: User, semesters: seq<Semester>, k: nat)
    requires DistinctIds(semesters) && k < |semesters|
    requires IsSemesterPaid(u.transactions, semesters[k].id)
    ensures var t := TransactionBySemester(u.transactions, semesters[k].id).value;
      FindSemester(semesters, t.semesterId) == Some(semesters[k])
  {
    var t := TransactionBySemester(u.transactions, semesters[k].id).value;
    var r := FindSemester(semesters, t.semesterId);
    var i :| (0 <= i < |semesters| && semesters[i] == r.value && r.value.id == t.semesterId
      && forall j :: 0 <= j < i ==> semesters[j].id != t.semesterId);
    assert i == k;
  }
}
