/**
 * Report aggregation: per-semester paid counts, unpaid counts, rounded
 * paid percentages and amount totals, plus the whole-population totals.
 * The accountant dashboard, the observer dashboard and the spreadsheet
 * export each compute these with the same `filter`/`some`/`reduce`
 * expressions; the functions below follow those expressions (left folds
 * included) and the lemmas relate them to plain sums and counts.
 */
module Report {
  import opened Types
  import opened Listing

  // ---------------------------------------------------------------------------
  // Payments of one student
  // ---------------------------------------------------------------------------

  /** `transactions.some(t => t.semester_id === semesterId)` */
  predicate IsSemesterPaid(ts: seq<Transaction>, semesterId: string)
  {
    exists i :: 0 <= i < |ts| && ts[i].semesterId == semesterId
  }

  /** A semester is paid exactly when filtering the payments by it keeps one. */
  lemma PaidIffFiltered(ts: seq<Transaction>, semesterId: string)
    ensures IsSemesterPaid(ts, semesterId) <==> Filter(ts, InSemester(semesterId)) != []
  {
    FilterEmpty(ts, InSemester(semesterId));
  }

  /** `ts[i]` is the first payment for the semester. */
  predicate IsFirstPayment(ts: seq<Transaction>, semesterId: string, i: int)
  {
    0 <= i < |ts| && ts[i].semesterId == semesterId &&
    forall j :: 0 <= j < i ==> ts[j].semesterId != semesterId
  }

  /**
   * `transactions.find(t => t.semester_id === semesterId)`: defined exactly
   * when the semester is paid, and then the first payment for it.
   */
  function TransactionBySemester(ts: seq<Transaction>, semesterId: string): (r: Option<Transaction>)
    ensures r.Some? <==> IsSemesterPaid(ts, semesterId)
    ensures r.Some? ==> exists i :: IsFirstPayment(ts, semesterId, i) && ts[i] == r.value
    ensures r.Some? ==> r.value.semesterId == semesterId
  {
    if ts == [] then None
    else if ts[0].semesterId == semesterId then
      assert IsFirstPayment(ts, semesterId, 0);
      Some(ts[0])
    else
      var r := TransactionBySemester(ts[1..], semesterId);
      assert IsSemesterPaid(ts[1..], semesterId) <==> IsSemesterPaid(ts, semesterId) by {
        if IsSemesterPaid(ts, semesterId) {
          var i :| 0 <= i < |ts| && ts[i].semesterId == semesterId;
          assert ts[1..][i - 1] == ts[i];
        }
      }
      if r.Some? then
        var i :| IsFirstPayment(ts[1..], semesterId, i) && ts[1..][i] == r.value;
        assert IsFirstPayment(ts, semesterId, i + 1);
        r
      else r
  }

  /**
   * `semesters.find(s => s.id === semesterId)`: the first semester with the
   * id, and `None` (`undefined`) when no semester has it.
   */
  function FindSemester(semesters: seq<Semester>, semesterId: string): (r: Option<Semester>)
    ensures r.Some? ==> exists i :: (0 <= i < |semesters| && semesters[i] == r.value && r.value.id == semesterId
      && forall j :: 0 <= j < i ==> semesters[j].id != semesterId)
    ensures r.None? ==> forall i :: 0 <= i < |semesters| ==> semesters[i].id != semesterId
  {
    if semesters == [] then None
    else if semesters[0].id == semesterId then Some(semesters[0])
    else
      var r := FindSemester(semesters[1..], semesterId);
      if r.Some? then
        var i :| (0 <= i < |semesters[1..]| && semesters[1..][i] == r.value && r.value.id == semesterId
          && forall j :: 0 <= j < i ==> semesters[1..][j].id != semesterId);
        assert semesters[i + 1] == r.value;
        r
      else
        assert forall i :: 1 <= i < |semesters| ==> semesters[i] == semesters[1..][i - 1];
        r
  }

  function Amount(t: Transaction): int { t.amount }

  /** The step `(s, t) => s + t.amount`. */
  function AddAmount(sum: int, t: Transaction): int { sum + t.amount }

  /** `t => t.semester_id === semesterId` */
  function InSemester(semesterId: string): Transaction -> bool
  {
    (t: Transaction) => t.semesterId == semesterId
  }

  /** `student => student.transactions.some(t => t.semester_id === semesterId)` */
  function PaidFor(semesterId: string): User -> bool
  {
    (u: User) => IsSemesterPaid(u.transactions, semesterId)
  }

  /** `student => student.transactions.length > 0` */
  predicate HasPayments(u: User)
  {
    |u.transactions| > 0
  }

  /**
   * `student.transactions.reduce((s, t) => s + t.amount, 0)`: the plain sum
   * of the student's amounts, repeated payments included.
   */
  function TotalPaid(u: User): (r: int)
    ensures r == SumOf(u.transactions, Amount)
  {
    FoldLeftSum(u.transactions, 0, AddAmount, Amount);
    FoldLeft(u.transactions, 0, AddAmount)
  }

  /** `student.transactions.filter(t => t.semester_id === id).reduce((s, t) => s + t.amount, 0)` */
  function SemesterPaid(semesterId: string, u: User): int
  {
    FoldLeft(Filter(u.transactions, InSemester(semesterId)), 0, AddAmount)
  }

  // ---------------------------------------------------------------------------
  // Population totals
  // ---------------------------------------------------------------------------

  /** The step `(sum, student) => sum + <student's total>`. */
  function AddTotalPaid(sum: int, u: User): int { sum + TotalPaid(u) }

  /** `totalAmount`: the sum, over students, of each student's amounts. */
  function TotalAmount(students: seq<User>): (r: int)
    ensures r == SumOf(students, TotalPaid)
  {
    FoldLeftSum(students, 0, AddTotalPaid, TotalPaid);
    FoldLeft(students, 0, AddTotalPaid)
  }

  /** `totalPaidStudents`: positive exactly when some student has a payment. */
  function TotalPaidStudents(students: seq<User>): (r: nat)
    ensures r <= |students|
    ensures r > 0 <==> exists i :: 0 <= i < |students| && HasPayments(students[i])
  {
    FilterEmpty(students, HasPayments);
    |Filter(students, HasPayments)|
  }

  // ---------------------------------------------------------------------------
  // Per-semester statistics
  // ---------------------------------------------------------------------------

  /** `paidCount`: positive exactly when some student paid for the semester. */
  function PaidCount(students: seq<User>, semesterId: string): (r: nat)
    ensures r <= |students|
    ensures r > 0 <==> exists i :: 0 <= i < |students| && IsSemesterPaid(students[i].transactions, semesterId)
  {
    FilterEmpty(students, PaidFor(semesterId));
    |Filter(students, PaidFor(semesterId))|
  }

  /** The step `(sum, student) => sum + <student's amount for the semester>`. */
  function SemesterStep(semesterId: string): (int, User) -> int
  {
    (sum: int, u: User) => sum + SemesterPaid(semesterId, u)
  }

  /** One student's amounts for the semester, summed over their payments for it. */
  function ShareIn(semesterId: string): User -> int
  {
    (u: User) => SumOf(Filter(u.transactions, InSemester(semesterId)), Amount)
  }

  /** Each step of the semester's reduce adds the student's share. */
  lemma SemesterStepAdds(semesterId: string)
    ensures forall a: int, u: User :: SemesterStep(semesterId)(a, u) == a + ShareIn(semesterId)(u)
  {
    forall a: int, u: User ensures SemesterStep(semesterId)(a, u) == a + ShareIn(semesterId)(u) {
      FoldLeftSum(Filter(u.transactions, InSemester(semesterId)), 0, AddAmount, Amount);
    }
  }

  /** The semester's `totalAmount`: the sum of every student's payments for that semester. */
  function SemesterAmount(students: seq<User>, semesterId: string): (r: int)
    ensures r == SumOf(students, ShareIn(semesterId))
  {
    SemesterStepAdds(semesterId);
    FoldLeftSum(students, 0, SemesterStep(semesterId), ShareIn(semesterId));
    FoldLeft(students, 0, SemesterStep(semesterId))
  }

  /**
   * `totalStudents > 0 ? Math.round((paid / totalStudents) * 100) : 0`: 0
   * without students, and otherwise the integer nearest to 100 * paid / total,
   * halves rounded up, so that 100 * paid / total lies in [r - 1/2, r + 1/2).
   */
  function Percentage(paid: int, total: int): (r: int)
    ensures total <= 0 ==> r == 0
    ensures total > 0 ==> 2 * total * r - total <= 200 * paid < 2 * total * r + total
  {
    if total > 0 then
      var r := (200 * paid + total) / (2 * total);
      assert r * (2 * total) <= 200 * paid + total < r * (2 * total) + 2 * total;
      r
    else 0
  }

  datatype SemesterStat = SemesterStat(
    semester: Semester,
    paidCount: int,
    unpaidCount: int,
    paidPercentage: int,
    totalAmount: int)

  function StatAmount(st: SemesterStat): int { st.totalAmount }

  /**
   * The statistics object built for one semester: its counts split the
   * population, and its percentage is a valid share.
   */
  function StatFor(students: seq<User>, semester: Semester): (st: SemesterStat)
    ensures st.semester == semester
    ensures 0 <= st.paidCount <= |students|
    ensures 0 <= st.unpaidCount
    ensures st.paidCount + st.unpaidCount == |students|
    ensures 0 <= st.paidPercentage <= 100
    ensures |students| == 0 ==> st.paidPercentage == 0
  {
    var paid := PaidCount(students, semester.id);
    PercentageBounds(paid, |students|);
    SemesterStat(
      semester,
      paid,
      |students| - paid,
      Percentage(paid, |students|),
      SemesterAmount(students, semester.id))
  }

  /** `semesterStats`: one entry per semester, in the semesters' order. */
  function SemesterStats(students: seq<User>, semesters: seq<Semester>): (r: seq<SemesterStat>)
    ensures |r| == |semesters|
    ensures forall i :: 0 <= i < |r| ==> r[i] == StatFor(students, semesters[i])
  {
    seq(|semesters|, i requires 0 <= i < |semesters| => StatFor(students, semesters[i]))
  }

  /** A share of the population gives a percentage from 0 to 100, and 0 for no students. */
  lemma PercentageBounds(paid: int, total: int)
    requires 0 <= paid <= total
    ensures 0 <= Percentage(paid, total) <= 100
    ensures paid == total && total > 0 ==> Percentage(paid, total) == 100
    ensures paid == 0 ==> Percentage(paid, total) == 0
  {
    if total > 0 {
      var r := Percentage(paid, total);
      if r > 100 {
        ScaleBelow(2 * total, 101, r);
      }
      if r < 0 {
        ScaleBelow(2 * total, r, -1);
      }
      if paid == 0 && r >= 1 {
        ScaleBelow(2 * total, 1, r);
      }
      if paid == total && r <= 99 {
        ScaleBelow(2 * total, r, 99);
      }
    }
  }

  lemma ScaleBelow(k: int, a: int, b: int)
    requires k > 0 && a <= b
    ensures k * a <= k * b
  {
  }

  /** A student paid for a semester only if they paid at all. */
  lemma PaidCountBounded(students: seq<User>, semesterId: string)
    ensures PaidCount(students, semesterId) <= TotalPaidStudents(students) <= |students|
  {
    forall u: User | PaidFor(semesterId)(u) ensures HasPayments(u) {
      var i :| 0 <= i < |u.transactions| && u.transactions[i].semesterId == semesterId;
    }
    FilterMonotone(students, PaidFor(semesterId), HasPayments);
  }

  /** The semester's amounts of one student: `t.amount` summed over their payments for it. */
  function SemesterShare(semester: Semester, u: User): int
  {
    ShareIn(semester.id)(u)
  }

  // ---------------------------------------------------------------------------
  // The semester totals add up to the grand total
  // ---------------------------------------------------------------------------

  predicate DistinctIds(semesters: seq<Semester>)
  {
    forall i, j :: 0 <= i < j < |semesters| ==> semesters[i].id != semesters[j].id
  }

  predicate IsListed(semesters: seq<Semester>, semesterId: string)
  {
    exists i :: 0 <= i < |semesters| && semesters[i].id == semesterId
  }

  /** Every payment of every student is for one of the listed semesters. */
  predicate CoversPayments(semesters: seq<Semester>, students: seq<User>)
  {
    forall i, k :: 0 <= i < |students| && 0 <= k < |students[i].transactions| ==>
      IsListed(semesters, students[i].transactions[k].semesterId)
  }

  /** The contribution of payment `t` to the column of `semester`. */
  function Indicator(t: Transaction): Semester -> int
  {
    (s: Semester) => if s.id == t.semesterId then t.amount else 0
  }

  /** The semester shares of a list of payments, as a function of the semester. */
  function ShareOf(ts: seq<Transaction>): Semester -> int
  {
    (s: Semester) => SumOf(Filter(ts, InSemester(s.id)), Amount)
  }

  /** Exactly one listed semester receives the amount of a payment. */
  lemma {:induction false} IndicatorSum(semesters: seq<Semester>, t: Transaction)
    requires DistinctIds(semesters) && IsListed(semesters, t.semesterId)
    ensures SumOf(semesters, Indicator(t)) == t.amount
  {
    var rest := semesters[1..];
    if semesters[0].id == t.semesterId {
      forall i | 0 <= i < |rest| ensures Indicator(t)(rest[i]) == 0 {
        assert rest[i] == semesters[i + 1];
      }
      SumOfZero(rest, Indicator(t));
    } else {
      var i :| 0 <= i < |semesters| && semesters[i].id == t.semesterId;
      assert rest[i - 1] == semesters[i];
      IndicatorSum(rest, t);
    }
  }

  /** One student's payments, split by semester, add up to all their payments. */
  lemma {:induction false} SplitBySemester(semesters: seq<Semester>, ts: seq<Transaction>)
    requires DistinctIds(semesters)
    requires forall k :: 0 <= k < |ts| ==> IsListed(semesters, ts[k].semesterId)
    ensures SumOf(semesters, ShareOf(ts)) == SumOf(ts, Amount)
  {
    if ts == [] {
      SumOfZero(semesters, ShareOf(ts));
    } else {
      var t := ts[0];
      var r := ts[1..];
      assert forall k :: 0 <= k < |r| ==> r[k] == ts[k + 1];
      SplitBySemester(semesters, r);
      forall i | 0 <= i < |semesters|
        ensures ShareOf(ts)(semesters[i]) == Indicator(t)(semesters[i]) + ShareOf(r)(semesters[i])
      {
        var p := InSemester(semesters[i].id);
        if p(t) {
          assert Filter(ts, p) == [t] + Filter(r, p);
          assert ([t] + Filter(r, p))[1..] == Filter(r, p);
        }
      }
      SumOfAdd(semesters, ShareOf(ts), Indicator(t), ShareOf(r));
      assert IsListed(semesters, ts[0].semesterId);
      IndicatorSum(semesters, t);
    }
  }

  /** One entry of the `totalAmount` column is the row sum of the semester's shares. */
  lemma StatAmountIsRowSum(students: seq<User>, semester: Semester)
    ensures StatAmount(StatFor(students, semester)) == RowSums(students, SemesterShare)(semester)
  {
    RowSumsPointwise(students, SemesterShare, semester, ShareIn(semester.id));
  }

  /** One student's column sum over the semesters is their whole total. */
  lemma ColumnSumIsTotalPaid(semesters: seq<Semester>, u: User)
    requires DistinctIds(semesters)
    requires forall k :: 0 <= k < |u.transactions| ==> IsListed(semesters, u.transactions[k].semesterId)
    ensures ColumnSums(semesters, SemesterShare)(u) == TotalPaid(u)
  {
    ColumnSumsPointwise(semesters, SemesterShare, u, ShareOf(u.transactions));
    SplitBySemester(semesters, u.transactions);
  }

  /**
   * When the semesters have distinct ids and every payment belongs to one of
   * them, the `totalAmount` column of the semester statistics adds up to the
   * grand `totalAmount`.
   */
  lemma SemesterTotalsAddUp(students: seq<User>, semesters: seq<Semester>)
    requires DistinctIds(semesters) && CoversPayments(semesters, students)
    ensures SumOf(SemesterStats(students, semesters), StatAmount) == TotalAmount(students)
  {
    var stats := SemesterStats(students, semesters);
    forall i | 0 <= i < |semesters|
      ensures StatAmount(stats[i]) == RowSums(students, SemesterShare)(semesters[i])
    {
      StatAmountIsRowSum(students, semesters[i]);
    }
    SumOfPointwise(stats, StatAmount, semesters, RowSums(students, SemesterShare));
    SumOfSwap(semesters, students, SemesterShare);
    forall j | 0 <= j < |students|
      ensures ColumnSums(semesters, SemesterShare)(students[j]) == TotalPaid(students[j])
    {
      ColumnSumIsTotalPaid(semesters, students[j]);
    }
    SumOfPointwise(students, ColumnSums(semesters, SemesterShare), students, TotalPaid);
  }

  /**
   * Three students and two semesters: A paid the first (1000), B paid both
   * (1000 and 2000), C paid nothing. The first semester is 2 paid and 67%,
   * the second 1 paid and 33%, and the grand total is 4000.
   */
  const ExampleAutumn: Semester := Semester("s1", "Осень")
  const ExampleSpring: Semester := Semester("s2", "Весна")
  const ExampleT1: Transaction := Transaction("t1", "a", "s1", 1000, "", 1)
  const ExampleT2: Transaction := Transaction("t2", "b", "s1", 1000, "", 2)
  const ExampleT3: Transaction := Transaction("t3", "b", "s2", 2000, "", 3)
  const ExampleA: User := User("a", "A", "A", "A", None, None, StudentRole, "", "a", [ExampleT1])
  const ExampleB: User := User("b", "B", "B", "B", None, None, StudentRole, "", "b", [ExampleT2, ExampleT3])
  const ExampleC: User := User("c", "C", "C", "C", None, None, StudentRole, "", "c", [])
  const ExampleStudents: seq<User> := [ExampleA, ExampleB, ExampleC]

  lemma ThreeStudentExample()
    ensures var stats := SemesterStats(ExampleStudents, [ExampleAutumn, ExampleSpring]);
      && stats[0].paidCount == 2 && stats[0].unpaidCount == 1 && stats[0].paidPercentage == 67
      && stats[1].paidCount == 1 && stats[1].unpaidCount == 2 && stats[1].paidPercentage == 33
      && stats[0].totalAmount == 2000 && stats[1].totalAmount == 2000
      && TotalPaidStudents(ExampleStudents) == 2 && TotalAmount(ExampleStudents) == 4000
  {
    ExampleCounts();
    ExampleTotal();
    ExampleSemesterAmounts();
    assert Percentage(2, 3) == 67 && Percentage(1, 3) == 33;
  }

  /** Who paid in the example: A and B for the first semester, B alone for the second. */
  lemma ExampleCounts()
    ensures PaidCount(ExampleStudents, "s1") == 2 && PaidCount(ExampleStudents, "s2") == 1
    ensures TotalPaidStudents(ExampleStudents) == 2
  {
    var a, b, c := ExampleA, ExampleB, ExampleC;
    assert "s1" != "s2" by { assert "s1"[1] != "s2"[1]; }
    assert a.transactions[0].semesterId == "s1";
    assert IsSemesterPaid(a.transactions, "s1") && !IsSemesterPaid(a.transactions, "s2");
    assert b.transactions[0].semesterId == "s1" && b.transactions[1].semesterId == "s2";
    assert IsSemesterPaid(b.transactions, "s1") && IsSemesterPaid(b.transactions, "s2");
    assert !IsSemesterPaid(c.transactions, "s1") && !IsSemesterPaid(c.transactions, "s2");
    assert ExampleStudents[1..] == [b, c] && [b, c][1..] == [c] && [c][1..] == [];
    assert Filter([c], PaidFor("s1")) == [] && Filter([b, c], PaidFor("s1")) == [b];
    assert Filter(ExampleStudents, PaidFor("s1")) == [a, b];
    assert Filter([c], PaidFor("s2")) == [] && Filter([b, c], PaidFor("s2")) == [b];
    assert Filter(ExampleStudents, PaidFor("s2")) == [b];
    assert Filter([c], HasPayments) == [] && Filter([b, c], HasPayments) == [b];
    assert Filter(ExampleStudents, HasPayments) == [a, b];
  }

  /** The example's grand total: 1000 + 3000 + 0. */
  lemma ExampleTotal()
    ensures TotalAmount(ExampleStudents) == 4000
  {
    var t1 := Transaction("t1", "a", "s1", 1000, "", 1);
    var t2 := Transaction("t2", "b", "s1", 1000, "", 2);
    var t3 := Transaction("t3", "b", "s2", 2000, "", 3);
    var a := User("a", "A", "A", "A", None, None, StudentRole, "", "a", [t1]);
    var b := User("b", "B", "B", "B", None, None, StudentRole, "", "b", [t2, t3]);
    var c := User("c", "C", "C", "C", None, None, StudentRole, "", "c", []);
    assert ExampleStudents == [a, b, c];
    assert [a, b, c][1..] == [b, c] && [b, c][1..] == [c] && [c][1..] == [];
    assert b.transactions[1..] == [t3] && [t3][1..] == [] && [t1][1..] == [];
    assert FoldLeft([t3], 1000, AddAmount) == 3000;
    assert FoldLeft([t1], 0, AddAmount) == 1000 && FoldLeft([t2, t3], 0, AddAmount) == 3000;
    assert TotalPaid(a) == 1000 && TotalPaid(b) == 3000 && TotalPaid(c) == 0;
    assert FoldLeft([c], 4000, AddTotalPaid) == 4000;
    assert FoldLeft([b, c], 1000, AddTotalPaid) == 4000;
  }

  /** The example's semester totals: 1000 + 1000 for the first, 2000 for the second. */
  lemma ExampleSemesterAmounts()
    ensures SemesterAmount(ExampleStudents, "s1") == 2000 && SemesterAmount(ExampleStudents, "s2") == 2000
  {
    var t1 := Transaction("t1", "a", "s1", 1000, "", 1);
    var t2 := Transaction("t2", "b", "s1", 1000, "", 2);
    var t3 := Transaction("t3", "b", "s2", 2000, "", 3);
    var a := User("a", "A", "A", "A", None, None, StudentRole, "", "a", [t1]);
    var b := User("b", "B", "B", "B", None, None, StudentRole, "", "b", [t2, t3]);
    var c := User("c", "C", "C", "C", None, None, StudentRole, "", "c", []);
    assert ExampleStudents == [a, b, c];
    assert "s1" != "s2" by { assert "s1"[1] != "s2"[1]; }
    assert [a, b, c][1..] == [b, c] && [b, c][1..] == [c] && [c][1..] == [];
    assert [t3][1..] == [] && [t2, t3][1..] == [t3] && [t1][1..] == [];
    assert Filter([t3], InSemester("s1")) == [] && Filter([t2, t3], InSemester("s1")) == [t2];
    assert Filter([t3], InSemester("s2")) == [t3] && Filter([t2, t3], InSemester("s2")) == [t3];
    assert Filter([t1], InSemester("s2")) == [] && Filter([t1], InSemester("s1")) == [t1];
    assert [t2][1..] == [];
    assert FoldLeft([t1], 0, AddAmount) == 1000 && FoldLeft([t2], 0, AddAmount) == 1000;
    assert FoldLeft([t3], 0, AddAmount) == 2000;
    assert SemesterPaid("s1", a) == 1000 && SemesterPaid("s1", b) == 1000 && SemesterPaid("s1", c) == 0;
    assert SemesterPaid("s2", a) == 0 && SemesterPaid("s2", b) == 2000 && SemesterPaid("s2", c) == 0;
    assert FoldLeft([c], 2000, SemesterStep("s1")) == 2000;
    assert FoldLeft([b, c], 1000, SemesterStep("s1")) == 2000;
    assert FoldLeft([c], 2000, SemesterStep("s2")) == 2000;
    assert FoldLeft([b, c], 0, SemesterStep("s2")) == 2000;
  }
}
