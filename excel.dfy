/**
 * The row builders of the spreadsheet export (lib/excel-utils.ts). A row
 * whose keys depend on the data (one column per semester name) is a
 * JavaScript object built by key assignment, modelled as an association
 * list in insertion order; the fixed-shape rows are datatypes.
 */
module Excel {
  import opened Types
  import opened Text
  import opened Listing
  import opened Report

  // ---------------------------------------------------------------------------
  // Objects with data-dependent keys
  // ---------------------------------------------------------------------------

  /** The own properties of an object, in the order they were created. */
  type Row = seq<(string, string)>

  function Keys(row: Row): (r: seq<string>)
    ensures |r| == |row|
  {
    if row == [] then [] else [row[0].0] + Keys(row[1..])
  }

  /** `row[key]`, or None when the object has no such property. */
  function Lookup(row: Row, key: string): Option<string>
  {
    if row == [] then None
    else if row[0].0 == key then Some(row[0].1)
    else Lookup(row[1..], key)
  }

  /**
   * `row[key] = value`: afterwards `row[key]` is the value and every other
   * property reads as before.
   */
  function Assign(row: Row, key: string, value: string): (r: Row)
    ensures Lookup(r, key) == Some(value)
    ensures forall k :: k != key ==> Lookup(r, k) == Lookup(row, k)
  {
    if row == [] then [(key, value)]
    else if row[0].0 == key then [(key, value)] + row[1..]
    else
      var rest := Assign(row[1..], key, value);
      assert ([row[0]] + rest)[1..] == rest;
      [row[0]] + rest
  }

  /** A new key goes last; an existing key keeps its place. */
  lemma {:induction false} AssignKeys(row: Row, key: string, value: string)
    ensures Keys(Assign(row, key, value)) == if key in Keys(row) then Keys(row) else Keys(row) + [key]
  {
    if row == [] {
    } else if row[0].0 == key {
      assert ([(key, value)] + row[1..])[1..] == row[1..];
    } else {
      var rest := Assign(row[1..], key, value);
      AssignKeys(row[1..], key, value);
      assert ([row[0]] + rest)[1..] == rest;
      assert key in Keys(row) <==> key in Keys(row[1..]);
    }
  }

  // ---------------------------------------------------------------------------
  // formatStudentsForExcel
  // ---------------------------------------------------------------------------

  const FullNameKey: string := "ФИО"
  const PhoneKey: string := "Телефон"
  const GroupKey: string := "Группа"
  const TotalKey: string := "Всего оплачено"
  const NoGroup: string := "Не назначена"
  const NotPaid: string := "Не оплачено"

  /** `${amount} ₽` */
  function Roubles(amount: int): string
  {
    IntToString(amount) + " ₽"
  }

  /** `student.group_name || "Не назначена"`: null and "" both fall back. */
  function GroupLabel(groupName: Option<string>): (r: string)
    ensures r == NoGroup <==> groupName.None? || groupName.value == "" || groupName.value == NoGroup
  {
    match groupName
    case Some(g) => if g != "" then g else NoGroup
    case None => NoGroup
  }

  /** The three properties every student row starts with. */
  function BaseRow(u: User): Row
  {
    [(FullNameKey, FullName(u.surname, u.name, u.patronymic)), (PhoneKey, u.phone), (GroupKey, GroupLabel(u.groupName))]
  }

  /** The cell of one semester: the first payment's amount, or "Не оплачено". */
  function SemesterCell(u: User, semester: Semester): string
  {
    match TransactionBySemester(u.transactions, semester.id)
    case Some(t) => "Оплачено (" + Roubles(t.amount) + ")"
    case None => NotPaid
  }

  /** The row after the `forEach` has assigned the cells of `semesters`, in order. */
  function WithSemesters(row: Row, u: User, semesters: seq<Semester>): Row
  {
    if semesters == [] then row
    else
      var last := semesters[|semesters| - 1];
      Assign(WithSemesters(row, u, semesters[..|semesters| - 1]), last.name, SemesterCell(u, last))
  }

  /** The object built for one student. */
  function StudentRow(u: User, semesters: seq<Semester>): (r: Row)
    ensures Lookup(r, TotalKey) == Some(Roubles(SumOf(u.transactions, Amount)))
  {
    Assign(WithSemesters(BaseRow(u), u, semesters), TotalKey, Roubles(TotalPaid(u)))
  }

  /**
   * `formatStudentsForExcel`: one object per student, in order, each built by
   * assigning the semester cells one by one and then the total.
   */
  method FormatStudentsForExcel(students: seq<User>, semesters: seq<Semester>) returns (rows: seq<Row>)
    ensures |rows| == |students|
    ensures forall i :: 0 <= i < |students| ==> rows[i] == StudentRow(students[i], semesters)
  {
    rows := [];
    for i := 0 to |students|
      invariant |rows| == i
      invariant forall j :: 0 <= j < i ==> rows[j] == StudentRow(students[j], semesters)
    {
      var studentData := BuildStudentRow(students[i], semesters);
      rows := rows + [studentData];
    }
  }

  /** The `map` callback: the base properties, each semester's cell in turn, then the total. */
  method BuildStudentRow(student: User, semesters: seq<Semester>) returns (studentData: Row)
    ensures studentData == StudentRow(student, semesters)
  {
    studentData := BaseRow(student);
    for k := 0 to |semesters|
      invariant studentData == WithSemesters(BaseRow(student), student, semesters[..k])
    {
      assert semesters[..k + 1][..k] == semesters[..k];
      var transaction := TransactionBySemester(student.transactions, semesters[k].id);
      var cell := if transaction.Some? then "Оплачено (" + Roubles(transaction.value.amount) + ")" else NotPaid;
      assert cell == SemesterCell(student, semesters[k]);
      studentData := Assign(studentData, semesters[k].name, cell);
    }
    assert semesters[..|semesters|] == semesters;
    studentData := Assign(studentData, TotalKey, Roubles(TotalPaid(student)));
  }

  predicate IsReserved(key: string)
  {
    key == FullNameKey || key == PhoneKey || key == GroupKey || key == TotalKey
  }

  /** The semester names, in order. */
  function Names(semesters: seq<Semester>): (r: seq<string>)
    ensures |r| == |semesters| && forall i :: 0 <= i < |r| ==> r[i] == semesters[i].name
  {
    seq(|semesters|, i requires 0 <= i < |semesters| => semesters[i].name)
  }

  predicate DistinctNames(semesters: seq<Semester>)
  {
    forall i, j :: 0 <= i < j < |semesters| ==> semesters[i].name != semesters[j].name
  }

  /** Assigning the cells of semesters with other names leaves a property alone. */
  lemma {:induction false} WithSemestersOther(row: Row, u: User, semesters: seq<Semester>, key: string)
    requires forall i :: 0 <= i < |semesters| ==> semesters[i].name != key
    ensures Lookup(WithSemesters(row, u, semesters), key) == Lookup(row, key)
  {
    if semesters != [] {
      WithSemestersOther(row, u, semesters[..|semesters| - 1], key);
    }
  }

  /**
   * The cell of a semester holds its own status unless a later semester of
   * the same name overwrote it.
   */
  lemma {:induction false} WithSemestersCell(row: Row, u: User, semesters: seq<Semester>, i: nat)
    requires i < |semesters|
    requires forall j :: i < j < |semesters| ==> semesters[j].name != semesters[i].name
    ensures Lookup(WithSemesters(row, u, semesters), semesters[i].name) == Some(SemesterCell(u, semesters[i]))
  {
    var init := semesters[..|semesters| - 1];
    if i < |semesters| - 1 {
      assert init[i] == semesters[i];
      WithSemestersCell(row, u, init, i);
    }
  }

  /** With distinct names outside the reserved ones, the keys are base, semesters, total. */
  lemma {:induction false} WithSemestersKeys(row: Row, u: User, semesters: seq<Semester>)
    requires DistinctNames(semesters)
    requires forall i :: 0 <= i < |semesters| ==> semesters[i].name !in Keys(row)
    ensures Keys(WithSemesters(row, u, semesters)) == Keys(row) + Names(semesters)
  {
    if semesters == [] {
      assert Keys(row) + Names(semesters) == Keys(row);
    } else {
      var init := semesters[..|semesters| - 1];
      var last := semesters[|semesters| - 1];
      LastNameFresh(semesters);
      forall i | 0 <= i < |init| ensures init[i].name !in Keys(row) {
        assert init[i] == semesters[i];
      }
      WithSemestersKeys(row, u, init);
      var w := WithSemesters(row, u, init);
      assert WithSemesters(row, u, semesters) == Assign(w, last.name, SemesterCell(u, last));
      assert last.name !in Keys(w);
      AssignKeys(w, last.name, SemesterCell(u, last));
      assert Names(semesters) == Names(init) + [last.name];
    }
  }

  /** With distinct names the last semester's name is not among the earlier ones, which stay distinct. */
  lemma LastNameFresh(semesters: seq<Semester>)
    requires DistinctNames(semesters) && semesters != []
    ensures var init := semesters[..|semesters| - 1];
      && DistinctNames(init)
      && semesters[|semesters| - 1].name !in Names(init)
  {
    var init := semesters[..|semesters| - 1];
    forall j | 0 <= j < |init| ensures Names(init)[j] != semesters[|semesters| - 1].name {
      assert init[j] == semesters[j];
    }
  }

  /** The base row holds the name, phone and group under their keys, in that order. */
  lemma BaseRowSpec(u: User)
    ensures var base := BaseRow(u);
      && Lookup(base, FullNameKey) == Some(FullName(u.surname, u.name, u.patronymic))
      && Lookup(base, PhoneKey) == Some(u.phone)
      && Lookup(base, GroupKey) == Some(GroupLabel(u.groupName))
      && Keys(base) == [FullNameKey, PhoneKey, GroupKey]
      && FullNameKey != TotalKey && PhoneKey != TotalKey && GroupKey != TotalKey
  {
    var base := BaseRow(u);
    assert FullNameKey[0] != PhoneKey[0] && FullNameKey[0] != GroupKey[0] && PhoneKey[0] != GroupKey[0];
    assert TotalKey[0] != FullNameKey[0] && TotalKey[0] != PhoneKey[0] && TotalKey[0] != GroupKey[0];
    assert base[1..] == [(PhoneKey, u.phone), (GroupKey, GroupLabel(u.groupName))];
    assert base[1..][1..] == [(GroupKey, GroupLabel(u.groupName))] && base[1..][1..][1..] == [];
    assert Lookup(base[1..][1..], GroupKey) == Some(GroupLabel(u.groupName));
    assert Lookup(base[1..], GroupKey) == Some(GroupLabel(u.groupName));
    assert Lookup(base, GroupKey) == Some(GroupLabel(u.groupName));
    assert Keys(base[1..][1..]) == [GroupKey];
    assert Keys(base[1..]) == [PhoneKey, GroupKey];
    assert Keys(base) == [FullNameKey, PhoneKey, GroupKey];
  }

  /**
   * A student row: the full name is "surname name patronymic", the group falls
   * back to "Не назначена", every semester cell reports that semester's first
   * payment, and the total is the sum of all the student's payments. With
   * distinct, unreserved semester names the columns come in that order.
   */
  lemma StudentRowSpec(u: User, semesters: seq<Semester>)
    requires DistinctNames(semesters)
    requires forall i :: 0 <= i < |semesters| ==> !IsReserved(semesters[i].name)
    ensures var row := StudentRow(u, semesters);
      && Lookup(row, FullNameKey) == Some(u.surname + " " + u.name + " " + u.patronymic)
      && Lookup(row, PhoneKey) == Some(u.phone)
      && Lookup(row, GroupKey) == Some(GroupLabel(u.groupName))
      && (forall i :: 0 <= i < |semesters| ==> Lookup(row, semesters[i].name) == Some(SemesterCell(u, semesters[i])))
      && Lookup(row, TotalKey) == Some(Roubles(SumOf(u.transactions, Amount)))
      && Keys(row) == [FullNameKey, PhoneKey, GroupKey] + Names(semesters) + [TotalKey]
  {
    StudentRowFields(u, semesters);
    StudentRowCells(u, semesters);
    StudentRowKeys(u, semesters);
  }

  /** The name, phone, group and total of a student's row. */
  lemma StudentRowFields(u: User, semesters: seq<Semester>)
    requires forall i :: 0 <= i < |semesters| ==> !IsReserved(semesters[i].name)
    ensures var row := StudentRow(u, semesters);
      && Lookup(row, FullNameKey) == Some(u.surname + " " + u.name + " " + u.patronymic)
      && Lookup(row, PhoneKey) == Some(u.phone)
      && Lookup(row, GroupKey) == Some(GroupLabel(u.groupName))
  {
    var base := BaseRow(u);
    BaseRowSpec(u);
    WithSemestersOther(base, u, semesters, FullNameKey);
    WithSemestersOther(base, u, semesters, PhoneKey);
    WithSemestersOther(base, u, semesters, GroupKey);
  }

  /** The semester cells of a student's row. */
  lemma StudentRowCells(u: User, semesters: seq<Semester>)
    requires DistinctNames(semesters)
    requires forall i :: 0 <= i < |semesters| ==> !IsReserved(semesters[i].name)
    ensures forall i :: 0 <= i < |semesters| ==>
      Lookup(StudentRow(u, semesters), semesters[i].name) == Some(SemesterCell(u, semesters[i]))
  {
    forall i | 0 <= i < |semesters|
      ensures Lookup(StudentRow(u, semesters), semesters[i].name) == Some(SemesterCell(u, semesters[i]))
    {
      assert semesters[i].name != TotalKey;
      WithSemestersCell(BaseRow(u), u, semesters, i);
    }
  }

  /** The keys of a student's row, in order. */
  lemma StudentRowKeys(u: User, semesters: seq<Semester>)
    requires DistinctNames(semesters)
    requires forall i :: 0 <= i < |semesters| ==> !IsReserved(semesters[i].name)
    ensures Keys(StudentRow(u, semesters)) == [FullNameKey, PhoneKey, GroupKey] + Names(semesters) + [TotalKey]
  {
    var base := BaseRow(u);
    BaseRowSpec(u);
    WithSemestersKeys(base, u, semesters);
    assert TotalKey !in Keys(base) + Names(semesters);
    AssignKeys(WithSemesters(base, u, semesters), TotalKey, Roubles(TotalPaid(u)));
  }

  /** A semester cell says "Оплачено" exactly when the semester is paid. */
  lemma SemesterCellPaid(u: User, semester: Semester)
    ensures SemesterCell(u, semester) != NotPaid <==> IsSemesterPaid(u.transactions, semester.id)
  {
    var r := TransactionBySemester(u.transactions, semester.id);
    if r.Some? {
      PaidTextDiffers(Roubles(r.value.amount));
    }
  }

  /** Whatever the amount reads, a paid cell never reads "Не оплачено". */
  lemma PaidTextDiffers(amount: string)
    ensures "Оплачено (" + amount + ")" != NotPaid
  {
    assert ("Оплачено (" + amount + ")")[1] == 'п' != NotPaid[1];
  }

  // ---------------------------------------------------------------------------
  // formatStudentForExcel
  // ---------------------------------------------------------------------------

  datatype PaymentRow = PaymentRow(semester: string, sum: string, paidOn: string, transactionId: string)

  /** The row pushed when the student has no payment. */
  const Placeholder: PaymentRow := PaymentRow("-", "-", "-", "-")

  /**
   * The row of one payment. `formatDate` stands for `toLocaleDateString`,
   * which depends on the browser's locale.
   */
  function PaymentRowOf(t: Transaction, semesters: seq<Semester>, formatDate: int -> string): (r: PaymentRow)
    ensures IsListed(semesters, t.semesterId) ==>
      exists i :: 0 <= i < |semesters| && semesters[i].id == t.semesterId && r.semester == semesters[i].name
    ensures !IsListed(semesters, t.semesterId) ==> r.semester == t.semesterId
    ensures r.sum == Roubles(t.amount) && r.transactionId == t.id
  {
    var found := FindSemester(semesters, t.semesterId);
    var semesterLabel := if found.Some? then found.value.name else t.semesterId;
    PaymentRow(semesterLabel, Roubles(t.amount), formatDate(t.createdAt), t.id)
  }

  /**
   * `formatStudentForExcel`: one row per payment, in order, or the single
   * placeholder row when there is none; a missing `transactions` field
   * counts as no payment.
   */
  method FormatStudentForExcel(transactions: Option<seq<Transaction>>, semesters: seq<Semester>, formatDate: int -> string)
    returns (paymentsData: seq<PaymentRow>)
    ensures var ts := if transactions.Some? then transactions.value else [];
      && |paymentsData| == (if ts == [] then 1 else |ts|)
      && (ts == [] ==> paymentsData == [Placeholder])
      && (forall i :: 0 <= i < |ts| ==> paymentsData[i] == PaymentRowOf(ts[i], semesters, formatDate))
  {
    var ts := if transactions.Some? then transactions.value else [];
    paymentsData := seq(|ts|, i requires 0 <= i < |ts| => PaymentRowOf(ts[i], semesters, formatDate));
    if |paymentsData| == 0 {
      paymentsData := paymentsData + [Placeholder];
    }
  }

  // ---------------------------------------------------------------------------
  // formatSemesterStatsForExcel
  // ---------------------------------------------------------------------------

  datatype StatRow = StatRow(semester: string, paid: string, unpaid: string, percentage: string, total: string)

  /**
   * The row of one semester, computed as the export computes it: it shows
   * exactly the figures of the dashboards' shared statistics.
   */
  function StatRowOf(students: seq<User>, semester: Semester): (r: StatRow)
    ensures var st := StatFor(students, semester);
      && r.semester == st.semester.name
      && r.paid == IntToString(st.paidCount) + " студентов"
      && r.unpaid == IntToString(st.unpaidCount) + " студентов"
      && r.percentage == IntToString(st.paidPercentage) + "%"
      && r.total == Roubles(st.totalAmount)
  {
    var paidCount := PaidCount(students, semester.id);
    var totalAmount := SemesterAmount(students, semester.id);
    var totalStudents := |students|;
    StatRow(
      semester.name,
      IntToString(paidCount) + " студентов",
      IntToString(totalStudents - paidCount) + " студентов",
      IntToString(Percentage(paidCount, totalStudents)) + "%",
      Roubles(totalAmount))
  }

  /** `formatSemesterStatsForExcel`: one row per semester, in order. */
  function FormatSemesterStatsForExcel(students: seq<User>, semesters: seq<Semester>): (r: seq<StatRow>)
    ensures |r| == |semesters|
  {
    seq(|semesters|, i requires 0 <= i < |semesters| => StatRowOf(students, semesters[i]))
  }

  /**
   * Each exported row shows exactly the figures of the dashboards' shared
   * statistics for that semester, which split the students into paid and
   * unpaid and give a percentage from 0 to 100.
   */
  lemma SemesterStatsRowsAgree(students: seq<User>, semesters: seq<Semester>, i: nat)
    requires i < |semesters|
    ensures var row := FormatSemesterStatsForExcel(students, semesters)[i];
      var st := SemesterStats(students, semesters)[i];
      && row.semester == st.semester.name
      && row.paid == IntToString(st.paidCount) + " студентов"
      && row.unpaid == IntToString(st.unpaidCount) + " студентов"
      && row.percentage == IntToString(st.paidPercentage) + "%"
      && row.total == Roubles(st.totalAmount)
      && 0 <= st.paidCount && 0 <= st.unpaidCount && st.paidCount + st.unpaidCount == |students|
      && 0 <= st.paidPercentage <= 100
  {
  }
}
