/**
 * How the journal presents an operation's type (lib/api/activity.ts): the
 * Russian name of each of the four known types, and the icon and colour
 * the journal draws next to it.
 */
module Activity {

  /** The icons of lucide-react the journal uses. */
  datatype Icon = FileTextIcon | UserIcon | UsersIcon | CalendarIcon

  /** `{ icon, color, name }`. */
  datatype TypeInfo = TypeInfo(icon: Icon, color: string, name: string)

  const PaymentType: string := "payment"
  const UserType: string := "user"
  const GroupType: string := "group"
  const SemesterType: string := "semester"

  /** `operationTypeNames`. */
  const OperationTypeNames: map<string, string> := map[
    UserType := "Пользователь",
    GroupType := "Группа",
    SemesterType := "Семестр",
    PaymentType := "Оплата"]

  const OtherName: string := "Другое"
  const OtherColor: string := "text-gray-600"

  /**
   * `getOperationTypeInfo`: a known type is named from `operationTypeNames`;
   * any other value gets the neutral file icon, grey and "Другое".
   */
  function OperationTypeInfo(opType: string): (r: TypeInfo)
    ensures opType in OperationTypeNames ==> r.name == OperationTypeNames[opType]
    ensures opType !in OperationTypeNames ==> r == TypeInfo(FileTextIcon, OtherColor, OtherName)
    ensures opType == PaymentType ==> r.icon == FileTextIcon && r.color == "text-green-600"
    ensures opType == UserType ==> r.icon == UserIcon && r.color == "text-blue-600"
    ensures opType == GroupType ==> r.icon == UsersIcon && r.color == "text-indigo-600"
    ensures opType == SemesterType ==> r.icon == CalendarIcon && r.color == "text-purple-600"
  {
    if opType == PaymentType then TypeInfo(FileTextIcon, "text-green-600", OperationTypeNames[PaymentType])
    else if opType == UserType then TypeInfo(UserIcon, "text-blue-600", OperationTypeNames[UserType])
    else if opType == GroupType then TypeInfo(UsersIcon, "text-indigo-600", OperationTypeNames[GroupType])
    else if opType == SemesterType then TypeInfo(CalendarIcon, "text-purple-600", OperationTypeNames[SemesterType])
    else TypeInfo(FileTextIcon, OtherColor, OtherName)
  }

  /**
   * The presentation tells the types apart: two different known types
   * differ in name and colour, and no known type looks like an unknown one,
   * although a payment shares its icon with the fallback.
   */
  lemma TypeInfoDistinguishes(a: string, b: string)
    requires a in OperationTypeNames && a != b
    ensures OperationTypeInfo(a).name != OperationTypeInfo(b).name
    ensures OperationTypeInfo(a).color != OperationTypeInfo(b).color
    ensures OperationTypeInfo(PaymentType).icon == OperationTypeInfo(b).icon <== b !in OperationTypeNames
  {
    assert "Пользователь"[0] != "Группа"[0] && "Пользователь"[0] != "Семестр"[0] && "Пользователь"[0] != "Оплата"[0];
    assert "Группа"[0] != "Семестр"[0] && "Группа"[0] != "Оплата"[0] && "Семестр"[0] != "Оплата"[0];
    assert OtherName[0] != "Пользователь"[0] && OtherName[0] != "Группа"[0];
    assert OtherName[0] != "Семестр"[0] && OtherName[0] != "Оплата"[0];
    assert "text-green-600"[5] != "text-blue-600"[5] && "text-green-600"[5] != "text-indigo-600"[5];
    assert "text-green-600"[5] != "text-purple-600"[5] && "text-green-600"[7] != OtherColor[7];
    assert "text-blue-600"[5] != "text-indigo-600"[5] && "text-blue-600"[5] != "text-purple-600"[5];
    assert "text-blue-600"[5] != OtherColor[5] && "text-indigo-600"[5] != "text-purple-600"[5];
    assert "text-indigo-600"[5] != OtherColor[5] && "text-purple-600"[5] != OtherColor[5];
  }
}
