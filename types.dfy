/**
 * The records the payment-tracking front end receives from its API
 * (lib/types.ts). Identifiers, names and free text are strings; role and
 * operation type stay strings because the code that consumes them
 * (getRoleName, getOperationTypeInfo) also handles values outside the
 * declared unions. `created_at` is modelled as an integer timestamp.
 */
module Types {

  datatype Option<+T> = None | Some(value: T)

  /** The four roles the API declares. */
  const StudentRole: string := "student"
  const ObserverRole: string := "observer"
  const AccountantRole: string := "accountant"
  const AdminRole: string := "admin"

  /** TransactionResponse: one completed tuition payment. */
  datatype Transaction = Transaction(
    id: string,
    userId: string,
    semesterId: string,
    amount: int,
    comment: string,
    createdAt: int)

  /** UserResponse; `groupId` and `groupName` are nullable in the API. */
  datatype User = User(
    id: string,
    name: string,
    surname: string,
    patronymic: string,
    groupId: Option<string>,
    groupName: Option<string>,
    role: string,
    phone: string,
    login: string,
    transactions: seq<Transaction>)

  /** UserCreate, the body of the create-user request. */
  datatype UserCreate = UserCreate(
    name: string,
    surname: string,
    patronymic: string,
    role: string,
    phone: string,
    login: string,
    password: string)

  /** UserEdit, the body of the edit-user request. */
  datatype UserEdit = UserEdit(name: string, surname: string, patronymic: string, phone: string)

  datatype Semester = Semester(id: string, name: string)

  datatype Group = Group(id: string, name: string, users: seq<User>)

  /** TransactionCreate, the body of the payment request. */
  datatype TransactionCreate = TransactionCreate(semesterId: string, amount: int)

  /** The denormalised snapshot of the acting user inside an operation. */
  datatype Initiator = Initiator(id: string, name: string, surname: string, patronymic: string, role: string)

  /** OperationResponse: an entry of the audit log. */
  datatype Operation = Operation(
    id: string,
    opType: string,
    userId: string,
    comment: string,
    createdAt: int,
    initiator: Initiator)

  /** A transaction tagged with its owner, as the accountant's flattened list holds it. */
  datatype OwnedTransaction = OwnedTransaction(tx: Transaction, student: User)

  function UserId(u: User): string { u.id }
  function GroupId(g: Group): string { g.id }
}
