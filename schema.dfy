/** Record shapes of the school store (shared/schema.ts).
    Ids are opaque strings; every nullable column is an `Option`; timestamps
    (`createdAt`) are not modelled. An attendance `date` is its time value in
    milliseconds. */
module Schema {

  type Id = string

  datatype Option<+T> = None | Some(value: T)

  /** `x || 0` on a nullable integer column: null reads as 0. */
  function OrZero(x: Option<int>): int
  {
    match x
    case Some(v) => v
    case None => 0
  }

  /** A value supplied in a partial update (`Some`) replaces the current one. */
  function Pick<T>(supplied: Option<T>, current: T): T
  {
    match supplied
    case Some(v) => v
    case None => current
  }

  // ---------------------------------------------------------------- users

  datatype User = User(id: Id, email: string, password: string, role: string, name: string)

  datatype NewUser = NewUser(email: string, password: string, role: string, name: string)

  // --------------------------------------------------------------- groups

  datatype Group = Group(
    id: Id,
    name: string,
    description: Option<string>,
    schedule: Option<string>,
    capacity: Option<int>,
    status: Option<string>)

  datatype NewGroup = NewGroup(
    name: string,
    description: Option<string>,
    schedule: Option<string>,
    capacity: Option<int>,
    status: Option<string>)

  /** `Partial<InsertGroup>`: the outer `None` means the key is absent. */
  datatype GroupPatch = GroupPatch(
    name: Option<string>,
    description: Option<Option<string>>,
    schedule: Option<Option<string>>,
    capacity: Option<Option<int>>,
    status: Option<Option<string>>)

  // ------------------------------------------------------------- students

  /** A student with its three medal balances. `status` is written and read
      by the store although shared/schema.ts has no such column. */
  datatype Student = Student(
    id: Id,
    userId: Id,
    studentId: string,
    groupId: Option<Id>,
    goldMedals: Option<int>,
    silverMedals: Option<int>,
    bronzeMedals: Option<int>,
    status: Option<string>)

  datatype NewStudent = NewStudent(
    userId: Id,
    studentId: string,
    groupId: Option<Id>,
    goldMedals: Option<int>,
    silverMedals: Option<int>,
    bronzeMedals: Option<int>,
    status: Option<string>)

  /** `Partial<InsertStudent>`: the columns of shared/schema.ts, so no `status`. */
  datatype StudentPatch = StudentPatch(
    userId: Option<Id>,
    studentId: Option<string>,
    groupId: Option<Option<Id>>,
    goldMedals: Option<Option<int>>,
    silverMedals: Option<Option<int>>,
    bronzeMedals: Option<Option<int>>)

  /** The `{}` the ledger operations start from. */
  const NoStudentChange: StudentPatch := StudentPatch(None, None, None, None, None, None)

  // ----------------------------------------------------------- attendance

  datatype Attendance = Attendance(
    id: Id,
    studentId: Id,
    groupId: Id,
    date: int,
    status: string,
    notes: Option<string>)

  datatype NewAttendance = NewAttendance(
    studentId: Id,
    groupId: Id,
    date: int,
    status: string,
    notes: Option<string>)

  datatype AttendancePatch = AttendancePatch(
    studentId: Option<Id>,
    groupId: Option<Id>,
    date: Option<int>,
    status: Option<string>,
    notes: Option<Option<string>>)

  // --------------------------------------------------------------- medals

  /** `medalType` is the `type` column: 'gold' | 'silver' | 'bronze' by
      convention, any text as far as the store is concerned. */
  datatype Medal = Medal(id: Id, studentId: Id, medalType: string, reason: string, awardedBy: Id)

  datatype NewMedal = NewMedal(studentId: Id, medalType: string, reason: string, awardedBy: Id)

  // ------------------------------------------------------------- products

  datatype Product = Product(
    id: Id,
    name: string,
    description: Option<string>,
    image: Option<string>,
    goldPrice: Option<int>,
    silverPrice: Option<int>,
    bronzePrice: Option<int>,
    inStock: Option<bool>)

  datatype NewProduct = NewProduct(
    name: string,
    description: Option<string>,
    image: Option<string>,
    goldPrice: Option<int>,
    silverPrice: Option<int>,
    bronzePrice: Option<int>,
    inStock: Option<bool>)

  datatype ProductPatch = ProductPatch(
    name: Option<string>,
    description: Option<Option<string>>,
    image: Option<Option<string>>,
    goldPrice: Option<Option<int>>,
    silverPrice: Option<Option<int>>,
    bronzePrice: Option<Option<int>>,
    inStock: Option<Option<bool>>)

  // ------------------------------------------------------------ purchases

  datatype Purchase = Purchase(
    id: Id,
    studentId: Id,
    productId: Id,
    goldSpent: Option<int>,
    silverSpent: Option<int>,
    bronzeSpent: Option<int>,
    status: Option<string>)

  datatype NewPurchase = NewPurchase(
    studentId: Id,
    productId: Id,
    goldSpent: Option<int>,
    silverSpent: Option<int>,
    bronzeSpent: Option<int>,
    status: Option<string>)
}
