/** The request handlers of server/routes.ts, over one shared store. A
    handler runs to completion before the next one starts, so each is a
    sequence of store calls; a payload is taken as already parsed by its
    schema, and the 400 for a payload that fails to parse is not modelled. */
module Routes {
  import opened Schema
  import opened Runtime
  import opened Ledger
  import opened Storage
  import opened Http

  const InvalidCredentials: string := "Invalid credentials"
  const InsufficientMedals: string := "Insufficient medals"
  const StudentNotFound: string := "Student not found"
  const GroupNotFound: string := "Group not found"
  const MedalNotFound: string := "Medal not found"
  const ProductNotFound: string := "Product not found"
  const UserIdRequired: string := "User ID required"

  // ------------------------------------------------------------ login

  /** What a successful login answers with: the user without the password. */
  datatype UserView = UserView(id: Id, email: string, role: string, name: string)

  /** The credential check of POST /api/auth/login: 401 unless a user was
      found and its stored password equals the given one exactly. */
  function CheckCredentials(user: Option<User>, password: string): (r: Response<UserView>)
    ensures r.Ok? <==> user.Some? && user.value.password == password
    ensures r.Ok? ==> r.body == UserView(user.value.id, user.value.email, user.value.role, user.value.name)
    ensures !r.Ok? ==> r == Unauthorized(InvalidCredentials)
  {
    if user.None? || user.value.password != password then Unauthorized(InvalidCredentials)
    else Ok(UserView(user.value.id, user.value.email, user.value.role, user.value.name))
  }

  /** POST /api/auth/login. With several users sharing an email (the store
      does not forbid it), the one `find` meets first decides. */
  method Login(store: MemStorage, email: string, password: string) returns (r: Response<UserView>)
    ensures r.Ok? || r == Unauthorized(InvalidCredentials)
    ensures r.Ok? ==> exists k :: k in store.users && store.users[k].email == email && store.users[k].password == password
                                  && r.body == UserView(store.users[k].id, email, store.users[k].role, store.users[k].name)
    ensures (exists k :: k in store.users && store.users[k].email == email)
            && (forall k :: k in store.users && store.users[k].email == email ==> store.users[k].password == password)
            ==> r.Ok?
    ensures (forall k :: k in store.users && store.users[k].email == email ==> store.users[k].password != password)
            ==> r == Unauthorized(InvalidCredentials)
  {
    var user := store.GetUserByEmail(email);
    r := CheckCredentials(user, password);
  }

  // ----------------------------------------------------------- groups

  /** PUT /api/groups/:id */
  method PutGroup(store: MemStorage, id: Id, u: GroupPatch) returns (r: Response<Group>)
    requires store.Valid()
    modifies store`groups
    ensures store.Valid()
    ensures id !in old(store.groups) ==> r == NotFound(GroupNotFound) && store.groups == old(store.groups)
    ensures id in old(store.groups) ==>
      r == Ok(MergeGroup(old(store.groups)[id], u)) && store.groups == old(store.groups)[id := r.body]
  {
    var group := store.UpdateGroup(id, u);
    if group.None? {
      return NotFound(GroupNotFound);
    }
    r := Ok(group.value);
  }

  /** DELETE /api/groups/:id */
  method DeleteGroup(store: MemStorage, id: Id) returns (r: Response<Message>)
    requires store.Valid()
    modifies store`groups
    ensures store.Valid()
    ensures id !in old(store.groups) ==> r == NotFound(GroupNotFound)
    ensures id in old(store.groups) ==> r == Ok(Message("Group deleted successfully"))
    ensures store.groups == old(store.groups) - {id}
  {
    var deleted := store.DeleteGroup(id);
    if !deleted {
      return NotFound(GroupNotFound);
    }
    r := Ok(Message("Group deleted successfully"));
  }

  // --------------------------------------------------------- students

  /** A student as the API shows it, with its user and its group inlined. */
  datatype StudentView = StudentView(student: Student, user: Option<User>, group: Option<Group>)

  /** `{ ...student, user, group }`: the group is looked up only when
      `groupId` is neither null nor empty. */
  function WithRelations(store: MemStorage, s: Student): (r: StudentView)
    reads store
    requires store.Valid()
    ensures r.student == s
    ensures r.user.Some? <==> s.userId in store.users
    ensures r.user.Some? ==> r.user.value.id == s.userId && r.user.value == store.users[s.userId]
    ensures r.group.Some? <==> Truthy(s.groupId) && s.groupId.value in store.groups
    ensures r.group.Some? ==> s.groupId == Some(r.group.value.id) && r.group.value == store.groups[s.groupId.value]
  {
    StudentView(s, store.GetUser(s.userId), if Truthy(s.groupId) then store.GetGroup(s.groupId.value) else None)
  }

  /** GET /api/students: every stored student with its relations. */
  function StudentsWithRelations(store: MemStorage): (r: map<Id, StudentView>)
    reads store
    requires store.Valid()
    ensures r.Keys == store.students.Keys
    ensures forall k :: k in r ==> r[k].student == store.students[k] && r[k].student.id == k
    ensures forall k :: k in r ==> r[k] == WithRelations(store, store.students[k])
  {
    map k | k in store.students :: WithRelations(store, store.students[k])
  }

  /** GET /api/students/current?userId= */
  method CurrentStudent(store: MemStorage, userId: Option<string>) returns (r: Response<StudentView>)
    requires store.Valid()
    ensures !Truthy(userId) ==> r == BadRequest(UserIdRequired)
    ensures Truthy(userId) && (forall k :: k in store.students ==> store.students[k].userId != userId.value)
            ==> r == NotFound(StudentNotFound)
    ensures Truthy(userId) && (exists k :: k in store.students && store.students[k].userId == userId.value) ==> r.Ok?
    ensures r.Ok? ==> r.body.student in store.students.Values && r.body.student.userId == userId.value
                      && r.body == WithRelations(store, r.body.student)
  {
    if !Truthy(userId) {
      return BadRequest(UserIdRequired);
    }
    var student := store.GetStudentByUserId(userId.value);
    if student.None? {
      return NotFound(StudentNotFound);
    }
    r := Ok(WithRelations(store, student.value));
  }

  /** PUT /api/students/:id */
  method PutStudent(store: MemStorage, id: Id, u: StudentPatch) returns (r: Response<Student>)
    requires store.Valid()
    modifies store`students
    ensures store.Valid()
    ensures id !in old(store.students) ==> r == NotFound(StudentNotFound) && store.students == old(store.students)
    ensures id in old(store.students) ==>
      r == Ok(MergeStudent(old(store.students)[id], u)) && store.students == old(store.students)[id := r.body]
  {
    var student := store.UpdateStudent(id, u);
    if student.None? {
      return NotFound(StudentNotFound);
    }
    r := Ok(student.value);
  }

  // ------------------------------------------------------- attendance

  /** GET /api/attendance?studentId=&groupId=: a student filter wins over a
      group filter; with neither, every record. */
  function AttendanceQuery(store: MemStorage, studentId: Option<string>, groupId: Option<string>): (r: map<Id, Attendance>)
    reads store
    ensures forall k :: k in r ==> k in store.attendance && r[k] == store.attendance[k]
    ensures Truthy(studentId) ==>
      forall k :: k in store.attendance ==> (k in r <==> store.attendance[k].studentId == studentId.value)
    ensures !Truthy(studentId) && Truthy(groupId) ==>
      forall k :: k in store.attendance ==> (k in r <==> store.attendance[k].groupId == groupId.value)
    ensures !Truthy(studentId) && !Truthy(groupId) ==> r == store.attendance
  {
    if Truthy(studentId) then store.AttendanceByStudent(studentId.value)
    else if Truthy(groupId) then store.AttendanceByGroup(groupId.value)
    else store.attendance
  }

  // ----------------------------------------------------------- medals

  /** A medal as GET /api/medals shows it: with its student, that
      student's user, and the user who awarded it. */
  datatype MedalView = MedalView(medal: Medal, student: Option<Student>, user: Option<User>, awardedBy: Option<User>)

  /** GET /api/medals?studentId=: the medals of one student when the filter
      is given, otherwise all, each with its relations looked up. */
  function MedalsQuery(store: MemStorage, studentId: Option<string>): (r: map<Id, MedalView>)
    reads store
    requires store.Valid()
    ensures forall k :: k in r ==> k in store.medals && r[k].medal == store.medals[k]
    ensures Truthy(studentId) ==>
      forall k :: k in store.medals ==> (k in r <==> store.medals[k].studentId == studentId.value)
    ensures !Truthy(studentId) ==> r.Keys == store.medals.Keys
    ensures forall k :: k in r ==>
      && (r[k].student.Some? <==> r[k].medal.studentId in store.students)
      && (r[k].student.Some? ==> r[k].student.value == store.students[r[k].medal.studentId])
      && (r[k].user.Some? <==> r[k].student.Some? && r[k].student.value.userId in store.users)
      && (r[k].user.Some? ==> r[k].user.value == store.users[r[k].student.value.userId])
      && (r[k].awardedBy.Some? <==> r[k].medal.awardedBy in store.users)
      && (r[k].awardedBy.Some? ==> r[k].awardedBy.value == store.users[r[k].medal.awardedBy])
  {
    var medals := if Truthy(studentId) then store.MedalsByStudent(studentId.value) else store.medals;
    map k | k in medals ::
      var student := store.GetStudent(medals[k].studentId);
      MedalView(medals[k], student,
                if student.Some? then store.GetUser(student.value.userId) else None,
                store.GetUser(medals[k].awardedBy))
  }

  /** POST /api/medals: the medal is created and its student, if any,
      gains one of that medal. */
  method PostMedal(store: MemStorage, id: Id, m: NewMedal) returns (r: Response<Medal>)
    requires store.Valid() && id !in store.medals
    modifies store`medals, store`students
    ensures store.Valid()
    ensures r == Created(Medal(id, m.studentId, m.medalType, m.reason, m.awardedBy))
    ensures store.medals == old(store.medals)[id := r.body]
    ensures m.studentId in old(store.students) ==>
      store.students == old(store.students)[m.studentId := Award(old(store.students)[m.studentId], m.medalType)]
    ensures m.studentId !in old(store.students) ==> store.students == old(store.students)
  {
    var medal := store.CreateMedal(id, m);
    r := Created(medal);
  }

  /** DELETE /api/medals/:id */
  method DeleteMedal(store: MemStorage, id: Id) returns (r: Response<Message>)
    requires store.Valid()
    modifies store`medals, store`students
    ensures store.Valid()
    ensures id !in old(store.medals) ==> r == NotFound(MedalNotFound) && unchanged(store)
    ensures id in old(store.medals) ==> r == Ok(Message("Medal revoked successfully"))
    ensures store.medals == old(store.medals) - {id}
    ensures id in old(store.medals) && old(store.medals)[id].studentId in old(store.students) ==>
      var sid := old(store.medals)[id].studentId;
      store.students == old(store.students)[sid := Revoke(old(store.students)[sid], old(store.medals)[id].medalType)]
    ensures id in old(store.medals) && old(store.medals)[id].studentId !in old(store.students) ==>
      store.students == old(store.students)
  {
    var deleted := store.DeleteMedal(id);
    if !deleted {
      return NotFound(MedalNotFound);
    }
    r := Ok(Message("Medal revoked successfully"));
  }

  // --------------------------------------------------------- products

  /** PUT /api/products/:id */
  method PutProduct(store: MemStorage, id: Id, u: ProductPatch) returns (r: Response<Product>)
    requires store.Valid()
    modifies store`products
    ensures store.Valid()
    ensures id !in old(store.products) ==> r == NotFound(ProductNotFound) && store.products == old(store.products)
    ensures id in old(store.products) ==>
      r == Ok(MergeProduct(old(store.products)[id], u)) && store.products == old(store.products)[id := r.body]
  {
    var product := store.UpdateProduct(id, u);
    if product.None? {
      return NotFound(ProductNotFound);
    }
    r := Ok(product.value);
  }

  /** DELETE /api/products/:id */
  method DeleteProduct(store: MemStorage, id: Id) returns (r: Response<Message>)
    requires store.Valid()
    modifies store`products
    ensures store.Valid()
    ensures id !in old(store.products) ==> r == NotFound(ProductNotFound)
    ensures id in old(store.products) ==> r == Ok(Message("Product deleted successfully"))
    ensures store.products == old(store.products) - {id}
  {
    var deleted := store.DeleteProduct(id);
    if !deleted {
      return NotFound(ProductNotFound);
    }
    r := Ok(Message("Product deleted successfully"));
  }

  // -------------------------------------------------------- purchases

  /** GET /api/purchases?studentId= */
  function PurchasesQuery(store: MemStorage, studentId: Option<string>): (r: map<Id, Purchase>)
    reads store
    ensures forall k :: k in r ==> k in store.purchases && r[k] == store.purchases[k]
    ensures Truthy(studentId) ==>
      forall k :: k in store.purchases ==> (k in r <==> store.purchases[k].studentId == studentId.value)
    ensures !Truthy(studentId) ==> r == store.purchases
  {
    if Truthy(studentId) then store.PurchasesByStudent(studentId.value) else store.purchases
  }

  /** The affordability guard of POST /api/purchases: every balance covers
      what is spent of its kind, nulls read as 0. */
  function HasEnoughMedals(s: Student, p: NewPurchase): (ok: bool)
    ensures ok <==> forall k :: Spent(p, k) <= Balance(s, k)
  {
    EveryKindCovered(s, p);
    && OrZero(s.goldMedals) >= OrZero(p.goldSpent)
    && OrZero(s.silverMedals) >= OrZero(p.silverSpent)
    && OrZero(s.bronzeMedals) >= OrZero(p.bronzeSpent)
  }

  lemma EveryKindCovered(s: Student, p: NewPurchase)
    ensures (&& OrZero(s.goldMedals) >= OrZero(p.goldSpent)
             && OrZero(s.silverMedals) >= OrZero(p.silverSpent)
             && OrZero(s.bronzeMedals) >= OrZero(p.bronzeSpent))
            <==> forall k :: Spent(p, k) <= Balance(s, k)
  {
    assert Spent(p, Gold) == OrZero(p.goldSpent) && Balance(s, Gold) == OrZero(s.goldMedals);
    assert Spent(p, Silver) == OrZero(p.silverSpent) && Balance(s, Silver) == OrZero(s.silverMedals);
    assert Spent(p, Bronze) == OrZero(p.bronzeSpent) && Balance(s, Bronze) == OrZero(s.bronzeMedals);
  }

  /** Behind the guard, the clamp in the store never fires: every balance
      ends exactly at `balance - spent`, and none is negative. */
  lemma GuardMakesClampIdle(s: Student, p: NewPurchase)
    requires HasEnoughMedals(s, p)
    ensures forall k :: Balance(Deduct(s, p), k) == Balance(s, k) - Spent(p, k)
  {
    forall k ensures Balance(Deduct(s, p), k) == Balance(s, k) - Spent(p, k) {
      DeductExactIff(s, p, k);
    }
  }

  /** The guard compares raw amounts and the schema allows any integer, so
      a negative spend passes it, and the purchase then raises that
      balance instead of lowering it. */
  lemma GuardAdmitsNegativeSpend(s: Student, p: NewPurchase, k: MedalKind)
    requires NonNegative(s) && Spent(p, k) < 0
    requires forall j :: j != k ==> Spent(p, j) <= 0
    ensures HasEnoughMedals(s, p)
    ensures Balance(Deduct(s, p), k) == Balance(s, k) - Spent(p, k) > Balance(s, k)
  {
    assert forall j :: Spent(p, j) <= Balance(s, j);
  }

  /** POST /api/purchases: 404 for an unknown student, 400 when some
      balance is short, and otherwise the purchase is recorded and paid. */
  method PostPurchase(store: MemStorage, id: Id, p: NewPurchase) returns (r: Response<Purchase>)
    requires store.Valid() && id !in store.purchases
    modifies store`purchases, store`students
    ensures store.Valid()
    ensures p.studentId !in old(store.students) ==> r == NotFound(StudentNotFound) && unchanged(store)
    ensures p.studentId in old(store.students) && !HasEnoughMedals(old(store.students)[p.studentId], p) ==>
      r == BadRequest(InsufficientMedals) && unchanged(store)
    ensures p.studentId in old(store.students) && HasEnoughMedals(old(store.students)[p.studentId], p) ==>
      && r == Created(Purchase(id, p.studentId, p.productId, p.goldSpent, p.silverSpent, p.bronzeSpent, p.status))
      && store.purchases == old(store.purchases)[id := r.body]
      && store.students == old(store.students)[p.studentId := Deduct(old(store.students)[p.studentId], p)]
      && forall k :: Balance(store.students[p.studentId], k) == Balance(old(store.students)[p.studentId], k) - Spent(p, k)
  {
    var student := store.GetStudent(p.studentId);
    if student.None? {
      return NotFound(StudentNotFound);
    }
    var hasEnoughMedals := HasEnoughMedals(student.value, p);
    if !hasEnoughMedals {
      return BadRequest(InsufficientMedals);
    }
    GuardMakesClampIdle(student.value, p);
    var purchase := store.CreatePurchase(id, p);
    r := Created(purchase);
  }

  // -------------------------------------------------------- dashboard

  datatype DashboardStats = DashboardStats(totalGroups: nat, totalStudents: nat, medalsAwarded: nat, attendanceRate: string)

  /** The ids of the records whose status is 'present'. */
  function PresentIds(att: map<Id, Attendance>): (r: set<Id>)
    ensures r <= att.Keys && |r| <= |att|
  {
    var r := set k | k in att && att[k].status == "present";
    assert r <= att.Keys;
    SubsetCardinality(r, att.Keys);
    r
  }

  /** The dashboard's attendance rate: 0 with no records, otherwise the
      share of 'present' records as a rounded percentage, within 0..100. */
  function AttendanceRate(att: map<Id, Attendance>): (r: nat)
    ensures r <= 100
    ensures |att| == 0 ==> r == 0
    ensures |att| > 0 ==> 2 * |att| * r <= 200 * |PresentIds(att)| + |att| < 2 * |att| * (r + 1)
    ensures |att| > 0 && |PresentIds(att)| == |att| ==> r == 100
  {
    if |att| > 0 then RoundedPercent(|PresentIds(att)|, |att|) else 0
  }

  /** GET /api/dashboard/stats */
  function Stats(store: MemStorage): (r: DashboardStats)
    reads store
    ensures r.totalGroups == |store.groups| && r.totalStudents == |store.students| && r.medalsAwarded == |store.medals|
    ensures r.attendanceRate == PercentText(AttendanceRate(store.attendance))
    ensures r.attendanceRate[|r.attendanceRate| - 1] == '%'
  {
    DashboardStats(|store.groups|, |store.students|, |store.medals|, PercentText(AttendanceRate(store.attendance)))
  }

  // -------------------------------------------------------- scenarios

  /** On a fresh store: a student without balances is awarded a gold medal
      (gold becomes 1), the medal is revoked (gold is 0 again), and a
      purchase costing one gold is refused without recording anything. */
  method MedalLifecycleScenario(seedIds: seq<Id>, newStudentId: Id, medalId: Id, purchaseId: Id)
    returns (goldAfterAward: int, goldAfterRevoke: int, refused: Response<Purchase>, purchasesAfter: nat)
    requires |seedIds| == 7 && seedIds[0] != seedIds[1]
    requires seedIds[4] != seedIds[5] && seedIds[4] != seedIds[6] && seedIds[5] != seedIds[6]
    requires newStudentId != seedIds[3]
    ensures goldAfterAward == 1 && goldAfterRevoke == 0
    ensures refused == BadRequest(InsufficientMedals) && purchasesAfter == 0
  {
    var store := new MemStorage(seedIds[0], seedIds[1], seedIds[2], seedIds[3], seedIds[4], seedIds[5], seedIds[6]);
    var newcomer := store.CreateStudent(newStudentId, NewStudent(seedIds[1], "TIT-2024-002", None, None, None, None, None));
    assert store.students[newStudentId] == newcomer && Balance(newcomer, Gold) == 0;

    var medal := NewMedal(newStudentId, "gold", "Top score", seedIds[0]);
    var awarded := PostMedal(store, medalId, medal);
    var afterAward := store.students[newStudentId];
    assert afterAward == Award(newcomer, "gold");
    goldAfterAward := Balance(afterAward, Gold);

    assert store.medals[medalId] == awarded.body && awarded.body.studentId == newStudentId;
    var revoked := DeleteMedal(store, medalId);
    var afterRevoke := store.students[newStudentId];
    assert afterRevoke == Revoke(afterAward, "gold");
    goldAfterRevoke := Balance(afterRevoke, Gold);

    var purchase := NewPurchase(newStudentId, seedIds[4], Some(1), None, None, None);
    assert !HasEnoughMedals(afterRevoke, purchase);
    refused := PostPurchase(store, purchaseId, purchase);
    purchasesAfter := |store.purchases|;
  }

  /** On a fresh store: the seeded admin logs in with the seeded password
      and is answered with role 'admin'; a wrong password gets 401. */
  method AdminLoginScenario(seedIds: seq<Id>) returns (good: Response<UserView>, bad: Response<UserView>)
    requires |seedIds| == 7 && seedIds[0] != seedIds[1]
    requires seedIds[4] != seedIds[5] && seedIds[4] != seedIds[6] && seedIds[5] != seedIds[6]
    ensures good.Ok? && good.body.role == "admin" && good.body.email == AdminEmail
    ensures bad == Unauthorized(InvalidCredentials)
  {
    var store := new MemStorage(seedIds[0], seedIds[1], seedIds[2], seedIds[3], seedIds[4], seedIds[5], seedIds[6]);
    var admin := User(seedIds[0], AdminEmail, AdminPassword, "admin", "Admin User");
    var other := User(seedIds[1], StudentEmail, StudentPassword, "student", "Student User");
    assert other.email != AdminEmail;
    assert store.users[seedIds[0]] == admin;
    good := Login(store, AdminEmail, AdminPassword);
    bad := Login(store, AdminEmail, "admin1234");
  }
}
