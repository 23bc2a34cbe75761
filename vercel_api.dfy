/** The second deployment of the API (api/index.ts): the same store behind
    a smaller set of handlers. It differs from server/routes.ts where it
    matters for the ledger: POST /api/purchases checks nothing, and its
    dashboard counts records instead of computing a rate. */
module VercelApi {
  import opened Schema
  import opened Runtime
  import opened Ledger
  import opened Storage
  import opened Http
  import Routes

  /** POST /api/auth/login: the same credential rule as the server. */
  method Login(store: MemStorage, email: string, password: string) returns (r: Response<Routes.UserView>)
    ensures r.Ok? || r == Unauthorized(Routes.InvalidCredentials)
    ensures r.Ok? ==> exists k :: k in store.users && store.users[k].email == email && store.users[k].password == password
                                  && r.body == Routes.UserView(store.users[k].id, email, store.users[k].role, store.users[k].name)
    ensures (exists k :: k in store.users && store.users[k].email == email)
            && (forall k :: k in store.users && store.users[k].email == email ==> store.users[k].password == password)
            ==> r.Ok?
    ensures (forall k :: k in store.users && store.users[k].email == email ==> store.users[k].password != password)
            ==> r == Unauthorized(Routes.InvalidCredentials)
  {
    var user := store.GetUserByEmail(email);
    r := Routes.CheckCredentials(user, password);
  }

  /** GET /api/students: the stored records as they are, nothing inlined. */
  function Students(store: MemStorage): (r: map<Id, Student>)
    reads store
    requires store.Valid()
    ensures r.Keys == store.students.Keys
    ensures forall k :: k in r ==> r[k] == store.students[k] && r[k].id == k
  {
    store.students
  }

  /** DELETE /api/students/:id */
  method DeleteStudent(store: MemStorage, id: Id) returns (r: Response<Http.Message>)
    requires store.Valid()
    modifies store`students
    ensures store.Valid()
    ensures id !in old(store.students) ==> r == NotFound(Routes.StudentNotFound)
    ensures id in old(store.students) ==> r == Ok(Http.Message("Student deleted successfully"))
    ensures store.students == old(store.students) - {id}
  {
    var deleted := store.DeleteStudent(id);
    if !deleted {
      return NotFound(Routes.StudentNotFound);
    }
    r := Ok(Http.Message("Student deleted successfully"));
  }

  /** POST /api/purchases: the purchase is recorded whatever the balances,
      and the store's clamp at 0 is all that keeps a balance from going
      below zero. */
  method PostPurchase(store: MemStorage, id: Id, p: NewPurchase) returns (r: Response<Purchase>)
    requires store.Valid() && id !in store.purchases
    modifies store`purchases, store`students
    ensures store.Valid()
    ensures r == Created(Purchase(id, p.studentId, p.productId, p.goldSpent, p.silverSpent, p.bronzeSpent, p.status))
    ensures store.purchases == old(store.purchases)[id := r.body]
    ensures p.studentId in old(store.students) ==>
      store.students == old(store.students)[p.studentId := Deduct(old(store.students)[p.studentId], p)]
    ensures p.studentId !in old(store.students) ==> store.students == old(store.students)
  {
    var purchase := store.CreatePurchase(id, p);
    r := Created(purchase);
  }

  /** The two deployments disagree on an over-spending purchase: a student
      who has fewer medals of some kind than the purchase spends is refused
      by the server, while this deployment records it and leaves 0 of that
      kind. */
  lemma DeploymentsDisagreeOnOverspending(s: Student, p: NewPurchase, k: MedalKind)
    requires Spent(p, k) > Balance(s, k)
    ensures !Routes.HasEnoughMedals(s, p)
    ensures Balance(Deduct(s, p), k) == 0
    ensures Balance(Deduct(s, p), k) != Balance(s, k) - Spent(p, k)
  {
    DeductExactIff(s, p, k);
  }

  /** Whenever the server's guard lets a purchase through, both
      deployments leave the student in the same state. */
  lemma DeploymentsAgreeBehindGuard(s: Student, p: NewPurchase)
    requires Routes.HasEnoughMedals(s, p)
    ensures forall k :: Balance(Deduct(s, p), k) == Balance(s, k) - Spent(p, k)
  {
    Routes.GuardMakesClampIdle(s, p);
  }

  datatype DashboardStats = DashboardStats(totalGroups: nat, totalStudents: nat, totalAttendance: nat,
                                           totalMedals: nat, activeStudents: nat)

  /** The students whose status is exactly 'active'. */
  function ActiveIds(students: map<Id, Student>): (r: set<Id>)
    ensures forall k :: k in r <==> k in students && students[k].status == Some("active")
    ensures |r| <= |students|
  {
    var r := set k | k in students && students[k].status == Some("active");
    SubsetCardinality(r, students.Keys);
    r
  }

  /** GET /api/dashboard/stats */
  function Stats(store: MemStorage): (r: DashboardStats)
    reads store
    ensures r.totalGroups == |store.groups| && r.totalStudents == |store.students|
    ensures r.totalAttendance == |store.attendance| && r.totalMedals == |store.medals|
    ensures r.activeStudents == |ActiveIds(store.students)| && r.activeStudents <= r.totalStudents
  {
    DashboardStats(|store.groups|, |store.students|, |store.attendance|, |store.medals|, |ActiveIds(store.students)|)
  }

  /** On a fresh store only the seeded student is active; one created
      afterwards through the API has no status and is not counted. */
  method ActiveStudentsScenario(seedIds: seq<Id>, newStudentId: Id) returns (before: nat, after: nat, total: nat)
    requires |seedIds| == 7 && seedIds[0] != seedIds[1]
    requires seedIds[4] != seedIds[5] && seedIds[4] != seedIds[6] && seedIds[5] != seedIds[6]
    requires newStudentId != seedIds[3]
    ensures before == 1 && after == 1 && total == 2
  {
    var store := new MemStorage(seedIds[0], seedIds[1], seedIds[2], seedIds[3], seedIds[4], seedIds[5], seedIds[6]);
    assert ActiveIds(store.students) == {seedIds[3]};
    before := Stats(store).activeStudents;
    var s := store.CreateStudent(newStudentId, NewStudent(seedIds[1], "TIT-2024-002", None, Some(0), Some(0), Some(0), None));
    assert ActiveIds(store.students) == {seedIds[3]};
    after := Stats(store).activeStudents;
    total := Stats(store).totalStudents;
  }
}
