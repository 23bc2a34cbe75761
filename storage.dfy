/** The in-memory store (server/storage.ts, class MemStorage): seven keyed
    collections changed in place, and the medal ledger kept in step with
    medal awards, revocations and purchases. */
module Storage {
  import opened Schema
  import opened Runtime
  import opened Ledger

  // ------------------------------------------- `{ ...record, ...updates }`

  function MergeGroup(g: Group, u: GroupPatch): (r: Group)
    ensures r.id == g.id
    ensures u == GroupPatch(None, None, None, None, None) ==> r == g
  {
    Group(g.id, Pick(u.name, g.name), Pick(u.description, g.description), Pick(u.schedule, g.schedule),
          Pick(u.capacity, g.capacity), Pick(u.status, g.status))
  }

  function MergeStudent(s: Student, u: StudentPatch): (r: Student)
    ensures r.id == s.id && r.status == s.status
    ensures u == NoStudentChange ==> r == s
  {
    Student(s.id, Pick(u.userId, s.userId), Pick(u.studentId, s.studentId), Pick(u.groupId, s.groupId),
            Pick(u.goldMedals, s.goldMedals), Pick(u.silverMedals, s.silverMedals),
            Pick(u.bronzeMedals, s.bronzeMedals), s.status)
  }

  function MergeAttendance(a: Attendance, u: AttendancePatch): (r: Attendance)
    ensures r.id == a.id
    ensures u == AttendancePatch(None, None, None, None, None) ==> r == a
  {
    Attendance(a.id, Pick(u.studentId, a.studentId), Pick(u.groupId, a.groupId), Pick(u.date, a.date),
               Pick(u.status, a.status), Pick(u.notes, a.notes))
  }

  function MergeProduct(p: Product, u: ProductPatch): (r: Product)
    ensures r.id == p.id
    ensures u == ProductPatch(None, None, None, None, None, None, None) ==> r == p
  {
    Product(p.id, Pick(u.name, p.name), Pick(u.description, p.description), Pick(u.image, p.image),
            Pick(u.goldPrice, p.goldPrice), Pick(u.silverPrice, p.silverPrice), Pick(u.bronzePrice, p.bronzePrice),
            Pick(u.inStock, p.inStock))
  }

  /** Two partial updates one after the other: the later value wins. */
  function ThenStudent(u: StudentPatch, v: StudentPatch): StudentPatch
  {
    StudentPatch(
      if v.userId.Some? then v.userId else u.userId,
      if v.studentId.Some? then v.studentId else u.studentId,
      if v.groupId.Some? then v.groupId else u.groupId,
      if v.goldMedals.Some? then v.goldMedals else u.goldMedals,
      if v.silverMedals.Some? then v.silverMedals else u.silverMedals,
      if v.bronzeMedals.Some? then v.bronzeMedals else u.bronzeMedals)
  }

  /** A merge-update overwrites exactly the supplied fields: a field the
      update supplies takes the supplied value, any other keeps its own, and
      two updates in a row act as one update in which the later wins. */
  lemma MergeStudentOverwritesSupplied(s: Student, u: StudentPatch, v: StudentPatch)
    ensures MergeStudent(s, u).userId == if u.userId.Some? then u.userId.value else s.userId
    ensures MergeStudent(s, u).studentId == if u.studentId.Some? then u.studentId.value else s.studentId
    ensures MergeStudent(s, u).groupId == if u.groupId.Some? then u.groupId.value else s.groupId
    ensures MergeStudent(s, u).goldMedals == if u.goldMedals.Some? then u.goldMedals.value else s.goldMedals
    ensures MergeStudent(s, u).silverMedals == if u.silverMedals.Some? then u.silverMedals.value else s.silverMedals
    ensures MergeStudent(s, u).bronzeMedals == if u.bronzeMedals.Some? then u.bronzeMedals.value else s.bronzeMedals
    ensures MergeStudent(MergeStudent(s, u), v) == MergeStudent(s, ThenStudent(u, v))
  {
  }

  /** The same for groups: each supplied field overwrites, each absent one is kept. */
  lemma MergeGroupOverwritesSupplied(g: Group, u: GroupPatch)
    ensures MergeGroup(g, u).name == if u.name.Some? then u.name.value else g.name
    ensures MergeGroup(g, u).description == if u.description.Some? then u.description.value else g.description
    ensures MergeGroup(g, u).schedule == if u.schedule.Some? then u.schedule.value else g.schedule
    ensures MergeGroup(g, u).capacity == if u.capacity.Some? then u.capacity.value else g.capacity
    ensures MergeGroup(g, u).status == if u.status.Some? then u.status.value else g.status
  {
  }

  /** The same for attendance records. */
  lemma MergeAttendanceOverwritesSupplied(a: Attendance, u: AttendancePatch)
    ensures MergeAttendance(a, u).studentId == if u.studentId.Some? then u.studentId.value else a.studentId
    ensures MergeAttendance(a, u).groupId == if u.groupId.Some? then u.groupId.value else a.groupId
    ensures MergeAttendance(a, u).date == if u.date.Some? then u.date.value else a.date
    ensures MergeAttendance(a, u).status == if u.status.Some? then u.status.value else a.status
    ensures MergeAttendance(a, u).notes == if u.notes.Some? then u.notes.value else a.notes
  {
  }

  /** The same for products. */
  lemma MergeProductOverwritesSupplied(p: Product, u: ProductPatch)
    ensures MergeProduct(p, u).name == if u.name.Some? then u.name.value else p.name
    ensures MergeProduct(p, u).description == if u.description.Some? then u.description.value else p.description
    ensures MergeProduct(p, u).image == if u.image.Some? then u.image.value else p.image
    ensures MergeProduct(p, u).goldPrice == if u.goldPrice.Some? then u.goldPrice.value else p.goldPrice
    ensures MergeProduct(p, u).silverPrice == if u.silverPrice.Some? then u.silverPrice.value else p.silverPrice
    ensures MergeProduct(p, u).bronzePrice == if u.bronzePrice.Some? then u.bronzePrice.value else p.bronzePrice
    ensures MergeProduct(p, u).inStock == if u.inStock.Some? then u.inStock.value else p.inStock
  {
  }

  // ---------------------------------------------- the balance updates

  /** The `updates` createMedal builds (server/storage.ts:316-323). */
  function AwardUpdates(s: Student, medalType: string): StudentPatch
  {
    if medalType == "gold" then NoStudentChange.(goldMedals := Some(Some(OrZero(s.goldMedals) + 1)))
    else if medalType == "silver" then NoStudentChange.(silverMedals := Some(Some(OrZero(s.silverMedals) + 1)))
    else if medalType == "bronze" then NoStudentChange.(bronzeMedals := Some(Some(OrZero(s.bronzeMedals) + 1)))
    else NoStudentChange
  }

  /** The `updates` deleteMedal builds (server/storage.ts:337-344). */
  function RevokeUpdates(s: Student, medalType: string): StudentPatch
  {
    if medalType == "gold" then NoStudentChange.(goldMedals := Some(Some(Max0(OrZero(s.goldMedals) - 1))))
    else if medalType == "silver" then NoStudentChange.(silverMedals := Some(Some(Max0(OrZero(s.silverMedals) - 1))))
    else if medalType == "bronze" then NoStudentChange.(bronzeMedals := Some(Some(Max0(OrZero(s.bronzeMedals) - 1))))
    else NoStudentChange
  }

  /** The `updates` createPurchase builds (server/storage.ts:416-420). */
  function PurchaseUpdates(s: Student, p: NewPurchase): StudentPatch
  {
    NoStudentChange.(
      goldMedals := Some(Some(Max0(OrZero(s.goldMedals) - OrZero(p.goldSpent)))),
      silverMedals := Some(Some(Max0(OrZero(s.silverMedals) - OrZero(p.silverSpent)))),
      bronzeMedals := Some(Some(Max0(OrZero(s.bronzeMedals) - OrZero(p.bronzeSpent)))))
  }

  /** The updates the store writes are the ledger's arithmetic. */
  lemma UpdatesMatchLedger(s: Student, medalType: string, p: NewPurchase)
    ensures MergeStudent(s, AwardUpdates(s, medalType)) == Award(s, medalType)
    ensures MergeStudent(s, RevokeUpdates(s, medalType)) == Revoke(s, medalType)
    ensures MergeStudent(s, PurchaseUpdates(s, p)) == Deduct(s, p)
  {
  }

  // --------------------------------------------------- the seeded state

  const AdminEmail: string := "admin@mail.com"
  const AdminPassword: string := "admin123"
  const StudentEmail: string := "student@mail.com"
  const StudentPassword: string := "student123"

  function SeedProducts(macbookId: Id, peripheralsId: Id, booksId: Id): seq<Product>
  {
    [ Product(macbookId, "MacBook Pro", Some("High-performance laptop for development"), Some(MacbookImage),
              Some(50), Some(0), Some(0), Some(true)),
      Product(peripheralsId, "Wireless Mouse & Keyboard", Some("Premium wireless peripherals set"), Some(PeripheralsImage),
              Some(0), Some(15), Some(0), Some(true)),
      Product(booksId, "Programming Books Set", Some("Essential programming literature collection"), Some(BooksImage),
              Some(0), Some(0), Some(8), Some(true)) ]
  }

  const MacbookImage: string := "https://images.unsplash.com/photo-1496181133206-80ce9b88a853?ixlib=rb-4.0.3&auto=format&fit=crop&w=400&h=250"
  const PeripheralsImage: string := "https://images.unsplash.com/photo-1527864550417-7fd91fc51a46?ixlib=rb-4.0.3&auto=format&fit=crop&w=400&h=250"
  const BooksImage: string := "https://images.unsplash.com/photo-1481627834876-b7833e8f5570?ixlib=rb-4.0.3&auto=format&fit=crop&w=400&h=250"

  /** The map `products.forEach(p => map.set(p.id, p))` leaves. */
  function ById(ps: seq<Product>): (r: map<Id, Product>)
    ensures forall k :: k in r ==> r[k].id == k
  {
    if ps == [] then map[] else ById(ps[..|ps| - 1])[ps[|ps| - 1].id := ps[|ps| - 1]]
  }

  /** Every listed product's id is a key, every key holds a listed product,
      and a product whose id does not recur later in the list is stored
      itself (a later `set` on the same id wins). */
  lemma {:induction false} ByIdStoresEvery(ps: seq<Product>)
    ensures forall i :: 0 <= i < |ps| ==> ps[i].id in ById(ps)
    ensures forall k :: k in ById(ps) ==> ById(ps)[k] in ps
    ensures forall i :: 0 <= i < |ps| && (forall j :: i < j < |ps| ==> ps[j].id != ps[i].id) ==>
      ById(ps)[ps[i].id] == ps[i]
  {
    if ps != [] {
      var init, last := ps[..|ps| - 1], ps[|ps| - 1];
      ByIdStoresEvery(init);
      assert ById(ps) == ById(init)[last.id := last];
      forall i | 0 <= i < |ps|
        ensures ps[i].id in ById(ps)
      {
        if i < |ps| - 1 {
          assert ps[i] == init[i];
        }
      }
      forall k | k in ById(ps)
        ensures ById(ps)[k] in ps
      {
        if k != last.id {
          assert ById(init)[k] in init;
        }
      }
      forall i | 0 <= i < |ps| && (forall j :: i < j < |ps| ==> ps[j].id != ps[i].id)
        ensures ById(ps)[ps[i].id] == ps[i]
      {
        if i < |ps| - 1 {
          assert ps[i] == init[i];
          assert last.id != ps[i].id;
          forall j | i < j < |init|
            ensures init[j].id != init[i].id
          {
            assert init[j] == ps[j];
          }
        }
      }
    }
  }

  lemma SeedById(macbookId: Id, peripheralsId: Id, booksId: Id)
    ensures var seed := SeedProducts(macbookId, peripheralsId, booksId);
      ById(seed) == map[macbookId := seed[0], peripheralsId := seed[1], booksId := seed[2]]
  {
    var seed := SeedProducts(macbookId, peripheralsId, booksId);
    assert ById(seed[..1]) == map[macbookId := seed[0]] by {
      assert seed[..1][..0] == [];
    }
    assert ById(seed[..2]) == map[macbookId := seed[0], peripheralsId := seed[1]] by {
      assert seed[..2][..1] == seed[..1];
    }
    assert seed[..3][..2] == seed[..2];
    assert seed[..3] == seed;
  }

  // ------------------------------------------------------------ the store

  class MemStorage {
    var users: map<Id, User>
    var groups: map<Id, Group>
    var students: map<Id, Student>
    var attendance: map<Id, Attendance>
    var medals: map<Id, Medal>
    var products: map<Id, Product>
    var purchases: map<Id, Purchase>

    /** Every record is stored under its own id. */
    ghost predicate Valid()
      reads this
    {
      && (forall k :: k in users ==> users[k].id == k)
      && (forall k :: k in groups ==> groups[k].id == k)
      && (forall k :: k in students ==> students[k].id == k)
      && (forall k :: k in attendance ==> attendance[k].id == k)
      && (forall k :: k in medals ==> medals[k].id == k)
      && (forall k :: k in products ==> products[k].id == k)
      && (forall k :: k in purchases ==> purchases[k].id == k)
    }

    /** `initializeData`: an admin, a student user with a student record
        holding 3 gold, 5 silver and 8 bronze medals in one active group,
        and three products. The ids stand for fresh random UUIDs. */
    constructor (adminId: Id, studentUserId: Id, groupId: Id, studentId: Id,
                 macbookId: Id, peripheralsId: Id, booksId: Id)
      requires adminId != studentUserId
      requires macbookId != peripheralsId && macbookId != booksId && peripheralsId != booksId
      ensures Valid()
      ensures users == map[
        adminId := User(adminId, AdminEmail, AdminPassword, "admin", "Admin User"),
        studentUserId := User(studentUserId, StudentEmail, StudentPassword, "student", "Student User")]
      ensures groups == map[groupId := Group(groupId, "React Fundamentals", Some("Frontend Development"),
                                             Some("Mon, Wed, Fri - 10:00 AM"), Some(30), Some("active"))]
      ensures students == map[studentId := Student(studentId, studentUserId, "TIT-2024-001", Some(groupId),
                                                   Some(3), Some(5), Some(8), Some("active"))]
      ensures attendance == map[] && medals == map[] && purchases == map[]
      ensures var seed := SeedProducts(macbookId, peripheralsId, booksId);
        products == map[macbookId := seed[0], peripheralsId := seed[1], booksId := seed[2]]
    {
      var seed := SeedProducts(macbookId, peripheralsId, booksId);
      var seeded: map<Id, Product> := map[];
      for i := 0 to |seed|
        invariant seeded == ById(seed[..i])
      {
        assert seed[..i + 1] == seed[..i] + [seed[i]];
        seeded := seeded[seed[i].id := seed[i]];
      }
      assert seed[..|seed|] == seed;
      SeedById(macbookId, peripheralsId, booksId);

      users := map[
        adminId := User(adminId, AdminEmail, AdminPassword, "admin", "Admin User"),
        studentUserId := User(studentUserId, StudentEmail, StudentPassword, "student", "Student User")];
      groups := map[groupId := Group(groupId, "React Fundamentals", Some("Frontend Development"),
                                     Some("Mon, Wed, Fri - 10:00 AM"), Some(30), Some("active"))];
      students := map[studentId := Student(studentId, studentUserId, "TIT-2024-001", Some(groupId),
                                           Some(3), Some(5), Some(8), Some("active"))];
      attendance := map[];
      medals := map[];
      products := seeded;
      purchases := map[];
    }

    // ------------------------------------------------------------- users

    function GetUser(id: Id): (r: Option<User>)
      reads this
      ensures r.Some? <==> id in users
      ensures r.Some? ==> r.value == users[id]
    {
      if id in users then Some(users[id]) else None
    }

    /** `getUserByEmail`: a user with that email, if there is one. The store
        does not enforce unique emails; which match `find` returns depends on
        insertion order, which is not modelled. */
    method GetUserByEmail(email: string) returns (r: Option<User>)
      ensures r.None? <==> forall k :: k in users ==> users[k].email != email
      ensures r.Some? ==> r.value in users.Values && r.value.email == email
    {
      if k :| k in users && users[k].email == email {
        r := Some(users[k]);
      } else {
        r := None;
      }
    }

    method CreateUser(id: Id, u: NewUser) returns (r: User)
      requires Valid() && id !in users
      modifies this`users
      ensures Valid()
      ensures r == User(id, u.email, u.password, u.role, u.name)
      ensures users == old(users)[id := r]
    {
      r := User(id, u.email, u.password, u.role, u.name);
      users := users[id := r];
    }

    // ------------------------------------------------------------ groups

    function GetGroup(id: Id): (r: Option<Group>)
      reads this
      ensures r.Some? <==> id in groups
      ensures r.Some? ==> r.value == groups[id]
    {
      if id in groups then Some(groups[id]) else None
    }

    /** Optional fields left out are stored as null: the column defaults
        (capacity 30, status 'active') are not applied by this store. */
    method CreateGroup(id: Id, g: NewGroup) returns (r: Group)
      requires Valid() && id !in groups
      modifies this`groups
      ensures Valid()
      ensures r == Group(id, g.name, g.description, g.schedule, g.capacity, g.status)
      ensures groups == old(groups)[id := r]
    {
      r := Group(id, g.name, g.description, g.schedule, g.capacity, g.status);
      groups := groups[id := r];
    }

    method UpdateGroup(id: Id, u: GroupPatch) returns (r: Option<Group>)
      requires Valid()
      modifies this`groups
      ensures Valid()
      ensures r.None? <==> id !in old(groups)
      ensures r.None? ==> groups == old(groups)
      ensures r.Some? ==> r.value == MergeGroup(old(groups)[id], u) && groups == old(groups)[id := r.value]
    {
      var group := GetGroup(id);
      if group.None? {
        return None;
      }
      var updated := MergeGroup(group.value, u);
      groups := groups[id := updated];
      r := Some(updated);
    }

    method DeleteGroup(id: Id) returns (deleted: bool)
      requires Valid()
      modifies this`groups
      ensures Valid()
      ensures deleted == (id in old(groups))
      ensures groups == old(groups) - {id}
    {
      deleted := id in groups;
      groups := groups - {id};
    }

    // ---------------------------------------------------------- students

    function GetStudent(id: Id): (r: Option<Student>)
      reads this
      ensures r.Some? <==> id in students
      ensures r.Some? ==> r.value == students[id]
    {
      if id in students then Some(students[id]) else None
    }

    /** `getStudentByUserId`: a student owned by that user, if any. */
    method GetStudentByUserId(userId: Id) returns (r: Option<Student>)
      ensures r.None? <==> forall k :: k in students ==> students[k].userId != userId
      ensures r.Some? ==> r.value in students.Values && r.value.userId == userId
    {
      if k :| k in students && students[k].userId == userId {
        r := Some(students[k]);
      } else {
        r := None;
      }
    }

    /** `getStudentByStudentId`: a student with that human-readable code. */
    method GetStudentByStudentId(code: string) returns (r: Option<Student>)
      ensures r.None? <==> forall k :: k in students ==> students[k].studentId != code
      ensures r.Some? ==> r.value in students.Values && r.value.studentId == code
    {
      if k :| k in students && students[k].studentId == code {
        r := Some(students[k]);
      } else {
        r := None;
      }
    }

    method CreateStudent(id: Id, s: NewStudent) returns (r: Student)
      requires Valid() && id !in students
      modifies this`students
      ensures Valid()
      ensures r == Student(id, s.userId, s.studentId, s.groupId, s.goldMedals, s.silverMedals, s.bronzeMedals, s.status)
      ensures students == old(students)[id := r]
    {
      r := Student(id, s.userId, s.studentId, s.groupId, s.goldMedals, s.silverMedals, s.bronzeMedals, s.status);
      students := students[id := r];
    }

    method UpdateStudent(id: Id, u: StudentPatch) returns (r: Option<Student>)
      requires Valid()
      modifies this`students
      ensures Valid()
      ensures r.None? <==> id !in old(students)
      ensures r.None? ==> students == old(students)
      ensures r.Some? ==> r.value == MergeStudent(old(students)[id], u) && students == old(students)[id := r.value]
    {
      var student := GetStudent(id);
      if student.None? {
        return None;
      }
      var updated := MergeStudent(student.value, u);
      students := students[id := updated];
      r := Some(updated);
    }

    method DeleteStudent(id: Id) returns (deleted: bool)
      requires Valid()
      modifies this`students
      ensures Valid()
      ensures deleted == (id in old(students))
      ensures students == old(students) - {id}
    {
      deleted := id in students;
      students := students - {id};
    }

    // -------------------------------------------------------- attendance

    function AttendanceByStudent(studentId: Id): (r: map<Id, Attendance>)
      reads this
      ensures forall k :: k in r <==> k in attendance && attendance[k].studentId == studentId
      ensures forall k :: k in r ==> r[k] == attendance[k]
    {
      map k | k in attendance && attendance[k].studentId == studentId :: attendance[k]
    }

    function AttendanceByGroup(groupId: Id): (r: map<Id, Attendance>)
      reads this
      ensures forall k :: k in r <==> k in attendance && attendance[k].groupId == groupId
      ensures forall k :: k in r ==> r[k] == attendance[k]
    {
      map k | k in attendance && attendance[k].groupId == groupId :: attendance[k]
    }

    method CreateAttendance(id: Id, a: NewAttendance) returns (r: Attendance)
      requires Valid() && id !in attendance
      modifies this`attendance
      ensures Valid()
      ensures r == Attendance(id, a.studentId, a.groupId, a.date, a.status, a.notes)
      ensures attendance == old(attendance)[id := r]
    {
      r := Attendance(id, a.studentId, a.groupId, a.date, a.status, a.notes);
      attendance := attendance[id := r];
    }

    method UpdateAttendance(id: Id, u: AttendancePatch) returns (r: Option<Attendance>)
      requires Valid()
      modifies this`attendance
      ensures Valid()
      ensures r.None? <==> id !in old(attendance)
      ensures r.None? ==> attendance == old(attendance)
      ensures r.Some? ==> r.value == MergeAttendance(old(attendance)[id], u) && attendance == old(attendance)[id := r.value]
    {
      if id !in attendance {
        return None;
      }
      var updated := MergeAttendance(attendance[id], u);
      attendance := attendance[id := updated];
      r := Some(updated);
    }

    // ------------------------------------------------------------ medals

    function MedalsByStudent(studentId: Id): (r: map<Id, Medal>)
      reads this
      ensures forall k :: k in r <==> k in medals && medals[k].studentId == studentId
      ensures forall k :: k in r ==> r[k] == medals[k]
    {
      map k | k in medals && medals[k].studentId == studentId :: medals[k]
    }

    /** `createMedal`: the medal is always stored; when its student exists,
        that student's matching balance goes up by one. */
    method CreateMedal(id: Id, m: NewMedal) returns (r: Medal)
      requires Valid() && id !in medals
      modifies this`medals, this`students
      ensures Valid()
      ensures r == Medal(id, m.studentId, m.medalType, m.reason, m.awardedBy)
      ensures medals == old(medals)[id := r]
      ensures m.studentId in old(students) ==> students == old(students)[m.studentId := Award(old(students)[m.studentId], m.medalType)]
      ensures m.studentId !in old(students) ==> students == old(students)
    {
      r := Medal(id, m.studentId, m.medalType, m.reason, m.awardedBy);
      medals := medals[id := r];

      var student := GetStudent(m.studentId);
      if student.Some? {
        var s := student.value;
        var updates := AwardUpdates(s, m.medalType);
        UpdatesMatchLedger(s, m.medalType, NewPurchase("", "", None, None, None, None));
        var _ := UpdateStudent(s.id, updates);
      }
    }

    /** `deleteMedal`: false and no change for an unknown id; otherwise the
        medal's student, if it still exists, loses one of that medal (never
        going below 0) and the medal is removed. */
    method DeleteMedal(id: Id) returns (deleted: bool)
      requires Valid()
      modifies this`medals, this`students
      ensures Valid()
      ensures deleted == (id in old(medals))
      ensures !deleted ==> medals == old(medals) && students == old(students)
      ensures medals == old(medals) - {id}
      ensures deleted && old(medals)[id].studentId in old(students) ==>
        var sid := old(medals)[id].studentId;
        students == old(students)[sid := Revoke(old(students)[sid], old(medals)[id].medalType)]
      ensures deleted && old(medals)[id].studentId !in old(students) ==> students == old(students)
    {
      if id !in medals {
        return false;
      }
      var medal := medals[id];

      var student := GetStudent(medal.studentId);
      if student.Some? {
        var s := student.value;
        var updates := RevokeUpdates(s, medal.medalType);
        UpdatesMatchLedger(s, medal.medalType, NewPurchase("", "", None, None, None, None));
        var _ := UpdateStudent(s.id, updates);
      }

      deleted := id in medals;
      medals := medals - {id};
    }

    // ---------------------------------------------------------- products

    function GetProduct(id: Id): (r: Option<Product>)
      reads this
      ensures r.Some? <==> id in products
      ensures r.Some? ==> r.value == products[id]
    {
      if id in products then Some(products[id]) else None
    }

    /** Optional fields left out are stored as null: in particular a product
        created without `inStock` has `inStock` null, not true. */
    method CreateProduct(id: Id, p: NewProduct) returns (r: Product)
      requires Valid() && id !in products
      modifies this`products
      ensures Valid()
      ensures r == Product(id, p.name, p.description, p.image, p.goldPrice, p.silverPrice, p.bronzePrice, p.inStock)
      ensures products == old(products)[id := r]
    {
      r := Product(id, p.name, p.description, p.image, p.goldPrice, p.silverPrice, p.bronzePrice, p.inStock);
      products := products[id := r];
    }

    method UpdateProduct(id: Id, u: ProductPatch) returns (r: Option<Product>)
      requires Valid()
      modifies this`products
      ensures Valid()
      ensures r.None? <==> id !in old(products)
      ensures r.None? ==> products == old(products)
      ensures r.Some? ==> r.value == MergeProduct(old(products)[id], u) && products == old(products)[id := r.value]
    {
      var product := GetProduct(id);
      if product.None? {
        return None;
      }
      var updated := MergeProduct(product.value, u);
      products := products[id := updated];
      r := Some(updated);
    }

    method DeleteProduct(id: Id) returns (deleted: bool)
      requires Valid()
      modifies this`products
      ensures Valid()
      ensures deleted == (id in old(products))
      ensures products == old(products) - {id}
    {
      deleted := id in products;
      products := products - {id};
    }

    // --------------------------------------------------------- purchases

    function PurchasesByStudent(studentId: Id): (r: map<Id, Purchase>)
      reads this
      ensures forall k :: k in r <==> k in purchases && purchases[k].studentId == studentId
      ensures forall k :: k in r ==> r[k] == purchases[k]
    {
      map k | k in purchases && purchases[k].studentId == studentId :: purchases[k]
    }

    /** `createPurchase`: the purchase is always stored, whatever the
        balances; when its student exists, each balance loses the amount
        spent, clamped at 0. No check that the student can afford it. */
    method CreatePurchase(id: Id, p: NewPurchase) returns (r: Purchase)
      requires Valid() && id !in purchases
      modifies this`purchases, this`students
      ensures Valid()
      ensures r == Purchase(id, p.studentId, p.productId, p.goldSpent, p.silverSpent, p.bronzeSpent, p.status)
      ensures purchases == old(purchases)[id := r]
      ensures p.studentId in old(students) ==> students == old(students)[p.studentId := Deduct(old(students)[p.studentId], p)]
      ensures p.studentId !in old(students) ==> students == old(students)
    {
      r := Purchase(id, p.studentId, p.productId, p.goldSpent, p.silverSpent, p.bronzeSpent, p.status);
      purchases := purchases[id := r];

      var student := GetStudent(p.studentId);
      if student.Some? {
        var s := student.value;
        var updates := PurchaseUpdates(s, p);
        UpdatesMatchLedger(s, "", p);
        var _ := UpdateStudent(s.id, updates);
      }
    }
  }
}
