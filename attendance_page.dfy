/** The statistics and the history order of the student attendance page
    (client/src/pages/student/attendance.tsx). The records are the list
    GET /api/attendance?studentId= answered with, or nothing while it is
    not loaded; a date is its timestamp in milliseconds. */
module AttendancePage {
  import opened Schema
  import opened Runtime
  import Routes

  /** How many of the records have exactly the given status. */
  function CountStatus(xs: seq<Attendance>, status: string): (r: nat)
    ensures r <= |xs|
  {
    if xs == [] then 0
    else (if xs[0].status == status then 1 else 0) + CountStatus(xs[1..], status)
  }

  /** The present, late and absent records never outnumber the classes,
      and account for all of them when every status is one of the three. */
  lemma {:induction false} StatusCountsBounded(xs: seq<Attendance>)
    ensures CountStatus(xs, "present") + CountStatus(xs, "late") + CountStatus(xs, "absent") <= |xs|
    ensures (forall i :: 0 <= i < |xs| ==> xs[i].status in {"present", "late", "absent"}) ==>
      CountStatus(xs, "present") + CountStatus(xs, "late") + CountStatus(xs, "absent") == |xs|
  {
    if xs != [] {
      StatusCountsBounded(xs[1..]);
      assert (forall i :: 0 <= i < |xs| ==> xs[i].status in {"present", "late", "absent"}) ==>
        (forall i :: 0 <= i < |xs[1..]| ==> xs[1..][i].status in {"present", "late", "absent"}) by {
        forall i | 0 <= i < |xs[1..]| ensures xs[1..][i] == xs[i + 1] { }
      }
    }
  }

  datatype PageStats = PageStats(totalClasses: nat, presentCount: nat, lateCount: nat, absentCount: nat,
                                 attendanceRate: nat)

  /** The four figures and the rate at the top of the page. With nothing
      loaded every figure is 0; otherwise each count is the number of
      records with that status, and the rate is the rounded share of
      'present' records, 0 when there are none. */
  function Stats(attendance: Option<seq<Attendance>>): (r: PageStats)
    ensures attendance.None? ==> r == PageStats(0, 0, 0, 0, 0)
    ensures attendance.Some? ==>
      && r.totalClasses == |attendance.value|
      && r.presentCount == CountStatus(attendance.value, "present")
      && r.lateCount == CountStatus(attendance.value, "late")
      && r.absentCount == CountStatus(attendance.value, "absent")
    ensures r.presentCount + r.lateCount + r.absentCount <= r.totalClasses
    ensures r.attendanceRate <= 100
    ensures r.totalClasses == 0 ==> r.attendanceRate == 0
    ensures r.totalClasses > 0 ==>
      2 * r.totalClasses * r.attendanceRate <= 200 * r.presentCount + r.totalClasses < 2 * r.totalClasses * (r.attendanceRate + 1)
  {
    if attendance.None? then PageStats(0, 0, 0, 0, 0)
    else
      var xs := attendance.value;
      StatusCountsBounded(xs);
      var totalClasses := |xs|;
      var presentCount := CountStatus(xs, "present");
      var rate := if totalClasses > 0 then RoundedPercent(presentCount, totalClasses) else 0;
      PageStats(totalClasses, presentCount, CountStatus(xs, "late"), CountStatus(xs, "absent"), rate)
  }

  // ------------------------------------- agreement with the dashboard

  /** `xs` lists the records stored under the distinct keys `ks`, in that
      order. */
  predicate Enumerates(att: map<Id, Attendance>, ks: seq<Id>, xs: seq<Attendance>)
  {
    && |ks| == |xs|
    && (forall i :: 0 <= i < |ks| ==> ks[i] in att && xs[i] == att[ks[i]])
    && (forall i, j :: 0 <= i < j < |ks| ==> ks[i] != ks[j])
  }

  function KeysWithStatus(att: map<Id, Attendance>, ks: seq<Id>, status: string): set<Id>
  {
    set k | k in ks && k in att && att[k].status == status
  }

  lemma TailEnumerates(att: map<Id, Attendance>, ks: seq<Id>, xs: seq<Attendance>)
    requires Enumerates(att, ks, xs) && ks != []
    ensures Enumerates(att, ks[1..], xs[1..])
    ensures ks[0] !in ks[1..]
  {
    forall i | 0 <= i < |ks[1..]| ensures ks[1..][i] in att && xs[1..][i] == att[ks[1..][i]] && ks[1..][i] != ks[0] {
      assert ks[1..][i] == ks[i + 1] && xs[1..][i] == xs[i + 1];
    }
    forall i, j | 0 <= i < j < |ks[1..]| ensures ks[1..][i] != ks[1..][j] {
      assert ks[1..][i] == ks[i + 1] && ks[1..][j] == ks[j + 1];
    }
  }

  lemma {:induction false} CountMatchesKeys(att: map<Id, Attendance>, ks: seq<Id>, xs: seq<Attendance>, status: string)
    requires Enumerates(att, ks, xs)
    ensures CountStatus(xs, status) == |KeysWithStatus(att, ks, status)|
  {
    if ks != [] {
      TailEnumerates(att, ks, xs);
      CountMatchesKeys(att, ks[1..], xs[1..], status);
      var rest := KeysWithStatus(att, ks[1..], status);
      assert forall k :: k in ks <==> k == ks[0] || k in ks[1..];
      if xs[0].status == status {
        assert KeysWithStatus(att, ks, status) == {ks[0]} + rest;
      } else {
        assert KeysWithStatus(att, ks, status) == rest;
      }
    }
  }

  lemma {:induction false} DistinctKeysCount(att: map<Id, Attendance>, ks: seq<Id>, xs: seq<Attendance>)
    requires Enumerates(att, ks, xs)
    ensures |set k | k in ks| == |ks|
  {
    if ks != [] {
      TailEnumerates(att, ks, xs);
      DistinctKeysCount(att, ks[1..], xs[1..]);
      assert forall k :: k in ks <==> k == ks[0] || k in ks[1..];
      assert (set k | k in ks) == {ks[0]} + (set k | k in ks[1..]);
    }
  }

  /** When the page is given the records the store holds, listed once
      each, it shows the same rate as the dashboard of server/routes.ts. */
  lemma PageRateMatchesDashboard(att: map<Id, Attendance>, ks: seq<Id>, xs: seq<Attendance>)
    requires Enumerates(att, ks, xs)
    requires forall k :: k in att ==> k in ks
    ensures Stats(Some(xs)).attendanceRate == Routes.AttendanceRate(att)
  {
    CountMatchesKeys(att, ks, xs, "present");
    DistinctKeysCount(att, ks, xs);
    assert KeysWithStatus(att, ks, "present") == Routes.PresentIds(att);
    assert (set k | k in ks) == att.Keys;
  }

  // ------------------------------------------------------ history order

  /** Newest first: no record is dated after one listed before it. */
  predicate NewestFirst(xs: seq<Attendance>)
  {
    forall i, j :: 0 <= i < j < |xs| ==> xs[i].date >= xs[j].date
  }

  /** Places `x` into a newest-first list, before every record no newer
      than it, so records of the same date keep their original order. */
  function InsertByDate(x: Attendance, ys: seq<Attendance>): (r: seq<Attendance>)
    ensures multiset(r) == multiset(ys) + multiset{x}
    ensures |r| == |ys| + 1
  {
    if ys == [] || x.date >= ys[0].date then [x] + ys
    else
      assert ys == [ys[0]] + ys[1..];
      [ys[0]] + InsertByDate(x, ys[1..])
  }

  lemma {:induction false} InsertKeepsNewestFirst(x: Attendance, ys: seq<Attendance>)
    requires NewestFirst(ys)
    ensures NewestFirst(InsertByDate(x, ys))
  {
    if ys == [] || x.date >= ys[0].date {
    } else {
      var rest := InsertByDate(x, ys[1..]);
      assert NewestFirst(ys[1..]);
      InsertKeepsNewestFirst(x, ys[1..]);
      forall j | 0 <= j < |rest| ensures ys[0].date >= rest[j].date {
        assert rest[j] in multiset(rest);
        if rest[j] != x {
          assert rest[j] in multiset(ys[1..]);
          assert rest[j] in ys[1..];
        }
      }
      assert InsertByDate(x, ys) == [ys[0]] + rest;
    }
  }

  /** `.sort((a, b) => b.date - a.date)`: the same records, newest first. */
  function SortByDateDesc(xs: seq<Attendance>): (r: seq<Attendance>)
    ensures multiset(r) == multiset(xs)
    ensures |r| == |xs|
    ensures NewestFirst(r)
  {
    if xs == [] then []
    else
      assert xs == [xs[0]] + xs[1..];
      InsertKeepsNewestFirst(xs[0], SortByDateDesc(xs[1..]));
      InsertByDate(xs[0], SortByDateDesc(xs[1..]))
  }

  /** Sorting a list already newest first changes nothing. */
  lemma {:induction false} SortKeepsSortedList(xs: seq<Attendance>)
    requires NewestFirst(xs)
    ensures SortByDateDesc(xs) == xs
  {
    if xs != [] {
      assert NewestFirst(xs[1..]);
      SortKeepsSortedList(xs[1..]);
    }
  }
}
