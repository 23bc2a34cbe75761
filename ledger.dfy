/** The medal ledger: how awarding a medal, revoking one and recording a
    purchase change a student's three balances (server/storage.ts,
    createMedal, deleteMedal and createPurchase). Balances are read as
    `x || 0`; every decrement is floor-clamped at 0 by `Math.max(0, ...)`. */
module Ledger {
  import opened Schema
  import opened Runtime

  datatype MedalKind = Gold | Silver | Bronze

  /** The medal types the store recognises; the comparison is exact, so any
      other text (`"Gold"`, `""`) names no balance. */
  function KindOf(medalType: string): Option<MedalKind>
  {
    if medalType == "gold" then Some(Gold)
    else if medalType == "silver" then Some(Silver)
    else if medalType == "bronze" then Some(Bronze)
    else None
  }

  /** A student's balance of one kind, null read as 0. */
  function Balance(s: Student, k: MedalKind): int
  {
    match k
    case Gold => OrZero(s.goldMedals)
    case Silver => OrZero(s.silverMedals)
    case Bronze => OrZero(s.bronzeMedals)
  }

  /** The amount of one kind a purchase spends, null read as 0. */
  function Spent(p: NewPurchase, k: MedalKind): int
  {
    match k
    case Gold => OrZero(p.goldSpent)
    case Silver => OrZero(p.silverSpent)
    case Bronze => OrZero(p.bronzeSpent)
  }

  /** The student with the balance of kind `k` written as `v`. */
  function WithBalance(s: Student, k: MedalKind, v: int): Student
  {
    match k
    case Gold => s.(goldMedals := Some(v))
    case Silver => s.(silverMedals := Some(v))
    case Bronze => s.(bronzeMedals := Some(v))
  }

  /** Everything but the balances is the same. */
  predicate SameIdentity(r: Student, s: Student)
  {
    r.id == s.id && r.userId == s.userId && r.studentId == s.studentId
    && r.groupId == s.groupId && r.status == s.status
  }

  predicate NonNegative(s: Student)
  {
    forall k :: Balance(s, k) >= 0
  }

  /** The student after a medal of `medalType` is awarded
      (server/storage.ts:314-324): the matching balance goes up by one, the
      other two stay as they are, and an unknown type changes nothing. */
  function Award(s: Student, medalType: string): (r: Student)
    ensures SameIdentity(r, s)
    ensures forall k :: Balance(r, k) == if KindOf(medalType) == Some(k) then Balance(s, k) + 1 else Balance(s, k)
    ensures KindOf(medalType).None? ==> r == s
  {
    match KindOf(medalType)
    case None => s
    case Some(k) => WithBalance(s, k, Balance(s, k) + 1)
  }

  /** The student after a medal of `medalType` is revoked
      (server/storage.ts:335-346): the matching balance goes down by one but
      never below 0; the other two stay as they are. */
  function Revoke(s: Student, medalType: string): (r: Student)
    ensures SameIdentity(r, s)
    ensures forall k :: Balance(r, k) == if KindOf(medalType) == Some(k) then Max0(Balance(s, k) - 1) else Balance(s, k)
    ensures forall k :: Balance(r, k) >= Balance(s, k) - 1
    ensures KindOf(medalType).None? ==> r == s
  {
    match KindOf(medalType)
    case None => s
    case Some(k) => WithBalance(s, k, Max0(Balance(s, k) - 1))
  }

  /** The student after the purchase `p` (server/storage.ts:414-422): each
      balance loses what the purchase spends of that kind, clamped at 0, and
      all three balances are written, so none of them is null afterwards. */
  function Deduct(s: Student, p: NewPurchase): (r: Student)
    ensures SameIdentity(r, s)
    ensures forall k :: Balance(r, k) == Max0(Balance(s, k) - Spent(p, k))
    ensures NonNegative(r)
    ensures r.goldMedals.Some? && r.silverMedals.Some? && r.bronzeMedals.Some?
  {
    s.(goldMedals := Some(Max0(Balance(s, Gold) - Spent(p, Gold))),
       silverMedals := Some(Max0(Balance(s, Silver) - Spent(p, Silver))),
       bronzeMedals := Some(Max0(Balance(s, Bronze) - Spent(p, Bronze))))
  }

  /** A deducted balance is exactly `balance - spent` when, and only when,
      the student had at least that much: otherwise the clamp leaves 0. */
  lemma DeductExactIff(s: Student, p: NewPurchase, k: MedalKind)
    ensures Balance(Deduct(s, p), k) == Balance(s, k) - Spent(p, k) <==> Spent(p, k) <= Balance(s, k)
    ensures Spent(p, k) > Balance(s, k) ==> Balance(Deduct(s, p), k) == 0
  {
  }

  /** Awarding a medal and then revoking the same medal gives back every
      balance the student had, as long as those were not negative. The raw
      record is the same too when the balance was not null before. */
  lemma RevokeUndoesAward(s: Student, medalType: string)
    requires NonNegative(s)
    ensures forall k :: Balance(Revoke(Award(s, medalType), medalType), k) == Balance(s, k)
    ensures s.goldMedals.Some? && s.silverMedals.Some? && s.bronzeMedals.Some? ==>
      Revoke(Award(s, medalType), medalType) == s
  {
  }

  // ------------------------------------------------- histories of events

  /** One change the ledger makes to a student's balances. */
  datatype LedgerEvent = Awarded(medalType: string) | Revoked(medalType: string) | Bought(purchase: NewPurchase)

  function Apply(s: Student, e: LedgerEvent): Student
  {
    match e
    case Awarded(t) => Award(s, t)
    case Revoked(t) => Revoke(s, t)
    case Bought(p) => Deduct(s, p)
  }

  /** The student after a history of events, oldest first. */
  function Replay(s: Student, events: seq<LedgerEvent>): Student
    decreases |events|
  {
    if events == [] then s else Replay(Apply(s, events[0]), events[1..])
  }

  function Repeat(e: LedgerEvent, n: nat): (r: seq<LedgerEvent>)
    ensures |r| == n && forall i :: 0 <= i < n ==> r[i] == e
  {
    if n == 0 then [] else [e] + Repeat(e, n - 1)
  }

  lemma {:induction false} ReplayAppend(s: Student, xs: seq<LedgerEvent>, ys: seq<LedgerEvent>)
    ensures Replay(s, xs + ys) == Replay(Replay(s, xs), ys)
    decreases |xs|
  {
    if xs != [] {
      assert (xs + ys)[0] == xs[0];
      assert (xs + ys)[1..] == xs[1..] + ys;
      ReplayAppend(Apply(s, xs[0]), xs[1..], ys);
    } else {
      assert xs + ys == ys;
    }
  }

  /** No history of awards, revocations and purchases makes a balance
      negative when none was negative to begin with. */
  lemma {:induction false} ReplayKeepsNonNegative(s: Student, events: seq<LedgerEvent>)
    requires NonNegative(s)
    ensures NonNegative(Replay(s, events))
    ensures SameIdentity(Replay(s, events), s)
    decreases |events|
  {
    if events != [] {
      var s' := Apply(s, events[0]);
      assert NonNegative(s') by {
        forall k ensures Balance(s', k) >= 0 {
          match events[0]
          case Awarded(t) =>
          case Revoked(t) =>
          case Bought(p) =>
        }
      }
      ReplayKeepsNonNegative(s', events[1..]);
    }
  }

  lemma {:induction false} AwardsAddUp(s: Student, medalType: string, n: nat)
    ensures forall k :: (Balance(Replay(s, Repeat(Awarded(medalType), n)), k)
      == if KindOf(medalType) == Some(k) then Balance(s, k) + n else Balance(s, k))
    ensures SameIdentity(Replay(s, Repeat(Awarded(medalType), n)), s)
    decreases n
  {
    if n > 0 {
      var events := Repeat(Awarded(medalType), n);
      assert events[1..] == Repeat(Awarded(medalType), n - 1);
      AwardsAddUp(Award(s, medalType), medalType, n - 1);
    }
  }

  lemma {:induction false} RevokesSubtract(s: Student, medalType: string, m: nat)
    requires NonNegative(s)
    ensures forall k :: (Balance(Replay(s, Repeat(Revoked(medalType), m)), k)
      == if KindOf(medalType) == Some(k) then Max0(Balance(s, k) - m) else Balance(s, k))
    decreases m
  {
    if m > 0 {
      var events := Repeat(Revoked(medalType), m);
      assert events[1..] == Repeat(Revoked(medalType), m - 1);
      var s' := Revoke(s, medalType);
      assert NonNegative(s');
      RevokesSubtract(s', medalType, m - 1);
    }
  }

  /** Awarding `n` medals of one type and then revoking `m` of them leaves
      that balance at `balance + n - m`, or at 0 when more were revoked than
      there were; the other two balances do not move. */
  lemma AwardsThenRevokes(s: Student, medalType: string, n: nat, m: nat)
    requires NonNegative(s)
    ensures var r := Replay(s, Repeat(Awarded(medalType), n) + Repeat(Revoked(medalType), m));
      forall k :: Balance(r, k) == if KindOf(medalType) == Some(k) then Max0(Balance(s, k) + n - m) else Balance(s, k)
  {
    var awards, revokes := Repeat(Awarded(medalType), n), Repeat(Revoked(medalType), m);
    ReplayAppend(s, awards, revokes);
    AwardsAddUp(s, medalType, n);
    var mid := Replay(s, awards);
    assert NonNegative(mid);
    RevokesSubtract(mid, medalType, m);
  }
}
