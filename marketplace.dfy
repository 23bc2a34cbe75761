/** The rules of the student marketplace page
    (client/src/pages/student/marketplace.tsx): which products are offered,
    which the student can afford, how a price is shown, and what a purchase
    request sends. The student is the record GET /api/students/current
    answered with, or nothing while it is not loaded. */
module Marketplace {
  import opened Schema
  import opened Ledger
  import Routes

  /** A product's price in one kind of medal, null read as 0. */
  function Price(p: Product, k: MedalKind): int
  {
    match k
    case Gold => OrZero(p.goldPrice)
    case Silver => OrZero(p.silverPrice)
    case Bronze => OrZero(p.bronzePrice)
  }

  /** `canAfford`: false with no student loaded; otherwise every balance
      must cover the matching price. */
  function CanAfford(student: Option<Student>, product: Product): (r: bool)
    ensures student.None? ==> !r
    ensures student.Some? ==> (r <==> forall k :: Price(product, k) <= Balance(student.value, k))
  {
    if student.None? then false
    else
      var s := student.value;
      CoversEveryKind(s, product);
      var hasGold := OrZero(s.goldMedals) >= OrZero(product.goldPrice);
      var hasSilver := OrZero(s.silverMedals) >= OrZero(product.silverPrice);
      var hasBronze := OrZero(s.bronzeMedals) >= OrZero(product.bronzePrice);
      hasGold && hasSilver && hasBronze
  }

  lemma CoversEveryKind(s: Student, product: Product)
    ensures (&& OrZero(s.goldMedals) >= OrZero(product.goldPrice)
             && OrZero(s.silverMedals) >= OrZero(product.silverPrice)
             && OrZero(s.bronzeMedals) >= OrZero(product.bronzePrice))
            <==> forall k :: Price(product, k) <= Balance(s, k)
  {
    assert Price(product, Gold) == OrZero(product.goldPrice) && Balance(s, Gold) == OrZero(s.goldMedals);
    assert Price(product, Silver) == OrZero(product.silverPrice) && Balance(s, Silver) == OrZero(s.silverMedals);
    assert Price(product, Bronze) == OrZero(product.bronzePrice) && Balance(s, Bronze) == OrZero(s.bronzeMedals);
  }

  /** What `purchaseMutation` does: throw without a student, otherwise send
      the product's three prices, null sent as 0. */
  datatype PurchaseRequest = Send(payload: NewPurchase) | Thrown(message: string)

  function RequestPurchase(student: Option<Student>, product: Product): (r: PurchaseRequest)
    ensures student.None? <==> r == Thrown(Routes.StudentNotFound)
    ensures r.Send? ==> && r.payload.studentId == student.value.id && r.payload.productId == product.id
                        && r.payload.status.None?
                        && forall k :: Spent(r.payload, k) == Price(product, k)
    ensures r.Send? ==> r.payload.goldSpent.Some? && r.payload.silverSpent.Some? && r.payload.bronzeSpent.Some?
  {
    if student.None? then Thrown(Routes.StudentNotFound)
    else
      PayloadSpendsPrices(student.value, product);
      Send(Payload(student.value, product))
  }

  /** The body of the request for `product` on behalf of `s`. */
  function Payload(s: Student, product: Product): NewPurchase
  {
    NewPurchase(s.id, product.id, Some(OrZero(product.goldPrice)),
                Some(OrZero(product.silverPrice)), Some(OrZero(product.bronzePrice)), None)
  }

  lemma PayloadSpendsPrices(s: Student, product: Product)
    ensures forall k :: Spent(Payload(s, product), k) == Price(product, k)
  {
    forall k ensures Spent(Payload(s, product), k) == Price(product, k) {
      match k
      case Gold =>
      case Silver =>
      case Bronze =>
    }
  }

  /** The page and the server apply the same rule: a loaded student can
      afford a product exactly when the server's guard accepts the request
      the page sends for it. */
  lemma CanAffordIsServerGuard(s: Student, product: Product)
    ensures RequestPurchase(Some(s), product).Send?
    ensures CanAfford(Some(s), product) == Routes.HasEnoughMedals(s, RequestPurchase(Some(s), product).payload)
  {
    var p := RequestPurchase(Some(s), product).payload;
    assert (forall k :: Price(product, k) <= Balance(s, k)) <==> (forall k :: Spent(p, k) <= Balance(s, k));
  }

  /** Buying an affordable product through the server leaves each balance
      lowered by exactly the product's price. */
  lemma AffordablePurchaseCostsThePrice(s: Student, product: Product)
    requires CanAfford(Some(s), product)
    ensures var p := RequestPurchase(Some(s), product).payload;
      forall k :: Balance(Deduct(s, p), k) == Balance(s, k) - Price(product, k)
  {
    CanAffordIsServerGuard(s, product);
    Routes.GuardMakesClampIdle(s, RequestPurchase(Some(s), product).payload);
  }

  /** A product with no positive price. */
  predicate IsFree(product: Product)
  {
    forall k :: Price(product, k) <= 0
  }

  /** A free product is affordable for every loaded student whose balances
      are not negative. */
  lemma FreeIsAffordable(s: Student, product: Product)
    requires IsFree(product) && NonNegative(s)
    ensures CanAfford(Some(s), product)
  {
  }

  // ------------------------------------------------------- price badges

  /** One coloured badge showing a positive price in one kind of medal. */
  datatype Badge = Badge(kind: MedalKind, amount: int)

  /** What `getMedalDisplay` renders: "Free", or the badges. */
  datatype PriceDisplay = Free | Badges(badges: seq<Badge>)

  function Rank(k: MedalKind): nat
  {
    match k
    case Gold => 0
    case Silver => 1
    case Bronze => 2
  }

  /** Gold before silver before bronze, each kind at most once. */
  predicate Ordered(badges: seq<Badge>)
  {
    forall i, j :: 0 <= i < j < |badges| ==> Rank(badges[i].kind) < Rank(badges[j].kind)
  }

  /** The badge of one kind, if that price is positive. */
  function BadgeOf(product: Product, k: MedalKind): seq<Badge>
  {
    if Price(product, k) > 0 then [Badge(k, Price(product, k))] else []
  }

  function AllBadges(product: Product): seq<Badge>
  {
    BadgeOf(product, Gold) + BadgeOf(product, Silver) + BadgeOf(product, Bronze)
  }

  /** The badges show each positive price once, and nothing else. */
  lemma AllBadgesShowPositivePrices(product: Product)
    ensures |AllBadges(product)| == 0 <==> IsFree(product)
    ensures forall k :: Badge(k, Price(product, k)) in AllBadges(product) <==> Price(product, k) > 0
    ensures forall b :: b in AllBadges(product) ==> b.amount == Price(product, b.kind) > 0
  {
    var g, s, z := BadgeOf(product, Gold), BadgeOf(product, Silver), BadgeOf(product, Bronze);
    assert forall b :: b in AllBadges(product) <==> b in g || b in s || b in z;
    forall k ensures Badge(k, Price(product, k)) in AllBadges(product) <==> Price(product, k) > 0 {
      match k
      case Gold =>
      case Silver =>
      case Bronze =>
    }
    if |AllBadges(product)| == 0 {
      forall k ensures Price(product, k) <= 0 {
        assert Badge(k, Price(product, k)) !in AllBadges(product);
      }
    }
  }

  lemma AppendOrdered(xs: seq<Badge>, ys: seq<Badge>)
    requires Ordered(xs) && Ordered(ys)
    requires forall x, y :: x in xs && y in ys ==> Rank(x.kind) < Rank(y.kind)
    ensures Ordered(xs + ys)
  {
    var all := xs + ys;
    forall i, j | 0 <= i < j < |all| ensures Rank(all[i].kind) < Rank(all[j].kind) {
      if j < |xs| {
        assert all[i] == xs[i] && all[j] == xs[j];
      } else if i >= |xs| {
        assert all[i] == ys[i - |xs|] && all[j] == ys[j - |xs|];
      } else {
        assert all[i] == xs[i] && all[j] == ys[j - |xs|];
      }
    }
  }

  lemma AllBadgesOrdered(product: Product)
    ensures Ordered(AllBadges(product))
  {
    var g, s, z := BadgeOf(product, Gold), BadgeOf(product, Silver), BadgeOf(product, Bronze);
    AppendOrdered(g, s);
    assert forall x :: x in g + s ==> x in g || x in s;
    AppendOrdered(g + s, z);
  }

  /** `getMedalDisplay`: one badge per positive price, pushed in gold,
      silver, bronze order; "Free" when none was pushed. */
  method MedalDisplay(product: Product) returns (d: PriceDisplay)
    ensures d.Free? <==> IsFree(product)
    ensures d.Badges? ==> |d.badges| > 0
    ensures d.Badges? ==> forall k :: Badge(k, Price(product, k)) in d.badges <==> Price(product, k) > 0
    ensures d.Badges? ==> forall b :: b in d.badges ==> b.amount == Price(product, b.kind) > 0
    ensures d.Badges? ==> Ordered(d.badges)
  {
    var medals: seq<Badge> := [];
    if product.goldPrice.Some? && product.goldPrice.value > 0 {
      medals := medals + [Badge(Gold, product.goldPrice.value)];
    }
    if product.silverPrice.Some? && product.silverPrice.value > 0 {
      medals := medals + [Badge(Silver, product.silverPrice.value)];
    }
    if product.bronzePrice.Some? && product.bronzePrice.value > 0 {
      medals := medals + [Badge(Bronze, product.bronzePrice.value)];
    }
    assert medals == AllBadges(product);
    AllBadgesShowPositivePrices(product);
    AllBadgesOrdered(product);
    if |medals| > 0 {
      d := Badges(medals);
    } else {
      d := Free;
    }
  }

  // ---------------------------------------------------- in-stock filter

  /** `products.filter(product => product.inStock)`: the products marked
      in stock, in their order; a product whose flag is null or false is
      not offered. */
  function InStockOnly(products: seq<Product>): (r: seq<Product>)
    ensures |r| <= |products|
    ensures forall p :: p in r <==> p in products && p.inStock == Some(true)
    ensures forall i :: 0 <= i < |r| ==> r[i].inStock == Some(true)
  {
    if products == [] then []
    else if products[0].inStock == Some(true) then [products[0]] + InStockOnly(products[1..])
    else InStockOnly(products[1..])
  }

  /** Filtering twice offers the same products as filtering once. */
  lemma {:induction false} InStockOnlyIdempotent(products: seq<Product>)
    ensures InStockOnly(InStockOnly(products)) == InStockOnly(products)
  {
    if products != [] {
      InStockOnlyIdempotent(products[1..]);
      if products[0].inStock == Some(true) {
        var rest := InStockOnly(products[1..]);
        assert ([products[0]] + rest)[1..] == rest;
      }
    }
  }

  /** The filter works record by record: filtering a concatenation is
      concatenating the filtered parts, and a single product is kept
      exactly when it is in stock. So the offered products keep their order
      and each appears as often as in the list. */
  lemma {:induction false} InStockOnlyDistributes(xs: seq<Product>, ys: seq<Product>)
    ensures InStockOnly(xs + ys) == InStockOnly(xs) + InStockOnly(ys)
    ensures forall p :: InStockOnly([p]) == if p.inStock == Some(true) then [p] else []
  {
    forall p ensures InStockOnly([p]) == if p.inStock == Some(true) then [p] else [] {
      assert [p][1..] == [];
    }
    if xs == [] {
      assert xs + ys == ys;
    } else {
      assert (xs + ys)[0] == xs[0];
      assert (xs + ys)[1..] == xs[1..] + ys;
      InStockOnlyDistributes(xs[1..], ys);
    }
  }
}
