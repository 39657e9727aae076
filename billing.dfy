/** The billiard billing engine of hooks/useData.tsx: the records of
    types.ts:151-228 and `calculateSessionBill` (hooks/useData.tsx:59-119).
    Time is in integer milliseconds, minutes and money are reals. */
module Billing {
  import opened Collections

  datatype TableType = Pool | Snooker | Vip
  datatype PricingUnit = PerMinute | Per15Minutes | PerHour
  datatype Rounding = NoRounding | Up5 | Up10 | Up15

  /** A pricelist package; sessions keep a copy of it (`packageSnapshot`). */
  datatype Package = Package(
    id: string,
    name: string,
    tableType: TableType,
    unit: PricingUnit,
    pricePerUnit: real,
    rounding: Rounding,
    graceMinutes: real,
    minBillMinutes: real,
    isActive: bool)

  /** One food & beverage line on a session's bill, priced when it was added. */
  datatype FnbItem = FnbItem(id: string, productId: string, name: string, qty: int, price: real)

  datatype SessionStatus = Running | Paused | Ended
  datatype TableStatus = Free | Running | Paused

  datatype Table = Table(
    id: string,
    name: string,
    tableType: TableType,
    group: Option<string>,
    isActive: bool,
    status: TableStatus,
    currentSessionId: Option<string>)

  datatype Session = Session(
    id: string,
    tableId: string,
    tableName: string,
    startTime: int,
    endTime: Option<int>,
    pauseTime: Option<int>,
    totalPauseDuration: int,
    packageSnapshot: Package,
    fnbItems: seq<FnbItem>,
    status: SessionStatus,
    durationMs: int,
    timeCharge: real,
    fnbCharge: real,
    totalCharge: real)

  /** The fields `calculateSessionBill` recomputes. */
  datatype Charges = Charges(durationMs: int, timeCharge: real, fnbCharge: real, totalCharge: real)

  /** JavaScript truthiness of an optional timestamp: absent and 0 are false. */
  predicate IsSet(t: Option<int>)
  {
    t.Some? && t.value != 0
  }

  predicate IsOpen(s: Session)
  {
    s.status != SessionStatus.Ended
  }

  // ---- rounding ----

  /** `Math.ceil`, written with `Floor`. */
  function Ceil(x: real): (c: int)
    ensures c as real >= x && c as real < x + 1.0
  {
    -((-x).Floor)
  }

  lemma FloorMonotonic(x: real, y: real)
    requires x <= y
    ensures x.Floor <= y.Floor
  {
    assert x.Floor as real <= x <= y < y.Floor as real + 1.0;
  }

  lemma CeilMonotonic(x: real, y: real)
    requires x <= y
    ensures Ceil(x) <= Ceil(y)
  {
    FloorMonotonic(-y, -x);
  }

  /** The step size of a rounding method; 1 when there is none. */
  function Step(r: Rounding): (k: real)
    ensures k >= 1.0
  {
    match r
    case NoRounding => 1.0
    case Up5 => 5.0
    case Up10 => 10.0
    case Up15 => 15.0
  }

  function UpTo(m: real, k: real): (rounded: real)
    requires k == 5.0 || k == 10.0 || k == 15.0
    ensures m <= rounded < m + k
    ensures rounded == Ceil(m / k) as real * k
  {
    var c := Ceil(m / k);
    assert c as real * k >= m by {
      if k == 5.0 { assert c as real * 5.0 >= m; }
      else if k == 10.0 { assert c as real * 10.0 >= m; }
      else { assert c as real * 15.0 >= m; }
    }
    assert c as real * k < m + k by {
      if k == 5.0 { assert c as real * 5.0 < m + 5.0; }
      else if k == 10.0 { assert c as real * 10.0 < m + 10.0; }
      else { assert c as real * 15.0 < m + 15.0; }
    }
    c as real * k
  }

  /** `Math.ceil(m / step) * step` for UP_5, UP_10 and UP_15; `m` itself for NONE. */
  function RoundMinutes(m: real, r: Rounding): (rounded: real)
    ensures r == NoRounding ==> rounded == m
    ensures r != NoRounding ==> m <= rounded < m + Step(r)
  {
    match r
    case NoRounding => m
    case Up5 => UpTo(m, 5.0)
    case Up10 => UpTo(m, 10.0)
    case Up15 => UpTo(m, 15.0)
  }

  /** Rounding up gives a whole number of steps. */
  lemma RoundMinutesWhole(m: real, r: Rounding)
    requires r != NoRounding
    ensures RoundMinutes(m, r) == Ceil(m / Step(r)) as real * Step(r)
  {
    match r
    case Up5 =>
    case Up10 =>
    case Up15 =>
  }

  lemma UpToLeast(m: real, k: real, n: int)
    requires k == 5.0 || k == 10.0 || k == 15.0
    requires n as real * k >= m
    ensures UpTo(m, k) <= n as real * k
  {
    assert Ceil(n as real) == n;
    if k == 5.0 {
      assert n as real >= m / 5.0;
      CeilMonotonic(m / 5.0, n as real);
      assert Ceil(m / 5.0) as real * 5.0 <= n as real * 5.0;
    } else if k == 10.0 {
      assert n as real >= m / 10.0;
      CeilMonotonic(m / 10.0, n as real);
      assert Ceil(m / 10.0) as real * 10.0 <= n as real * 10.0;
    } else {
      assert n as real >= m / 15.0;
      CeilMonotonic(m / 15.0, n as real);
      assert Ceil(m / 15.0) as real * 15.0 <= n as real * 15.0;
    }
  }

  /** Rounding up gives the least multiple of the step that is not below the
      minutes. */
  lemma RoundMinutesLeast(m: real, r: Rounding, n: int)
    requires r != NoRounding
    requires n as real * Step(r) >= m
    ensures RoundMinutes(m, r) <= n as real * Step(r)
  {
    UpToLeast(m, Step(r), n);
  }

  lemma UpToMonotonic(a: real, b: real, k: real)
    requires a <= b
    requires k == 5.0 || k == 10.0 || k == 15.0
    ensures UpTo(a, k) <= UpTo(b, k)
  {
    assert a / k <= b / k by {
      if k == 5.0 { assert a / 5.0 <= b / 5.0; }
      else if k == 10.0 { assert a / 10.0 <= b / 10.0; }
      else { assert a / 15.0 <= b / 15.0; }
    }
    CeilMonotonic(a / k, b / k);
    var ca, cb := Ceil(a / k), Ceil(b / k);
    assert ca as real * k <= cb as real * k by {
      if k == 5.0 { assert ca as real * 5.0 <= cb as real * 5.0; }
      else if k == 10.0 { assert ca as real * 10.0 <= cb as real * 10.0; }
      else { assert ca as real * 15.0 <= cb as real * 15.0; }
    }
  }

  lemma RoundMinutesMonotonic(a: real, b: real, r: Rounding)
    requires a <= b
    ensures RoundMinutes(a, r) <= RoundMinutes(b, r)
  {
    if r != NoRounding {
      UpToMonotonic(a, b, Step(r));
    }
  }

  /** Rounded minutes in the package's billing unit. */
  function Units(m: real, u: PricingUnit): real
  {
    match u
    case PerMinute => m
    case Per15Minutes => m / 15.0
    case PerHour => m / 60.0
  }

  // ---- the bill ----

  /** `durationMs`: wall time since start minus the closed pauses and, for a
      paused session, the pause still open. */
  function ElapsedMs(s: Session, now: int): int
  {
    var currentPause := if s.status == SessionStatus.Paused && IsSet(s.pauseTime) then now - s.pauseTime.value else 0;
    now - s.startTime - s.totalPauseDuration - currentPause
  }

  /** `durationMinutes`: elapsed minutes, clamped at zero. */
  function ElapsedMinutes(s: Session, now: int): (m: real)
    ensures m >= 0.0
  {
    var d := ElapsedMs(s, now) as real / 60000.0;
    if d > 0.0 then d else 0.0
  }

  /** Minutes left to bill after the grace period, at least zero. */
  function AfterGrace(m: real, p: Package): (b: real)
    ensures b >= 0.0
  {
    if m - p.graceMinutes > 0.0 then m - p.graceMinutes else 0.0
  }

  /** `roundedMinutes`: after grace, raised to the minimum and rounded up;
      zero when nothing is left after grace. */
  function BilledMinutes(m: real, p: Package): real
  {
    var b := AfterGrace(m, p);
    if b > 0.0 then RoundMinutes(if b > p.minBillMinutes then b else p.minBillMinutes, p.rounding) else 0.0
  }

  function TimeCharge(m: real, p: Package): real
  {
    if AfterGrace(m, p) > 0.0 then Units(BilledMinutes(m, p), p.unit) * p.pricePerUnit else 0.0
  }

  function LineTotal(i: FnbItem): real
  {
    i.price * i.qty as real
  }

  function FnbCharge(items: seq<FnbItem>): real
  {
    Sum(LineTotal, items)
  }

  /** `calculateSessionBill`: nothing for an ENDED session, otherwise the
      elapsed time and the three charges. */
  function Bill(s: Session, now: int): (r: Option<Charges>)
    ensures r.None? <==> s.status == SessionStatus.Ended
    ensures r.Some? ==> r.value.durationMs == ElapsedMs(s, now)
    ensures r.Some? ==> r.value.totalCharge == r.value.timeCharge + r.value.fnbCharge
  {
    if s.status == SessionStatus.Ended then None
    else
      var m := ElapsedMinutes(s, now);
      var t := TimeCharge(m, s.packageSnapshot);
      var f := FnbCharge(s.fnbItems);
      Some(Charges(ElapsedMs(s, now), t, f, t + f))
  }

  /** `{ ...session, ...bill }`: an empty bill leaves the session as it is. */
  function WithCharges(s: Session, c: Option<Charges>): (r: Session)
    ensures c.None? ==> r == s
    ensures r.(durationMs := s.durationMs, timeCharge := s.timeCharge, fnbCharge := s.fnbCharge, totalCharge := s.totalCharge) == s
  {
    match c
    case None => s
    case Some(b) => s.(durationMs := b.durationMs, timeCharge := b.timeCharge, fnbCharge := b.fnbCharge, totalCharge := b.totalCharge)
  }

  // ---- properties of the bill ----

  /** Inside the grace period there is no time charge, whatever the minimum. */
  lemma GraceIsFree(m: real, p: Package)
    requires m <= p.graceMinutes
    ensures TimeCharge(m, p) == 0.0 && BilledMinutes(m, p) == 0.0
  {
  }

  /** The larger of the minutes after grace and the minimum bill. */
  function Floored(m: real, p: Package): real
  {
    if m - p.graceMinutes > p.minBillMinutes then m - p.graceMinutes else p.minBillMinutes
  }

  lemma BilledAtLeastFloored(m: real, p: Package)
    requires m > p.graceMinutes
    ensures Floored(m, p) <= BilledMinutes(m, p)
  {
  }

  lemma BilledBelowNextStep(m: real, p: Package)
    requires m > p.graceMinutes
    ensures BilledMinutes(m, p) < Floored(m, p) + Step(p.rounding)
  {
  }

  lemma BilledUnroundedForNone(m: real, p: Package)
    requires m > p.graceMinutes && p.rounding == NoRounding
    ensures BilledMinutes(m, p) == Floored(m, p)
  {
  }

  lemma TimeChargePastGrace(m: real, p: Package)
    requires m > p.graceMinutes
    ensures TimeCharge(m, p) == Units(BilledMinutes(m, p), p.unit) * p.pricePerUnit
  {
    assert AfterGrace(m, p) > 0.0;
  }

  /** Past the grace period the billed minutes are the minutes after grace
      raised to the minimum and rounded up by less than one step (not at all for
      NONE); the time charge is those minutes in units times the rate. */
  lemma BilledMinutesBounds(m: real, p: Package)
    requires m > p.graceMinutes
    ensures Floored(m, p) <= BilledMinutes(m, p) < Floored(m, p) + Step(p.rounding)
    ensures p.rounding == NoRounding ==> BilledMinutes(m, p) == Floored(m, p)
    ensures TimeCharge(m, p) == Units(BilledMinutes(m, p), p.unit) * p.pricePerUnit
  {
    BilledAtLeastFloored(m, p);
    BilledBelowNextStep(m, p);
    if p.rounding == NoRounding {
      BilledUnroundedForNone(m, p);
    }
    TimeChargePastGrace(m, p);
  }

  /** The units are the billed minutes divided by 1, 15 or 60. */
  lemma UnitsConversion(m: real)
    ensures Units(m, PerMinute) == m
    ensures Units(m, Per15Minutes) * 15.0 == m
    ensures Units(m, PerHour) * 60.0 == m
  {
  }

  lemma MulMonotonic(x: real, y: real, k: real)
    requires x <= y && k >= 0.0
    ensures x * k <= y * k
  {
  }

  lemma UnitsMonotonic(a: real, b: real, u: PricingUnit)
    requires a <= b
    ensures Units(a, u) <= Units(b, u)
  {
  }

  lemma TimeChargeNonNegative(m: real, p: Package)
    requires p.pricePerUnit >= 0.0
    ensures TimeCharge(m, p) >= 0.0
  {
    if m > p.graceMinutes {
      BilledAtLeastFloored(m, p);
      assert Floored(m, p) > 0.0;
      UnitsMonotonic(0.0, BilledMinutes(m, p), p.unit);
      MulMonotonic(0.0, Units(BilledMinutes(m, p), p.unit), p.pricePerUnit);
      TimeChargePastGrace(m, p);
    } else {
      GraceIsFree(m, p);
    }
  }

  lemma BilledMinutesMonotonic(m1: real, m2: real, p: Package)
    requires p.graceMinutes < m1 <= m2
    ensures BilledMinutes(m1, p) <= BilledMinutes(m2, p)
  {
    assert Floored(m1, p) <= Floored(m2, p);
    assert BilledMinutes(m1, p) == RoundMinutes(Floored(m1, p), p.rounding);
    assert BilledMinutes(m2, p) == RoundMinutes(Floored(m2, p), p.rounding);
    RoundMinutesMonotonic(Floored(m1, p), Floored(m2, p), p.rounding);
  }

  lemma ChargedUnitsMonotonic(m1: real, m2: real, p: Package)
    requires p.graceMinutes < m1 <= m2 && p.pricePerUnit >= 0.0
    ensures Units(BilledMinutes(m1, p), p.unit) * p.pricePerUnit <= Units(BilledMinutes(m2, p), p.unit) * p.pricePerUnit
  {
    BilledMinutesMonotonic(m1, m2, p);
    UnitsMonotonic(BilledMinutes(m1, p), BilledMinutes(m2, p), p.unit);
    MulMonotonic(Units(BilledMinutes(m1, p), p.unit), Units(BilledMinutes(m2, p), p.unit), p.pricePerUnit);
  }

  lemma TimeChargeAtMost(m: real, p: Package, x: real)
    requires p.graceMinutes < m
    requires Units(BilledMinutes(m, p), p.unit) * p.pricePerUnit <= x
    ensures TimeCharge(m, p) <= x
  {
    TimeChargePastGrace(m, p);
  }

  lemma TimeChargeAtLeast(m: real, p: Package, x: real)
    requires p.graceMinutes < m
    requires x <= Units(BilledMinutes(m, p), p.unit) * p.pricePerUnit
    ensures x <= TimeCharge(m, p)
  {
    TimeChargePastGrace(m, p);
  }

  lemma TimeChargeMonotonicPastGrace(m1: real, m2: real, p: Package)
    requires p.graceMinutes < m1 <= m2 && p.pricePerUnit >= 0.0
    ensures TimeCharge(m1, p) <= TimeCharge(m2, p)
  {
    ChargedUnitsMonotonic(m1, m2, p);
    TimeChargeAtMost(m1, p, Units(BilledMinutes(m2, p), p.unit) * p.pricePerUnit);
    TimeChargeAtLeast(m2, p, TimeCharge(m1, p));
  }

  /** With a non-negative rate the time charge never falls as minutes grow. */
  lemma TimeChargeMonotonic(m1: real, m2: real, p: Package)
    requires m1 <= m2 && p.pricePerUnit >= 0.0
    ensures 0.0 <= TimeCharge(m1, p) <= TimeCharge(m2, p)
  {
    TimeChargeNonNegative(m1, p);
    TimeChargeNonNegative(m2, p);
    if m1 > p.graceMinutes {
      TimeChargeMonotonicPastGrace(m1, m2, p);
    } else {
      GraceIsFree(m1, p);
    }
  }

  lemma ElapsedMonotonic(s: Session, now1: int, now2: int)
    requires now1 <= now2
    ensures ElapsedMinutes(s, now1) <= ElapsedMinutes(s, now2)
  {
    assert ElapsedMs(s, now1) <= ElapsedMs(s, now2);
  }

  /** A session's total never falls while it is RUNNING or PAUSED (given a
      non-negative rate), and an ENDED session gets no new figures at all. */
  lemma BillMonotonic(s: Session, now1: int, now2: int)
    requires now1 <= now2 && s.packageSnapshot.pricePerUnit >= 0.0
    ensures IsOpen(s) ==> Bill(s, now1).value.totalCharge <= Bill(s, now2).value.totalCharge
    ensures !IsOpen(s) ==> Bill(s, now1) == Bill(s, now2) == None
  {
    if IsOpen(s) {
      ElapsedMonotonic(s, now1, now2);
      TimeChargeMonotonic(ElapsedMinutes(s, now1), ElapsedMinutes(s, now2), s.packageSnapshot);
    }
  }

  /** The charges are non-negative when the rate and every F&B line are. */
  lemma BillNonNegative(s: Session, now: int)
    requires IsOpen(s) && s.packageSnapshot.pricePerUnit >= 0.0
    requires forall i :: 0 <= i < |s.fnbItems| ==> s.fnbItems[i].price >= 0.0 && s.fnbItems[i].qty >= 0
    ensures Bill(s, now).value.timeCharge >= 0.0 && Bill(s, now).value.fnbCharge >= 0.0
    ensures Bill(s, now).value.totalCharge >= 0.0
  {
    TimeChargeMonotonic(0.0, ElapsedMinutes(s, now), s.packageSnapshot);
    forall i | 0 <= i < |s.fnbItems| ensures LineTotal(s.fnbItems[i]) >= 0.0 {
      MulMonotonic(0.0, s.fnbItems[i].price, s.fnbItems[i].qty as real);
    }
    SumNonNegative(LineTotal, s.fnbItems);
  }

  /** The bill depends only on the session's clock fields, package and F&B
      lines: recomputing it over an already refreshed session changes nothing. */
  lemma BillIgnoresCharges(s: Session, c: Option<Charges>, now: int)
    ensures Bill(WithCharges(s, c), now) == Bill(s, now)
  {
  }

  // ---- worked examples: the packages of constants.ts ----

  const Pkg1 := Package("pkg-1", "Regular Pool - Per Hour", Pool, PerHour, 50000.0, Up15, 2.0, 30.0, true)
  const Pkg2 := Package("pkg-2", "VIP Experience - Per Hour", Vip, PerHour, 75000.0, Up10, 0.0, 60.0, true)
  const Pkg3 := Package("pkg-3", "Snooker Pro - Per Minute", Snooker, PerMinute, 1000.0, NoRounding, 1.0, 20.0, true)

  /** A session running since time 0 with the given package and F&B lines. */
  function RunningSince0(p: Package, items: seq<FnbItem>): Session
  {
    Session("s", "t", "T", 0, None, None, 0, p, items, SessionStatus.Running, 0, 0.0, 0.0, 0.0)
  }

  lemma BillOfRunningSince0(p: Package, items: seq<FnbItem>, ms: int, t: real, f: real)
    requires ms >= 0 && TimeCharge(ms as real / 60000.0, p) == t && FnbCharge(items) == f
    ensures Bill(RunningSince0(p, items), ms) == Some(Charges(ms, t, f, t + f))
  {
    assert ElapsedMs(RunningSince0(p, items), ms) == ms;
  }

  /** pkg-1, 35 minutes: 33 after grace, above the 30-minute minimum, rounded up
      to 45 minutes, 0.75 hour at 50000. */
  lemma RegularPool35Minutes()
    ensures Bill(RunningSince0(Pkg1, []), 35 * 60000) == Some(Charges(2100000, 37500.0, 0.0, 37500.0))
  {
    assert Ceil(33.0 / 15.0) == 3 by { assert (-(33.0 / 15.0)).Floor == -3; }
    assert AfterGrace(35.0, Pkg1) == 33.0;
    assert BilledMinutes(35.0, Pkg1) == 45.0;
    TimeChargePastGrace(35.0, Pkg1);
    BillOfRunningSince0(Pkg1, [], 35 * 60000, 37500.0, 0.0);
  }

  /** pkg-1, a minute and a half: inside the 2-minute grace, so nothing to pay
      although the minimum is 30 minutes. */
  lemma RegularPoolInsideGrace()
    ensures Bill(RunningSince0(Pkg1, []), 90000) == Some(Charges(90000, 0.0, 0.0, 0.0))
  {
    GraceIsFree(1.5, Pkg1);
    BillOfRunningSince0(Pkg1, [], 90000, 0.0, 0.0);
  }

  /** pkg-2, 50 minutes with two 15000 drinks: raised to the 60-minute minimum,
      one hour at 75000, plus 30000 of F&B. */
  lemma Vip50MinutesWithDrinks()
    ensures Bill(RunningSince0(Pkg2, [FnbItem("f", "p", "Drink", 2, 15000.0)]), 50 * 60000)
         == Some(Charges(3000000, 75000.0, 30000.0, 105000.0))
  {
    var items := [FnbItem("f", "p", "Drink", 2, 15000.0)];
    assert Ceil(60.0 / 10.0) == 6 by { assert (-(60.0 / 10.0)).Floor == -6; }
    assert AfterGrace(50.0, Pkg2) == 50.0;
    assert BilledMinutes(50.0, Pkg2) == 60.0;
    TimeChargePastGrace(50.0, Pkg2);
    assert items[..0] == [];
    assert FnbCharge(items) == 30000.0;
    BillOfRunningSince0(Pkg2, items, 50 * 60000, 75000.0, 30000.0);
  }

  /** pkg-3, 10 minutes: 9 after grace, raised to the 20-minute minimum, no
      rounding, 20 minutes at 1000. */
  lemma Snooker10Minutes()
    ensures Bill(RunningSince0(Pkg3, []), 10 * 60000) == Some(Charges(600000, 20000.0, 0.0, 20000.0))
  {
    assert AfterGrace(10.0, Pkg3) == 9.0;
    assert BilledMinutes(10.0, Pkg3) == 20.0;
    TimeChargePastGrace(10.0, Pkg3);
    BillOfRunningSince0(Pkg3, [], 10 * 60000, 20000.0, 0.0);
  }
}
