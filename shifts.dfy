/** Cashier shifts (hooks/useData.tsx:176-199, 461-526): the open shift with
    its takings reconciled from the sales and cash movements recorded under
    it, and the guarded start, end and cash-movement operations. */
module Shifts {
  import opened Collections
  import opened Sales

  datatype ShiftStatus = Open | Closed

  datatype MovementType = In | Out

  datatype CashMovement = CashMovement(id: string, shiftId: string, kind: MovementType, amount: real, notes: string, timestamp: int)

  datatype Shift = Shift(
    id: string,
    outletId: string,
    userId: string,
    userName: string,
    status: ShiftStatus,
    startTime: int,
    endTime: Option<int>,
    startCash: real,
    endCash: Option<real>,
    cashSales: real,
    qrisSales: real,
    transferSales: real,
    totalSales: real,
    cashIn: real,
    cashOut: real,
    expectedCash: real,
    difference: Option<real>,
    notes: Option<string>)

  /** The signed-in user, as far as shifts need it. */
  datatype User = User(id: string, name: string, outletId: Option<string>)

  const ShiftAlreadyActive := "Another shift is already active."
  const NoUser := "User not found to start shift."
  const NoShiftToEnd := "No active shift to end."
  const NoShiftForMovement := "No active shift for cash movement."

  // ---- the figures of a shift ----

  function OfShift(shiftId: string): Sale -> bool
  {
    (s: Sale) => s.shiftId == shiftId
  }

  function PaidBy(m: PaymentMethod): Sale -> bool
  {
    (s: Sale) => s.paymentMethod == m
  }

  function SaleTotal(s: Sale): real
  {
    s.total
  }

  function MovedIn(shiftId: string): CashMovement -> bool
  {
    (c: CashMovement) => c.shiftId == shiftId
  }

  function OfKind(kind: MovementType): CashMovement -> bool
  {
    (c: CashMovement) => c.kind == kind
  }

  function Amount(c: CashMovement): real
  {
    c.amount
  }

  /** `getShiftSales`: the sales recorded under the shift, in order. */
  function ShiftSales(sales: seq<Sale>, shiftId: string): (r: seq<Sale>)
    ensures IsSubsequence(r, sales)
    ensures forall k :: 0 <= k < |r| ==> r[k].shiftId == shiftId
    ensures forall k :: 0 <= k < |sales| && sales[k].shiftId == shiftId ==> sales[k] in r
    ensures forall s :: multiset(r)[s] == if s.shiftId == shiftId then multiset(sales)[s] else 0
  {
    FilterIsSubsequence(OfShift(shiftId), sales);
    FilterCounts(OfShift(shiftId), sales);
    Filter(OfShift(shiftId), sales)
  }

  /** `getShiftCashMovements`: the cash movements of the shift, in order. */
  function ShiftMovements(movements: seq<CashMovement>, shiftId: string): (r: seq<CashMovement>)
    ensures IsSubsequence(r, movements)
    ensures forall k :: 0 <= k < |r| ==> r[k].shiftId == shiftId
    ensures forall k :: 0 <= k < |movements| && movements[k].shiftId == shiftId ==> movements[k] in r
    ensures forall c :: multiset(r)[c] == if c.shiftId == shiftId then multiset(movements)[c] else 0
  {
    FilterIsSubsequence(MovedIn(shiftId), movements);
    FilterCounts(MovedIn(shiftId), movements);
    Filter(MovedIn(shiftId), movements)
  }

  /** The total of the shift's sales paid by `m`. Voided sales count too: the
      source filters on the shift and the method only. */
  function Takings(sales: seq<Sale>, shiftId: string, m: PaymentMethod): real
  {
    Sum(SaleTotal, Filter(PaidBy(m), ShiftSales(sales, shiftId)))
  }

  /** The total of the shift's cash movements of one kind. */
  function Movements(movements: seq<CashMovement>, shiftId: string, kind: MovementType): real
  {
    Sum(Amount, Filter(OfKind(kind), ShiftMovements(movements, shiftId)))
  }

  /** The open shift with its figures recomputed: takings per payment method,
      their sum, the cash moved in and out, and the cash the drawer should
      hold. Every other field is the stored shift's. */
  function Reconciled(open: Shift, sales: seq<Sale>, movements: seq<CashMovement>): (r: Shift)
    ensures r.cashSales == Takings(sales, open.id, Cash) && r.qrisSales == Takings(sales, open.id, Qris)
    ensures r.transferSales == Takings(sales, open.id, Transfer)
    ensures r.cashIn == Movements(movements, open.id, In) && r.cashOut == Movements(movements, open.id, Out)
    ensures r.totalSales == r.cashSales + r.qrisSales + r.transferSales
    ensures r.expectedCash == open.startCash + r.cashSales + r.cashIn - r.cashOut
    ensures r.(cashSales := open.cashSales, qrisSales := open.qrisSales, transferSales := open.transferSales,
               totalSales := open.totalSales, cashIn := open.cashIn, cashOut := open.cashOut,
               expectedCash := open.expectedCash) == open
  {
    var cashSales := Takings(sales, open.id, Cash);
    var qrisSales := Takings(sales, open.id, Qris);
    var transferSales := Takings(sales, open.id, Transfer);
    var cashIn := Movements(movements, open.id, In);
    var cashOut := Movements(movements, open.id, Out);
    open.(cashSales := cashSales, qrisSales := qrisSales, transferSales := transferSales,
          totalSales := cashSales + qrisSales + transferSales, cashIn := cashIn, cashOut := cashOut,
          expectedCash := open.startCash + cashSales + cashIn - cashOut)
  }

  predicate IsOpen(s: Shift)
  {
    s.status == Open
  }

  /** `activeShift`: the first OPEN shift, reconciled; none when no shift is open. */
  function ActiveShift(shifts: seq<Shift>, sales: seq<Sale>, movements: seq<CashMovement>): (r: Option<Shift>)
    ensures r.None? <==> forall j :: 0 <= j < |shifts| ==> !IsOpen(shifts[j])
    ensures r.Some? ==> exists j :: 0 <= j < |shifts| && IsOpen(shifts[j]) && (forall i :: 0 <= i < j ==> !IsOpen(shifts[i]))
                                    && r.value == Reconciled(shifts[j], sales, movements)
  {
    match FindIndex(IsOpen, shifts)
    case None => None
    case Some(k) => Some(Reconciled(shifts[k], sales, movements))
  }

  // ---- how the figures move ----

  lemma TakingsAppend(a: seq<Sale>, b: seq<Sale>, shiftId: string, m: PaymentMethod)
    ensures Takings(a + b, shiftId, m) == Takings(a, shiftId, m) + Takings(b, shiftId, m)
  {
    FilterAppend(OfShift(shiftId), a, b);
    FilterAppend(PaidBy(m), ShiftSales(a, shiftId), ShiftSales(b, shiftId));
    SumAppend(SaleTotal, Filter(PaidBy(m), ShiftSales(a, shiftId)), Filter(PaidBy(m), ShiftSales(b, shiftId)));
  }

  lemma TakingsOne(s: Sale, shiftId: string, m: PaymentMethod)
    ensures Takings([s], shiftId, m) == if s.shiftId == shiftId && s.paymentMethod == m then s.total else 0.0
  {
    assert [s][1..] == [] && [s][..0] == [];
    if s.shiftId == shiftId {
      assert ShiftSales([s], shiftId) == [s];
      if s.paymentMethod == m {
        assert Filter(PaidBy(m), [s]) == [s];
        assert Sum(SaleTotal, [s]) == Sum(SaleTotal, []) + SaleTotal(s);
      } else {
        assert Filter(PaidBy(m), [s]) == [];
      }
    } else {
      assert ShiftSales([s], shiftId) == [];
    }
  }

  lemma MovementsAppend(a: seq<CashMovement>, b: seq<CashMovement>, shiftId: string, kind: MovementType)
    ensures Movements(a + b, shiftId, kind) == Movements(a, shiftId, kind) + Movements(b, shiftId, kind)
  {
    FilterAppend(MovedIn(shiftId), a, b);
    FilterAppend(OfKind(kind), ShiftMovements(a, shiftId), ShiftMovements(b, shiftId));
    SumAppend(Amount, Filter(OfKind(kind), ShiftMovements(a, shiftId)), Filter(OfKind(kind), ShiftMovements(b, shiftId)));
  }

  lemma MovementsOne(c: CashMovement, shiftId: string, kind: MovementType)
    ensures Movements([c], shiftId, kind) == if c.shiftId == shiftId && c.kind == kind then c.amount else 0.0
  {
    assert [c][1..] == [] && [c][..0] == [];
    if c.shiftId == shiftId {
      assert ShiftMovements([c], shiftId) == [c];
      if c.kind == kind {
        assert Filter(OfKind(kind), [c]) == [c];
        assert Sum(Amount, [c]) == Sum(Amount, []) + Amount(c);
      } else {
        assert Filter(OfKind(kind), [c]) == [];
      }
    } else {
      assert ShiftMovements([c], shiftId) == [];
    }
  }

  /** Recording a sale under the shift adds its total to the takings of its
      payment method and to the total; only a cash sale raises the cash the
      drawer should hold. A sale under another shift changes nothing. */
  lemma RecordedSaleCounts(open: Shift, sales: seq<Sale>, movements: seq<CashMovement>, s: Sale)
    ensures var before := Reconciled(open, sales, movements);
      var after := Reconciled(open, sales + [s], movements);
      var added := if s.shiftId == open.id then s.total else 0.0;
      after.totalSales == before.totalSales + added
      && after.expectedCash == before.expectedCash + (if s.paymentMethod == Cash then added else 0.0)
      && after.cashSales == before.cashSales + (if s.paymentMethod == Cash then added else 0.0)
      && after.cashIn == before.cashIn && after.cashOut == before.cashOut
  {
    TakingsAppend(sales, [s], open.id, Cash);
    TakingsAppend(sales, [s], open.id, Qris);
    TakingsAppend(sales, [s], open.id, Transfer);
    TakingsOne(s, open.id, Cash);
    TakingsOne(s, open.id, Qris);
    TakingsOne(s, open.id, Transfer);
  }

  /** Money put into the drawer raises the expected cash by its amount, money
      taken out lowers it; the takings stay as they were. */
  lemma RecordedMovementCounts(open: Shift, sales: seq<Sale>, movements: seq<CashMovement>, c: CashMovement)
    requires c.shiftId == open.id
    ensures var before := Reconciled(open, sales, movements);
      var after := Reconciled(open, sales, movements + [c]);
      after.expectedCash == before.expectedCash + (if c.kind == In then c.amount else -c.amount)
      && after.totalSales == before.totalSales
      && (c.kind == In ==> after.cashIn == before.cashIn + c.amount && after.cashOut == before.cashOut)
      && (c.kind == Out ==> after.cashOut == before.cashOut + c.amount && after.cashIn == before.cashIn)
  {
    MovementsAppend(movements, [c], open.id, In);
    MovementsAppend(movements, [c], open.id, Out);
    MovementsOne(c, open.id, In);
    MovementsOne(c, open.id, Out);
  }

  /** The takings depend only on each sale's shift, payment method and total. */
  lemma {:induction false} TakingsAgree(a: seq<Sale>, b: seq<Sale>, shiftId: string, m: PaymentMethod)
    requires |a| == |b|
    requires forall k :: 0 <= k < |a| ==>
      a[k].shiftId == b[k].shiftId && a[k].paymentMethod == b[k].paymentMethod && a[k].total == b[k].total
    ensures Takings(a, shiftId, m) == Takings(b, shiftId, m)
    decreases |a|
  {
    if a != [] {
      var n := |a| - 1;
      assert a == a[..n] + [a[n]];
      assert b == b[..n] + [b[n]];
      TakingsAgree(a[..n], b[..n], shiftId, m);
      TakingsAppend(a[..n], [a[n]], shiftId, m);
      TakingsAppend(b[..n], [b[n]], shiftId, m);
      TakingsOne(a[n], shiftId, m);
      TakingsOne(b[n], shiftId, m);
    }
  }

  /** A sale recorded under the active shift raises its total sales by the
      sale's total, and the expected cash too when paid in cash. */
  lemma SaleCountsInActiveShift(shifts: seq<Shift>, sales: seq<Sale>, movements: seq<CashMovement>, s: Sale)
    requires ActiveShift(shifts, sales, movements).Some?
    requires s.shiftId == ActiveShift(shifts, sales, movements).value.id
    ensures var before := ActiveShift(shifts, sales, movements).value;
      var after := ActiveShift(shifts, sales + [s], movements);
      after.Some? && after.value.id == before.id
      && after.value.totalSales == before.totalSales + s.total
      && after.value.expectedCash == before.expectedCash + (if s.paymentMethod == Cash then s.total else 0.0)
  {
    var k := FindIndex(IsOpen, shifts).value;
    RecordedSaleCounts(shifts[k], sales, movements, s);
  }

  /** Voiding a sale leaves the open shift's figures as they were: a voided
      cash sale is still counted in the cash the drawer should hold. */
  lemma VoidKeepsShiftFigures(open: Shift, sales: seq<Sale>, movements: seq<CashMovement>, saleId: string, reason: string)
    ensures Reconciled(open, VoidSales(sales, saleId, reason), movements) == Reconciled(open, sales, movements)
  {
    var v := VoidSales(sales, saleId, reason);
    assert forall k :: 0 <= k < |v| ==>
      v[k].shiftId == sales[k].shiftId && v[k].paymentMethod == sales[k].paymentMethod && v[k].total == sales[k].total;
    TakingsAgree(v, sales, open.id, Cash);
    TakingsAgree(v, sales, open.id, Qris);
    TakingsAgree(v, sales, open.id, Transfer);
    var after, before := Reconciled(open, v, movements), Reconciled(open, sales, movements);
    assert after.cashSales == before.cashSales && after.qrisSales == before.qrisSales;
    assert after.transferSales == before.transferSales && after.expectedCash == before.expectedCash;
  }

  lemma VoidKeepsActiveShift(shifts: seq<Shift>, sales: seq<Sale>, movements: seq<CashMovement>, saleId: string, reason: string)
    ensures ActiveShift(shifts, VoidSales(sales, saleId, reason), movements) == ActiveShift(shifts, sales, movements)
  {
    match FindIndex(IsOpen, shifts)
    case None =>
    case Some(k) =>
      VoidKeepsShiftFigures(shifts[k], sales, movements, saleId, reason);
  }

  // ---- starting, ending and moving cash ----

  /** `user.outletId || 'outlet-1'`: a missing or empty outlet falls back. */
  function OutletOf(user: User): (r: string)
    ensures user.outletId.Some? && user.outletId.value != "" ==> r == user.outletId.value
    ensures user.outletId.None? || user.outletId.value == "" ==> r == "outlet-1"
  {
    if user.outletId.Some? && user.outletId.value != "" then user.outletId.value else "outlet-1"
  }

  /** `startShift`: refused while a shift is open or without a user; otherwise
      a new OPEN shift with all takings zero and the opening cash expected. */
  function StartShift(shifts: seq<Shift>, sales: seq<Sale>, movements: seq<CashMovement>,
                      user: Option<User>, startCash: real, id: string, now: int): (r: Outcome<Shift>)
    ensures ActiveShift(shifts, sales, movements).Some? ==> r == Failure(ShiftAlreadyActive)
    ensures ActiveShift(shifts, sales, movements).None? && user.None? ==> r == Failure(NoUser)
    ensures r.Success? <==> ActiveShift(shifts, sales, movements).None? && user.Some?
    ensures r.Success? ==>
      var u := user.value;
      r.value == Shift(id, OutletOf(u), u.id, u.name, Open, now, None, startCash, None,
                       0.0, 0.0, 0.0, 0.0, 0.0, 0.0, startCash, None, None)
  {
    if ActiveShift(shifts, sales, movements).Some? then Failure(ShiftAlreadyActive)
    else if user.None? then Failure(NoUser)
    else
      var u := user.value;
      Success(Shift(id, OutletOf(u), u.id, u.name, Open, now, None, startCash, None,
                    0.0, 0.0, 0.0, 0.0, 0.0, 0.0, startCash, None, None))
  }

  predicate AtMostOneOpen(shifts: seq<Shift>)
  {
    forall i, j :: 0 <= i < j < |shifts| && IsOpen(shifts[i]) ==> !IsOpen(shifts[j])
  }

  /** A shift can only be started while none is open, so at most one shift is
      ever open. */
  lemma StartShiftKeepsOneOpen(shifts: seq<Shift>, sales: seq<Sale>, movements: seq<CashMovement>,
                               user: Option<User>, startCash: real, id: string, now: int)
    requires StartShift(shifts, sales, movements, user, startCash, id, now).Success?
    ensures AtMostOneOpen(shifts + [StartShift(shifts, sales, movements, user, startCash, id, now).value])
  {
    var all := shifts + [StartShift(shifts, sales, movements, user, startCash, id, now).value];
    assert ActiveShift(shifts, sales, movements).None?;
    forall i | 0 <= i < |shifts| ensures !IsOpen(all[i]) {
      assert all[i] == shifts[i];
    }
  }

  /** A started shift is the only open one, and as long as nothing has been
      recorded under its id it reconciles to itself: it is the active shift. */
  lemma StartedShiftIsActive(shifts: seq<Shift>, sales: seq<Sale>, movements: seq<CashMovement>,
                             user: Option<User>, startCash: real, id: string, now: int)
    requires StartShift(shifts, sales, movements, user, startCash, id, now).Success?
    requires forall k :: 0 <= k < |sales| ==> sales[k].shiftId != id
    requires forall k :: 0 <= k < |movements| ==> movements[k].shiftId != id
    ensures var s := StartShift(shifts, sales, movements, user, startCash, id, now).value;
      ActiveShift(shifts + [s], sales, movements) == Some(s)
  {
    var s := StartShift(shifts, sales, movements, user, startCash, id, now).value;
    var all := shifts + [s];
    assert ActiveShift(shifts, sales, movements).None?;
    assert forall j :: 0 <= j < |shifts| ==> !IsOpen(all[j]) by {
      forall j | 0 <= j < |shifts| ensures !IsOpen(all[j]) {
        assert all[j] == shifts[j];
      }
    }
    assert IsOpen(all[|shifts|]);
    assert FindIndex(IsOpen, all) == Some(|shifts|);
    FilterNone(OfShift(id), sales);
    FilterNone(MovedIn(id), movements);
  }

  /** `endShift`: refused when no shift is open; otherwise the reconciled shift
      CLOSED at `now` with the counted cash, the notes and the difference
      between counted and expected cash. */
  function EndShift(shifts: seq<Shift>, sales: seq<Sale>, movements: seq<CashMovement>,
                    endCash: real, notes: string, now: int): (r: Outcome<Shift>)
    ensures r.Failure? <==> ActiveShift(shifts, sales, movements).None?
    ensures r.Failure? ==> r.message == NoShiftToEnd
    ensures r.Success? ==>
      var a := ActiveShift(shifts, sales, movements).value;
      r.value.status == Closed && r.value.endTime == Some(now) && r.value.endCash == Some(endCash)
      && r.value.notes == Some(notes) && r.value.difference == Some(endCash - a.expectedCash)
      && r.value.(status := a.status, endTime := a.endTime, endCash := a.endCash, notes := a.notes,
                  difference := a.difference) == a
  {
    var a := ActiveShift(shifts, sales, movements);
    if a.None? then Failure(NoShiftToEnd) else Success(ClosedAt(a.value, endCash, notes, now))
  }

  function ClosedAt(a: Shift, endCash: real, notes: string, now: int): (r: Shift)
    ensures r.status == Closed && r.endTime == Some(now) && r.endCash == Some(endCash)
    ensures r.notes == Some(notes) && r.difference == Some(endCash - a.expectedCash)
    ensures r.(status := a.status, endTime := a.endTime, endCash := a.endCash, notes := a.notes,
               difference := a.difference) == a
  {
    a.(status := Closed, endTime := Some(now), endCash := Some(endCash), notes := Some(notes),
       difference := Some(endCash - a.expectedCash))
  }

  /** The shift list after `endShift`: the shifts with the final shift's id replaced by it. */
  function CloseShift(shifts: seq<Shift>, final: Shift): (r: seq<Shift>)
    ensures |r| == |shifts|
    ensures forall k :: 0 <= k < |shifts| ==> r[k] == if shifts[k].id == final.id then final else shifts[k]
  {
    Map((s: Shift) => if s.id == final.id then final else s, shifts)
  }

  /** With at most one shift open, ending it leaves no shift open, so the next
      `startShift` is allowed again. */
  lemma EndShiftClosesTill(shifts: seq<Shift>, sales: seq<Sale>, movements: seq<CashMovement>,
                           endCash: real, notes: string, now: int)
    requires AtMostOneOpen(shifts)
    requires EndShift(shifts, sales, movements, endCash, notes, now).Success?
    ensures var after := CloseShift(shifts, EndShift(shifts, sales, movements, endCash, notes, now).value);
      AtMostOneOpen(after) && ActiveShift(after, sales, movements).None?
  {
    var final := EndShift(shifts, sales, movements, endCash, notes, now).value;
    var k := FindIndex(IsOpen, shifts).value;
    var after := CloseShift(shifts, final);
    assert final.id == shifts[k].id;
    forall j | 0 <= j < |after| ensures !IsOpen(after[j]) {
      if shifts[j].id != final.id {
        assert j != k;
        if j < k {
          assert !IsOpen(shifts[j]);
        } else {
          assert !IsOpen(shifts[j]);
        }
      }
    }
  }

  /** `addCashMovement`: refused when no shift is open; otherwise a movement
      recorded under the open shift at `now`. */
  function AddCashMovement(shifts: seq<Shift>, sales: seq<Sale>, movements: seq<CashMovement>,
                           kind: MovementType, amount: real, notes: string, id: string, now: int): (r: Outcome<CashMovement>)
    ensures r.Failure? <==> ActiveShift(shifts, sales, movements).None?
    ensures r.Failure? ==> r.message == NoShiftForMovement
    ensures r.Success? ==>
      r.value == CashMovement(id, ActiveShift(shifts, sales, movements).value.id, kind, amount, notes, now)
  {
    match ActiveShift(shifts, sales, movements)
    case None => Failure(NoShiftForMovement)
    case Some(a) => Success(CashMovement(id, a.id, kind, amount, notes, now))
  }

  /** The active shift's expected cash after a recorded movement moves by it. */
  lemma MovementMovesExpectedCash(shifts: seq<Shift>, sales: seq<Sale>, movements: seq<CashMovement>,
                                  kind: MovementType, amount: real, notes: string, id: string, now: int)
    requires AddCashMovement(shifts, sales, movements, kind, amount, notes, id, now).Success?
    ensures var c := AddCashMovement(shifts, sales, movements, kind, amount, notes, id, now).value;
      var before := ActiveShift(shifts, sales, movements).value;
      var after := ActiveShift(shifts, sales, movements + [c]);
      after.Some? && after.value.id == before.id
      && after.value.expectedCash == before.expectedCash + (if kind == In then amount else -amount)
  {
    var c := AddCashMovement(shifts, sales, movements, kind, amount, notes, id, now).value;
    var k := FindIndex(IsOpen, shifts).value;
    RecordedMovementCounts(shifts[k], sales, movements, c);
  }
}
