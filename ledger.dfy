/** The billiard floor of hooks/useData.tsx: the tables, the sessions and the
    pricelist packages, the session lifecycle (start, pause, resume, stop, add
    F&B, hooks/useData.tsx:389-458), the one-second tick (159-173) and the
    table and package administration (346-387). Each operation is a pure
    transition of the two lists it rewrites together; `BilliardLedger`
    applies them to its fields. Ids and clock readings are parameters. */
module Ledger {
  import opened Collections
  import opened Text
  import opened Billing
  import Catalog

  datatype Floor = Floor(tables: seq<Table>, sessions: seq<Session>)

  // ---- one session at a time ----

  /** The session `startBilliardSession` appends. */
  function NewSession(id: string, t: Table, p: Package, now: int): Session
  {
    Session(id, t.id, t.name, now, None, None, 0, p, [], SessionStatus.Running, 0, 0.0, 0.0, 0.0)
  }

  /** A RUNNING session with this id becomes PAUSED at `now`. */
  function PauseOne(s: Session, id: string, now: int): (r: Session)
    ensures s.id == id && s.status == SessionStatus.Running ==>
      r == s.(status := SessionStatus.Paused, pauseTime := Some(now))
    ensures !(s.id == id && s.status == SessionStatus.Running) ==> r == s
  {
    if s.id == id && s.status == SessionStatus.Running then s.(status := SessionStatus.Paused, pauseTime := Some(now)) else s
  }

  /** A PAUSED session with this id and a pause time runs again, the pause
      added to its total. */
  function ResumeOne(s: Session, id: string, now: int): (r: Session)
    ensures s.id == id && s.status == SessionStatus.Paused && IsSet(s.pauseTime) ==>
      r == s.(status := SessionStatus.Running, pauseTime := None,
              totalPauseDuration := s.totalPauseDuration + (now - s.pauseTime.value))
    ensures !(s.id == id && s.status == SessionStatus.Paused && IsSet(s.pauseTime)) ==> r == s
  {
    if s.id == id && s.status == SessionStatus.Paused && IsSet(s.pauseTime) then
      s.(status := SessionStatus.Running, pauseTime := None, totalPauseDuration := s.totalPauseDuration + (now - s.pauseTime.value))
    else s
  }

  /** The session `stopBilliardSession` stores: billed at `now` (unless already
      ENDED), then ENDED at `now`. */
  function FinalSession(s: Session, now: int): (r: Session)
    ensures r.status == SessionStatus.Ended && r.endTime == Some(now)
    ensures IsOpen(s) ==> (r.durationMs == ElapsedMs(s, now)
      && r.timeCharge == TimeCharge(ElapsedMinutes(s, now), s.packageSnapshot)
      && r.fnbCharge == FnbCharge(s.fnbItems) && r.totalCharge == r.timeCharge + r.fnbCharge)
    ensures !IsOpen(s) ==> (r.durationMs == s.durationMs && r.timeCharge == s.timeCharge
      && r.fnbCharge == s.fnbCharge && r.totalCharge == s.totalCharge)
    ensures r.(status := s.status, endTime := s.endTime, durationMs := s.durationMs, timeCharge := s.timeCharge,
               fnbCharge := s.fnbCharge, totalCharge := s.totalCharge) == s
  {
    WithCharges(s, Bill(s, now)).(status := SessionStatus.Ended, endTime := Some(now))
  }

  function BumpQty(items: seq<FnbItem>, productId: string, qty: int): (r: seq<FnbItem>)
    ensures |r| == |items|
    ensures forall i :: 0 <= i < |items| ==> r[i] == if items[i].productId == productId then items[i].(qty := items[i].qty + qty) else items[i]
  {
    Map((i: FnbItem) => if i.productId == productId then i.(qty := i.qty + qty) else i, items)
  }

  predicate OnBill(items: seq<FnbItem>, productId: string)
  {
    exists i :: 0 <= i < |items| && items[i].productId == productId
  }

  /** The F&B lines after `addFnbToSession`: an existing line for the product
      grows by `qty` at its recorded price; a new one is priced now. */
  function WithFnb(items: seq<FnbItem>, product: Catalog.Product, qty: int, lineId: string): (r: seq<FnbItem>)
    ensures OnBill(items, product.id) ==> r == BumpQty(items, product.id, qty)
    ensures !OnBill(items, product.id) ==> r == items + [FnbItem(lineId, product.id, product.name, qty, product.price)]
  {
    if Find((i: FnbItem) => i.productId == product.id, items).Some? then BumpQty(items, product.id, qty)
    else items + [FnbItem(lineId, product.id, product.name, qty, product.price)]
  }

  /** The tick's update of one session. */
  function Refresh(s: Session, now: int): Session
  {
    if s.status != SessionStatus.Running && s.status != SessionStatus.Paused then s else WithCharges(s, Bill(s, now))
  }

  // ---- tables ----

  function Occupy(tables: seq<Table>, tableId: string, sessionId: string): (r: seq<Table>)
    ensures |r| == |tables|
    ensures forall i :: 0 <= i < |tables| ==> (r[i] ==
      if tables[i].id == tableId then tables[i].(status := TableStatus.Running, currentSessionId := Some(sessionId)) else tables[i])
  {
    Map((t: Table) => if t.id == tableId then t.(status := TableStatus.Running, currentSessionId := Some(sessionId)) else t, tables)
  }

  function Mark(tables: seq<Table>, tableId: string, st: TableStatus): (r: seq<Table>)
    ensures |r| == |tables|
    ensures forall i :: 0 <= i < |tables| ==> r[i] == if tables[i].id == tableId then tables[i].(status := st) else tables[i]
  {
    Map((t: Table) => if t.id == tableId then t.(status := st) else t, tables)
  }

  function Release(tables: seq<Table>, tableId: string): (r: seq<Table>)
    ensures |r| == |tables|
    ensures forall i :: 0 <= i < |tables| ==> (r[i] ==
      if tables[i].id == tableId then tables[i].(status := TableStatus.Free, currentSessionId := None) else tables[i])
  {
    Map((t: Table) => if t.id == tableId then t.(status := TableStatus.Free, currentSessionId := None) else t, tables)
  }

  // ---- the lifecycle ----

  /** `startBilliardSession`: nothing happens unless the table and the package
      exist and the table is FREE; then one RUNNING session is appended and the
      table points at it. */
  function Start(f: Floor, packages: seq<Package>, tableId: string, packageId: string, id: string, now: int): (r: Floor)
    ensures var t := Find((t: Table) => t.id == tableId, f.tables);
      var p := Find((p: Package) => p.id == packageId, packages);
      if t.None? || p.None? || t.value.status != TableStatus.Free then r == f
      else (r.sessions == f.sessions + [NewSession(id, t.value, p.value, now)]
        && r.tables == Occupy(f.tables, tableId, id))
  {
    var t := Find((t: Table) => t.id == tableId, f.tables);
    var p := Find((p: Package) => p.id == packageId, packages);
    if t.None? || p.None? || t.value.status != TableStatus.Free then f
    else Floor(Occupy(f.tables, tableId, id), f.sessions + [NewSession(id, t.value, p.value, now)])
  }

  /** `pauseBilliardSession`: the session pauses if RUNNING; its table is
      marked PAUSED whenever the session exists, whatever its status. */
  function Pause(f: Floor, id: string, now: int): (r: Floor)
    ensures r.sessions == Map((s: Session) => PauseOne(s, id, now), f.sessions)
    ensures var s := Find((s: Session) => s.id == id, f.sessions);
      r.tables == if s.None? then f.tables else Mark(f.tables, s.value.tableId, TableStatus.Paused)
  {
    var sessions := Map((s: Session) => PauseOne(s, id, now), f.sessions);
    match Find((s: Session) => s.id == id, f.sessions)
    case None => Floor(f.tables, sessions)
    case Some(s) => Floor(Mark(f.tables, s.tableId, TableStatus.Paused), sessions)
  }

  /** `resumeBilliardSession`, the mirror image of `Pause`. */
  function Resume(f: Floor, id: string, now: int): (r: Floor)
    ensures r.sessions == Map((s: Session) => ResumeOne(s, id, now), f.sessions)
    ensures var s := Find((s: Session) => s.id == id, f.sessions);
      r.tables == if s.None? then f.tables else Mark(f.tables, s.value.tableId, TableStatus.Running)
  {
    var sessions := Map((s: Session) => ResumeOne(s, id, now), f.sessions);
    match Find((s: Session) => s.id == id, f.sessions)
    case None => Floor(f.tables, sessions)
    case Some(s) => Floor(Mark(f.tables, s.tableId, TableStatus.Running), sessions)
  }

  datatype StopResult = NotFound | Stopped(floor: Floor, session: Session)

  /** `stopBilliardSession`: an unknown id fails ("Session not found");
      otherwise the first session with the id is finalised, stored over every
      session with that id, and its table is freed. No status is checked. */
  function Stop(f: Floor, id: string, now: int): (r: StopResult)
    ensures r.NotFound? <==> forall j :: 0 <= j < |f.sessions| ==> f.sessions[j].id != id
    ensures r.Stopped? ==> var s := Find((s: Session) => s.id == id, f.sessions).value;
      r.session == FinalSession(s, now)
      && r.floor.sessions == Map((x: Session) => if x.id == id then r.session else x, f.sessions)
      && r.floor.tables == Release(f.tables, s.tableId)
  {
    match Find((s: Session) => s.id == id, f.sessions)
    case None => NotFound
    case Some(s) =>
      var fin := FinalSession(s, now);
      Stopped(Floor(Release(f.tables, s.tableId), Map((x: Session) => if x.id == id then fin else x, f.sessions)), fin)
  }

  /** `addFnbToSession`: only the F&B lines of the sessions with this id change. */
  function AddFnb(f: Floor, id: string, product: Catalog.Product, qty: int, lineId: string): (r: Floor)
    ensures r.tables == f.tables && |r.sessions| == |f.sessions|
    ensures forall j :: 0 <= j < |f.sessions| ==>
      r.sessions[j] == if f.sessions[j].id == id then f.sessions[j].(fnbItems := WithFnb(f.sessions[j].fnbItems, product, qty, lineId)) else f.sessions[j]
  {
    Floor(f.tables, Map((s: Session) => if s.id == id then s.(fnbItems := WithFnb(s.fnbItems, product, qty, lineId)) else s, f.sessions))
  }

  /** One tick of the timer: every RUNNING or PAUSED session gets its bill at
      `now`; ENDED sessions and the tables are untouched. */
  function Tick(f: Floor, now: int): (r: Floor)
    ensures r.tables == f.tables && |r.sessions| == |f.sessions|
    ensures forall j :: 0 <= j < |f.sessions| && !IsOpen(f.sessions[j]) ==> r.sessions[j] == f.sessions[j]
    ensures forall j :: 0 <= j < |f.sessions| && IsOpen(f.sessions[j]) ==>
      Some(Charges(r.sessions[j].durationMs, r.sessions[j].timeCharge, r.sessions[j].fnbCharge, r.sessions[j].totalCharge))
        == Bill(f.sessions[j], now)
      && r.sessions[j].(durationMs := 0, timeCharge := 0.0, fnbCharge := 0.0, totalCharge := 0.0)
        == f.sessions[j].(durationMs := 0, timeCharge := 0.0, fnbCharge := 0.0, totalCharge := 0.0)
  {
    Floor(f.tables, Map((s: Session) => Refresh(s, now), f.sessions))
  }

  // ---- table and package administration ----

  const TableNameTaken := "A table with this name already exists."
  const TableInUse := "Cannot delete a table that is currently in use."

  /** The editable fields of a table. */
  datatype TableFields = TableFields(name: string, tableType: TableType, group: Option<string>, isActive: bool)

  predicate TableNameClash(tables: seq<Table>, name: string, except: Option<string>)
  {
    exists i :: 0 <= i < |tables| && Some(tables[i].id) != except && Lower(tables[i].name) == Lower(name)
  }

  /** `addBilliardTable`: refused when the name is taken (ignoring case);
      otherwise a FREE table without a session is appended. */
  function AddTable(f: Floor, data: TableFields, newId: string): (r: Outcome<Floor>)
    ensures r.Failure? <==> TableNameClash(f.tables, data.name, None)
    ensures r.Failure? ==> r.message == TableNameTaken
    ensures r.Success? ==> r.value == Floor(f.tables + [Table(newId, data.name, data.tableType, data.group, data.isActive, TableStatus.Free, None)], f.sessions)
  {
    if TableNameClash(f.tables, data.name, None) then Failure(TableNameTaken)
    else Success(Floor(f.tables + [Table(newId, data.name, data.tableType, data.group, data.isActive, TableStatus.Free, None)], f.sessions))
  }

  function Edit(tables: seq<Table>, id: string, data: TableFields): (r: seq<Table>)
    ensures |r| == |tables|
    ensures forall i :: 0 <= i < |tables| ==> (r[i] ==
      if tables[i].id == id then tables[i].(name := data.name, tableType := data.tableType, group := data.group, isActive := data.isActive)
      else tables[i])
  {
    Map((t: Table) => if t.id == id then t.(name := data.name, tableType := data.tableType, group := data.group, isActive := data.isActive) else t, tables)
  }

  /** `updateBilliardTable`: refused when another table has the name; the
      status and current session are never touched. */
  function UpdateTable(f: Floor, id: string, data: TableFields): (r: Outcome<Floor>)
    ensures r.Failure? <==> TableNameClash(f.tables, data.name, Some(id))
    ensures r.Success? ==> r.value == Floor(Edit(f.tables, id, data), f.sessions)
  {
    if TableNameClash(f.tables, data.name, Some(id)) then Failure(TableNameTaken)
    else Success(Floor(Edit(f.tables, id, data), f.sessions))
  }

  /** `deleteBilliardTable`: refused when the first table with this id is not
      FREE; otherwise every table with the id goes. */
  function DeleteTable(f: Floor, id: string): (r: Outcome<Floor>)
    ensures var t := Find((t: Table) => t.id == id, f.tables);
      r.Failure? <==> t.Some? && t.value.status != TableStatus.Free
    ensures r.Failure? ==> r.message == TableInUse
    ensures r.Success? ==> (r.value.sessions == f.sessions && IsSubsequence(r.value.tables, f.tables)
      && (forall i :: 0 <= i < |r.value.tables| ==> r.value.tables[i].id != id)
      && (forall i :: 0 <= i < |f.tables| && f.tables[i].id != id ==> f.tables[i] in r.value.tables)
      && (forall t :: multiset(r.value.tables)[t] == if t.id != id then multiset(f.tables)[t] else 0))
  {
    var t := Find((t: Table) => t.id == id, f.tables);
    if t.Some? && t.value.status != TableStatus.Free then Failure(TableInUse)
    else
      FilterIsSubsequence((t: Table) => t.id != id, f.tables);
      FilterCounts((t: Table) => t.id != id, f.tables);
      Success(Floor(Filter((t: Table) => t.id != id, f.tables), f.sessions))
  }

  function AddPackage(packages: seq<Package>, p: Package, newId: string): (r: seq<Package>)
    ensures r == packages + [p.(id := newId)]
  {
    packages + [p.(id := newId)]
  }

  /** `updatePricelistPackage`: sessions keep their snapshots, so only the list changes. */
  function UpdatePackage(packages: seq<Package>, p: Package): (r: seq<Package>)
    ensures |r| == |packages|
    ensures forall i :: 0 <= i < |packages| ==> r[i] == if packages[i].id == p.id then p else packages[i]
  {
    Map((q: Package) => if q.id == p.id then p else q, packages)
  }

  function DeletePackage(packages: seq<Package>, id: string): (r: seq<Package>)
    ensures IsSubsequence(r, packages)
    ensures forall i :: 0 <= i < |r| ==> r[i].id != id
    ensures forall i :: 0 <= i < |packages| && packages[i].id != id ==> packages[i] in r
    ensures forall q :: multiset(r)[q] == if q.id != id then multiset(packages)[q] else 0
  {
    FilterIsSubsequence((q: Package) => q.id != id, packages);
    FilterCounts((q: Package) => q.id != id, packages);
    Filter((q: Package) => q.id != id, packages)
  }

  // ---- the floor invariant ----

  predicate UniqueTableIds(tables: seq<Table>)
  {
    forall i, j :: 0 <= i < j < |tables| ==> tables[i].id != tables[j].id
  }

  predicate UniqueSessionIds(sessions: seq<Session>)
  {
    forall i, j :: 0 <= i < j < |sessions| ==> sessions[i].id != sessions[j].id
  }

  /** A table's status reflects its session's: RUNNING or PAUSED alike. */
  predicate Mirrors(t: TableStatus, s: SessionStatus)
  {
    (t == TableStatus.Running && s == SessionStatus.Running) || (t == TableStatus.Paused && s == SessionStatus.Paused)
  }

  /** Table `t` is playing session `s`. */
  predicate Hosts(t: Table, s: Session)
  {
    t.currentSessionId == Some(s.id) && s.tableId == t.id && Mirrors(t.status, s.status)
  }

  predicate FreeIffIdle(tables: seq<Table>)
  {
    forall i :: 0 <= i < |tables| ==> (tables[i].status == TableStatus.Free <==> tables[i].currentSessionId.None?)
  }

  predicate CurrentsHosted(f: Floor)
  {
    forall i :: 0 <= i < |f.tables| && f.tables[i].currentSessionId.Some? ==>
      exists j :: 0 <= j < |f.sessions| && Hosts(f.tables[i], f.sessions[j])
  }

  predicate OpenHosted(f: Floor)
  {
    forall j :: 0 <= j < |f.sessions| && IsOpen(f.sessions[j]) ==>
      exists i :: 0 <= i < |f.tables| && Hosts(f.tables[i], f.sessions[j])
  }

  predicate PausesTimed(sessions: seq<Session>)
  {
    forall j :: 0 <= j < |sessions| && sessions[j].status == SessionStatus.Paused ==> IsSet(sessions[j].pauseTime)
  }

  /** What the screens rely on: ids are unique; a table is FREE exactly when it
      has no current session; a current session exists, belongs to the table
      and has the table's status; every open session is its table's current
      one; a PAUSED session knows when it paused. */
  predicate Consistent(f: Floor)
  {
    UniqueTableIds(f.tables) && UniqueSessionIds(f.sessions) && FreeIffIdle(f.tables)
    && CurrentsHosted(f) && OpenHosted(f) && PausesTimed(f.sessions)
  }

  lemma SameIdSameTable(tables: seq<Table>, a: nat, b: nat)
    requires UniqueTableIds(tables) && a < |tables| && b < |tables|
    ensures tables[a].id == tables[b].id ==> a == b
  {
  }

  lemma SameIdSameSession(sessions: seq<Session>, a: nat, b: nat)
    requires UniqueSessionIds(sessions) && a < |sessions| && b < |sessions|
    ensures sessions[a].id == sessions[b].id ==> a == b
  {
  }

  /** The table hosting an open session: no other table has its id or points
      at the session. */
  lemma HostOf(f: Floor, j: nat) returns (i: nat)
    requires Consistent(f) && j < |f.sessions| && IsOpen(f.sessions[j])
    ensures i < |f.tables| && Hosts(f.tables[i], f.sessions[j])
    ensures forall k :: 0 <= k < |f.tables| && k != i ==> f.tables[k].id != f.sessions[j].tableId
    ensures forall k :: 0 <= k < |f.tables| && k != i ==> f.tables[k].currentSessionId != Some(f.sessions[j].id)
  {
    i :| 0 <= i < |f.tables| && Hosts(f.tables[i], f.sessions[j]);
    forall k | 0 <= k < |f.tables| && k != i
      ensures f.tables[k].id != f.sessions[j].tableId
      ensures f.tables[k].currentSessionId != Some(f.sessions[j].id)
    {
      SameIdSameTable(f.tables, i, k);
      if f.tables[k].currentSessionId.Some? {
        var m :| 0 <= m < |f.sessions| && Hosts(f.tables[k], f.sessions[m]);
        SameIdSameSession(f.sessions, j, m);
        SameIdSameTable(f.tables, i, k);
      }
    }
  }

  /** Under the invariant a table is FREE exactly when no RUNNING or PAUSED
      session is on it. */
  lemma FreeIffNoOpenSession(f: Floor, i: nat)
    requires Consistent(f) && i < |f.tables|
    ensures f.tables[i].status == TableStatus.Free <==>
      forall j :: 0 <= j < |f.sessions| ==> !(IsOpen(f.sessions[j]) && f.sessions[j].tableId == f.tables[i].id)
  {
    if f.tables[i].status == TableStatus.Free {
      forall j | 0 <= j < |f.sessions| && IsOpen(f.sessions[j])
        ensures f.sessions[j].tableId != f.tables[i].id
      {
        var k := HostOf(f, j);
        assert f.tables[k].currentSessionId.Some?;
      }
    } else {
      var j :| 0 <= j < |f.sessions| && Hosts(f.tables[i], f.sessions[j]);
      assert IsOpen(f.sessions[j]) && f.sessions[j].tableId == f.tables[i].id;
    }
  }

  /** Under the invariant no table has two open sessions. */
  lemma AtMostOneOpenSession(f: Floor, j1: nat, j2: nat)
    requires Consistent(f) && j1 < |f.sessions| && j2 < |f.sessions|
    requires IsOpen(f.sessions[j1]) && IsOpen(f.sessions[j2]) && f.sessions[j1].tableId == f.sessions[j2].tableId
    ensures j1 == j2
  {
    var k1 := HostOf(f, j1);
    var k2 := HostOf(f, j2);
    SameIdSameTable(f.tables, k1, k2);
    SameIdSameSession(f.sessions, j1, j2);
  }

  /** The session found by id is the unique one with that id. */
  lemma FoundSession(sessions: seq<Session>, id: string) returns (j: nat)
    requires UniqueSessionIds(sessions)
    requires Find((s: Session) => s.id == id, sessions).Some?
    ensures j < |sessions| && sessions[j] == Find((s: Session) => s.id == id, sessions).value && sessions[j].id == id
    ensures forall k :: 0 <= k < |sessions| && k != j ==> sessions[k].id != id
  {
    var s := Find((s: Session) => s.id == id, sessions).value;
    j :| 0 <= j < |sessions| && sessions[j] == s && forall i :: 0 <= i < j ==> sessions[i].id != id;
    forall k | 0 <= k < |sessions| && k != j ensures sessions[k].id != id {
      SameIdSameSession(sessions, j, k);
    }
  }

  /** The table found by id is the unique one with that id. */
  lemma FoundTable(tables: seq<Table>, id: string) returns (i: nat)
    requires UniqueTableIds(tables)
    requires Find((t: Table) => t.id == id, tables).Some?
    ensures i < |tables| && tables[i] == Find((t: Table) => t.id == id, tables).value && tables[i].id == id
    ensures forall k :: 0 <= k < |tables| && k != i ==> tables[k].id != id
  {
    var t := Find((t: Table) => t.id == id, tables).value;
    i :| 0 <= i < |tables| && tables[i] == t && forall m :: 0 <= m < i ==> tables[m].id != id;
    forall k | 0 <= k < |tables| && k != i ensures tables[k].id != id {
      SameIdSameTable(tables, i, k);
    }
  }

  /** A transition that keeps every id, every table's current session and
      FREE-ness, keeps sessions open or ENDED as they were, and moves table and
      session status in step keeps the invariant. */
  lemma ConsistentInStep(f: Floor, g: Floor)
    requires Consistent(f)
    requires |g.tables| == |f.tables| && |g.sessions| == |f.sessions|
    requires forall i :: 0 <= i < |f.tables| ==> (g.tables[i].id == f.tables[i].id
      && g.tables[i].currentSessionId == f.tables[i].currentSessionId
      && (g.tables[i].status == TableStatus.Free <==> f.tables[i].status == TableStatus.Free))
    requires forall j :: 0 <= j < |f.sessions| ==> (g.sessions[j].id == f.sessions[j].id
      && g.sessions[j].tableId == f.sessions[j].tableId && (IsOpen(g.sessions[j]) <==> IsOpen(f.sessions[j]))
      && (g.sessions[j].status == SessionStatus.Paused ==> IsSet(g.sessions[j].pauseTime)))
    requires forall i, j :: 0 <= i < |f.tables| && 0 <= j < |f.sessions| && Hosts(f.tables[i], f.sessions[j]) ==>
      Mirrors(g.tables[i].status, g.sessions[j].status)
    ensures Consistent(g)
  {
    assert UniqueTableIds(g.tables) by {
      forall a, b | 0 <= a < b < |g.tables| ensures g.tables[a].id != g.tables[b].id {
        assert f.tables[a].id != f.tables[b].id;
      }
    }
    assert UniqueSessionIds(g.sessions) by {
      forall a, b | 0 <= a < b < |g.sessions| ensures g.sessions[a].id != g.sessions[b].id {
        assert f.sessions[a].id != f.sessions[b].id;
      }
    }
    assert CurrentsHosted(g) by {
      forall i | 0 <= i < |g.tables| && g.tables[i].currentSessionId.Some?
        ensures exists j :: 0 <= j < |g.sessions| && Hosts(g.tables[i], g.sessions[j])
      {
        var j :| 0 <= j < |f.sessions| && Hosts(f.tables[i], f.sessions[j]);
        assert Hosts(g.tables[i], g.sessions[j]);
      }
    }
    assert OpenHosted(g) by {
      forall j | 0 <= j < |g.sessions| && IsOpen(g.sessions[j])
        ensures exists i :: 0 <= i < |g.tables| && Hosts(g.tables[i], g.sessions[j])
      {
        var i :| 0 <= i < |f.tables| && Hosts(f.tables[i], f.sessions[j]);
        assert Hosts(g.tables[i], g.sessions[j]);
      }
    }
  }

  /** Retagging the status of one hosting pair, in step, keeps the invariant. */
  lemma ConsistentAfterRetag(f: Floor, g: Floor, i0: nat, j0: nat, st: TableStatus)
    requires Consistent(f) && i0 < |f.tables| && j0 < |f.sessions| && Hosts(f.tables[i0], f.sessions[j0])
    requires |g.tables| == |f.tables| && |g.sessions| == |f.sessions|
    requires forall i :: 0 <= i < |f.tables| && i != i0 ==> g.tables[i] == f.tables[i]
    requires forall j :: 0 <= j < |f.sessions| && j != j0 ==> g.sessions[j] == f.sessions[j]
    requires g.tables[i0] == f.tables[i0].(status := st)
    requires g.sessions[j0].id == f.sessions[j0].id && g.sessions[j0].tableId == f.sessions[j0].tableId
    requires Mirrors(st, g.sessions[j0].status)
    requires g.sessions[j0].status == SessionStatus.Paused ==> IsSet(g.sessions[j0].pauseTime)
    ensures Consistent(g)
  {
    var h := HostOf(f, j0);
    assert h == i0;
    forall j | 0 <= j < |f.sessions| && j != j0 ensures f.sessions[j].id != f.sessions[j0].id {
      SameIdSameSession(f.sessions, j, j0);
    }
    forall i, j | 0 <= i < |f.tables| && 0 <= j < |f.sessions| && Hosts(f.tables[i], f.sessions[j])
      ensures Mirrors(g.tables[i].status, g.sessions[j].status)
    {
      if i == i0 || j == j0 {
        assert i == i0 && j == j0;
      }
    }
    ConsistentInStep(f, g);
  }

  /** Occupying a FREE table with a new RUNNING session keeps the invariant. */
  lemma ConsistentAfterOccupy(f: Floor, g: Floor, i0: nat, s: Session)
    requires Consistent(f) && i0 < |f.tables| && f.tables[i0].status == TableStatus.Free
    requires forall j :: 0 <= j < |f.sessions| ==> f.sessions[j].id != s.id
    requires s.status == SessionStatus.Running && s.tableId == f.tables[i0].id
    requires |g.tables| == |f.tables|
    requires forall i :: 0 <= i < |f.tables| && i != i0 ==> g.tables[i] == f.tables[i]
    requires g.tables[i0] == f.tables[i0].(status := TableStatus.Running, currentSessionId := Some(s.id))
    requires g.sessions == f.sessions + [s]
    ensures Consistent(g)
  {
    var n := |f.sessions|;
    FreeIffNoOpenSession(f, i0);
    assert UniqueTableIds(g.tables) by {
      forall a, b | 0 <= a < b < |g.tables| ensures g.tables[a].id != g.tables[b].id {
        assert f.tables[a].id != f.tables[b].id;
      }
    }
    assert UniqueSessionIds(g.sessions) by {
      forall a, b | 0 <= a < b < |g.sessions| ensures g.sessions[a].id != g.sessions[b].id {
        if b < n { assert f.sessions[a].id != f.sessions[b].id; }
      }
    }
    assert CurrentsHosted(g) by {
      forall i | 0 <= i < |g.tables| && g.tables[i].currentSessionId.Some?
        ensures exists j :: 0 <= j < |g.sessions| && Hosts(g.tables[i], g.sessions[j])
      {
        if i == i0 {
          assert Hosts(g.tables[i], g.sessions[n]);
        } else {
          var j :| 0 <= j < |f.sessions| && Hosts(f.tables[i], f.sessions[j]);
          assert Hosts(g.tables[i], g.sessions[j]);
        }
      }
    }
    assert OpenHosted(g) by {
      forall j | 0 <= j < |g.sessions| && IsOpen(g.sessions[j])
        ensures exists i :: 0 <= i < |g.tables| && Hosts(g.tables[i], g.sessions[j])
      {
        if j == n {
          assert Hosts(g.tables[i0], g.sessions[j]);
        } else {
          var i := HostOf(f, j);
          assert i != i0;
          assert Hosts(g.tables[i], g.sessions[j]);
        }
      }
    }
  }

  /** Ending a hosted session and freeing its table keeps the invariant. */
  lemma ConsistentAfterRelease(f: Floor, g: Floor, i0: nat, j0: nat)
    requires Consistent(f) && i0 < |f.tables| && j0 < |f.sessions| && Hosts(f.tables[i0], f.sessions[j0])
    requires |g.tables| == |f.tables| && |g.sessions| == |f.sessions|
    requires forall i :: 0 <= i < |f.tables| && i != i0 ==> g.tables[i] == f.tables[i]
    requires forall j :: 0 <= j < |f.sessions| && j != j0 ==> g.sessions[j] == f.sessions[j]
    requires g.tables[i0] == f.tables[i0].(status := TableStatus.Free, currentSessionId := None)
    requires g.sessions[j0].id == f.sessions[j0].id && g.sessions[j0].status == SessionStatus.Ended
    ensures Consistent(g)
  {
    var h := HostOf(f, j0);
    assert h == i0;
    assert UniqueTableIds(g.tables) by {
      forall a, b | 0 <= a < b < |g.tables| ensures g.tables[a].id != g.tables[b].id {
        assert f.tables[a].id != f.tables[b].id;
      }
    }
    assert UniqueSessionIds(g.sessions) by {
      forall a, b | 0 <= a < b < |g.sessions| ensures g.sessions[a].id != g.sessions[b].id {
        assert f.sessions[a].id != f.sessions[b].id;
      }
    }
    assert CurrentsHosted(g) by {
      forall i | 0 <= i < |g.tables| && g.tables[i].currentSessionId.Some?
        ensures exists j :: 0 <= j < |g.sessions| && Hosts(g.tables[i], g.sessions[j])
      {
        var j :| 0 <= j < |f.sessions| && Hosts(f.tables[i], f.sessions[j]);
        SameIdSameSession(f.sessions, j, j0);
        assert Hosts(g.tables[i], g.sessions[j]);
      }
    }
    assert OpenHosted(g) by {
      forall j | 0 <= j < |g.sessions| && IsOpen(g.sessions[j])
        ensures exists i :: 0 <= i < |g.tables| && Hosts(g.tables[i], g.sessions[j])
      {
        var i :| 0 <= i < |f.tables| && Hosts(f.tables[i], f.sessions[j]);
        SameIdSameSession(f.sessions, j, j0);
        assert Hosts(g.tables[i], g.sessions[j]);
      }
    }
  }

  /** Appending a FREE table with a fresh id keeps the invariant. */
  lemma ConsistentAfterNewTable(f: Floor, t: Table)
    requires Consistent(f) && t.status == TableStatus.Free && t.currentSessionId.None?
    requires forall i :: 0 <= i < |f.tables| ==> f.tables[i].id != t.id
    ensures Consistent(Floor(f.tables + [t], f.sessions))
  {
    var g := Floor(f.tables + [t], f.sessions);
    assert UniqueTableIds(g.tables) by {
      forall a, b | 0 <= a < b < |g.tables| ensures g.tables[a].id != g.tables[b].id {
        if b < |f.tables| { assert f.tables[a].id != f.tables[b].id; }
      }
    }
    assert OpenHosted(g) by {
      forall j | 0 <= j < |g.sessions| && IsOpen(g.sessions[j])
        ensures exists i :: 0 <= i < |g.tables| && Hosts(g.tables[i], g.sessions[j])
      {
        var i :| 0 <= i < |f.tables| && Hosts(f.tables[i], f.sessions[j]);
        assert g.tables[i] == f.tables[i];
      }
    }
  }

  /** Removing a FREE table keeps the invariant. */
  lemma ConsistentAfterRemoveTable(f: Floor, k: nat)
    requires Consistent(f) && k < |f.tables| && f.tables[k].status == TableStatus.Free
    ensures Consistent(Floor(f.tables[..k] + f.tables[k + 1..], f.sessions))
  {
    var ts := f.tables[..k] + f.tables[k + 1..];
    var g := Floor(ts, f.sessions);
    assert forall i :: 0 <= i < |ts| ==> ts[i] == f.tables[if i < k then i else i + 1];
    assert UniqueTableIds(ts) by {
      forall a, b | 0 <= a < b < |ts| ensures ts[a].id != ts[b].id {
        var a', b' := if a < k then a else a + 1, if b < k then b else b + 1;
        assert f.tables[a'].id != f.tables[b'].id;
      }
    }
    assert OpenHosted(g) by {
      forall j | 0 <= j < |g.sessions| && IsOpen(g.sessions[j])
        ensures exists i :: 0 <= i < |ts| && Hosts(ts[i], g.sessions[j])
      {
        var i := HostOf(f, j);
        assert i != k;
        var i' := if i < k then i else i - 1;
        assert Hosts(ts[i'], g.sessions[j]);
      }
    }
  }

  /** Starting a session with a fresh id keeps the invariant. */
  lemma StartKeepsConsistent(f: Floor, packages: seq<Package>, tableId: string, packageId: string, id: string, now: int)
    requires Consistent(f)
    requires forall j :: 0 <= j < |f.sessions| ==> f.sessions[j].id != id
    ensures Consistent(Start(f, packages, tableId, packageId, id, now))
  {
    var t := Find((t: Table) => t.id == tableId, f.tables);
    var p := Find((p: Package) => p.id == packageId, packages);
    if !(t.None? || p.None? || t.value.status != TableStatus.Free) {
      var i0 := FoundTable(f.tables, tableId);
      ConsistentAfterOccupy(f, Start(f, packages, tableId, packageId, id, now), i0, NewSession(id, t.value, p.value, now));
    }
  }

  /** Pausing keeps the invariant when the session, if it exists, is RUNNING or
      PAUSED (the pause button is shown only for RUNNING) and the clock is not 0. */
  lemma PauseKeepsConsistent(f: Floor, id: string, now: int)
    requires Consistent(f) && now != 0
    requires forall j :: 0 <= j < |f.sessions| && f.sessions[j].id == id ==> IsOpen(f.sessions[j])
    ensures Consistent(Pause(f, id, now))
  {
    var g := Pause(f, id, now);
    if Find((s: Session) => s.id == id, f.sessions).None? {
      assert g.sessions == f.sessions;
    } else {
      var j0 := FoundSession(f.sessions, id);
      var i0 := HostOf(f, j0);
      ConsistentAfterRetag(f, g, i0, j0, TableStatus.Paused);
    }
  }

  /** Resuming keeps the invariant under the same discipline. */
  lemma ResumeKeepsConsistent(f: Floor, id: string, now: int)
    requires Consistent(f)
    requires forall j :: 0 <= j < |f.sessions| && f.sessions[j].id == id ==> IsOpen(f.sessions[j])
    ensures Consistent(Resume(f, id, now))
  {
    var g := Resume(f, id, now);
    if Find((s: Session) => s.id == id, f.sessions).None? {
      assert g.sessions == f.sessions;
    } else {
      var j0 := FoundSession(f.sessions, id);
      var i0 := HostOf(f, j0);
      ConsistentAfterRetag(f, g, i0, j0, TableStatus.Running);
    }
  }

  /** Stopping an open session keeps the invariant. */
  lemma StopKeepsConsistent(f: Floor, id: string, now: int)
    requires Consistent(f)
    requires forall j :: 0 <= j < |f.sessions| && f.sessions[j].id == id ==> IsOpen(f.sessions[j])
    ensures Stop(f, id, now).Stopped? ==> Consistent(Stop(f, id, now).floor)
  {
    if Stop(f, id, now).Stopped? {
      var j0 := FoundSession(f.sessions, id);
      var i0 := HostOf(f, j0);
      ConsistentAfterRelease(f, Stop(f, id, now).floor, i0, j0);
    }
  }

  /** Adding F&B touches nothing the invariant speaks of. */
  lemma AddFnbKeepsConsistent(f: Floor, id: string, product: Catalog.Product, qty: int, lineId: string)
    requires Consistent(f)
    ensures Consistent(AddFnb(f, id, product, qty, lineId))
  {
    ConsistentInStep(f, AddFnb(f, id, product, qty, lineId));
  }

  /** Neither does the tick. */
  lemma TickKeepsConsistent(f: Floor, now: int)
    requires Consistent(f)
    ensures Consistent(Tick(f, now))
  {
    ConsistentInStep(f, Tick(f, now));
  }

  /** F&B added to an ENDED session is kept on its lines, but no later tick
      bills it: the stored F&B and total charges stay those of the stop. */
  lemma AddFnbToEndedSessionStaysUnbilled(f: Floor, j: int, product: Catalog.Product, qty: int, lineId: string, now: int)
    requires 0 <= j < |f.sessions| && f.sessions[j].status == SessionStatus.Ended
    ensures var s := Tick(AddFnb(f, f.sessions[j].id, product, qty, lineId), now).sessions[j];
      s.fnbItems == WithFnb(f.sessions[j].fnbItems, product, qty, lineId)
      && s.fnbCharge == f.sessions[j].fnbCharge && s.totalCharge == f.sessions[j].totalCharge
    ensures !OnBill(f.sessions[j].fnbItems, product.id) ==>
      |Tick(AddFnb(f, f.sessions[j].id, product, qty, lineId), now).sessions[j].fnbItems| == |f.sessions[j].fnbItems| + 1
  {
    var added := AddFnb(f, f.sessions[j].id, product, qty, lineId);
    assert !IsOpen(added.sessions[j]);
  }

  /** Table administration keeps the invariant (a new table needs a fresh id). */
  lemma TableAdminKeepsConsistent(f: Floor, data: TableFields, id: string, newId: string)
    requires Consistent(f)
    ensures (forall i :: 0 <= i < |f.tables| ==> f.tables[i].id != newId) && AddTable(f, data, newId).Success?
      ==> Consistent(AddTable(f, data, newId).value)
    ensures UpdateTable(f, id, data).Success? ==> Consistent(UpdateTable(f, id, data).value)
    ensures DeleteTable(f, id).Success? ==> Consistent(DeleteTable(f, id).value)
  {
    if (forall i :: 0 <= i < |f.tables| ==> f.tables[i].id != newId) && AddTable(f, data, newId).Success? {
      AddKeepsConsistent(f, data, newId);
    }
    if UpdateTable(f, id, data).Success? {
      UpdateKeepsConsistent(f, id, data);
    }
    if DeleteTable(f, id).Success? {
      DeleteKeepsConsistent(f, id);
    }
  }

  lemma AddKeepsConsistent(f: Floor, data: TableFields, newId: string)
    requires Consistent(f) && AddTable(f, data, newId).Success?
    requires forall i :: 0 <= i < |f.tables| ==> f.tables[i].id != newId
    ensures Consistent(AddTable(f, data, newId).value)
  {
    ConsistentAfterNewTable(f, Table(newId, data.name, data.tableType, data.group, data.isActive, TableStatus.Free, None));
  }

  lemma UpdateKeepsConsistent(f: Floor, id: string, data: TableFields)
    requires Consistent(f) && UpdateTable(f, id, data).Success?
    ensures Consistent(UpdateTable(f, id, data).value)
  {
    ConsistentInStep(f, UpdateTable(f, id, data).value);
  }

  lemma DeleteKeepsConsistent(f: Floor, id: string)
    requires Consistent(f) && DeleteTable(f, id).Success?
    ensures Consistent(DeleteTable(f, id).value)
  {
    var keep := (t: Table) => t.id != id;
    if Find((t: Table) => t.id == id, f.tables).None? {
      FilterAll(keep, f.tables);
    } else {
      var k := FoundTable(f.tables, id);
      FilterDropsOne(keep, f.tables, k);
      ConsistentAfterRemoveTable(f, k);
    }
  }

  // ---- properties of single steps ----

  /** While paused the clock stands still: the elapsed time at any later moment
      is the elapsed time at the pause. */
  lemma PausedClockStandsStill(s: Session, t1: int, now: int)
    requires s.status == SessionStatus.Running && t1 != 0
    ensures ElapsedMs(PauseOne(s, s.id, t1), now) == ElapsedMs(s, t1)
  {
  }

  /** A pause from `t1` to `t2` takes exactly `t2 - t1` off the elapsed time. */
  lemma PauseThenResume(s: Session, t1: int, t2: int, now: int)
    requires s.status == SessionStatus.Running && t1 != 0
    ensures var r := ResumeOne(PauseOne(s, s.id, t1), s.id, t2);
      r.status == SessionStatus.Running && r.pauseTime == None
      && ElapsedMs(r, now) == ElapsedMs(s, now) - (t2 - t1)
  {
  }

  /** A tick is idempotent at a fixed clock, and a second stop of an ENDED
      session keeps the charges it was stopped with. */
  lemma TickIdempotent(f: Floor, now: int)
    ensures Tick(Tick(f, now), now) == Tick(f, now)
  {
    var once := Tick(f, now);
    forall j | 0 <= j < |f.sessions| ensures Refresh(once.sessions[j], now) == once.sessions[j] {
      var s := f.sessions[j];
      if IsOpen(s) {
        BillIgnoresCharges(s, Bill(s, now), now);
      }
    }
  }

  lemma StopEndedKeepsCharges(s: Session, now: int)
    requires !IsOpen(s)
    ensures var r := FinalSession(s, now);
      r.durationMs == s.durationMs && r.totalCharge == s.totalCharge && r.endTime == Some(now)
  {
  }

  /** `stop` does not check the status: stopping an old ENDED session frees a
      table another session is playing on, breaking the invariant. */
  lemma StopOfEndedSessionFreesBusyTable()
    ensures var p := Pkg1;
      var old1 := Session("s1", "t1", "Table 1", 1000, Some(2000), None, 0, p, [], SessionStatus.Ended, 1000, 0.0, 0.0, 0.0);
      var live := Session("s2", "t1", "Table 1", 3000, None, None, 0, p, [], SessionStatus.Running, 0, 0.0, 0.0, 0.0);
      var t := Table("t1", "Table 1", Pool, None, true, TableStatus.Running, Some("s2"));
      var f := Floor([t], [old1, live]);
      Consistent(f) && Stop(f, "s1", 5000).Stopped? && !Consistent(Stop(f, "s1", 5000).floor)
  {
    var p := Pkg1;
    var old1 := Session("s1", "t1", "Table 1", 1000, Some(2000), None, 0, p, [], SessionStatus.Ended, 1000, 0.0, 0.0, 0.0);
    var live := Session("s2", "t1", "Table 1", 3000, None, None, 0, p, [], SessionStatus.Running, 0, 0.0, 0.0, 0.0);
    var t := Table("t1", "Table 1", Pool, None, true, TableStatus.Running, Some("s2"));
    var f := Floor([t], [old1, live]);
    assert Hosts(f.tables[0], f.sessions[1]);
    assert Consistent(f);
    var g := Stop(f, "s1", 5000).floor;
    assert g.tables[0].currentSessionId == None;
    assert g.sessions[1] == live;
    assert !Hosts(g.tables[0], g.sessions[1]);
  }

  // ---- the provider ----

  /** The billiard part of the data provider: its three lists, updated one
      operation at a time. */
  class BilliardLedger {
    var tables: seq<Table>
    var sessions: seq<Session>
    var packages: seq<Package>

    constructor (tables0: seq<Table>, packages0: seq<Package>)
      ensures tables == tables0 && sessions == [] && packages == packages0
    {
      tables := tables0;
      sessions := [];
      packages := packages0;
    }

    function State(): Floor
      reads this
    {
      Floor(tables, sessions)
    }

    method StartSession(tableId: string, packageId: string, id: string, now: int)
      modifies this
      ensures State() == Start(old(State()), packages, tableId, packageId, id, now) && packages == old(packages)
      ensures old(Consistent(State())) && (forall j :: 0 <= j < |old(sessions)| ==> old(sessions)[j].id != id)
        ==> Consistent(State())
    {
      if old(Consistent(State())) && (forall j :: 0 <= j < |sessions| ==> sessions[j].id != id) {
        StartKeepsConsistent(State(), packages, tableId, packageId, id, now);
      }
      var next := Start(State(), packages, tableId, packageId, id, now);
      tables, sessions := next.tables, next.sessions;
    }

    method PauseSession(id: string, now: int)
      modifies this
      ensures State() == Pause(old(State()), id, now) && packages == old(packages)
      ensures old(Consistent(State())) && now != 0
        && (forall j :: 0 <= j < |old(sessions)| && old(sessions)[j].id == id ==> IsOpen(old(sessions)[j]))
        ==> Consistent(State())
    {
      if Consistent(State()) && now != 0 && (forall j :: 0 <= j < |sessions| && sessions[j].id == id ==> IsOpen(sessions[j])) {
        PauseKeepsConsistent(State(), id, now);
      }
      var next := Pause(State(), id, now);
      tables, sessions := next.tables, next.sessions;
    }

    method ResumeSession(id: string, now: int)
      modifies this
      ensures State() == Resume(old(State()), id, now) && packages == old(packages)
      ensures old(Consistent(State()))
        && (forall j :: 0 <= j < |old(sessions)| && old(sessions)[j].id == id ==> IsOpen(old(sessions)[j]))
        ==> Consistent(State())
    {
      if Consistent(State()) && (forall j :: 0 <= j < |sessions| && sessions[j].id == id ==> IsOpen(sessions[j])) {
        ResumeKeepsConsistent(State(), id, now);
      }
      var next := Resume(State(), id, now);
      tables, sessions := next.tables, next.sessions;
    }

    /** Answers the final session, or `None` for an unknown id (the source
        throws "Session not found" and changes nothing). */
    method StopSession(id: string, now: int) returns (r: Option<Session>)
      modifies this
      ensures Stop(old(State()), id, now).NotFound? ==> r.None? && State() == old(State())
      ensures Stop(old(State()), id, now).Stopped? ==>
        r == Some(Stop(old(State()), id, now).session) && State() == Stop(old(State()), id, now).floor
      ensures packages == old(packages)
      ensures old(Consistent(State()))
        && (forall j :: 0 <= j < |old(sessions)| && old(sessions)[j].id == id ==> IsOpen(old(sessions)[j]))
        ==> Consistent(State())
    {
      if Consistent(State()) && (forall j :: 0 <= j < |sessions| && sessions[j].id == id ==> IsOpen(sessions[j])) {
        StopKeepsConsistent(State(), id, now);
      }
      var result := Stop(State(), id, now);
      if result.NotFound? {
        r := None;
      } else {
        tables, sessions := result.floor.tables, result.floor.sessions;
        r := Some(result.session);
      }
    }

    method AddFnbToSession(id: string, product: Catalog.Product, qty: int, lineId: string)
      modifies this
      ensures State() == AddFnb(old(State()), id, product, qty, lineId) && packages == old(packages)
      ensures old(Consistent(State())) ==> Consistent(State())
    {
      if Consistent(State()) {
        AddFnbKeepsConsistent(State(), id, product, qty, lineId);
      }
      sessions := AddFnb(State(), id, product, qty, lineId).sessions;
    }

    method TickAt(now: int)
      modifies this
      ensures State() == Tick(old(State()), now) && packages == old(packages)
      ensures old(Consistent(State())) ==> Consistent(State())
    {
      if Consistent(State()) {
        TickKeepsConsistent(State(), now);
      }
      sessions := Tick(State(), now).sessions;
    }

    method AddBilliardTable(data: TableFields, newId: string) returns (r: Outcome<()>)
      modifies this
      ensures AddTable(old(State()), data, newId).Failure? ==>
        r == Failure(AddTable(old(State()), data, newId).message) && State() == old(State())
      ensures AddTable(old(State()), data, newId).Success? ==>
        r == Success(()) && State() == AddTable(old(State()), data, newId).value
      ensures packages == old(packages)
    {
      match AddTable(State(), data, newId)
      case Failure(m) => r := Failure(m);
      case Success(next) =>
        tables := next.tables;
        r := Success(());
    }

    method UpdateBilliardTable(id: string, data: TableFields) returns (r: Outcome<()>)
      modifies this
      ensures UpdateTable(old(State()), id, data).Failure? ==>
        r == Failure(UpdateTable(old(State()), id, data).message) && State() == old(State())
      ensures UpdateTable(old(State()), id, data).Success? ==>
        r == Success(()) && State() == UpdateTable(old(State()), id, data).value
      ensures packages == old(packages)
    {
      match UpdateTable(State(), id, data)
      case Failure(m) => r := Failure(m);
      case Success(next) =>
        tables := next.tables;
        r := Success(());
    }

    method DeleteBilliardTable(id: string) returns (r: Outcome<()>)
      modifies this
      ensures DeleteTable(old(State()), id).Failure? ==>
        r == Failure(DeleteTable(old(State()), id).message) && State() == old(State())
      ensures DeleteTable(old(State()), id).Success? ==>
        r == Success(()) && State() == DeleteTable(old(State()), id).value
      ensures packages == old(packages)
    {
      match DeleteTable(State(), id)
      case Failure(m) => r := Failure(m);
      case Success(next) =>
        tables := next.tables;
        r := Success(());
    }

    method AddPricelistPackage(p: Package, newId: string)
      modifies this
      ensures packages == AddPackage(old(packages), p, newId) && State() == old(State())
    {
      packages := AddPackage(packages, p, newId);
    }

    method UpdatePricelistPackage(p: Package)
      modifies this
      ensures packages == UpdatePackage(old(packages), p) && State() == old(State())
    {
      packages := UpdatePackage(packages, p);
    }

    method DeletePricelistPackage(id: string)
      modifies this
      ensures packages == DeletePackage(old(packages), id) && State() == old(State())
    {
      packages := DeletePackage(packages, id);
    }
  }
}
