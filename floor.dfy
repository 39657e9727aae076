/** The billiard floor plan (pages/billiards/FloorPage.tsx): which session
    each table shows, and which tables are drawn. */
module FloorPlan {
  import opened Collections
  import opened Billing
  import Ledger

  /** The table-to-session map the loop builds, one session at a time:
      every RUNNING or PAUSED session is stored under its table, over any
      session stored there before. */
  function Shown(sessions: seq<Session>): map<string, Session>
  {
    if sessions == [] then map[]
    else
      var m := Shown(sessions[..|sessions| - 1]);
      var s := sessions[|sessions| - 1];
      if IsOpen(s) then m[s.tableId := s] else m
  }

  /** `activeSessions`: the `forEach` over the sessions filling a `Map`. */
  method ActiveSessions(sessions: seq<Session>) returns (m: map<string, Session>)
    ensures m == Shown(sessions)
  {
    m := map[];
    var i := 0;
    while i < |sessions|
      invariant 0 <= i <= |sessions|
      invariant m == Shown(sessions[..i])
    {
      assert sessions[..i + 1][..i] == sessions[..i];
      if IsOpen(sessions[i]) {
        m := m[sessions[i].tableId := sessions[i]];
      }
      i := i + 1;
    }
    assert sessions[..i] == sessions;
  }

  /** A table has an entry exactly when it has a RUNNING or PAUSED session,
      and the entry is the last such session in list order. */
  lemma {:induction false} ShownIsLastOpen(sessions: seq<Session>, tableId: string)
    ensures tableId in Shown(sessions) <==>
      exists j :: 0 <= j < |sessions| && IsOpen(sessions[j]) && sessions[j].tableId == tableId
    ensures tableId in Shown(sessions) ==>
      exists j :: 0 <= j < |sessions| && IsOpen(sessions[j]) && sessions[j].tableId == tableId
        && Shown(sessions)[tableId] == sessions[j]
        && forall i :: j < i < |sessions| ==> !(IsOpen(sessions[i]) && sessions[i].tableId == tableId)
  {
    if sessions != [] {
      var n := |sessions| - 1;
      var init := sessions[..n];
      ShownIsLastOpen(init, tableId);
      assert forall j :: 0 <= j < n ==> init[j] == sessions[j];
      var s := sessions[n];
      if !(IsOpen(s) && s.tableId == tableId) && tableId in Shown(init) {
        var j :| 0 <= j < n && IsOpen(init[j]) && init[j].tableId == tableId
          && Shown(init)[tableId] == init[j]
          && forall i :: j < i < n ==> !(IsOpen(init[i]) && init[i].tableId == tableId);
        assert Shown(sessions)[tableId] == sessions[j];
      }
      if IsOpen(s) && s.tableId == tableId {
        assert Shown(sessions)[tableId] == sessions[n];
      }
    }
  }

  predicate OneOpenPerTable(sessions: seq<Session>)
  {
    forall a, b :: 0 <= a < b < |sessions| && IsOpen(sessions[a]) && IsOpen(sessions[b]) ==>
      sessions[a].tableId != sessions[b].tableId
  }

  /** Under the provider's invariant of at most one open session per table,
      the entry for a table is its one open session. */
  lemma ShownIsTheOpenSession(sessions: seq<Session>, j: nat)
    requires j < |sessions| && IsOpen(sessions[j])
    requires OneOpenPerTable(sessions)
    ensures sessions[j].tableId in Shown(sessions) && Shown(sessions)[sessions[j].tableId] == sessions[j]
  {
    ShownIsLastOpen(sessions, sessions[j].tableId);
  }

  /** On a consistent floor, every table with a current session shows that
      session, and a free table shows none. */
  lemma FloorShowsCurrentSessions(f: Ledger.Floor, i: nat)
    requires Ledger.Consistent(f) && i < |f.tables|
    ensures f.tables[i].currentSessionId.Some? ==>
      f.tables[i].id in Shown(f.sessions) && Some(Shown(f.sessions)[f.tables[i].id].id) == f.tables[i].currentSessionId
    ensures f.tables[i].status == TableStatus.Free ==> f.tables[i].id !in Shown(f.sessions)
  {
    forall a, b | 0 <= a < b < |f.sessions| && IsOpen(f.sessions[a]) && IsOpen(f.sessions[b])
      ensures f.sessions[a].tableId != f.sessions[b].tableId
    {
      if f.sessions[a].tableId == f.sessions[b].tableId {
        Ledger.AtMostOneOpenSession(f, a, b);
      }
    }
    ShownIsLastOpen(f.sessions, f.tables[i].id);
    Ledger.FreeIffNoOpenSession(f, i);
    if f.tables[i].currentSessionId.Some? {
      var j :| 0 <= j < |f.sessions| && Ledger.Hosts(f.tables[i], f.sessions[j]);
      ShownIsTheOpenSession(f.sessions, j);
    }
  }

  predicate Drawn(t: Table)
  {
    t.isActive
  }

  /** `activeTables`: the active tables, in their order. */
  function ActiveTables(tables: seq<Table>): (r: seq<Table>)
    ensures IsSubsequence(r, tables)
    ensures forall k :: 0 <= k < |r| ==> r[k].isActive
    ensures forall k :: 0 <= k < |tables| && tables[k].isActive ==> tables[k] in r
    ensures forall t :: multiset(r)[t] == if t.isActive then multiset(tables)[t] else 0
  {
    FilterIsSubsequence(Drawn, tables);
    FilterCounts(Drawn, tables);
    Filter(Drawn, tables)
  }
}
