/** The billiard session history (pages/billiards/SessionHistoryPage.tsx): the
    ended sessions, latest first, narrowed by date range, table type and
    package. The local-day window built from the two date inputs is a
    predicate parameter. */
module History {
  import opened Collections
  import opened Billing

  /** `new Map(tables.map(t => [t.name, t.tableType]))`. */
  function TypeByName(tables: seq<Table>): (r: map<string, TableType>)
    ensures forall k :: 0 <= k < |tables| ==> tables[k].name in r
    ensures forall name :: name in r ==> exists k :: 0 <= k < |tables| && tables[k].name == name
  {
    if tables == [] then map[]
    else
      var init := tables[..|tables| - 1];
      var t := tables[|tables| - 1];
      assert forall k :: 0 <= k < |init| ==> init[k] == tables[k];
      TypeByName(init)[t.name := t.tableType]
  }

  /** A later table with the same name overwrites an earlier one: a name maps
      to the type of the last table carrying it. */
  lemma {:induction false} TypeByNameLast(tables: seq<Table>, k: nat)
    requires k < |tables|
    requires forall j :: k < j < |tables| ==> tables[j].name != tables[k].name
    ensures TypeByName(tables)[tables[k].name] == tables[k].tableType
  {
    var n := |tables| - 1;
    if k < n {
      var init := tables[..n];
      assert init[k] == tables[k];
      TypeByNameLast(init, k);
    }
  }

  /** `a.endTime ?? 0`. */
  function EndKey(s: Session): int
  {
    if s.endTime.Some? then s.endTime.value else 0
  }

  predicate IsEnded(s: Session)
  {
    s.status == SessionStatus.Ended && IsSet(s.endTime)
  }

  predicate LatestFirst(s: seq<Session>)
  {
    forall i, j :: 0 <= i < j < |s| ==> EndKey(s[i]) >= EndKey(s[j])
  }

  /** Places `x` before the first session of `s` that did not end later,
      so that among equal end times the earlier-listed session stays first. */
  function Insert(x: Session, s: seq<Session>): (r: seq<Session>)
    requires LatestFirst(s)
    ensures LatestFirst(r)
    ensures multiset(r) == multiset(s) + multiset{x}
  {
    if s == [] || EndKey(x) >= EndKey(s[0]) then
      [x] + s
    else
      var rest := Insert(x, s[1..]);
      assert s == [s[0]] + s[1..];
      InsertBehind(x, s, rest);
      [s[0]] + rest
  }

  lemma InsertBehind(x: Session, s: seq<Session>, rest: seq<Session>)
    requires s != [] && LatestFirst(s) && EndKey(x) < EndKey(s[0])
    requires multiset(rest) == multiset(s[1..]) + multiset{x} && LatestFirst(rest)
    ensures LatestFirst([s[0]] + rest)
  {
    forall i | 0 <= i < |rest| ensures EndKey(rest[i]) <= EndKey(s[0]) {
      assert rest[i] in multiset(rest);
      if rest[i] != x {
        assert rest[i] in multiset(s[1..]);
        var j :| 0 <= j < |s[1..]| && s[1..][j] == rest[i];
        assert s[j + 1] == rest[i];
      }
    }
    var t := [s[0]] + rest;
    forall i, j | 0 <= i < j < |t| ensures EndKey(t[i]) >= EndKey(t[j]) {
      if i > 0 {
        assert t[i] == rest[i - 1] && t[j] == rest[j - 1];
      } else {
        assert t[j] == rest[j - 1];
      }
    }
  }

  /** `sort((a, b) => (b.endTime ?? 0) - (a.endTime ?? 0))`: the same
      sessions, latest end first. */
  function SortLatestFirst(s: seq<Session>): (r: seq<Session>)
    ensures LatestFirst(r)
    ensures multiset(r) == multiset(s)
  {
    if s == [] then []
    else
      assert s == [s[0]] + s[1..];
      Insert(s[0], SortLatestFirst(s[1..]))
  }

  /** `endedSessions`: every ENDED session with an end time, latest first. */
  function EndedSessions(sessions: seq<Session>): (r: seq<Session>)
    ensures LatestFirst(r)
    ensures multiset(r) == multiset(Filter(IsEnded, sessions))
    ensures forall k :: 0 <= k < |r| ==> IsEnded(r[k])
    ensures forall k :: 0 <= k < |sessions| && IsEnded(sessions[k]) ==> sessions[k] in r
  {
    var ended := Filter(IsEnded, sessions);
    var r := SortLatestFirst(ended);
    assert forall k :: 0 <= k < |r| ==> r[k] in multiset(ended);
    assert forall k :: 0 <= k < |sessions| && IsEnded(sessions[k]) ==> sessions[k] in multiset(r);
    r
  }

  /** The table-type selection: 'ALL' or one type. */
  datatype TypeChoice = AnyType | OnlyType(tableType: TableType)

  const AllPackages := "ALL"

  /** Whether a session passes the date, type and package filters. */
  predicate Kept(s: Session, types: map<string, TableType>, inRange: int -> bool,
                 choice: TypeChoice, packageId: string)
  {
    IsSet(s.endTime) && inRange(s.endTime.value)
    && (choice.OnlyType? ==> s.tableName in types && types[s.tableName] == choice.tableType)
    && (packageId != AllPackages ==> s.packageSnapshot.id == packageId)
  }

  function KeptBy(types: map<string, TableType>, inRange: int -> bool, choice: TypeChoice, packageId: string)
    : Session -> bool
  {
    (s: Session) => Kept(s, types, inRange, choice, packageId)
  }

  /** `filteredSessions`: with either date empty, all ended sessions; else
      those ending inside the window, on a table of the chosen type (looked
      up by table name) and under the chosen package, latest first. */
  function FilteredSessions(sessions: seq<Session>, tables: seq<Table>, startDate: string, endDate: string,
                            inRange: int -> bool, choice: TypeChoice, packageId: string): (r: seq<Session>)
    ensures startDate == "" || endDate == "" ==> r == EndedSessions(sessions)
    ensures IsSubsequence(r, EndedSessions(sessions))
    ensures LatestFirst(r)
    ensures startDate != "" && endDate != "" ==>
      forall k :: 0 <= k < |EndedSessions(sessions)| ==>
        (EndedSessions(sessions)[k] in r <==> Kept(EndedSessions(sessions)[k], TypeByName(tables), inRange, choice, packageId))
    ensures startDate != "" && endDate != "" ==>
      forall s :: multiset(r)[s] ==
        if Kept(s, TypeByName(tables), inRange, choice, packageId) then multiset(EndedSessions(sessions))[s] else 0
  {
    var ended := EndedSessions(sessions);
    if startDate == "" || endDate == "" then
      assert IsSubsequence(ended, ended) by { PrefixIsSubsequence(ended, |ended|); assert ended[..|ended|] == ended; }
      ended
    else KeptSessions(ended, TypeByName(tables), inRange, choice, packageId)
  }

  /** The sessions of a latest-first list that pass the filters, latest first. */
  function KeptSessions(ended: seq<Session>, types: map<string, TableType>, inRange: int -> bool,
                        choice: TypeChoice, packageId: string): (r: seq<Session>)
    requires LatestFirst(ended)
    ensures IsSubsequence(r, ended) && LatestFirst(r)
    ensures forall k :: 0 <= k < |ended| ==> (ended[k] in r <==> Kept(ended[k], types, inRange, choice, packageId))
    ensures forall s :: multiset(r)[s] == if Kept(s, types, inRange, choice, packageId) then multiset(ended)[s] else 0
  {
    var keep := KeptBy(types, inRange, choice, packageId);
    FilterIsSubsequence(keep, ended);
    FilterCounts(keep, ended);
    SubsequenceKeepsOrder(Filter(keep, ended), ended);
    Filter(keep, ended)
  }

  /** A subsequence of a latest-first list is latest first. */
  lemma {:induction false} SubsequenceKeepsOrder(a: seq<Session>, b: seq<Session>)
    requires IsSubsequence(a, b) && LatestFirst(b)
    ensures LatestFirst(a)
    decreases |b|
  {
    if a != [] {
      if a[0] == b[0] && IsSubsequence(a[1..], b[1..]) {
        SubsequenceKeepsOrder(a[1..], b[1..]);
        forall j | 0 < j < |a| ensures EndKey(a[0]) >= EndKey(a[j]) {
          SubsequenceMembers(a[1..], b[1..]);
          assert a[j] == a[1..][j - 1];
          assert a[j] in b[1..];
          var m :| 0 <= m < |b[1..]| && b[1..][m] == a[j];
          assert b[m + 1] == a[j];
        }
      } else {
        SubsequenceKeepsOrder(a, b[1..]);
      }
    }
  }
}
