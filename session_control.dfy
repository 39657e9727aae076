/** The billiard session control dialog
    (components/billiards/SessionControlModal.tsx): the packages offered for a
    table, the package selected by default, the F&B search, and the start,
    stop and add-F&B buttons, which call into the billiard ledger. */
module SessionControl {
  import opened Collections
  import opened Text
  import opened Billing
  import Catalog
  import Ledger

  const SelectPackage := "Please select a package to start the session."

  predicate Offered(table: Table, p: Package)
  {
    p.tableType == table.tableType && p.isActive
  }

  /** `availablePackages`: the active packages for the table's type, in order. */
  function AvailablePackages(packages: seq<Package>, table: Table): (r: seq<Package>)
    ensures IsSubsequence(r, packages)
    ensures forall k :: 0 <= k < |r| ==> r[k].tableType == table.tableType && r[k].isActive
    ensures forall k :: 0 <= k < |packages| && Offered(table, packages[k]) ==> packages[k] in r
    ensures forall p :: multiset(r)[p] == if Offered(table, p) then multiset(packages)[p] else 0
  {
    FilterIsSubsequence((p: Package) => Offered(table, p), packages);
    FilterCounts((p: Package) => Offered(table, p), packages);
    Filter((p: Package) => Offered(table, p), packages)
  }

  /** The selection effect: with nothing selected, the first available package
      is selected; a selection already made is kept. */
  function DefaultSelection(available: seq<Package>, selected: string): (r: string)
    ensures selected != "" ==> r == selected
    ensures selected == "" && available != [] ==> r == available[0].id
    ensures selected == "" && available == [] ==> r == ""
  {
    if |available| > 0 && selected == "" then available[0].id else selected
  }

  /** Selecting by default settles at once: a second run changes nothing. */
  lemma DefaultSelectionSettles(available: seq<Package>, selected: string)
    requires forall k :: 0 <= k < |available| ==> available[k].id != ""
    ensures DefaultSelection(available, DefaultSelection(available, selected)) == DefaultSelection(available, selected)
    ensures available != [] ==> DefaultSelection(available, selected) != ""
  {
  }

  predicate IsFnb(p: Catalog.Product)
  {
    p.isFnb
  }

  function NameMatches(term: string): Catalog.Product -> bool
  {
    (p: Catalog.Product) => Contains(Lower(p.name), Lower(term))
  }

  /** `filteredFnbMenu`: nothing for an empty search; otherwise the first five
      F&B products whose lower-cased name contains the lower-cased term. */
  function FilteredFnbMenu(products: seq<Catalog.Product>, term: string): (r: seq<Catalog.Product>)
    ensures term == "" ==> r == []
    ensures |r| <= 5
    ensures IsSubsequence(r, products)
    ensures forall k :: 0 <= k < |r| ==> r[k].isFnb && Contains(Lower(r[k].name), Lower(term))
    ensures term != "" && |Filter(NameMatches(term), Filter(IsFnb, products))| <= 5 ==>
      forall k :: 0 <= k < |products| && products[k].isFnb && Contains(Lower(products[k].name), Lower(term))
        ==> products[k] in r
    ensures term != "" ==>
      var hits := Filter(NameMatches(term), Filter(IsFnb, products));
      |r| == (if |hits| < 5 then |hits| else 5) && r == hits[..|r|]
  {
    if term == "" then []
    else
      var menu := Filter(IsFnb, products);
      var hits := Filter(NameMatches(term), menu);
      var n := if |hits| < 5 then |hits| else 5;
      FilterIsSubsequence(IsFnb, products);
      FilterIsSubsequence(NameMatches(term), menu);
      PrefixIsSubsequence(hits, n);
      SubsequenceTransitive(hits[..n], hits, menu);
      SubsequenceTransitive(hits[..n], menu, products);
      assert forall k :: 0 <= k < n ==> hits[..n][k] == hits[k];
      assert n == |hits| ==> hits[..n] == hits;
      hits[..n]
  }

  // ---- the buttons ----

  /** `handleStart`: a session starts only when a package is selected;
      otherwise the cashier is told to pick one and nothing changes. */
  method HandleStart(ledger: Ledger.BilliardLedger, table: Table, selected: string, id: string, now: int)
    returns (r: Outcome<()>)
    modifies ledger
    ensures selected == "" ==> r == Failure(SelectPackage) && ledger.State() == old(ledger.State())
    ensures selected != "" ==>
      r == Success(()) && ledger.State() == Ledger.Start(old(ledger.State()), old(ledger.packages), table.id, selected, id, now)
    ensures ledger.packages == old(ledger.packages)
  {
    if selected == "" {
      return Failure(SelectPackage);
    }
    ledger.StartSession(table.id, selected, id, now);
    r := Success(());
  }

  /** `handleStop`: stops the dialog's session and keeps the final session
      for the receipt. */
  method HandleStop(ledger: Ledger.BilliardLedger, session: Option<Session>, now: int)
    returns (finalized: Option<Session>)
    modifies ledger
    ensures session.None? ==> finalized.None? && ledger.State() == old(ledger.State())
    ensures session.Some? ==>
      match Ledger.Stop(old(ledger.State()), session.value.id, now)
      case NotFound => finalized.None? && ledger.State() == old(ledger.State())
      case Stopped(next, fin) => finalized == Some(fin) && ledger.State() == next
    ensures ledger.packages == old(ledger.packages)
  {
    if session.None? {
      return None;
    }
    finalized := ledger.StopSession(session.value.id, now);
  }

  /** `handleAddFnb`: one of the product goes on the session's bill and the
      search is cleared; without a session nothing happens. */
  method HandleAddFnb(ledger: Ledger.BilliardLedger, session: Option<Session>, product: Catalog.Product,
                      lineId: string, term: string)
    returns (nextTerm: string)
    modifies ledger
    ensures session.None? ==> nextTerm == term && ledger.State() == old(ledger.State())
    ensures session.Some? ==>
      nextTerm == "" && ledger.State() == Ledger.AddFnb(old(ledger.State()), session.value.id, product, 1, lineId)
    ensures ledger.packages == old(ledger.packages)
  {
    if session.None? {
      return term;
    }
    ledger.AddFnbToSession(session.value.id, product, 1, lineId);
    nextTerm := "";
  }
}
