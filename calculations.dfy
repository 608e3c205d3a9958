/**
 * The interest calculator: a node's share of the whole property, what it
 * has conveyed out, what remains, who the current owners are, and the
 * legacy display tier. Every quantity is a function of the node list.
 */
module OwnerCalculations {
  import opened Text
  import opened Ownership
  import opened Seqs

  /** A node whose conveyed-out total is below this still holds an interest. */
  const LeafThreshold: real := 99.99

  /** Marking a found, unvisited id as visited leaves fewer ids to visit. */
  lemma VisitShrinks(owners: seq<Owner>, id: Id, visited: set<Id>)
    requires id in IdSet(owners) && id !in visited
    ensures |IdSet(owners) - (visited + {id})| < |IdSet(owners) - visited|
  {
    assert IdSet(owners) - (visited + {id}) == (IdSet(owners) - visited) - {id};
  }

  // ----- total interest (calculateTotalPercentage) -----

  /** What one transfer passes on when the grantor holds `parentTotal`. */
  function Share(t: Transfer, parentTotal: real): real {
    t.percentage / 100.0 * parentTotal
  }

  /** The guarded recursion: `visited` is the set of ids on the current path,
      and reaching one of them again contributes 0. */
  function TotalFrom(owners: seq<Owner>, id: Id, visited: set<Id>): real
    decreases |IdSet(owners) - visited|, 0, 0
  {
    if id in visited then 0.0
    else match Find(owners, id)
      case None => 0.0
      case Some(o) =>
        if o.transfers == [] then 100.0
        else
          VisitShrinks(owners, id, visited);
          SharesFrom(owners, o.transfers, visited + {id})
  }

  /** The loop of calculateTotalPercentage: the shares of `ts`, accumulated in order. */
  function SharesFrom(owners: seq<Owner>, ts: seq<Transfer>, visited: set<Id>): real
    decreases |IdSet(owners) - visited|, 1, |ts|
  {
    if ts == [] then 0.0
    else
      var t := ts[|ts| - 1];
      SharesFrom(owners, ts[..|ts| - 1], visited) + Share(t, TotalFrom(owners, t.fromId, visited))
  }

  /** calculateTotalPercentage(id): the node's share of the whole property, in percent. */
  function TotalInterest(owners: seq<Owner>, id: Id): (r: real)
    ensures Find(owners, id).None? ==> r == 0.0
    ensures Find(owners, id).Some? && Find(owners, id).value.transfers == [] ==> r == 100.0
  {
    TotalFrom(owners, id, {})
  }

  /** calculateTotalPercentage with its `for` loop, its copied visited set and
      its recursive calls. */
  method CalculateTotalPercentage(owners: seq<Owner>, id: Id, visited: set<Id>) returns (total: real)
    ensures total == TotalFrom(owners, id, visited)
    decreases |IdSet(owners) - visited|
  {
    if id in visited {
      return 0.0;
    }
    var owner := Find(owners, id);
    if owner.None? {
      return 0.0;
    }
    var o := owner.value;
    if |o.transfers| == 0 {
      return 100.0;
    }
    VisitShrinks(owners, id, visited);
    var onPath := visited + {id};
    total := 0.0;
    ghost var ts := o.transfers;
    for i := 0 to |o.transfers|
      invariant total == SharesFrom(owners, ts[..i], onPath)
    {
      var t := o.transfers[i];
      var parentTotal := CalculateTotalPercentage(owners, t.fromId, onPath);
      SharesFromStep(owners, ts, i, onPath);
      total := total + Share(t, parentTotal);
    }
    assert ts[..|ts|] == ts;
    TotalFromUnfolds(owners, id, visited, o);
  }

  /** A found, unvisited node with transfers totals the shares of its transfers. */
  lemma TotalFromUnfolds(owners: seq<Owner>, id: Id, visited: set<Id>, o: Owner)
    requires id !in visited && Find(owners, id) == Some(o) && o.transfers != []
    ensures TotalFrom(owners, id, visited) == SharesFrom(owners, o.transfers, visited + {id})
  {
  }

  lemma SharesFromStep(owners: seq<Owner>, ts: seq<Transfer>, i: nat, visited: set<Id>)
    requires i < |ts|
    ensures SharesFrom(owners, ts[..i + 1], visited) ==
            SharesFrom(owners, ts[..i], visited) + Share(ts[i], TotalFrom(owners, ts[i].fromId, visited))
  {
    assert ts[..i + 1][..i] == ts[..i];
  }

  // ----- acyclicity and the unguarded recurrence -----

  /** No path that starts at `id` and follows transfers to their grantors
      meets an id of `visited` or repeats an id: the cycle guard stays silent. */
  ghost predicate NoCycleFrom(owners: seq<Owner>, id: Id, visited: set<Id>)
    decreases |IdSet(owners) - visited|, 0
  {
    id !in visited &&
    match Find(owners, id)
      case None => true
      case Some(o) =>
        VisitShrinks(owners, id, visited);
        forall i :: 0 <= i < |o.transfers| ==> NoCycleFrom(owners, o.transfers[i].fromId, visited + {id})
  }

  /** The graph of transfers has no cycle through any node. */
  ghost predicate Acyclic(owners: seq<Owner>) {
    forall i :: 0 <= i < |owners| ==> NoCycleFrom(owners, owners[i].id, {})
  }

  lemma AcyclicFromAnyId(owners: seq<Owner>, id: Id)
    requires Acyclic(owners)
    ensures NoCycleFrom(owners, id, {})
  {
    match Find(owners, id)
    case None =>
    case Some(o) =>
      var i :| 0 <= i < |owners| && owners[i] == o;
  }

  /** When the guard never fires, what is on the path does not matter. */
  lemma {:induction false} TotalIgnoresVisited(owners: seq<Owner>, id: Id, v: set<Id>, w: set<Id>)
    requires NoCycleFrom(owners, id, v) && w <= v
    ensures NoCycleFrom(owners, id, w)
    ensures TotalFrom(owners, id, v) == TotalFrom(owners, id, w)
    decreases |IdSet(owners) - v|, 0, 0
  {
    match Find(owners, id)
    case None =>
    case Some(o) =>
      VisitShrinks(owners, id, v);
      SharesIgnoreVisited(owners, o.transfers, v + {id}, w + {id});
  }

  lemma {:induction false} SharesIgnoreVisited(owners: seq<Owner>, ts: seq<Transfer>, v: set<Id>, w: set<Id>)
    requires forall i :: 0 <= i < |ts| ==> NoCycleFrom(owners, ts[i].fromId, v)
    requires w <= v
    ensures forall i :: 0 <= i < |ts| ==> NoCycleFrom(owners, ts[i].fromId, w)
    ensures SharesFrom(owners, ts, v) == SharesFrom(owners, ts, w)
    decreases |IdSet(owners) - v|, 1, |ts|
  {
    if ts != [] {
      var n := |ts| - 1;
      assert forall i :: 0 <= i < n ==> ts[..n][i] == ts[i];
      SharesIgnoreVisited(owners, ts[..n], v, w);
      TotalIgnoresVisited(owners, ts[n].fromId, v, w);
    }
  }

  /** The share sum written with the unguarded totals of the grantors. */
  function SumShares(owners: seq<Owner>, ts: seq<Transfer>): real {
    if ts == [] then 0.0
    else
      var t := ts[|ts| - 1];
      SumShares(owners, ts[..|ts| - 1]) + Share(t, TotalInterest(owners, t.fromId))
  }

  lemma {:induction false} SharesWithoutGuard(owners: seq<Owner>, ts: seq<Transfer>, v: set<Id>)
    requires forall i :: 0 <= i < |ts| ==> NoCycleFrom(owners, ts[i].fromId, v)
    ensures SharesFrom(owners, ts, v) == SumShares(owners, ts)
  {
    if ts != [] {
      var n := |ts| - 1;
      assert forall i :: 0 <= i < n ==> ts[..n][i] == ts[i];
      SharesWithoutGuard(owners, ts[..n], v);
      TotalIgnoresVisited(owners, ts[n].fromId, v, {});
    }
  }

  /** On input without cycles the guarded total satisfies the plain recurrence:
      a non-root node holds the sum over its transfers, in order, of
      `percentage / 100` times the grantor's total. */
  lemma TotalRecurrence(owners: seq<Owner>, id: Id)
    requires NoCycleFrom(owners, id, {})
    requires Find(owners, id).Some? && Find(owners, id).value.transfers != []
    ensures TotalInterest(owners, id) == SumShares(owners, Find(owners, id).value.transfers)
  {
    var o := Find(owners, id).value;
    assert {} + {id} == {id};
    SharesWithoutGuard(owners, o.transfers, {id});
  }

  // ----- children, allocated-out and remaining -----

  /** `o.transfers.some(t => t.fromId === id)`. */
  predicate ReceivesFrom(o: Owner, id: Id) {
    exists i :: 0 <= i < |o.transfers| && o.transfers[i].fromId == id
  }

  function ReceivesFromFn(id: Id): Owner -> bool {
    (o: Owner) => ReceivesFrom(o, id)
  }

  /** getChildren(id): the nodes with a transfer from `id`, in input order. */
  function Children(owners: seq<Owner>, id: Id): (r: seq<Owner>)
    ensures forall o :: o in r <==> o in owners && ReceivesFrom(o, id)
    ensures SubsequenceOf(r, owners)
  {
    Filter(owners, ReceivesFromFn(id))
  }

  function SumPercentages(ts: seq<Transfer>): real {
    if ts == [] then 0.0 else SumPercentages(ts[..|ts| - 1]) + ts[|ts| - 1].percentage
  }

  function FromIdIs(id: Id): Transfer -> bool {
    (t: Transfer) => t.fromId == id
  }

  /** What `child` received from `id`: the percentages of its transfers from `id`. */
  function FromThisOwner(child: Owner, id: Id): real {
    SumPercentages(Filter(child.transfers, FromIdIs(id)))
  }

  function SumFromThisOwner(children: seq<Owner>, id: Id): real {
    if children == [] then 0.0
    else SumFromThisOwner(children[..|children| - 1], id) + FromThisOwner(children[|children| - 1], id)
  }

  /** getAllocatedPercentage(id): the percent of its own interest `id` has conveyed out. */
  function Allocated(owners: seq<Owner>, id: Id): (r: real)
    ensures Children(owners, id) == [] ==> r == 0.0
  {
    SumFromThisOwner(Children(owners, id), id)
  }

  /** getRemainingPercentage(id): not clamped, so over-allocation shows as a negative value. */
  function Remaining(owners: seq<Owner>, id: Id): (r: real)
    ensures r + Allocated(owners, id) == 100.0
    ensures r < 0.0 <==> Allocated(owners, id) > 100.0
  {
    100.0 - Allocated(owners, id)
  }

  /** Every transfer carried by any node, node by node. */
  function AllTransfers(owners: seq<Owner>): seq<Transfer> {
    if owners == [] then [] else AllTransfers(owners[..|owners| - 1]) + owners[|owners| - 1].transfers
  }

  /** The percentages of all transfers in the collection whose grantor is `id`. */
  function Outflow(owners: seq<Owner>, id: Id): real {
    SumPercentages(Filter(AllTransfers(owners), FromIdIs(id)))
  }

  lemma {:induction false} SumPercentagesAppend(a: seq<Transfer>, b: seq<Transfer>)
    ensures SumPercentages(a + b) == SumPercentages(a) + SumPercentages(b)
  {
    if b != [] {
      var n := |b| - 1;
      assert (a + b)[..|a + b| - 1] == a + b[..n];
      SumPercentagesAppend(a, b[..n]);
    } else {
      assert a + b == a;
    }
  }

  lemma NotChildReceivesNothing(o: Owner, id: Id)
    requires !ReceivesFrom(o, id)
    ensures FromThisOwner(o, id) == 0.0
  {
    FilterNone(o.transfers, FromIdIs(id));
  }

  /** Allocated-out is the sum of every transfer in the collection whose
      grantor is `id`, wherever it sits: each of several transfers from `id`
      into one child counts. */
  lemma {:induction false} AllocatedIsOutflow(owners: seq<Owner>, id: Id)
    ensures Allocated(owners, id) == Outflow(owners, id)
  {
    if owners != [] {
      var init, last := owners[..|owners| - 1], owners[|owners| - 1];
      assert init + [last] == owners;
      AllocatedIsOutflow(init, id);
      AllocatedSnoc(init, last, id);
      OutflowSnoc(init, last, id);
    }
  }

  lemma AllocatedSnoc(owners: seq<Owner>, last: Owner, id: Id)
    ensures Allocated(owners + [last], id) == Allocated(owners, id) + FromThisOwner(last, id)
  {
    FilterAppend(owners, [last], ReceivesFromFn(id));
    var before := Children(owners, id);
    if ReceivesFrom(last, id) {
      assert Filter([last], ReceivesFromFn(id)) == [last];
      assert (before + [last])[..|before|] == before;
    } else {
      assert Filter([last], ReceivesFromFn(id)) == [];
      assert before + [] == before;
      NotChildReceivesNothing(last, id);
    }
  }

  lemma OutflowSnoc(owners: seq<Owner>, last: Owner, id: Id)
    ensures Outflow(owners + [last], id) == Outflow(owners, id) + FromThisOwner(last, id)
  {
    assert (owners + [last])[..|owners|] == owners;
    FilterAppend(AllTransfers(owners), last.transfers, FromIdIs(id));
    SumPercentagesAppend(Filter(AllTransfers(owners), FromIdIs(id)), Filter(last.transfers, FromIdIs(id)));
  }

  // ----- conservation -----

  /** `p` percent of `total`. */
  function PercentOf(p: real, total: real): real {
    p / 100.0 * total
  }

  lemma PercentOfSum(a: real, b: real, total: real)
    ensures PercentOf(a, total) + PercentOf(b, total) == PercentOf(a + b, total)
  {
    assert a / 100.0 * total + b / 100.0 * total == (a + b) / 100.0 * total;
  }

  lemma PercentOfNothing(total: real)
    ensures PercentOf(0.0, total) == 0.0
  {
  }

  /** The totals of the nodes `cs`, summed in order. */
  function SumTotals(owners: seq<Owner>, cs: seq<Owner>): real {
    if cs == [] then 0.0
    else SumTotals(owners, cs[..|cs| - 1]) + TotalInterest(owners, cs[|cs| - 1].id)
  }

  /** Every transfer of `o` comes from `id`. */
  predicate OnlyFrom(o: Owner, id: Id) {
    forall i :: 0 <= i < |o.transfers| ==> o.transfers[i].fromId == id
  }

  /** Transfers that all come from one grantor pass on their summed
      percentage of the grantor's total. */
  lemma {:induction false} SharesFromOneGrantor(owners: seq<Owner>, ts: seq<Transfer>, id: Id)
    requires forall i :: 0 <= i < |ts| ==> ts[i].fromId == id
    ensures SumShares(owners, ts) == PercentOf(SumPercentages(ts), TotalInterest(owners, id))
  {
    if ts != [] {
      var n := |ts| - 1;
      assert forall i :: 0 <= i < n ==> ts[..n][i] == ts[i];
      SharesFromOneGrantor(owners, ts[..n], id);
      PercentOfSum(SumPercentages(ts[..n]), ts[n].percentage, TotalInterest(owners, id));
    }
  }

  /** A node that receives only from `id` holds what it received from `id`,
      as a percentage of the total of `id`. */
  lemma ChildTotal(owners: seq<Owner>, c: Owner, id: Id)
    requires NoCycleFrom(owners, c.id, {}) && UniqueIds(owners)
    requires c in owners && ReceivesFrom(c, id) && OnlyFrom(c, id)
    ensures TotalInterest(owners, c.id) == PercentOf(FromThisOwner(c, id), TotalInterest(owners, id))
  {
    var i :| 0 <= i < |owners| && owners[i] == c;
    FindUnique(owners, i);
    TotalRecurrence(owners, c.id);
    SharesFromOneGrantor(owners, c.transfers, id);
    FilterAll(c.transfers, FromIdIs(id));
  }

  lemma {:induction false} ChildrenTotals(owners: seq<Owner>, cs: seq<Owner>, id: Id)
    requires UniqueIds(owners)
    requires forall k :: 0 <= k < |cs| ==> cs[k] in owners && ReceivesFrom(cs[k], id) && OnlyFrom(cs[k], id)
    requires forall k :: 0 <= k < |cs| ==> NoCycleFrom(owners, cs[k].id, {})
    ensures SumTotals(owners, cs) == PercentOf(SumFromThisOwner(cs, id), TotalInterest(owners, id))
  {
    if cs == [] {
      PercentOfNothing(TotalInterest(owners, id));
    } else {
      var n := |cs| - 1;
      assert forall k :: 0 <= k < n ==> cs[..n][k] == cs[k];
      ChildrenTotals(owners, cs[..n], id);
      ChildTotal(owners, cs[n], id);
      ChildTotalsStep(owners, cs, id, TotalInterest(owners, id));
    }
  }

  /** One more child adds its share to both sides. */
  lemma ChildTotalsStep(owners: seq<Owner>, cs: seq<Owner>, id: Id, total: real)
    requires cs != []
    requires SumTotals(owners, cs[..|cs| - 1]) == PercentOf(SumFromThisOwner(cs[..|cs| - 1], id), total)
    requires TotalInterest(owners, cs[|cs| - 1].id) == PercentOf(FromThisOwner(cs[|cs| - 1], id), total)
    ensures SumTotals(owners, cs) == PercentOf(SumFromThisOwner(cs, id), total)
  {
    var n := |cs| - 1;
    SumTotalsOfLast(owners, cs);
    SumFromThisOwnerOfLast(cs, id);
    AddPercents(SumTotals(owners, cs), SumTotals(owners, cs[..n]), TotalInterest(owners, cs[n].id),
                SumFromThisOwner(cs, id), SumFromThisOwner(cs[..n], id), FromThisOwner(cs[n], id), total);
  }

  lemma SumTotalsOfLast(owners: seq<Owner>, cs: seq<Owner>)
    requires cs != []
    ensures SumTotals(owners, cs) == SumTotals(owners, cs[..|cs| - 1]) + TotalInterest(owners, cs[|cs| - 1].id)
  {
  }

  lemma SumFromThisOwnerOfLast(cs: seq<Owner>, id: Id)
    requires cs != []
    ensures SumFromThisOwner(cs, id) == SumFromThisOwner(cs[..|cs| - 1], id) + FromThisOwner(cs[|cs| - 1], id)
  {
  }

  /** Two parts of one total add up as their percentages do. */
  lemma AddPercents(s: real, x: real, y: real, c: real, a: real, b: real, total: real)
    requires s == x + y && c == a + b
    requires x == PercentOf(a, total) && y == PercentOf(b, total)
    ensures s == PercentOf(c, total)
  {
    PercentOfSum(a, b, total);
  }

  /** Conservation: when every child of `id` receives only from `id`, the
      children together hold the allocated-out percentage of the total of `id`. */
  lemma ChildrenHoldTheConveyedShare(owners: seq<Owner>, id: Id)
    requires Acyclic(owners) && UniqueIds(owners)
    requires forall c :: c in Children(owners, id) ==> OnlyFrom(c, id)
    ensures SumTotals(owners, Children(owners, id)) == PercentOf(Allocated(owners, id), TotalInterest(owners, id))
  {
    var cs := Children(owners, id);
    forall k | 0 <= k < |cs|
      ensures NoCycleFrom(owners, cs[k].id, {})
    {
      AcyclicFromAnyId(owners, cs[k].id);
    }
    ChildrenTotals(owners, cs, id);
  }

  /** A node that has conveyed out 100% to children who receive only from it
      has passed its whole total on to them. */
  lemma FullyConveyedInterestIsConserved(owners: seq<Owner>, id: Id)
    requires Acyclic(owners) && UniqueIds(owners)
    requires forall c :: c in Children(owners, id) ==> OnlyFrom(c, id)
    requires Allocated(owners, id) == 100.0
    ensures SumTotals(owners, Children(owners, id)) == TotalInterest(owners, id)
  {
    ChildrenHoldTheConveyedShare(owners, id);
  }

  // ----- leaf owners -----

  /** The test of getLeafOwners: not a root, and less than 99.99% conveyed out
      (its inline sum is the same quantity as getAllocatedPercentage). */
  predicate IsLeafOwner(owners: seq<Owner>, o: Owner) {
    o.transfers != [] && Allocated(owners, o.id) < LeafThreshold
  }

  function IsLeafOwnerFn(owners: seq<Owner>): Owner -> bool {
    (o: Owner) => IsLeafOwner(owners, o)
  }

  /** getLeafOwners(): the nodes still holding unconveyed interest, in input order. */
  function LeafOwners(owners: seq<Owner>): (r: seq<Owner>)
    ensures forall o :: o in r <==> o in owners && o.transfers != [] && Allocated(owners, o.id) < LeafThreshold
    ensures SubsequenceOf(r, owners)
  {
    Filter(owners, IsLeafOwnerFn(owners))
  }

  /** Roots are never leaf owners, and neither is a node that conveyed all of its interest. */
  lemma LeafOwnersExclude(owners: seq<Owner>, o: Owner)
    requires o.transfers == [] || Allocated(owners, o.id) >= 100.0
    ensures o !in LeafOwners(owners)
  {
  }

  // ----- legacy tier (getNodeLevel) -----

  /** The node the legacy tier computation steps to: the first grantor of a
      found node that has transfers and no stored `originalLevel`. */
  function LegacyParent(owners: seq<Owner>, id: Id): (r: Option<Id>)
    ensures r.Some? ==> id in IdSet(owners)
  {
    match Find(owners, id)
    case None => None
    case Some(o) => if o.transfers != [] && o.originalLevel.None? then Some(o.transfers[0].fromId) else None
  }

  /** The chain of legacy steps from `id` ends without meeting `visited` or
      repeating itself. Neither tier computation guards against cycles, so
      both require this. */
  predicate ChainEnds(owners: seq<Owner>, id: Id, visited: set<Id>)
    decreases |IdSet(owners) - visited|
  {
    match LegacyParent(owners, id)
    case None => true
    case Some(p) =>
      if id in visited then false
      else
        VisitShrinks(owners, id, visited);
        ChainEnds(owners, p, visited + {id})
  }

  lemma {:induction false} ChainEndsShrink(owners: seq<Owner>, id: Id, v: set<Id>, w: set<Id>)
    requires ChainEnds(owners, id, v) && w <= v
    ensures ChainEnds(owners, id, w)
    decreases |IdSet(owners) - v|
  {
    match LegacyParent(owners, id)
    case None =>
    case Some(p) =>
      VisitShrinks(owners, id, v);
      ChainEndsShrink(owners, p, v + {id}, w + {id});
  }

  /** getNodeLevel, following the chain with `visited` as its termination witness. */
  function NodeLevelFrom(owners: seq<Owner>, id: Id, visited: set<Id>): int
    requires ChainEnds(owners, id, visited)
    decreases |IdSet(owners) - visited|
  {
    match Find(owners, id)
    case None => 0
    case Some(o) =>
      if o.transfers == [] then 0
      else if o.originalLevel.Some? then o.originalLevel.value
      else if Find(owners, o.transfers[0].fromId).None? then 1
      else
        VisitShrinks(owners, id, visited);
        NodeLevelFrom(owners, o.transfers[0].fromId, visited + {id}) + 1
  }

  lemma {:induction false} NodeLevelIgnoresVisited(owners: seq<Owner>, id: Id, v: set<Id>, w: set<Id>)
    requires ChainEnds(owners, id, v) && w <= v
    ensures ChainEnds(owners, id, w)
    ensures NodeLevelFrom(owners, id, v) == NodeLevelFrom(owners, id, w)
    decreases |IdSet(owners) - v|
  {
    ChainEndsShrink(owners, id, v, w);
    match LegacyParent(owners, id)
    case None =>
    case Some(p) =>
      VisitShrinks(owners, id, v);
      if Find(owners, p).Some? {
        NodeLevelIgnoresVisited(owners, p, v + {id}, w + {id});
      }
  }

  /** getNodeLevel(id): 0 for a missing node and for a root (even one with a
      stored level), else the stored `originalLevel` when there is one. */
  function NodeLevel(owners: seq<Owner>, id: Id): (r: int)
    requires ChainEnds(owners, id, {})
    ensures Find(owners, id).None? ==> r == 0
    ensures Find(owners, id).Some? && Find(owners, id).value.transfers == [] ==> r == 0
    ensures (Find(owners, id).Some? && Find(owners, id).value.transfers != [] &&
             Find(owners, id).value.originalLevel.Some?) ==> r == Find(owners, id).value.originalLevel.value
  {
    NodeLevelFrom(owners, id, {})
  }

  /** A legacy node sits one tier below its first grantor, and on tier 1 when
      that grantor is missing; only `transfers[0]` is consulted. */
  lemma NodeLevelOfLegacyNode(owners: seq<Owner>, id: Id)
    requires ChainEnds(owners, id, {})
    requires LegacyParent(owners, id).Some?
    ensures ChainEnds(owners, LegacyParent(owners, id).value, {})
    ensures Find(owners, LegacyParent(owners, id).value).None? ==> NodeLevel(owners, id) == 1
    ensures NodeLevel(owners, id) == NodeLevel(owners, LegacyParent(owners, id).value) + 1
  {
    var p := LegacyParent(owners, id).value;
    VisitShrinks(owners, id, {});
    NodeLevelIgnoresVisited(owners, p, {id}, {});
  }
}
