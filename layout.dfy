/**
 * The automatic tier layout of the diagram: every node is assigned a tier
 * (its stored `originalLevel`, else one below its first grantor), nodes are
 * grouped by tier in input order, and each tier becomes one row (vertical
 * layout) or one column (horizontal layout) centred on the widest one.
 */
module AutoLayout {
  import opened Text
  import opened Ownership
  import opened OwnerCalculations

  const NodeWidth: int := 180
  const NodeHeight: int := 160
  const HGap: int := 60
  const VGap: int := 120
  /** Offset of the first tier from the origin, in both directions. */
  const Margin: int := 50

  datatype Direction = Vertical | Horizontal

  datatype Point = Point(x: real, y: real)

  // ----- tier of a node (getLevel) -----

  /** getLevel, following first grantors with `visited` as the termination witness. */
  function LevelFrom(owners: seq<Owner>, id: Id, visited: set<Id>): int
    requires ChainEnds(owners, id, visited)
    decreases |IdSet(owners) - visited|
  {
    match Find(owners, id)
    case None => 0
    case Some(o) =>
      if o.originalLevel.Some? then o.originalLevel.value
      else if o.transfers == [] then 0
      else
        VisitShrinks(owners, id, visited);
        LevelFrom(owners, o.transfers[0].fromId, visited + {id}) + 1
  }

  lemma {:induction false} LevelIgnoresVisited(owners: seq<Owner>, id: Id, v: set<Id>, w: set<Id>)
    requires ChainEnds(owners, id, v) && w <= v
    ensures ChainEnds(owners, id, w)
    ensures LevelFrom(owners, id, v) == LevelFrom(owners, id, w)
    decreases |IdSet(owners) - v|
  {
    ChainEndsShrink(owners, id, v, w);
    match LegacyParent(owners, id)
    case None =>
    case Some(p) =>
      VisitShrinks(owners, id, v);
      LevelIgnoresVisited(owners, p, v + {id}, w + {id});
  }

  /** The tier getLevel assigns: a stored `originalLevel` wins, even on a root;
      otherwise a missing node or a root is on tier 0. */
  function Level(owners: seq<Owner>, id: Id): (r: int)
    requires ChainEnds(owners, id, {})
    ensures Find(owners, id).None? ==> r == 0
    ensures Find(owners, id).Some? && Find(owners, id).value.originalLevel.Some? ==>
              r == Find(owners, id).value.originalLevel.value
    ensures (Find(owners, id).Some? && Find(owners, id).value.originalLevel.None? &&
             Find(owners, id).value.transfers == []) ==> r == 0
  {
    LevelFrom(owners, id, {})
  }

  /** A node without a stored tier sits one tier below its first grantor. */
  lemma LevelOfLegacyNode(owners: seq<Owner>, id: Id)
    requires ChainEnds(owners, id, {})
    requires LegacyParent(owners, id).Some?
    ensures ChainEnds(owners, LegacyParent(owners, id).value, {})
    ensures Level(owners, id) == Level(owners, LegacyParent(owners, id).value) + 1
  {
    var p := LegacyParent(owners, id).value;
    VisitShrinks(owners, id, {});
    LevelIgnoresVisited(owners, p, {id}, {});
  }

  /** The layout tier and the calculator's tier agree as long as no root
      carries a stored tier other than 0. */
  lemma {:induction false} LevelAgreesWithNodeLevel(owners: seq<Owner>, id: Id, v: set<Id>)
    requires ChainEnds(owners, id, v)
    requires forall o :: o in owners && o.transfers == [] ==> o.originalLevel.None? || o.originalLevel == Some(0)
    ensures LevelFrom(owners, id, v) == NodeLevelFrom(owners, id, v)
    decreases |IdSet(owners) - v|
  {
    match LegacyParent(owners, id)
    case None =>
    case Some(p) =>
      VisitShrinks(owners, id, v);
      LevelAgreesWithNodeLevel(owners, p, v + {id});
  }

  /** A root with a stored tier: the layout uses the stored tier, the calculator says 0. */
  lemma StoredTierOfRootDiffers()
    ensures var root := Owner("root", "A", "A", "p", "", [], Some(3), None, None, None, "", None);
            ChainEnds([root], "root", {}) &&
            Level([root], "root") == 3 && NodeLevel([root], "root") == 0
  {
  }

  /** Every entry of `memo` is the tier of its id. */
  ghost predicate MemoSound(owners: seq<Owner>, memo: map<Id, int>) {
    forall k :: k in memo ==> ChainEnds(owners, k, {}) && memo[k] == Level(owners, k)
  }

  /** getLevel with its memo dictionary, threaded through the calls: an entry
      already present is returned as is, and every computed tier is recorded. */
  method GetLevel(owners: seq<Owner>, id: Id, memo: map<Id, int>, ghost visited: set<Id>)
    returns (level: int, memo': map<Id, int>)
    requires ChainEnds(owners, id, visited)
    requires MemoSound(owners, memo)
    ensures ChainEnds(owners, id, {})
    ensures level == Level(owners, id)
    ensures MemoSound(owners, memo')
    ensures memo.Keys <= memo'.Keys && id in memo' && memo'[id] == level
    decreases |IdSet(owners) - visited|
  {
    LevelIgnoresVisited(owners, id, visited, {});
    if id in memo {
      return memo[id], memo;
    }
    var owner := Find(owners, id);
    if owner.None? {
      return 0, memo[id := 0];
    }
    var o := owner.value;
    if o.originalLevel.Some? {
      return o.originalLevel.value, memo[id := o.originalLevel.value];
    }
    if |o.transfers| == 0 {
      return 0, memo[id := 0];
    }
    VisitShrinks(owners, id, visited);
    var firstParentLevel;
    firstParentLevel, memo' := GetLevel(owners, o.transfers[0].fromId, memo, visited + {id});
    LevelOfLegacyNode(owners, id);
    level := firstParentLevel + 1;
    memo' := memo'[id := level];
  }

  // ----- grouping by tier -----

  /** The legacy chain of every node ends. */
  ghost predicate AllChainsEnd(owners: seq<Owner>) {
    forall i :: 0 <= i < |owners| ==> ChainEnds(owners, owners[i].id, {})
  }

  /** The tier of each node, in input order. */
  function Levels(owners: seq<Owner>): (r: seq<int>)
    requires AllChainsEnd(owners)
    ensures |r| == |owners|
    ensures forall i :: 0 <= i < |owners| ==> r[i] == Level(owners, owners[i].id)
  {
    seq(|owners|, i requires 0 <= i < |owners| => Level(owners, owners[i].id))
  }

  /** How often `x` occurs in `s`. */
  function CountOf(s: seq<int>, x: int): (r: nat)
    ensures r <= |s|
    ensures r > 0 <==> x in s
  {
    if s == [] then 0
    else CountOf(s[..|s| - 1], x) + (if s[|s| - 1] == x then 1 else 0)
  }

  /** The position of node `i` within its tier: how many earlier nodes share its tier. */
  function Rank(lv: seq<int>, i: nat): nat
    requires i < |lv|
  {
    CountOf(lv[..i], lv[i])
  }

  /** The distinct tiers in the order they were first met. */
  function FirstOccurrences(s: seq<int>): (r: seq<int>)
    ensures forall x :: x in r <==> x in s
  {
    if s == [] then []
    else
      var n := |s| - 1;
      assert s == s[..n] + [s[n]];
      FirstOccurrences(s[..n]) + (if s[n] in s[..n] then [] else [s[n]])
  }

  /** `Math.max(...lengths, 1)`. */
  function MaxRow(lengths: seq<int>): (r: int)
    ensures r >= 1
    ensures forall i :: 0 <= i < |lengths| ==> lengths[i] <= r
    ensures r == 1 || exists i :: 0 <= i < |lengths| && lengths[i] == r
  {
    if lengths == [] then 1
    else
      var m := MaxRow(lengths[..|lengths| - 1]);
      assert forall i :: 0 <= i < |lengths| - 1 ==> lengths[..|lengths| - 1][i] == lengths[i];
      if lengths[|lengths| - 1] > m then lengths[|lengths| - 1] else m
  }

  /** The size of the largest tier, and at least 1. */
  function MaxNodes(lv: seq<int>): int {
    var ks := FirstOccurrences(lv);
    MaxRow(seq(|ks|, a requires 0 <= a < |ks| => CountOf(lv, ks[a])))
  }

  lemma RowFits(lv: seq<int>, i: nat)
    requires i < |lv|
    ensures 1 <= CountOf(lv, lv[i]) <= MaxNodes(lv)
  {
    var ks := FirstOccurrences(lv);
    assert lv[i] in ks;
    var a :| 0 <= a < |ks| && ks[a] == lv[i];
    var lengths := seq(|ks|, a requires 0 <= a < |ks| => CountOf(lv, ks[a]));
    assert lengths[a] == CountOf(lv, lv[i]);
  }

  lemma {:induction false} CountOfPrefix(s: seq<int>, i: nat, j: nat, x: int)
    requires i <= j <= |s|
    ensures CountOf(s[..i], x) <= CountOf(s[..j], x)
    decreases j - i
  {
    if i < j {
      CountOfPrefix(s, i, j - 1, x);
      assert s[..j][..j - 1] == s[..j - 1];
    }
  }

  /** Within a tier, a later node has a larger rank. */
  lemma RankIncreases(lv: seq<int>, i: nat, j: nat)
    requires i < j < |lv| && lv[i] == lv[j]
    ensures Rank(lv, i) < Rank(lv, j)
  {
    assert lv[..i + 1][..i] == lv[..i];
    CountOfPrefix(lv, i + 1, j, lv[i]);
  }

  /** The rank of a node is below the size of its tier. */
  lemma RankBelowCount(lv: seq<int>, i: nat)
    requires i < |lv|
    ensures Rank(lv, i) < CountOf(lv, lv[i])
  {
    assert lv[..i + 1][..i] == lv[..i];
    CountOfPrefix(lv, i + 1, |lv|, lv[i]);
    assert lv[..|lv|] == lv;
  }

  // ----- coordinates -----

  /** The coordinate along which tiers advance: y when vertical, x when horizontal. */
  function MainAxis(dir: Direction, p: Point): real {
    if dir == Vertical then p.y else p.x
  }

  /** The coordinate along which a tier's nodes are spread. */
  function CrossAxis(dir: Direction, p: Point): real {
    if dir == Vertical then p.x else p.y
  }

  /** Distance between consecutive tiers: NODE_HEIGHT + V_GAP vertically,
      NODE_WIDTH + H_GAP + 40 horizontally. */
  function TierPitch(dir: Direction): (r: int)
    ensures r == 280
  {
    if dir == Vertical then NodeHeight + VGap else NodeWidth + HGap + 40
  }

  /** Extent of a node, and of the gap after it, across its tier. */
  function NodeExtent(dir: Direction): int {
    if dir == Vertical then NodeWidth else NodeHeight
  }

  function Gap(dir: Direction): int {
    if dir == Vertical then HGap else VGap
  }

  function SlotPitch(dir: Direction): int {
    NodeExtent(dir) + Gap(dir)
  }

  /** totalWidth / totalHeight for the largest tier size `maxNodes`. */
  function TotalSpan(dir: Direction, maxNodes: int): int {
    var least := if dir == Vertical then 800 else 500;
    if maxNodes * SlotPitch(dir) > least then maxNodes * SlotPitch(dir) else least
  }

  /** rowWidth / colHeight of a tier of `n` nodes. */
  function RowSpan(dir: Direction, n: int): int {
    n * NodeExtent(dir) + (n - 1) * Gap(dir)
  }

  /** The position of the `rank`-th node of tier `level`, in a tier of `n`
      nodes and a layout whose largest tier has `maxNodes` nodes. */
  function SlotPosition(dir: Direction, level: int, rank: int, n: int, maxNodes: int): Point {
    var start := (TotalSpan(dir, maxNodes) - RowSpan(dir, n)) as real / 2.0;
    var cross := start + (rank * SlotPitch(dir)) as real;
    var main := (Margin + level * TierPitch(dir)) as real;
    if dir == Vertical then Point(cross, main) else Point(main, cross)
  }

  /** Where node `i` goes when the nodes' tiers are `lv`. */
  function TierSlot(lv: seq<int>, dir: Direction, i: nat): Point
    requires i < |lv|
  {
    SlotPosition(dir, lv[i], Rank(lv, i), CountOf(lv, lv[i]), MaxNodes(lv))
  }

  /** Where the layout puts node `i`. */
  function Position(owners: seq<Owner>, dir: Direction, i: nat): Point
    requires AllChainsEnd(owners) && i < |owners|
  {
    TierSlot(Levels(owners), dir, i)
  }

  ghost predicate Placed(owners: seq<Owner>, lv: seq<int>, dir: Direction, positions: map<Id, Point>, j: nat)
    requires j < |owners| == |lv|
  {
    owners[j].id in positions && positions[owners[j].id] == TierSlot(lv, dir, j)
  }

  /** The first half of the layout callback: `levels[k]` receives the nodes
      of tier `k` in input order, and `keys` the tiers in first-seen order. */
  method GroupByLevel(owners: seq<Owner>) returns (keys: seq<int>, levels: map<int, seq<Owner>>, ghost idx: map<int, seq<nat>>)
    requires AllChainsEnd(owners)
    ensures Grouped(owners, Levels(owners), |owners|, keys, levels, idx)
  {
    ghost var lv := Levels(owners);
    levels := map[];
    keys := [];
    idx := map[];
    var levelMemo: map<Id, int> := map[];
    for i := 0 to |owners|
      invariant MemoSound(owners, levelMemo)
      invariant Grouped(owners, lv, i, keys, levels, idx)
    {
      var level;
      level, levelMemo := GetLevel(owners, owners[i].id, levelMemo, {});
      ghost var keys0, levels0, idx0 := keys, levels, idx;
      if level !in levels {
        levels := levels[level := []];
        keys := keys + [level];
        idx := idx[level := []];
      }
      levels := levels[level := levels[level] + [owners[i]]];
      idx := idx[level := idx[level] + [i]];
      GroupStep(owners, lv, i, keys0, levels0, idx0, keys, levels, idx);
    }
  }

  /** The layout callback: group the nodes by tier, then place every tier. */
  method ComputeLayout(owners: seq<Owner>, direction: Direction) returns (positions: map<Id, Point>)
    requires AllChainsEnd(owners)
    requires UniqueIds(owners)
    ensures positions.Keys == IdSet(owners)
    ensures forall i :: 0 <= i < |owners| ==> positions[owners[i].id] == Position(owners, direction, i)
  {
    ghost var lv := Levels(owners);
    var keys, levels, idx := GroupByLevel(owners);
    var maxNodes := MaxTierSize(owners, lv, keys, levels, idx);

    positions := map[];
    for a := 0 to |keys|
      invariant positions.Keys <= IdSet(owners)
      invariant PlacedSoFar(owners, lv, direction, positions, keys[..a], 0, 0)
    {
      var level := keys[a];
      KeyHasTier(owners, lv, keys, levels, idx, a);
      var nodes := levels[level];
      for r := 0 to |nodes|
        invariant positions.Keys <= IdSet(owners)
        invariant PlacedSoFar(owners, lv, direction, positions, keys[..a], level, r)
      {
        EntryPosition(owners, lv, direction, keys, levels, idx, level, r);
        PlaceNext(owners, lv, direction, positions, keys[..a], level, r, idx[level][r]);
        positions := positions[nodes[r].id := SlotPosition(direction, level, r, |nodes|, maxNodes)];
      }
      TierRanks(owners, lv, keys, levels, idx, level);
      TierDone(owners, lv, direction, positions, keys, a, |nodes|);
    }
    AllPlaced(owners, lv, direction, positions, keys, levels, idx);
  }

  /** When every tier is finished, every node is placed, and the map has
      exactly the ids as keys. */
  lemma AllPlaced(owners: seq<Owner>, lv: seq<int>, dir: Direction, positions: map<Id, Point>, keys: seq<int>,
                  levels: map<int, seq<Owner>>, idx: map<int, seq<nat>>)
    requires Grouped(owners, lv, |owners|, keys, levels, idx)
    requires positions.Keys <= IdSet(owners)
    requires PlacedSoFar(owners, lv, dir, positions, keys[..|keys|], 0, 0)
    ensures positions.Keys == IdSet(owners)
    ensures forall i :: 0 <= i < |owners| ==> positions[owners[i].id] == TierSlot(lv, dir, i)
  {
    assert keys[..|keys|] == keys;
    forall i | 0 <= i < |owners|
      ensures Placed(owners, lv, dir, positions, i)
    {
      EntryOfNode(owners, lv, keys, levels, idx, i);
      assert lv[i] in keys[..|keys|];
    }
    forall id | id in IdSet(owners)
      ensures id in positions
    {
      var j :| 0 <= j < |owners| && owners[j].id == id;
      assert Placed(owners, lv, dir, positions, j);
    }
  }

  /** Every node on a finished tier, and the first `r` nodes of tier `level`, are placed. */
  ghost predicate PlacedSoFar(owners: seq<Owner>, lv: seq<int>, dir: Direction, positions: map<Id, Point>,
                              done: seq<int>, level: int, r: int)
    requires |owners| == |lv|
  {
    forall j :: 0 <= j < |owners| && (lv[j] in done || (lv[j] == level && Rank(lv, j) < r)) ==>
      Placed(owners, lv, dir, positions, j)
  }

  /** Placing the node of rank `r` extends the placed part of its tier by one;
      with unique ids no other node's entry is touched. */
  lemma PlaceNext(owners: seq<Owner>, lv: seq<int>, dir: Direction, positions: map<Id, Point>,
                  done: seq<int>, level: int, r: int, j': nat)
    requires |owners| == |lv| && UniqueIds(owners)
    requires PlacedSoFar(owners, lv, dir, positions, done, level, r)
    requires j' < |owners| && lv[j'] == level && Rank(lv, j') == r
    ensures PlacedSoFar(owners, lv, dir, positions[owners[j'].id := TierSlot(lv, dir, j')], done, level, r + 1)
  {
    var positions' := positions[owners[j'].id := TierSlot(lv, dir, j')];
    forall j | 0 <= j < |owners| && (lv[j] in done || (lv[j] == level && Rank(lv, j) < r + 1))
      ensures Placed(owners, lv, dir, positions', j)
    {
      if j != j' {
        assert owners[j].id != owners[j'].id;
        if lv[j] == level {
          if j < j' { RankIncreases(lv, j, j'); } else { RankIncreases(lv, j', j); }
        }
        assert Placed(owners, lv, dir, positions, j);
      }
    }
  }

  /** Once all of tier `keys[a]` is placed, the finished tiers are `keys[..a + 1]`. */
  lemma TierDone(owners: seq<Owner>, lv: seq<int>, dir: Direction, positions: map<Id, Point>, keys: seq<int>,
                 a: nat, count: int)
    requires |owners| == |lv| && a < |keys|
    requires forall j :: 0 <= j < |owners| && lv[j] == keys[a] ==> Rank(lv, j) < count
    requires PlacedSoFar(owners, lv, dir, positions, keys[..a], keys[a], count)
    ensures PlacedSoFar(owners, lv, dir, positions, keys[..a + 1], 0, 0)
  {
    assert keys[..a + 1] == keys[..a] + [keys[a]];
    TierComplete(owners, lv, dir, positions, keys[..a], keys[a], count);
  }

  /** Every node of a tier has a rank below the tier's size. */
  lemma TierRanks(owners: seq<Owner>, lv: seq<int>, keys: seq<int>, levels: map<int, seq<Owner>>,
                  idx: map<int, seq<nat>>, level: int)
    requires Grouped(owners, lv, |owners|, keys, levels, idx)
    requires level in levels
    ensures forall j :: 0 <= j < |owners| && lv[j] == level ==> Rank(lv, j) < |levels[level]|
  {
    forall j | 0 <= j < |owners| && lv[j] == level
      ensures Rank(lv, j) < |levels[level]|
    {
      EntryOfNode(owners, lv, keys, levels, idx, j);
    }
  }

  /** A tier whose every rank is placed joins the finished tiers. */
  lemma TierComplete(owners: seq<Owner>, lv: seq<int>, dir: Direction, positions: map<Id, Point>,
                     done: seq<int>, level: int, count: int)
    requires |owners| == |lv|
    requires forall j :: 0 <= j < |owners| && lv[j] == level ==> Rank(lv, j) < count
    requires PlacedSoFar(owners, lv, dir, positions, done, level, count)
    ensures PlacedSoFar(owners, lv, dir, positions, done + [level], 0, 0)
  {
    forall j | 0 <= j < |owners| && lv[j] in done + [level]
      ensures Placed(owners, lv, dir, positions, j)
    {
      if lv[j] !in done {
        assert lv[j] == level;
      }
    }
  }

  /** `Math.max(...Object.values(levels).map(l => l.length), 1)`. */
  method MaxTierSize(owners: seq<Owner>, ghost lv: seq<int>, keys: seq<int>, levels: map<int, seq<Owner>>,
                     ghost idx: map<int, seq<nat>>)
    returns (maxNodes: int)
    requires Grouped(owners, lv, |owners|, keys, levels, idx)
    ensures maxNodes == MaxNodes(lv)
  {
    assert lv[..|owners|] == lv;
    assert KeysListed(lv, |owners|, keys, levels) && RowsCounted(lv, |owners|, levels, idx);
    forall a | 0 <= a < |keys|
      ensures keys[a] in levels
    {
      KeyHasTier(owners, lv, keys, levels, idx, a);
    }
    var lengths := seq(|keys|, a requires 0 <= a < |keys| => |levels[keys[a]]|);
    maxNodes := MaxRow(lengths);
    assert lengths == seq(|keys|, a requires 0 <= a < |keys| => CountOf(lv, keys[a]));
  }

  lemma KeyHasTier(owners: seq<Owner>, lv: seq<int>, keys: seq<int>, levels: map<int, seq<Owner>>,
                   idx: map<int, seq<nat>>, a: nat)
    requires Grouped(owners, lv, |owners|, keys, levels, idx)
    requires a < |keys|
    ensures keys[a] in levels
  {
    assert KeysListed(lv, |owners|, keys, levels);
    assert forall k :: k in levels <==> k in keys;
    assert keys[a] in keys;
  }

  /** Entry `r` of tier `k` is a node that the layout places at slot `r` of that tier. */
  lemma EntryPosition(owners: seq<Owner>, lv: seq<int>, dir: Direction, keys: seq<int>, levels: map<int, seq<Owner>>,
                      idx: map<int, seq<nat>>, k: int, r: nat)
    requires Grouped(owners, lv, |owners|, keys, levels, idx)
    requires k in levels && r < |levels[k]|
    ensures k in idx && r < |idx[k]| && idx[k][r] < |owners| && owners[idx[k][r]] == levels[k][r]
    ensures lv[idx[k][r]] == k && Rank(lv, idx[k][r]) == r
    ensures TierSlot(lv, dir, idx[k][r]) == SlotPosition(dir, k, r, |levels[k]|, MaxNodes(lv))
  {
    assert lv[..|owners|] == lv;
    assert RowsCounted(lv, |owners|, levels, idx);
    assert RowEntry(owners, lv, levels, idx, k, r);
  }

  /** Every node is filed under its tier, which is one of the keys. */
  lemma EntryOfNode(owners: seq<Owner>, lv: seq<int>, keys: seq<int>, levels: map<int, seq<Owner>>,
                    idx: map<int, seq<nat>>, j: nat)
    requires Grouped(owners, lv, |owners|, keys, levels, idx)
    requires j < |owners|
    ensures lv[j] in keys && lv[j] in levels
    ensures Rank(lv, j) < |levels[lv[j]]|
    ensures idx[lv[j]][Rank(lv, j)] == j
  {
    assert Filed(lv, idx, j);
    assert KeysListed(lv, |owners|, keys, levels) && RowsCounted(lv, |owners|, levels, idx);
  }

  /** After grouping the first `i` nodes: `keys` lists the tiers met so far in
      first-seen order, `levels[k]` holds the nodes of tier `k` in input order,
      and `idx[k]` their input indices. */
  ghost predicate Grouped(owners: seq<Owner>, lv: seq<int>, i: nat, keys: seq<int>,
                          levels: map<int, seq<Owner>>, idx: map<int, seq<nat>>)
  {
    |lv| == |owners| && i <= |owners| &&
    KeysListed(lv, i, keys, levels) &&
    RowsCounted(lv, i, levels, idx) &&
    (forall k, r :: k in levels && 0 <= r < |idx[k]| ==> RowEntry(owners, lv, levels, idx, k, r)) &&
    (forall j :: 0 <= j < i ==> Filed(lv, idx, j))
  }

  ghost predicate KeysListed(lv: seq<int>, i: nat, keys: seq<int>, levels: map<int, seq<Owner>>)
    requires i <= |lv|
  {
    keys == FirstOccurrences(lv[..i]) && forall k :: k in levels <==> k in keys
  }

  ghost predicate RowsCounted(lv: seq<int>, i: nat, levels: map<int, seq<Owner>>, idx: map<int, seq<nat>>)
    requires i <= |lv|
  {
    idx.Keys == levels.Keys &&
    forall k :: k in levels ==> |idx[k]| == |levels[k]| == CountOf(lv[..i], k)
  }

  /** Entry `r` of tier `k` is the node with that rank in that tier. */
  ghost predicate RowEntry(owners: seq<Owner>, lv: seq<int>, levels: map<int, seq<Owner>>,
                           idx: map<int, seq<nat>>, k: int, r: int)
  {
    k in levels && k in idx && 0 <= r < |idx[k]| && r < |levels[k]| &&
    var j := idx[k][r];
    j < |owners| && j < |lv| &&
    owners[j] == levels[k][r] && lv[j] == k && Rank(lv, j) == r
  }

  /** Node `j` is filed in its tier, at its rank. */
  ghost predicate Filed(lv: seq<int>, idx: map<int, seq<nat>>, j: int)
  {
    0 <= j < |lv| && lv[j] in idx && Rank(lv, j) < |idx[lv[j]]| && idx[lv[j]][Rank(lv, j)] == j
  }

  /** One turn of the grouping loop: node `i` is pushed onto its tier, which is
      created first if it is new. */
  ghost predicate GroupedNext(owners: seq<Owner>, lv: seq<int>, i: nat,
                              keys: seq<int>, levels: map<int, seq<Owner>>, idx: map<int, seq<nat>>,
                              keys': seq<int>, levels': map<int, seq<Owner>>, idx': map<int, seq<nat>>)
    requires i < |owners| && i < |lv|
  {
    var k := lv[i];
    var levels1 := if k in levels then levels else levels[k := []];
    var idx1 := if k in levels && k in idx then idx else idx[k := []];
    keys' == (if k in levels then keys else keys + [k]) &&
    levels' == levels1[k := levels1[k] + [owners[i]]] &&
    idx' == idx1[k := idx1[k] + [i]]
  }

  lemma GroupStep(owners: seq<Owner>, lv: seq<int>, i: nat,
                  keys: seq<int>, levels: map<int, seq<Owner>>, idx: map<int, seq<nat>>,
                  keys': seq<int>, levels': map<int, seq<Owner>>, idx': map<int, seq<nat>>)
    requires Grouped(owners, lv, i, keys, levels, idx) && i < |owners|
    requires GroupedNext(owners, lv, i, keys, levels, idx, keys', levels', idx')
    ensures Grouped(owners, lv, i + 1, keys', levels', idx')
  {
    assert lv[..i + 1][..i] == lv[..i];
    assert lv[..i + 1] == lv[..i] + [lv[i]];
    StepKeys(owners, lv, i, keys, levels, idx, keys', levels', idx');
    StepCounts(owners, lv, i, keys, levels, idx, keys', levels', idx');
    StepEntries(owners, lv, i, keys, levels, idx, keys', levels', idx');
    StepFiled(owners, lv, i, keys, levels, idx, keys', levels', idx');
  }

  lemma StepKeys(owners: seq<Owner>, lv: seq<int>, i: nat,
                 keys: seq<int>, levels: map<int, seq<Owner>>, idx: map<int, seq<nat>>,
                 keys': seq<int>, levels': map<int, seq<Owner>>, idx': map<int, seq<nat>>)
    requires i < |owners| == |lv| && KeysListed(lv, i, keys, levels)
    requires GroupedNext(owners, lv, i, keys, levels, idx, keys', levels', idx')
    ensures KeysListed(lv, i + 1, keys', levels')
  {
    assert lv[..i + 1][..i] == lv[..i];
  }

  lemma StepCounts(owners: seq<Owner>, lv: seq<int>, i: nat,
                   keys: seq<int>, levels: map<int, seq<Owner>>, idx: map<int, seq<nat>>,
                   keys': seq<int>, levels': map<int, seq<Owner>>, idx': map<int, seq<nat>>)
    requires i < |owners| == |lv| && KeysListed(lv, i, keys, levels) && RowsCounted(lv, i, levels, idx)
    requires GroupedNext(owners, lv, i, keys, levels, idx, keys', levels', idx')
    ensures RowsCounted(lv, i + 1, levels', idx')
  {
    assert lv[..i + 1][..i] == lv[..i];
    forall k | k in levels' && k !in levels
      ensures CountOf(lv[..i], k) == 0
    {
      assert k == lv[i];
    }
  }

  lemma StepEntries(owners: seq<Owner>, lv: seq<int>, i: nat,
                    keys: seq<int>, levels: map<int, seq<Owner>>, idx: map<int, seq<nat>>,
                    keys': seq<int>, levels': map<int, seq<Owner>>, idx': map<int, seq<nat>>)
    requires i < |owners| == |lv| && KeysListed(lv, i, keys, levels) && RowsCounted(lv, i, levels, idx)
    requires forall k, r :: k in levels && 0 <= r < |idx[k]| ==> RowEntry(owners, lv, levels, idx, k, r)
    requires GroupedNext(owners, lv, i, keys, levels, idx, keys', levels', idx')
    ensures forall k, r :: k in levels' && 0 <= r < |idx'[k]| ==> RowEntry(owners, lv, levels', idx', k, r)
  {
    var k := lv[i];
    var n := if k in levels then |idx[k]| else 0;
    assert n == CountOf(lv[..i], k) == Rank(lv, i);
    forall k', r | k' in levels' && 0 <= r < |idx'[k']|
      ensures RowEntry(owners, lv, levels', idx', k', r)
    {
      if k' == k && r == n {
        assert idx'[k'][r] == i && levels'[k'][r] == owners[i];
      } else {
        assert RowEntry(owners, lv, levels, idx, k', r);
        assert idx'[k'][r] == idx[k'][r];
        assert levels'[k'][r] == levels[k'][r];
      }
    }
  }

  lemma StepFiled(owners: seq<Owner>, lv: seq<int>, i: nat,
                  keys: seq<int>, levels: map<int, seq<Owner>>, idx: map<int, seq<nat>>,
                  keys': seq<int>, levels': map<int, seq<Owner>>, idx': map<int, seq<nat>>)
    requires i < |owners| == |lv| && KeysListed(lv, i, keys, levels) && RowsCounted(lv, i, levels, idx)
    requires forall j :: 0 <= j < i ==> Filed(lv, idx, j)
    requires GroupedNext(owners, lv, i, keys, levels, idx, keys', levels', idx')
    ensures forall j :: 0 <= j < i + 1 ==> Filed(lv, idx', j)
  {
    var k := lv[i];
    var n := if k in levels then |idx[k]| else 0;
    assert n == CountOf(lv[..i], k) == Rank(lv, i);
    forall j | 0 <= j < i + 1
      ensures Filed(lv, idx', j)
    {
      if j < i {
        assert Filed(lv, idx, j);
        assert idx'[lv[j]][Rank(lv, j)] == idx[lv[j]][Rank(lv, j)];
      }
    }
  }

  // ----- properties of the layout -----

  lemma SlotAxes(dir: Direction, level: int, rank: int, n: int, maxNodes: int)
    ensures MainAxis(dir, SlotPosition(dir, level, rank, n, maxNodes)) == (Margin + level * 280) as real
    ensures CrossAxis(dir, SlotPosition(dir, level, rank, n, maxNodes)) ==
            (TotalSpan(dir, maxNodes) - RowSpan(dir, n)) as real / 2.0 + (rank * SlotPitch(dir)) as real
  {
  }

  /** Nodes of one tier share their main-axis coordinate. */
  lemma SameTierSameMainAxis(owners: seq<Owner>, dir: Direction, i: nat, j: nat)
    requires AllChainsEnd(owners) && i < |owners| && j < |owners|
    requires Level(owners, owners[i].id) == Level(owners, owners[j].id)
    ensures MainAxis(dir, Position(owners, dir, i)) == MainAxis(dir, Position(owners, dir, j))
  {
    var lv := Levels(owners);
    SlotAxes(dir, lv[i], Rank(lv, i), CountOf(lv, lv[i]), MaxNodes(lv));
    SlotAxes(dir, lv[j], Rank(lv, j), CountOf(lv, lv[j]), MaxNodes(lv));
  }

  /** Tiers advance by a constant pitch of 280: a higher tier lies strictly further along the main axis. */
  lemma TierPitchConstant(owners: seq<Owner>, dir: Direction, i: nat, j: nat)
    requires AllChainsEnd(owners) && i < |owners| && j < |owners|
    ensures MainAxis(dir, Position(owners, dir, j)) - MainAxis(dir, Position(owners, dir, i)) ==
            ((Level(owners, owners[j].id) - Level(owners, owners[i].id)) * 280) as real
    ensures Level(owners, owners[i].id) < Level(owners, owners[j].id) ==>
            MainAxis(dir, Position(owners, dir, i)) < MainAxis(dir, Position(owners, dir, j))
  {
    var lv := Levels(owners);
    SlotAxes(dir, lv[i], Rank(lv, i), CountOf(lv, lv[i]), MaxNodes(lv));
    SlotAxes(dir, lv[j], Rank(lv, j), CountOf(lv, lv[j]), MaxNodes(lv));
  }

  /** Within a tier nodes keep their input order, one slot pitch (240 across a
      vertical row, 280 down a horizontal column) per node between them. */
  lemma SiblingsInInputOrder(owners: seq<Owner>, dir: Direction, i: nat, j: nat)
    requires AllChainsEnd(owners) && i < j < |owners|
    requires Level(owners, owners[i].id) == Level(owners, owners[j].id)
    ensures var lv := Levels(owners);
            CrossAxis(dir, Position(owners, dir, j)) - CrossAxis(dir, Position(owners, dir, i)) ==
            ((Rank(lv, j) - Rank(lv, i)) * SlotPitch(dir)) as real
    ensures CrossAxis(dir, Position(owners, dir, i)) + SlotPitch(dir) as real <= CrossAxis(dir, Position(owners, dir, j))
  {
    var lv := Levels(owners);
    assert lv[i] == Level(owners, owners[i].id) && lv[j] == Level(owners, owners[j].id);
    RankIncreases(lv, i, j);
    var ri, rj, n, m := Rank(lv, i), Rank(lv, j), CountOf(lv, lv[i]), MaxNodes(lv);
    assert Position(owners, dir, i) == SlotPosition(dir, lv[i], ri, n, m);
    assert Position(owners, dir, j) == SlotPosition(dir, lv[i], rj, n, m);
    CrossStep(dir, lv[i], ri, rj, n, m);
  }

  /** Two slots of one tier are `rj - ri` slot pitches apart. */
  lemma CrossStep(dir: Direction, level: int, ri: int, rj: int, n: int, m: int)
    requires ri < rj
    ensures CrossAxis(dir, SlotPosition(dir, level, rj, n, m)) - CrossAxis(dir, SlotPosition(dir, level, ri, n, m)) ==
            ((rj - ri) * SlotPitch(dir)) as real
    ensures CrossAxis(dir, SlotPosition(dir, level, ri, n, m)) + SlotPitch(dir) as real <=
            CrossAxis(dir, SlotPosition(dir, level, rj, n, m))
  {
    SlotAxes(dir, level, ri, n, m);
    SlotAxes(dir, level, rj, n, m);
    var pitch := SlotPitch(dir);
    assert pitch == 240 || pitch == 280;
    PitchSteps(ri, rj, pitch);
  }

  lemma PitchSteps(a: int, b: int, pitch: int)
    requires a < b && pitch > 0
    ensures b * pitch - a * pitch == (b - a) * pitch >= pitch
  {
    assert (b - a) * pitch == (b - a - 1) * pitch + pitch;
  }

  /** Every tier is centred: a slot and its mirror image across the tier add
      up to the total span. */
  lemma SlotsSymmetric(dir: Direction, level: int, rank: int, n: int, maxNodes: int)
    ensures CrossAxis(dir, SlotPosition(dir, level, rank, n, maxNodes)) + NodeExtent(dir) as real +
            CrossAxis(dir, SlotPosition(dir, level, n - 1 - rank, n, maxNodes)) == TotalSpan(dir, maxNodes) as real
  {
    SlotAxes(dir, level, rank, n, maxNodes);
    SlotAxes(dir, level, n - 1 - rank, n, maxNodes);
    if dir == Vertical {
      assert SlotPitch(dir) == 240;
    } else {
      assert SlotPitch(dir) == 280;
    }
  }

  /** Every node lies inside the total span with at least half a gap to spare
      on both sides: 30 across a vertical row, 60 down a horizontal column. */
  lemma SlotsWithinSpan(owners: seq<Owner>, dir: Direction, i: nat)
    requires AllChainsEnd(owners) && i < |owners|
    ensures CrossAxis(dir, Position(owners, dir, i)) >= (Gap(dir) / 2) as real
    ensures CrossAxis(dir, Position(owners, dir, i)) + NodeExtent(dir) as real + (Gap(dir) / 2) as real <=
            TotalSpan(dir, MaxNodes(Levels(owners))) as real
  {
    var lv := Levels(owners);
    RowFits(lv, i);
    RankBelowCount(lv, i);
    CrossWithinSpan(dir, lv[i], Rank(lv, i), CountOf(lv, lv[i]), MaxNodes(lv));
  }

  /** The slot of rank `r` in a tier of `n` nodes, when no tier holds more than `m`. */
  lemma CrossWithinSpan(dir: Direction, level: int, r: int, n: int, m: int)
    requires 0 <= r < n <= m
    ensures CrossAxis(dir, SlotPosition(dir, level, r, n, m)) >= (Gap(dir) / 2) as real
    ensures CrossAxis(dir, SlotPosition(dir, level, r, n, m)) + NodeExtent(dir) as real + (Gap(dir) / 2) as real <=
            TotalSpan(dir, m) as real
  {
    SlotAxes(dir, level, r, n, m);
    if dir == Vertical {
      assert SlotPitch(dir) == 240 && NodeExtent(dir) == 180 && Gap(dir) == 60;
      SpanBounds(r, n, m, 180, 60, 800);
    } else {
      assert SlotPitch(dir) == 280 && NodeExtent(dir) == 160 && Gap(dir) == 120;
      SpanBounds(r, n, m, 160, 120, 500);
    }
  }

  /** The arithmetic of a centred row: `n` nodes of extent `e` with gaps `g`
      inside a span of at least `m` slots. */
  lemma SpanBounds(r: int, n: int, m: int, e: int, g: int, least: int)
    requires 0 <= r < n <= m
    requires (e == 180 && g == 60) || (e == 160 && g == 120)
    ensures var t := if m * (e + g) > least then m * (e + g) else least;
            var cross := (t - (n * e + (n - 1) * g)) as real / 2.0 + (r * (e + g)) as real;
            cross >= (g / 2) as real && cross + e as real + (g / 2) as real <= t as real
  {
    if e == 180 {
      assert r * 240 <= n * 240 - 240 && n * 240 <= m * 240;
    } else {
      assert r * 280 <= n * 280 - 280 && n * 280 <= m * 280;
    }
  }

  /** Two different nodes never overlap: they are at least a tier pitch apart
      along the main axis, or at least a slot pitch apart across. */
  lemma NoTwoNodesOverlap(owners: seq<Owner>, dir: Direction, i: nat, j: nat)
    requires AllChainsEnd(owners) && i < j < |owners|
    ensures var p, q := Position(owners, dir, i), Position(owners, dir, j);
            MainAxis(dir, q) - MainAxis(dir, p) >= TierPitch(dir) as real ||
            MainAxis(dir, p) - MainAxis(dir, q) >= TierPitch(dir) as real ||
            CrossAxis(dir, q) - CrossAxis(dir, p) >= SlotPitch(dir) as real
    ensures Position(owners, dir, i) != Position(owners, dir, j)
  {
    var lv := Levels(owners);
    if lv[i] == lv[j] {
      SiblingsInInputOrder(owners, dir, i, j);
    } else {
      TierPitchConstant(owners, dir, i, j);
    }
  }
}
