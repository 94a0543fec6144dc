/** The indexable skip list: node pointers, per-level spans, backward pointers, a tail. */
module SkipLists {
  import opened Ordering

  const MAX_LEVEL := 32

  datatype Level = Level(forward: Node?, span: nat)

  /** What `GetRank` answers: 0, or the rank of a pair of the same member that is not behind the given one. */
  ghost predicate IsRank(s: seq<Pair>, p: Pair, rank: nat)
  {
    && rank <= |s|
    && (rank > 0 ==> s[rank - 1].ele == p.ele && !Less(p, s[rank - 1]))
    && (p in s ==> rank > 0)
  }

  /** Where no member is listed twice, `GetRank` undoes `GetElementByRank`: the pair at a rank has that rank, and a
      member that is not there has none. */
  lemma RankOfElement(s: seq<Pair>, p: Pair, rank: nat)
    requires Distinct(s) && IsRank(s, p, rank)
    ensures forall i :: 0 <= i < |s| && s[i] == p ==> rank == i + 1
    ensures p in s ==> rank > 0 && s[rank - 1] == p
    ensures (forall q :: q in s ==> q.ele != p.ele) ==> rank == 0
  {
    if rank > 0 {
      assert s[rank - 1] in s;
      if p in s {
        var i :| 0 <= i < |s| && s[i] == p;
        assert i == rank - 1;
      }
    }
  }

  class Node {
    const ele: Bytes
    const score: Score
    var backward: Node?
    var level: seq<Level>
    ghost const home: Bytes   // names the sorted set the node belongs to, so that sets share no node

    constructor (height: nat, score: Score, ele: Bytes, ghost home: Bytes)
      ensures this.score == score && this.ele == ele && this.home == home && backward == null
      ensures level == seq(height, _ => Level(null, 0))
    {
      this.ele := ele;
      this.score := score;
      this.home := home;
      backward := null;
      level := seq(height, _ => Level(null, 0));
    }
  }

  function Key(n: Node): Pair
  {
    Pair(n.score, n.ele)
  }

  type Towers = seq<seq<Level>>

  /** The link of position `p` at level `l` leads to the next position whose tower is taller than `l`,
      and its span is the distance; with no such position the span is the distance to the last one. */
  ghost predicate LinkOk(nodes: seq<Node>, towers: Towers, p: nat, l: nat)
    requires |nodes| == |towers| && p < |nodes| && l < |towers[p]|
  {
    var q := p + towers[p][l].span;
    && q < |nodes|
    && (forall m :: p < m < q ==> |towers[m]| <= l)
    && if towers[p][l].forward == null
       then q == |nodes| - 1 && (p < q ==> |towers[q]| <= l)
       else towers[p][l].forward == nodes[q] && p < q && l < |towers[q]|
  }

  ghost predicate Shape(nodes: seq<Node>, towers: Towers, level: nat)
  {
    && |nodes| == |towers| > 0
    && 1 <= level <= MAX_LEVEL == |towers[0]|
    && (forall p :: 1 <= p < |nodes| ==> 1 <= |towers[p]| <= level)
    && (forall i, j :: 0 <= i < j < |nodes| ==> nodes[i] != nodes[j])
  }

  /** The list uses no more levels than its tallest node has. */
  ghost predicate TopUsed(towers: Towers, level: nat)
  {
    level == 1 || (0 < |towers| && 1 < level <= |towers[0]| && towers[0][level - 1].forward != null)
  }

  /** Position 0 is the header. Levels the list does not use have no link in the header. */
  ghost predicate Linked(nodes: seq<Node>, towers: Towers, level: nat)
  {
    && Shape(nodes, towers, level)
    && (forall p, l :: 0 <= p < |nodes| && 0 <= l < level && l < |towers[p]| ==> LinkOk(nodes, towers, p, l))
    && (forall l :: level <= l < MAX_LEVEL ==> towers[0][l].forward == null)
  }

  /** `rank[l]` is the last position before `k + 1` that has a link at level `l`. */
  ghost predicate PathOk(nodes: seq<Node>, towers: Towers, rank: seq<nat>, k: nat)
    requires |nodes| == |towers|
  {
    && k < |nodes|
    && forall l :: 0 <= l < |rank| ==> PathAt(towers, rank[l], l, k)
  }

  ghost predicate PathAt(towers: Towers, r: nat, l: nat, k: nat)
    requires k < |towers|
  {
    && r <= k
    && l < |towers[r]|
    && r + towers[r][l].span >= k
    && (towers[r][l].forward != null ==> r + towers[r][l].span > k)
  }

  /** Every node has a link at level 0, so that level visits all positions. */
  lemma BottomLink(nodes: seq<Node>, towers: Towers, level: nat, p: nat)
    requires Linked(nodes, towers, level) && p < |nodes|
    ensures |towers| == |nodes| && 0 < |towers[p]|
    ensures towers[p][0].forward == if p + 1 < |nodes| then nodes[p + 1] else null
    ensures p + 1 < |nodes| ==> towers[p][0].span == 1
    ensures forall i, j :: 0 <= i < j < |nodes| ==> nodes[i] != nodes[j]
  {
    assert LinkOk(nodes, towers, p, 0);
    assert p + 1 < |nodes| ==> |towers[p + 1]| > 0;
  }

  // ----- insertion -----

  /** The link of position `p <= k` at level `l` once `x`, of height `h`, has been linked in after position `k`. */
  ghost function Respanned(towers: Towers, rank: seq<nat>, k: nat, x: Node, h: nat, p: nat, l: nat): Level
    requires p <= k < |towers| && l < |towers[p]|
  {
    if l < |rank| && rank[l] == p then
      if l < h then Level(x, k - p + 1) else Level(towers[p][l].forward, towers[p][l].span + 1)
    else
      towers[p][l]
  }

  /** The new node's link at level `l`: what the path's link led to, over what is left of its span. */
  ghost function Onward(towers: Towers, rank: seq<nat>, k: nat, l: nat): Level
    requires k < |towers| && l < |rank| && PathAt(towers, rank[l], l, k)
  {
    Level(towers[rank[l]][l].forward, towers[rank[l]][l].span - (k - rank[l]))
  }

  /** The insertion loops have dealt with the levels below `i`. */
  ghost predicate LinkedBelow(towers: Towers, rank: seq<nat>, k: nat, x: Node, h: nat, i: nat, cur: Towers)
    requires k < |towers| && i <= |rank|
  {
    && |cur| == |towers|
    && (forall p :: 0 <= p < |towers| ==> |cur[p]| == |towers[p]|)
    && (forall p, l {:trigger cur[p][l]} :: 0 <= p <= k && 0 <= l < |towers[p]| ==>
          cur[p][l] == Respanned(towers, rank[..i], k, x, h, p, l))
    && forall p :: k < p < |towers| ==> cur[p] == towers[p]
  }

  lemma LinkedBelowStep(towers: Towers, rank: seq<nat>, k: nat, x: Node, h: nat, i: nat, cur: Towers)
    requires k < |towers| && i < |rank| && PathAt(towers, rank[i], i, k)
    requires LinkedBelow(towers, rank, k, x, h, i, cur)
    ensures cur[rank[i]][i] == towers[rank[i]][i]
    ensures LinkedBelow(towers, rank, k, x, h, i + 1,
                        cur[rank[i] := cur[rank[i]][i := Respanned(towers, rank, k, x, h, rank[i], i)]])
  {
    var r := rank[i];
    assert cur[r][i] == Respanned(towers, rank[..i], k, x, h, r, i);
    var cur' := cur[r := cur[r][i := Respanned(towers, rank, k, x, h, r, i)]];
    forall p, l | 0 <= p <= k && 0 <= l < |towers[p]|
      ensures cur'[p][l] == Respanned(towers, rank[..i + 1], k, x, h, p, l)
    {
      assert cur[p][l] == Respanned(towers, rank[..i], k, x, h, p, l);
    }
  }

  /** Towers after the new node has been linked in after position `k`, as the insertion loops leave them. */
  ghost predicate SplicedIn(towers: Towers, rank: seq<nat>, k: nat, x: Node, h: nat, towers': Towers)
    requires k < |towers| && |rank| <= MAX_LEVEL && h <= |rank|
    requires forall l :: 0 <= l < |rank| ==> PathAt(towers, rank[l], l, k)
  {
    && |towers'| == |towers| + 1
    && (forall p :: 0 <= p <= k ==> |towers'[p]| == |towers[p]|)
    && (forall p, l {:trigger towers'[p][l]} :: 0 <= p <= k && 0 <= l < |towers[p]| ==>
          towers'[p][l] == Respanned(towers, rank, k, x, h, p, l))
    && |towers'[k + 1]| == h
    && (forall l :: 0 <= l < h ==>
          && PathAt(towers, rank[l], l, k)
          && towers'[k + 1][l] == Onward(towers, rank, k, l))
    && (forall p :: k < p < |towers| ==> towers'[p + 1] == towers[p])
  }

  /** A link that is not on the path does not cross from positions up to `k` to positions after `k`. */
  lemma OffPathStays(nodes: seq<Node>, towers: Towers, level: nat, rank: seq<nat>, k: nat, p: nat, l: nat)
    requires Linked(nodes, towers, level) && |rank| == level && PathOk(nodes, towers, rank, k)
    requires p <= k && l < level && l < |towers[p]| && rank[l] != p
    ensures p + towers[p][l].span <= rank[l] && towers[p][l].forward != null
  {
    assert PathAt(towers, rank[l], l, k);
    assert LinkOk(nodes, towers, p, l);
    assert LinkOk(nodes, towers, rank[l], l);
  }

  ghost predicate Inserting(nodes: seq<Node>, towers: Towers, level: nat, rank: seq<nat>, k: nat, x: Node, h: nat,
                            towers': Towers)
  {
    && Linked(nodes, towers, level)
    && |rank| == level && PathOk(nodes, towers, rank, k)
    && 1 <= h <= level && x !in nodes
    && SplicedIn(towers, rank, k, x, h, towers')
  }

  ghost function With(nodes: seq<Node>, k: nat, x: Node): (r: seq<Node>)
    requires k < |nodes|
    ensures |r| == |nodes| + 1 && r[k + 1] == x
    ensures forall p :: 0 <= p <= k ==> r[p] == nodes[p]
    ensures forall p :: k + 1 < p < |r| ==> r[p] == nodes[p - 1]
  {
    nodes[..k + 1] + [x] + nodes[k + 1..]
  }

  /** The inserted node's predecessors: the path positions, whose links now lead to `x` or pass over it. */
  lemma InsertLinkOnPath(nodes: seq<Node>, towers: Towers, level: nat, rank: seq<nat>, k: nat, x: Node, h: nat,
                         towers': Towers, l: nat)
    requires Inserting(nodes, towers, level, rank, k, x, h, towers') && l < level
    ensures LinkOk(With(nodes, k, x), towers', rank[l], l)
  {
    var r := rank[l];
    assert PathAt(towers, r, l, k) && LinkOk(nodes, towers, r, l);
    assert towers'[r][l] == Respanned(towers, rank, k, x, h, r, l);
    forall m | k + 1 < m < |towers'| ensures towers'[m] == towers[m - 1] {
      assert towers'[(m - 1) + 1] == towers[m - 1];
    }
  }

  lemma InsertLinkOffPath(nodes: seq<Node>, towers: Towers, level: nat, rank: seq<nat>, k: nat, x: Node, h: nat,
                          towers': Towers, p: nat, l: nat)
    requires Inserting(nodes, towers, level, rank, k, x, h, towers')
    requires p <= k && l < level && l < |towers[p]| && rank[l] != p
    ensures LinkOk(With(nodes, k, x), towers', p, l)
  {
    OffPathStays(nodes, towers, level, rank, k, p, l);
    assert PathAt(towers, rank[l], l, k) && LinkOk(nodes, towers, p, l);
    assert towers'[p][l] == Respanned(towers, rank, k, x, h, p, l);
  }

  lemma InsertLinkNew(nodes: seq<Node>, towers: Towers, level: nat, rank: seq<nat>, k: nat, x: Node, h: nat,
                      towers': Towers, l: nat)
    requires Inserting(nodes, towers, level, rank, k, x, h, towers') && l < h
    ensures LinkOk(With(nodes, k, x), towers', k + 1, l)
  {
    assert PathAt(towers, rank[l], l, k) && LinkOk(nodes, towers, rank[l], l);
    forall m | k + 1 < m < |towers'| ensures towers'[m] == towers[m - 1] {
      assert towers'[(m - 1) + 1] == towers[m - 1];
    }
  }

  lemma InsertLinkAfter(nodes: seq<Node>, towers: Towers, level: nat, rank: seq<nat>, k: nat, x: Node, h: nat,
                        towers': Towers, p: nat, l: nat)
    requires Inserting(nodes, towers, level, rank, k, x, h, towers')
    requires k < p < |nodes| && l < level && l < |towers[p]|
    ensures l < |towers'[p + 1]| && LinkOk(With(nodes, k, x), towers', p + 1, l)
  {
    assert LinkOk(nodes, towers, p, l);
    forall m | k + 1 < m < |towers'| ensures towers'[m] == towers[m - 1] {
      assert towers'[(m - 1) + 1] == towers[m - 1];
    }
  }

  lemma InsertShape(nodes: seq<Node>, towers: Towers, level: nat, rank: seq<nat>, k: nat, x: Node, h: nat, towers': Towers)
    requires Inserting(nodes, towers, level, rank, k, x, h, towers')
    ensures Shape(With(nodes, k, x), towers', level)
    ensures forall l :: level <= l < MAX_LEVEL ==> towers'[0][l].forward == null
  {
    forall m | k + 1 < m < |towers'| ensures towers'[m] == towers[m - 1] {
      assert towers'[(m - 1) + 1] == towers[m - 1];
    }
    forall l | level <= l < MAX_LEVEL ensures towers'[0][l].forward == null {
      assert towers'[0][l] == Respanned(towers, rank, k, x, h, 0, l);
    }
  }

  lemma InsertLinks(nodes: seq<Node>, towers: Towers, level: nat, rank: seq<nat>, k: nat, x: Node, h: nat, towers': Towers)
    requires Inserting(nodes, towers, level, rank, k, x, h, towers')
    ensures Linked(With(nodes, k, x), towers', level)
  {
    var nodes' := With(nodes, k, x);
    InsertShape(nodes, towers, level, rank, k, x, h, towers');
    forall p, l | 0 <= p < |nodes'| && 0 <= l < level && l < |towers'[p]|
      ensures LinkOk(nodes', towers', p, l)
    {
      if p > k + 1 {
        assert towers'[(p - 1) + 1] == towers[p - 1];
        InsertLinkAfter(nodes, towers, level, rank, k, x, h, towers', p - 1, l);
      } else if p == k + 1 {
        InsertLinkNew(nodes, towers, level, rank, k, x, h, towers', l);
      } else if rank[l] == p {
        InsertLinkOnPath(nodes, towers, level, rank, k, x, h, towers', l);
      } else {
        InsertLinkOffPath(nodes, towers, level, rank, k, x, h, towers', p, l);
      }
    }
  }

  ghost function WithTower(cur: Towers, k: nat, tower: seq<Level>): (r: Towers)
    requires k < |cur|
    ensures |r| == |cur| + 1 && r[k + 1] == tower
    ensures forall p :: 0 <= p <= k ==> r[p] == cur[p]
    ensures forall p :: k + 1 < p < |r| ==> r[p] == cur[p - 1]
  {
    cur[..k + 1] + [tower] + cur[k + 1..]
  }

  /** The insertion loops leave a linked list of one more node, with its top level as occupied as before. */
  lemma InsertTowers(nodes: seq<Node>, towers: Towers, level: nat, rank: seq<nat>, k: nat, x: Node, tower: seq<Level>,
                     cur: Towers)
    requires Linked(nodes, towers, level) && |rank| == level && PathOk(nodes, towers, rank, k)
    requires 1 <= |tower| <= level && x !in nodes
    requires LinkedBelow(towers, rank, k, x, |tower|, level, cur)
    requires forall l :: 0 <= l < |tower| ==> PathAt(towers, rank[l], l, k) && tower[l] == Onward(towers, rank, k, l)
    ensures Linked(With(nodes, k, x), WithTower(cur, k, tower), level)
    ensures TopUsed(towers, level) || (rank[level - 1] == 0 && level == |tower|) ==>
      TopUsed(WithTower(cur, k, tower), level)
  {
    var h, towers' := |tower|, WithTower(cur, k, tower);
    assert rank[..level] == rank;
    forall p | k < p < |towers| ensures towers'[p + 1] == towers[p] {
      assert towers'[p + 1] == cur[p];
    }
    forall p, l | 0 <= p <= k && 0 <= l < |towers[p]|
      ensures towers'[p][l] == Respanned(towers, rank, k, x, h, p, l)
    {
      assert cur[p][l] == Respanned(towers, rank[..level], k, x, h, p, l);
    }
    forall l | 0 <= l < |rank| ensures PathAt(towers, rank[l], l, k) {
    }
    assert SplicedIn(towers, rank, k, x, h, towers');
    InsertLinks(nodes, towers, level, rank, k, x, h, towers');
  }

  // ----- deletion -----

  ghost function Without(nodes: seq<Node>, k: nat): (r: seq<Node>)
    requires k + 1 < |nodes|
    ensures |r| == |nodes| - 1
    ensures forall p :: 0 <= p <= k ==> r[p] == nodes[p]
    ensures forall p :: k < p < |r| ==> r[p] == nodes[p + 1]
  {
    nodes[..k + 1] + nodes[k + 2..]
  }

  /** The link of position `p <= k` at level `l` once the node at position `k + 1` has been unlinked. */
  ghost function Bypassed(nodes: seq<Node>, towers: Towers, rank: seq<nat>, k: nat, p: nat, l: nat): Level
    requires |nodes| == |towers| && p <= k < |towers| - 1 && l < |towers[p]|
    requires l < |rank| && rank[l] == p ==> PathAt(towers, p, l, k) && LinkOk(nodes, towers, p, l)
  {
    if l < |rank| && rank[l] == p then
      var x := nodes[k + 1];
      if towers[p][l].forward == x && l < |towers[k + 1]| then
        Level(towers[k + 1][l].forward, towers[p][l].span + towers[k + 1][l].span - 1)
      else if towers[p][l].span > 0 then
        Level(towers[p][l].forward, towers[p][l].span - 1)
      else
        towers[p][l]
    else
      towers[p][l]
  }

  ghost predicate Deleting(nodes: seq<Node>, towers: Towers, level: nat, rank: seq<nat>, k: nat, towers': Towers)
  {
    && Linked(nodes, towers, level)
    && |rank| == level && PathOk(nodes, towers, rank, k)
    && k + 1 < |nodes|
    && |towers'| == |towers| - 1
    && (forall p :: 0 <= p <= k ==> |towers'[p]| == |towers[p]|)
    && (forall p, l {:trigger towers'[p][l]} :: 0 <= p <= k && 0 <= l < |towers[p]| ==>
          && (l < level && rank[l] == p ==> PathAt(towers, p, l, k) && LinkOk(nodes, towers, p, l))
          && towers'[p][l] == Bypassed(nodes, towers, rank, k, p, l))
    && (forall p :: k < p < |towers'| ==> towers'[p] == towers[p + 1])
  }

  /** Where the path passes the deleted node: its link either leads to that node or spans over it. */
  lemma PathMeets(nodes: seq<Node>, towers: Towers, level: nat, rank: seq<nat>, k: nat, l: nat)
    requires Linked(nodes, towers, level) && |rank| == level && PathOk(nodes, towers, rank, k)
    requires k + 1 < |nodes| && l < level
    ensures LinkOk(nodes, towers, rank[l], l) && towers[rank[l]][l].span > 0
    ensures towers[rank[l]][l].forward == nodes[k + 1] <==> l < |towers[k + 1]|
    ensures l < |towers[k + 1]| ==> rank[l] + towers[rank[l]][l].span == k + 1 && LinkOk(nodes, towers, k + 1, l)
    ensures l >= |towers[k + 1]| ==> rank[l] + towers[rank[l]][l].span > k
  {
    var r := rank[l];
    assert PathAt(towers, r, l, k) && LinkOk(nodes, towers, r, l);
    if l < |towers[k + 1]| {
      assert LinkOk(nodes, towers, k + 1, l);
    }
  }

  ghost function WithoutTower(cur: Towers, k: nat): (r: Towers)
    requires k + 1 < |cur|
    ensures |r| == |cur| - 1
    ensures forall p :: 0 <= p <= k ==> r[p] == cur[p]
    ensures forall p :: k < p < |r| ==> r[p] == cur[p + 1]
  {
    cur[..k + 1] + cur[k + 2..]
  }

  /** The deletion loop has dealt with the levels below `i`. */
  ghost predicate UnlinkedBelow(nodes: seq<Node>, towers: Towers, rank: seq<nat>, k: nat, i: nat, cur: Towers)
    requires |nodes| == |towers| && k + 1 < |nodes| && i <= |rank|
  {
    && |cur| == |towers|
    && (forall p :: 0 <= p < |towers| ==> |cur[p]| == |towers[p]|)
    && (forall p, l {:trigger cur[p][l]} :: 0 <= p <= k && 0 <= l < |towers[p]| ==>
          && (l < i && rank[l] == p ==> PathAt(towers, p, l, k) && LinkOk(nodes, towers, p, l))
          && cur[p][l] == Bypassed(nodes, towers, rank[..i], k, p, l))
    && forall p :: k < p < |towers| ==> cur[p] == towers[p]
  }

  lemma UnlinkedBelowStep(nodes: seq<Node>, towers: Towers, level: nat, rank: seq<nat>, k: nat, i: nat, cur: Towers)
    requires Linked(nodes, towers, level) && |rank| == level && PathOk(nodes, towers, rank, k)
    requires k + 1 < |nodes| && i < level && UnlinkedBelow(nodes, towers, rank, k, i, cur)
    ensures |cur| == |towers| && i < |cur[rank[i]]|
    ensures cur[rank[i]][i] == towers[rank[i]][i] && cur[k + 1] == towers[k + 1] && towers[rank[i]][i].span > 0
    ensures towers[rank[i]][i].forward == nodes[k + 1] ==> i < |towers[k + 1]|
    ensures PathAt(towers, rank[i], i, k) && LinkOk(nodes, towers, rank[i], i)
    ensures UnlinkedBelow(nodes, towers, rank, k, i + 1,
                          cur[rank[i] := cur[rank[i]][i := Bypassed(nodes, towers, rank, k, rank[i], i)]])
  {
    var r := rank[i];
    PathMeets(nodes, towers, level, rank, k, i);
    assert PathAt(towers, r, i, k) && LinkOk(nodes, towers, r, i);
    assert cur[r][i] == Bypassed(nodes, towers, rank[..i], k, r, i);
    var cur' := cur[r := cur[r][i := Bypassed(nodes, towers, rank, k, r, i)]];
    forall p, l | 0 <= p <= k && 0 <= l < |towers[p]|
      ensures l < i + 1 && rank[l] == p ==> PathAt(towers, p, l, k) && LinkOk(nodes, towers, p, l)
      ensures cur'[p][l] == Bypassed(nodes, towers, rank[..i + 1], k, p, l)
    {
      assert cur[p][l] == Bypassed(nodes, towers, rank[..i], k, p, l);
    }
  }

  lemma UnlinkedNone(nodes: seq<Node>, towers: Towers, rank: seq<nat>, k: nat)
    requires |nodes| == |towers| && k + 1 < |nodes|
    ensures UnlinkedBelow(nodes, towers, rank, k, 0, towers)
  {
  }

  lemma UnlinkedAll(nodes: seq<Node>, towers: Towers, level: nat, rank: seq<nat>, k: nat, cur: Towers)
    requires Linked(nodes, towers, level) && |rank| == level && PathOk(nodes, towers, rank, k)
    requires k + 1 < |nodes| && UnlinkedBelow(nodes, towers, rank, k, level, cur)
    ensures Linked(Without(nodes, k), WithoutTower(cur, k), level)
  {
    var towers' := WithoutTower(cur, k);
    assert rank[..level] == rank;
    forall p, l | 0 <= p <= k && 0 <= l < |towers[p]|
      ensures l < level && rank[l] == p ==> PathAt(towers, p, l, k) && LinkOk(nodes, towers, p, l)
      ensures towers'[p][l] == Bypassed(nodes, towers, rank, k, p, l)
    {
      assert cur[p][l] == Bypassed(nodes, towers, rank[..level], k, p, l);
    }
    assert Deleting(nodes, towers, level, rank, k, towers');
    DeleteLinks(nodes, towers, level, rank, k, towers');
  }

  lemma DeleteLinkOnPath(nodes: seq<Node>, towers: Towers, level: nat, rank: seq<nat>, k: nat, towers': Towers, l: nat)
    requires Deleting(nodes, towers, level, rank, k, towers') && l < level
    ensures LinkOk(Without(nodes, k), towers', rank[l], l)
  {
    var r := rank[l];
    PathMeets(nodes, towers, level, rank, k, l);
    assert PathAt(towers, r, l, k);
    assert towers'[r][l] == Bypassed(nodes, towers, rank, k, r, l);
  }

  lemma DeleteLinkOffPath(nodes: seq<Node>, towers: Towers, level: nat, rank: seq<nat>, k: nat, towers': Towers,
                          p: nat, l: nat)
    requires Deleting(nodes, towers, level, rank, k, towers')
    requires p <= k && l < level && l < |towers[p]| && rank[l] != p
    ensures LinkOk(Without(nodes, k), towers', p, l)
  {
    OffPathStays(nodes, towers, level, rank, k, p, l);
    assert PathAt(towers, rank[l], l, k) && LinkOk(nodes, towers, p, l);
    assert towers'[p][l] == Bypassed(nodes, towers, rank, k, p, l);
  }

  lemma DeleteLinkAfter(nodes: seq<Node>, towers: Towers, level: nat, rank: seq<nat>, k: nat, towers': Towers,
                        p: nat, l: nat)
    requires Deleting(nodes, towers, level, rank, k, towers')
    requires k + 1 < p < |nodes| && l < level && l < |towers[p]|
    ensures l < |towers'[p - 1]| && LinkOk(Without(nodes, k), towers', p - 1, l)
  {
    assert LinkOk(nodes, towers, p, l);
  }

  lemma DeleteLinks(nodes: seq<Node>, towers: Towers, level: nat, rank: seq<nat>, k: nat, towers': Towers)
    requires Deleting(nodes, towers, level, rank, k, towers')
    ensures Linked(Without(nodes, k), towers', level)
  {
    var nodes' := Without(nodes, k);
    forall p, l | 0 <= p < |nodes'| && 0 <= l < level && l < |towers'[p]|
      ensures LinkOk(nodes', towers', p, l)
    {
      if p > k {
        assert towers'[p] == towers[p + 1];
        DeleteLinkAfter(nodes, towers, level, rank, k, towers', p + 1, l);
      } else if rank[l] == p {
        DeleteLinkOnPath(nodes, towers, level, rank, k, towers', l);
      } else {
        DeleteLinkOffPath(nodes, towers, level, rank, k, towers', p, l);
      }
    }
    forall l | level <= l < MAX_LEVEL ensures towers'[0][l].forward == null {
      assert towers'[0][l] == Bypassed(nodes, towers, rank, k, 0, l);
    }
  }

  /** A level the header has no link in holds no node. */
  lemma LowerLevel(nodes: seq<Node>, towers: Towers, level: nat)
    requires Linked(nodes, towers, level) && level > 1 && towers[0][level - 1].forward == null
    ensures Linked(nodes, towers, level - 1)
  {
    assert LinkOk(nodes, towers, 0, level - 1);
  }

  // ----- raising the list's level before a tall node goes in -----

  ghost predicate Raised(towers: Towers, from: nat, to: nat, length: nat, towers': Towers)
    requires |towers| > 0 && to <= |towers[0]|
  {
    && |towers'| == |towers|
    && |towers'[0]| == |towers[0]|
    && (forall l :: 0 <= l < |towers[0]| ==>
          towers'[0][l] == if from <= l < to then Level(towers[0][l].forward, length) else towers[0][l])
    && forall p :: 1 <= p < |towers| ==> towers'[p] == towers[p]
  }

  lemma RaiseLinks(nodes: seq<Node>, towers: Towers, level: nat, height: nat, towers': Towers)
    requires Linked(nodes, towers, level) && level <= height <= MAX_LEVEL
    requires Raised(towers, level, height, |nodes| - 1, towers')
    ensures Linked(nodes, towers', height)
  {
    forall p, l | 0 <= p < |nodes| && 0 <= l < height && l < |towers'[p]|
      ensures LinkOk(nodes, towers', p, l)
    {
      if l < level {
        assert LinkOk(nodes, towers, p, l);
      }
    }
  }

  lemma RaisePath(nodes: seq<Node>, towers: Towers, level: nat, height: nat, towers': Towers, rank: seq<nat>,
                  rank': seq<nat>, k: nat)
    requires Linked(nodes, towers, level) && level <= height <= MAX_LEVEL
    requires Raised(towers, level, height, |nodes| - 1, towers')
    requires |rank| == level && PathOk(nodes, towers, rank, k)
    requires |rank'| == height && rank <= rank' && forall l :: level <= l < height ==> rank'[l] == 0
    ensures PathOk(nodes, towers', rank', k)
  {
    forall l | 0 <= l < height ensures PathAt(towers', rank'[l], l, k) {
      if l < level {
        assert PathAt(towers, rank[l], l, k);
      }
    }
  }

  ghost function Keys(nodes: seq<Node>): (s: seq<Pair>)
    requires |nodes| > 0
  {
    seq(|nodes| - 1, i requires 0 <= i < |nodes| - 1 => Key(nodes[i + 1]))
  }

  lemma InsertKeys(nodes: seq<Node>, k: nat, x: Node)
    requires 0 < |nodes| && Sorted(Keys(nodes)) && Key(x) !in Keys(nodes)
    requires k == Passing(Keys(nodes), Before(Key(x)))
    ensures Keys(With(nodes, k, x)) == Inserted(Keys(nodes), Key(x))
    ensures Sorted(Keys(With(nodes, k, x)))
    ensures forall n :: n in With(nodes, k, x) <==> n in nodes || n == x
  {
    InsertedSorted(Keys(nodes), Key(x));
    assert nodes == nodes[..k + 1] + nodes[k + 1..];
    assert Keys(With(nodes, k, x)) == Inserted(Keys(nodes), Key(x));
  }

  lemma DeleteKeys(nodes: seq<Node>, k: nat)
    requires k + 1 < |nodes| && Sorted(Keys(nodes))
    requires k == Passing(Keys(nodes), Before(Key(nodes[k + 1])))
    ensures Keys(Without(nodes, k)) == Removed(Keys(nodes), Key(nodes[k + 1]))
    ensures Sorted(Keys(Without(nodes, k)))
    ensures forall n :: n in Without(nodes, k) ==> n in nodes
  {
    RemovedSorted(Keys(nodes), Key(nodes[k + 1]));
    assert Keys(Without(nodes, k)) == Removed(Keys(nodes), Key(nodes[k + 1]));
  }

  // ----- the walk down the levels -----

  ghost predicate NearSide(nodes: seq<Node>, c: Cut, r: nat)
    requires r < |nodes|
  {
    forall p :: 1 <= p <= r ==> Passes(c, Key(nodes[p]))
  }

  ghost predicate Stopped(towers: Towers, c: Cut, r: nat, l: nat)
  {
    && r < |towers| && l < |towers[r]|
    && (towers[r][l].forward == null || !Passes(c, Key(towers[r][l].forward)))
  }

  /** The levels from `i` up have been walked; the last position reached is `r`. */
  ghost predicate Trail(towers: Towers, c: Cut, rank: seq<nat>, level: nat, i: nat, r: nat)
  {
    && i <= |rank| == level
    && (if i < level then r == rank[i] else r == 0)
    && forall l :: i <= l < level ==> rank[l] <= r && Stopped(towers, c, rank[l], l)
  }

  lemma TrailExtends(towers: Towers, c: Cut, rank: seq<nat>, level: nat, i: nat, r: nat, r': nat)
    requires Trail(towers, c, rank, level, i + 1, r) && r <= r' && Stopped(towers, c, r', i) && i < level
    ensures Trail(towers, c, rank[i := r'], level, i, r')
  {
  }

  lemma TrailIsPath(nodes: seq<Node>, towers: Towers, c: Cut, rank: seq<nat>, level: nat, k: nat)
    requires Linked(nodes, towers, level) && Trail(towers, c, rank, level, 0, k)
    requires k < |nodes| && NearSide(nodes, c, k)
    ensures PathOk(nodes, towers, rank, k)
  {
    forall l | 0 <= l < level ensures PathAt(towers, rank[l], l, k) {
      assert Stopped(towers, c, rank[l], l);
      assert LinkOk(nodes, towers, rank[l], l);
    }
  }

  class SkipList {
    const header: Node
    ghost const home: Bytes
    var tail: Node?
    var length: nat
    var level: nat
    ghost var nodes: seq<Node>   // the header, then the nodes of level 0 in order
    ghost var towers: Towers     // nodes[p].level for every position p

    ghost predicate Chained()
      reads this, nodes
    {
      && |nodes| > 0 && nodes[0] == header
      && (forall p :: 0 <= p < |nodes| ==> nodes[p].home == home)
      && tail == (if |nodes| == 1 then null else nodes[|nodes| - 1])
      && forall p :: 1 <= p < |nodes| ==> nodes[p].backward == if p == 1 then null else nodes[p - 1]
    }

    ghost predicate Mirrored()
      reads this, nodes
    {
      |towers| == |nodes| && forall p :: 0 <= p < |nodes| ==> nodes[p].level == towers[p]
    }

    ghost predicate Valid()
      reads this, nodes
    {
      && Chained()
      && Mirrored()
      && Linked(nodes, towers, level)
      && TopUsed(towers, level)
      && length == |nodes| - 1
      && Sorted(Keys(nodes))
    }

    ghost function Contents(): (s: seq<Pair>)
      requires Valid()
      reads this, nodes
      ensures Sorted(s) && |s| == length == |nodes| - 1
    {
      Keys(nodes)
    }

    constructor (ghost home: Bytes)
      ensures Valid() && Contents() == [] && this.home == home
      ensures fresh(nodes)
    {
      var h := new Node(MAX_LEVEL, 0.0, [], home);
      header := h;
      this.home := home;
      tail := null;
      length := 0;
      level := 1;
      nodes := [h];
      towers := [h.level];
    }

    /** The number of coin tosses is not bounded by the source's generator, only by the maximum level. */
    method RandomLevel() returns (height: nat)
      ensures 1 <= height <= MAX_LEVEL
    {
      height := 1;
      var heads: bool := *;
      while heads && height < MAX_LEVEL
        invariant 1 <= height <= MAX_LEVEL
      {
        height := height + 1;
        heads := *;
      }
    }

    lemma PassingBelow(c: Cut, q: nat)
      requires Valid() && 1 <= q < |nodes| && Passes(c, Key(nodes[q]))
      ensures NearSide(nodes, c, q)
    {
      forall p | 1 <= p < q ensures Passes(c, Key(nodes[p])) {
        assert Less(Keys(nodes)[p - 1], Keys(nodes)[q - 1]);
        PassesDownwards(c, Key(nodes[p]), Key(nodes[q]));
      }
    }

    /** A walk that stopped at level 0 stands on the last node on the near side. */
    lemma StoppedAtBottom(c: Cut, k: nat)
      requires Valid() && k < |nodes| && Stopped(towers, c, k, 0) && NearSide(nodes, c, k)
      ensures k == Passing(Contents(), c)
    {
      assert LinkOk(nodes, towers, k, 0);
      assert k + 1 < |nodes| ==> |towers[k + 1]| > 0;
      forall p | k < p < |nodes| ensures !Passes(c, Key(nodes[p])) {
        if Passes(c, Key(nodes[p])) {
          PassingBelow(c, p);
        }
      }
      PassingSplits(Contents(), c, k);
    }

    /** Advances along level `i` while the next node is on the near side of the cut, adding up the spans. */
    method WalkLevel(c: Cut, i: nat, from: Node, start: nat) returns (x: Node, r: nat)
      requires Valid() && start < |nodes| && from == nodes[start] && i < level && i < |towers[start]|
      requires NearSide(nodes, c, start)
      ensures start <= r < |nodes| && x == nodes[r]
      ensures NearSide(nodes, c, r) && Stopped(towers, c, r, i)
    {
      x, r := from, start;
      while x.level[i].forward != null && Passes(c, Key(x.level[i].forward))
        invariant start <= r < |nodes| && x == nodes[r] && i < |towers[r]|
        invariant NearSide(nodes, c, r)
        decreases |nodes| - r
      {
        assert LinkOk(nodes, towers, r, i);
        PassingBelow(c, r + x.level[i].span);
        r := r + x.level[i].span;
        x := x.level[i].forward;
      }
    }

    /** Walks down from the top level; `update[l]` is the last node reached at level `l`, `rank[l]` its position. */
    method Descend(c: Cut) returns (update: seq<Node>, rank: seq<nat>)
      requires Valid()
      ensures OnPath(update, rank)
      ensures rank[0] == Passing(Contents(), c)
    {
      update := seq(level, _ => header);
      rank := seq(level, _ => 0);
      var x, r: nat := header, 0;
      var i := level;
      while i > 0
        invariant 0 <= i <= level && |update| == level
        invariant r < |nodes| && x == nodes[r] && i <= |towers[r]| && NearSide(nodes, c, r)
        invariant Trail(towers, c, rank, level, i, r)
        invariant forall l :: i <= l < level ==> update[l] == nodes[rank[l]]
      {
        i := i - 1;
        ghost var start := r;
        x, r := WalkLevel(c, i, x, r);
        TrailExtends(towers, c, rank, level, i, start, r);
        rank := rank[i := r];
        update := update[i := x];
      }
      StoppedAtBottom(c, r);
      TrailIsPath(nodes, towers, c, rank, level, r);
    }

    /** `Valid`, except that the top level may be empty. */
    ghost predicate Loose()
      reads this, nodes
    {
      && Chained()
      && Mirrored()
      && Linked(nodes, towers, level)
      && length == |nodes| - 1
      && Sorted(Keys(nodes))
    }

    /** `update` holds the nodes at the positions `rank` of a path. */
    ghost predicate OnPath(update: seq<Node>, rank: seq<nat>)
      reads this
    {
      && |nodes| == |towers| && 0 < |rank| == |update| == level
      && PathOk(nodes, towers, rank, rank[0])
      && forall l :: 0 <= l < level ==> rank[l] < |nodes| && update[l] == nodes[rank[l]]
    }

    /** The loop over the new levels: there the path starts at the header, which spans the whole list. */
    method SpanHeader(update: seq<Node>, rank: seq<nat>, height: nat) returns (update': seq<Node>, rank': seq<nat>)
      requires |update| == |rank| == level < height <= MAX_LEVEL == |header.level|
      modifies header`level
      ensures |update'| == height && rank' == rank + seq(height - level, _ => 0)
      ensures update <= update' && forall l :: level <= l < height ==> update'[l] == header
      ensures |header.level| == MAX_LEVEL
      ensures forall l :: 0 <= l < MAX_LEVEL ==>
        header.level[l] == if level <= l < height then Level(old(header.level)[l].forward, length) else old(header.level)[l]
    {
      update', rank' := update, rank;
      var i := level;
      while i < height
        invariant level <= i <= height && |update'| == |rank'| == i
        invariant rank' == rank + seq(i - level, _ => 0)
        invariant update <= update' && forall l :: level <= l < i ==> update'[l] == header
        invariant |header.level| == MAX_LEVEL
        invariant forall l :: 0 <= l < MAX_LEVEL ==>
          header.level[l] == if level <= l < i then Level(old(header.level)[l].forward, length) else old(header.level)[l]
      {
        rank' := rank' + [0];
        update' := update' + [header];
        header.level := header.level[i := Level(header.level[i].forward, length)];
        i := i + 1;
      }
    }

    /** Brings the levels up to `height` into use. */
    method Raise(update: seq<Node>, rank: seq<nat>, height: nat) returns (update': seq<Node>, rank': seq<nat>)
      requires Loose() && level < height <= MAX_LEVEL
      requires OnPath(update, rank)
      modifies this`level, this`towers, header`level
      ensures Loose() && level == height
      ensures OnPath(update', rank')
      ensures rank'[0] == rank[0] && rank'[level - 1] == 0
    {
      hide LinkOk, Sorted;
      update', rank' := SpanHeader(update, rank, height);
      ghost var towers' := towers[0 := header.level];
      RaiseLinks(nodes, towers, level, height, towers');
      RaisePath(nodes, towers, level, height, towers', rank, rank', rank[0]);
      level := height;
      towers := towers';
    }

    method RaiseIfTaller(update: seq<Node>, rank: seq<nat>, height: nat) returns (update': seq<Node>, rank': seq<nat>)
      requires Valid() && OnPath(update, rank) && height <= MAX_LEVEL
      modifies this`level, this`towers, header`level
      ensures Loose() && height <= level
      ensures OnPath(update', rank') && rank'[0] == rank[0]
      ensures TopUsed(towers, level) || (rank'[level - 1] == 0 && level == height)
    {
      update', rank' := update, rank;
      if height > level {
        update', rank' := Raise(update, rank, height);
      }
    }

    /** The loop over the new node's levels: at each it is put after the path's node. */
    method LinkIn(x: Node, update: seq<Node>, rank: seq<nat>) returns (ghost cur: Towers)
      requires Loose() && x !in nodes && 1 <= |x.level| <= level && x.backward == null
      requires OnPath(update, rank)
      modifies nodes, x
      ensures x.backward == null && |x.level| == old(|x.level|)
      ensures forall p :: 0 <= p < |nodes| ==> nodes[p].backward == old(nodes[p].backward)
      ensures |cur| == |nodes| && forall p :: 0 <= p < |nodes| ==> nodes[p].level == cur[p]
      ensures LinkedBelow(towers, rank, rank[0], x, |x.level|, |x.level|, cur)
      ensures forall l :: 0 <= l < |x.level| ==>
        PathAt(towers, rank[l], l, rank[0]) && x.level[l] == Onward(towers, rank, rank[0], l)
    {
      cur := towers;
      var height := |x.level|;
      var i := 0;
      while i < height
        invariant 0 <= i <= height == |x.level| && x.backward == null
        invariant |cur| == |nodes|
        invariant forall p :: 0 <= p < |nodes| ==> nodes[p].level == cur[p] && nodes[p].backward == old(nodes[p].backward)
        invariant LinkedBelow(towers, rank, rank[0], x, height, i, cur)
        invariant forall l :: 0 <= l < i ==>
          PathAt(towers, rank[l], l, rank[0]) && x.level[l] == Onward(towers, rank, rank[0], l)
      {
        assert PathAt(towers, rank[i], i, rank[0]);
        LinkedBelowStep(towers, rank, rank[0], x, height, i, cur);
        var u := update[i];
        x.level := x.level[i := Level(u.level[i].forward, u.level[i].span - (rank[0] - rank[i]))];
        u.level := u.level[i := Level(x, rank[0] - rank[i] + 1)];
        cur := cur[rank[i] := u.level];
        i := i + 1;
      }
    }

    /** The loop over the levels above the new node: the path's link there spans one more node. */
    method LinkOver(x: Node, height: nat, update: seq<Node>, rank: seq<nat>, ghost before: Towers) returns (ghost cur: Towers)
      requires |nodes| == |towers| && |before| == |nodes| && x !in nodes && 1 <= height <= level
      requires forall i, j :: 0 <= i < j < |nodes| ==> nodes[i] != nodes[j]
      requires forall p :: 0 <= p < |nodes| ==> nodes[p].level == before[p]
      requires OnPath(update, rank)
      requires LinkedBelow(towers, rank, rank[0], x, height, height, before)
      modifies nodes
      ensures forall p :: 0 <= p < |nodes| ==> nodes[p].backward == old(nodes[p].backward)
      ensures |cur| == |nodes| && forall p :: 0 <= p < |nodes| ==> nodes[p].level == cur[p]
      ensures LinkedBelow(towers, rank, rank[0], x, height, level, cur)
    {
      cur := before;
      var i := height;
      while i < level
        invariant height <= i <= level
        invariant |cur| == |nodes|
        invariant forall p :: 0 <= p < |nodes| ==> nodes[p].level == cur[p] && nodes[p].backward == old(nodes[p].backward)
        invariant LinkedBelow(towers, rank, rank[0], x, height, i, cur)
      {
        assert PathAt(towers, rank[i], i, rank[0]);
        LinkedBelowStep(towers, rank, rank[0], x, height, i, cur);
        var u := update[i];
        u.level := u.level[i := Level(u.level[i].forward, u.level[i].span + 1)];
        cur := cur[rank[i] := u.level];
        i := i + 1;
      }
    }

    /** Links `x` into every level; the backward pointers and the tail still skip it. */
    method LinkLevels(x: Node, update: seq<Node>, rank: seq<nat>)
      requires Loose() && x !in nodes && 1 <= |x.level| <= level && x.backward == null
      requires OnPath(update, rank)
      requires TopUsed(towers, level) || (rank[level - 1] == 0 && level == |x.level|)
      modifies nodes, x, this`nodes, this`towers
      ensures nodes == With(old(nodes), rank[0], x)
      ensures Mirrored() && Linked(nodes, towers, level)
      ensures x.backward == null && forall n :: n in old(nodes) ==> n.backward == old(n.backward)
      ensures TopUsed(towers, level)
    {
      hide LinkOk, TopUsed, LinkedBelow, Sorted, Onward;
      var k, height := rank[0], |x.level|;
      ghost var cur := LinkIn(x, update, rank);
      cur := LinkOver(x, height, update, rank, cur);
      InsertTowers(nodes, towers, level, rank, k, x, x.level, cur);
      towers := WithTower(cur, k, x.level);
      nodes := With(nodes, k, x);
    }

    /** Threads the node at position `k + 1`, already linked at level 0, into the backward chain. */
    method ChainIn(x: Node, first: Node, ghost before: seq<Node>, ghost k: nat)
      requires k < |before| && x !in before && nodes == With(before, k, x) && before[0] == header
      requires first == before[k] && x.backward == null && x.home == home
      requires forall p :: 0 <= p < |before| ==> before[p].home == home
      requires Mirrored() && Linked(nodes, towers, level)
      requires tail == if |before| == 1 then null else before[|before| - 1]
      requires forall p :: 1 <= p < |before| ==> before[p].backward == if p == 1 then null else before[p - 1]
      modifies x`backward, before`backward, this`tail, this`length
      ensures Chained() && Mirrored() && length == old(length) + 1
    {
      hide Linked;
      BottomLink(nodes, towers, level, k + 1);
      assert nodes[k + 1].level == towers[k + 1];
      x.backward := if first == header then null else first;
      if x.level[0].forward != null {
        assert k + 2 < |nodes| && x.level[0].forward == before[k + 1];
        x.level[0].forward.backward := x;
      } else {
        tail := x;
      }
      length := length + 1;
    }

    /** Everything `insert` does once the new node exists. */
    method Attach(x: Node, update: seq<Node>, rank: seq<nat>)
      requires Loose() && x !in nodes && 1 <= |x.level| <= level && x.backward == null
      requires OnPath(update, rank)
      requires TopUsed(towers, level) || (rank[level - 1] == 0 && level == |x.level|)
      requires x.home == home && Key(x) !in Keys(nodes) && rank[0] == Passing(Keys(nodes), Before(Key(x)))
      modifies nodes, x, this`nodes, this`towers, this`tail, this`length
      ensures Valid() && forall n :: n in nodes <==> n in old(nodes) || n == x
      ensures Contents() == Inserted(old(Keys(nodes)), Key(x))
    {
      LinkLevels(x, update, rank);
      ChainIn(x, update[0], old(nodes), rank[0]);
      InsertKeys(old(nodes), rank[0], x);
    }

    lemma HeaderIsFirst()
      requires Valid()
      ensures header in nodes
    {
    }

    method Insert(score: Score, ele: Bytes) returns (x: Node)
      requires Valid() && Pair(score, ele) !in Contents()
      modifies this, nodes
      ensures Valid() && fresh(x) && forall n :: n in nodes <==> n in old(nodes) || n == x
      ensures Contents() == Inserted(old(Contents()), Pair(score, ele))
      ensures Key(x) == Pair(score, ele)
    {
      hide Linked, TopUsed, Sorted, Chained, Mirrored, OnPath, Inserted, Passing;
      HeaderIsFirst();
      var update, rank := Descend(Before(Pair(score, ele)));
      var height := RandomLevel();
      update, rank := RaiseIfTaller(update, rank, height);
      x := new Node(height, score, ele, home);
      Attach(x, update, rank);
    }

    /** The loop of `deleteNode` over the levels: a link to `x` takes over what `x` led to, any other link of the
        path spans one node fewer. */
    method UnlinkLevels(x: Node, update: seq<Node>, ghost rank: seq<nat>) returns (ghost cur: Towers)
      requires Loose() && OnPath(update, rank) && rank[0] + 1 < |nodes| && x == nodes[rank[0] + 1]
      modifies nodes
      ensures forall p :: 0 <= p < |nodes| ==> nodes[p].backward == old(nodes[p].backward)
      ensures |cur| == |nodes| && forall p :: 0 <= p < |nodes| ==> nodes[p].level == cur[p]
      ensures UnlinkedBelow(nodes, towers, rank, rank[0], level, cur)
    {
      hide LinkOk, UnlinkedBelow, Sorted;
      cur := towers;
      UnlinkedNone(nodes, towers, rank, rank[0]);
      var i := 0;
      while i < level
        invariant 0 <= i <= level
        invariant |cur| == |nodes|
        invariant forall p :: 0 <= p < |nodes| ==> nodes[p].level == cur[p] && nodes[p].backward == old(nodes[p].backward)
        invariant UnlinkedBelow(nodes, towers, rank, rank[0], i, cur)
      {
        UnlinkedBelowStep(nodes, towers, level, rank, rank[0], i, cur);
        var u := update[i];
        var bypass := if u.level[i].forward == x then Level(x.level[i].forward, u.level[i].span + x.level[i].span - 1)
                      else Level(u.level[i].forward, u.level[i].span - 1);
        assert bypass == Bypassed(nodes, towers, rank, rank[0], rank[i], i);
        u.level := u.level[i := bypass];
        cur := cur[rank[i] := u.level];
        i := i + 1;
      }
    }

    /** Takes `x` out of the backward chain. */
    method ChainOut(x: Node, ghost before: seq<Node>, ghost k: nat)
      requires k + 1 < |before| && x == before[k + 1] && nodes == Without(before, k) && before[0] == header
      requires forall i, j :: 0 <= i < j < |before| ==> before[i] != before[j]
      requires forall p :: 0 <= p < |before| ==> before[p].home == home
      requires Mirrored() && |x.level| > 0
      requires x.level[0].forward == if k + 2 < |before| then before[k + 2] else null
      requires tail == before[|before| - 1]
      requires forall p :: 1 <= p < |before| ==> before[p].backward == if p == 1 then null else before[p - 1]
      modifies before`backward, this`tail
      ensures Chained() && Mirrored()
    {
      if x.level[0].forward != null {
        assert nodes[k + 1] == x.level[0].forward;
        x.level[0].forward.backward := x.backward;
      } else {
        tail := x.backward;
      }
    }

    method LowerLevels()
      requires Chained() && Mirrored() && Linked(nodes, towers, level)
      modifies this`level
      ensures Chained() && Mirrored() && Linked(nodes, towers, level) && TopUsed(towers, level)
    {
      while level > 1 && header.level[level - 1].forward == null
        invariant Linked(nodes, towers, level)
        decreases level
      {
        LowerLevel(nodes, towers, level);
        level := level - 1;
      }
    }

    /** Unlinks `x` from every level; the backward pointers and the tail still include it. */
    method Unlink(x: Node, update: seq<Node>, ghost rank: seq<nat>)
      requires Loose() && OnPath(update, rank) && rank[0] + 1 < |nodes| && x == nodes[rank[0] + 1]
      modifies nodes, this`nodes, this`towers
      ensures nodes == Without(old(nodes), rank[0])
      ensures Mirrored() && Linked(nodes, towers, level)
      ensures x.level == old(x.level) && forall n :: n in old(nodes) ==> n.backward == old(n.backward)
    {
      ghost var cur := UnlinkLevels(x, update, rank);
      UnlinkedAll(nodes, towers, level, rank, rank[0], cur);
      assert x.level == cur[rank[0] + 1];
      towers := WithoutTower(cur, rank[0]);
      nodes := Without(nodes, rank[0]);
    }

    /** Everything `deleteNode` does before it lowers the level. */
    method Detach(x: Node, update: seq<Node>, ghost rank: seq<nat>)
      requires Valid() && OnPath(update, rank) && rank[0] + 1 < |nodes| && x == nodes[rank[0] + 1]
      requires rank[0] == Passing(Keys(nodes), Before(Key(x)))
      modifies nodes, this`nodes, this`towers, this`tail
      ensures Chained() && Mirrored() && Linked(nodes, towers, level) && Sorted(Keys(nodes))
      ensures length == |nodes| && forall n :: n in nodes ==> n in old(nodes)
      ensures Keys(nodes) == Removed(old(Contents()), Key(x))
    {
      hide Linked, TopUsed, LinkOk, Removed, Passing;
      BottomLink(nodes, towers, level, rank[0] + 1);
      DeleteKeys(nodes, rank[0]);
      Unlink(x, update, rank);
      ChainOut(x, old(nodes), rank[0]);
    }

    method DeleteNode(x: Node, update: seq<Node>, ghost rank: seq<nat>)
      requires Valid() && OnPath(update, rank) && rank[0] + 1 < |nodes| && x == nodes[rank[0] + 1]
      requires rank[0] == Passing(Keys(nodes), Before(Key(x)))
      modifies this, nodes
      ensures Valid() && forall n :: n in nodes ==> n in old(nodes)
      ensures Contents() == Removed(old(Contents()), Key(x))
    {
      hide Linked, TopUsed, Sorted, Removed, Keys, OnPath;
      Detach(x, update, rank);
      LowerLevels();
      length := length - 1;
    }

    method Delete(score: Score, ele: Bytes) returns (found: bool)
      requires Valid()
      modifies this, nodes
      ensures Valid() && forall n :: n in nodes ==> n in old(nodes)
      ensures found <==> Pair(score, ele) in old(Contents())
      ensures Contents() == Removed(old(Contents()), Pair(score, ele))
    {
      var update, rank := Descend(Before(Pair(score, ele)));
      ghost var k := rank[0];
      PresentAt(Contents(), Pair(score, ele));
      BottomLink(nodes, towers, level, k);
      var x := update[0].level[0].forward;
      if x != null && score == x.score && x.ele == ele {
        DeleteNode(x, update, rank);
        return true;
      }
      return false;
    }

    /** The walk of the score-range queries: as `Descend`, without remembering the path. */
    method Walk(c: Cut) returns (x: Node, r: nat)
      requires Valid()
      ensures r == Passing(Contents(), c) && r < |nodes| && x == nodes[r]
    {
      x, r := header, 0;
      var i := level;
      while i > 0
        invariant 0 <= i <= level
        invariant r < |nodes| && x == nodes[r] && i <= |towers[r]| && NearSide(nodes, c, r)
        invariant i == 0 ==> Stopped(towers, c, r, 0)
      {
        i := i - 1;
        x, r := WalkLevel(c, i, x, r);
      }
      StoppedAtBottom(c, r);
    }

    /** The 1-based rank of a pair; the walk may stop early, at any node that carries the member. */
    method GetRank(score: Score, ele: Bytes) returns (rank: nat)
      requires Valid()
      ensures IsRank(Contents(), Pair(score, ele), rank)
    {
      ghost var c := Upto(Pair(score, ele));
      var x := header;
      rank := 0;
      var i := level;
      while i > 0
        invariant 0 <= i <= level
        invariant rank < |nodes| && x == nodes[rank] && i <= |towers[rank]| && NearSide(nodes, c, rank)
        invariant i == 0 ==> Stopped(towers, c, rank, 0) && (rank > 0 ==> x.ele != ele)
      {
        i := i - 1;
        x, rank := WalkLevel(Upto(Pair(score, ele)), i, x, rank);
        if x != header && x.ele == ele {
          Trichotomy(Key(x), Pair(score, ele));
          return;
        }
      }
      StoppedAtBottom(c, rank);
      if Pair(score, ele) in Contents() {
        PresentLast(Contents(), Pair(score, ele));
      }
      rank := 0;
    }

    method GetElementByRank(rank: nat) returns (x: Node?)
      requires Valid()
      ensures x == if 1 <= rank <= |Contents()| then nodes[rank] else null
    {
      if rank == 0 || rank > length {
        return null;
      }
      x := header;
      var traversed: nat := 0;
      var i := level;
      while i > 0
        invariant 0 <= i <= level
        invariant traversed < rank && x == nodes[traversed] && i <= |towers[traversed]|
        invariant i > 0
      {
        i := i - 1;
        while x.level[i].forward != null && traversed + x.level[i].span <= rank
          invariant traversed <= rank && x == nodes[traversed] && i < |towers[traversed]|
          decreases rank - traversed
        {
          assert LinkOk(nodes, towers, traversed, i);
          traversed := traversed + x.level[i].span;
          x := x.level[i].forward;
        }
        if traversed == rank {
          return;
        }
        assert LinkOk(nodes, towers, traversed, i);
        BottomLink(nodes, towers, level, traversed);
      }
      x := null;
    }

    method FirstInRangeRank(min: Score) returns (rank: nat)
      requires Valid()
      ensures rank == if Passing(Contents(), BelowScore(min)) == |Contents()| then 0
                      else Passing(Contents(), BelowScore(min)) + 1
    {
      var x, r := Walk(BelowScore(min));
      BottomLink(nodes, towers, level, r);
      PassingSorted(Contents(), BelowScore(min));
      var first := x.level[0].forward;
      assert first != null ==> Contents()[r] == Key(first);
      rank := if first != null && first.score >= min then r + 1 else 0;
    }

    method LastInRangeRank(max: Score) returns (rank: nat)
      requires Valid()
      ensures rank == Passing(Contents(), ThroughScore(max))
    {
      var x, r := Walk(ThroughScore(max));
      rank := if x != header then r else 0;
    }
  }
}
