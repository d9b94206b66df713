/** Maximum bipartite matching of gmock-matchers.cc: a single pass over the left nodes, one
    recursive search from each, over two arrays updated in place. */
module Matching {

  /** Which elements (rows) match which matchers (columns). */
  datatype MatchMatrix = MatchMatrix(rows: seq<seq<bool>>, rhsSize: nat)
  {
    ghost predicate Valid() {
      forall i :: 0 <= i < |rows| ==> |rows[i]| == rhsSize
    }

    function LhsSize(): nat {
      |rows|
    }

    function RhsSize(): nat {
      rhsSize
    }

    predicate HasEdge(ilhs: nat, irhs: nat)
      requires Valid() && ilhs < LhsSize() && irhs < RhsSize()
    {
      rows[ilhs][irhs]
    }
  }

  /** Stands for the largest `size_t`, the mark of a node without partner. */
  const UNUSED := -1

  // ---------------------------------------------------------------- the two arrays

  ghost predicate InRange(g: MatchMatrix, left: seq<int>, right: seq<int>) {
    && |left| == g.LhsSize() && |right| == g.RhsSize()
    && (forall l :: 0 <= l < |left| ==> UNUSED <= left[l] < |right|)
    && (forall r :: 0 <= r < |right| ==> UNUSED <= right[r] < |left|)
  }

  /** Every entry of `left` is an edge of the graph, and `right` refers back to it. */
  ghost predicate LeftOk(g: MatchMatrix, left: seq<int>, right: seq<int>)
    requires g.Valid() && InRange(g, left, right)
  {
    forall l :: 0 <= l < |left| && left[l] != UNUSED ==> g.HasEdge(l, left[l]) && right[left[l]] == l
  }

  /** The documented invariant: elements are unused or mutually referent. */
  ghost predicate Mutual(g: MatchMatrix, left: seq<int>, right: seq<int>) {
    && g.Valid()
    && InRange(g, left, right)
    && LeftOk(g, left, right)
    && forall r :: 0 <= r < |right| && right[r] != UNUSED ==> left[right[r]] == r
  }

  /** What a successful search from `ilhs` leaves behind, before its caller gives the old
      partner of `ilhs` away: only that one right node may still refer to `ilhs` in vain. */
  ghost predicate Augmented(g: MatchMatrix, left: seq<int>, right: seq<int>, seen: seq<bool>,
                            left': seq<int>, right': seq<int>, ilhs: nat)
    requires g.Valid() && InRange(g, left, right) && |seen| == g.RhsSize() && ilhs < g.LhsSize()
  {
    && InRange(g, left', right')
    && LeftOk(g, left', right')
    && (forall r :: 0 <= r < |right'| && right'[r] != UNUSED ==> left'[right'[r]] == r || r == left[ilhs])
    && left'[ilhs] != UNUSED && !seen[left'[ilhs]]
    // right nodes that were already seen keep their partners
    && (forall r :: 0 <= r < |right| && seen[r] ==> right'[r] == right[r])
    // `ilhs` is the only left node that changes between used and unused
    && (forall l :: 0 <= l < |left| && l != ilhs ==> (left'[l] == UNUSED <==> left[l] == UNUSED))
    && (forall l :: 0 <= l < |left| && l != ilhs && left'[l] != left[l] ==> !seen[left[l]])
  }

  /** A set of right nodes from which no search can escape: all are used, and their partners
      have edges only into the set. */
  ghost predicate Closed(g: MatchMatrix, right: seq<int>, nodes: set<nat>)
    requires g.Valid() && |right| == g.RhsSize()
  {
    forall r :: r in nodes ==>
                  && r < |right| && 0 <= right[r] < g.LhsSize()
                  && EdgesInto(g, right[r], nodes)
  }

  ghost predicate EdgesInto(g: MatchMatrix, ilhs: nat, nodes: set<nat>)
    requires g.Valid() && ilhs < g.LhsSize()
  {
    forall r: nat :: r < g.RhsSize() && g.HasEdge(ilhs, r) ==> r in nodes
  }

  ghost function SeenSet(seen: seq<bool>): set<nat> {
    set r: nat | r < |seen| && seen[r]
  }

  /** What a failed search has explored: the edges of `ilhs`, and those of the partner of
      every node it has newly seen. */
  ghost predicate Explored(g: MatchMatrix, right: seq<int>, before: seq<bool>, seen: seq<bool>, ilhs: nat)
    requires g.Valid() && |right| == |before| == |seen| == g.RhsSize() && ilhs < g.LhsSize()
  {
    && EdgesInto(g, ilhs, SeenSet(seen))
    && NewlySeenExplored(g, right, before, seen)
  }

  ghost predicate NewlySeenExplored(g: MatchMatrix, right: seq<int>, before: seq<bool>, seen: seq<bool>)
    requires g.Valid() && |right| == |before| == |seen| == g.RhsSize()
  {
    forall r :: 0 <= r < |seen| && seen[r] && !before[r] ==>
                  0 <= right[r] < g.LhsSize() && EdgesInto(g, right[r], SeenSet(seen))
  }

  ghost predicate Grows(before: seq<bool>, seen: seq<bool>) {
    |before| == |seen| && forall r :: 0 <= r < |seen| && before[r] ==> seen[r]
  }

  // ---------------------------------------------------------------- one augmentation

  /** Taking a free right node. */
  lemma {:induction false} TakeFree(g: MatchMatrix, left: seq<int>, right: seq<int>, seen: seq<bool>, ilhs: nat,
                                    irhs: nat)
    requires Mutual(g, left, right) && |seen| == g.RhsSize() && ilhs < g.LhsSize() && irhs < g.RhsSize()
    requires left[ilhs] == UNUSED || seen[left[ilhs]]
    requires g.HasEdge(ilhs, irhs) && !seen[irhs] && right[irhs] == UNUSED
    ensures Augmented(g, left, right, seen, left[ilhs := irhs], right[irhs := ilhs], ilhs)
  {
  }

  /** Taking over a right node whose partner has found another one. */
  lemma {:induction false} TakeOver(g: MatchMatrix, left: seq<int>, right: seq<int>, seen: seq<bool>, seen': seq<bool>,
                                    left': seq<int>, right': seq<int>, ilhs: nat, irhs: nat)
    requires Mutual(g, left, right) && |seen| == g.RhsSize() && ilhs < g.LhsSize() && irhs < g.RhsSize()
    requires left[ilhs] == UNUSED || seen[left[ilhs]]
    requires g.HasEdge(ilhs, irhs) && !seen[irhs] && right[irhs] != UNUSED
    requires Grows(seen, seen') && seen'[irhs]
    requires Augmented(g, left, right, seen', left', right', right[irhs])
    ensures Augmented(g, left, right, seen, left'[ilhs := irhs], right'[irhs := ilhs], ilhs)
  {
    var other := right[irhs];
    assert other != ilhs;
    assert left'[ilhs] == left[ilhs];
    assert right'[irhs] == other && left'[other] != irhs;
  }

  class MaxBipartiteMatchState {
    const graph: MatchMatrix
    const left: array<int>
    const right: array<int>

    ghost predicate Valid()
      reads this, left, right
    {
      left != right && Mutual(graph, left[..], right[..])
    }

    constructor (graph: MatchMatrix)
      requires graph.Valid()
      ensures Valid() && this.graph == graph && fresh(left) && fresh(right)
      ensures forall l :: 0 <= l < left.Length ==> left[l] == UNUSED
      ensures forall r :: 0 <= r < right.Length ==> right[r] == UNUSED
    {
      this.graph := graph;
      this.left := new int[graph.LhsSize()](_ => UNUSED);
      this.right := new int[graph.RhsSize()](_ => UNUSED);
    }

    ghost function Unseen(seen: array<bool>): set<nat>
      reads seen
    {
      set r: nat | r < seen.Length && !seen[r]
    }

    /** Depth-first search from `ilhs`. It fails without a trace in the two arrays, or it moves
        partners along a path to a free right node. No search disturbs a closed set. */
    method TryAugment(ilhs: nat, seen: array<bool>, ghost closed: set<nat>) returns (ok: bool)
      requires Valid() && ilhs < graph.LhsSize() && seen.Length == graph.RhsSize()
      requires left[ilhs] == UNUSED || seen[left[ilhs]]
      requires Closed(graph, right[..], closed)
      modifies left, right, seen
      ensures Grows(old(seen[..]), seen[..])
      ensures !ok ==> left[..] == old(left[..]) && right[..] == old(right[..])
      ensures !ok ==> Explored(graph, right[..], old(seen[..]), seen[..], ilhs)
      ensures ok ==> Augmented(graph, old(left[..]), old(right[..]), old(seen[..]), left[..], right[..], ilhs)
      ensures ok ==> forall r :: r in closed ==> right[r] == old(right[r])
      ensures (exists r :: r in closed && old(right[r]) == ilhs) ==> !ok
      decreases Unseen(seen)
    {
      ghost var left0, right0, seen0 := left[..], right[..], seen[..];
      for irhs := 0 to graph.RhsSize()
        invariant left[..] == left0 && right[..] == right0
        invariant Grows(seen0, seen[..])
        invariant forall r: nat :: r < irhs && graph.HasEdge(ilhs, r) ==> seen[r]
        invariant NewlySeenExplored(graph, right0, seen0, seen[..])
      {
        if seen[irhs] || !graph.HasEdge(ilhs, irhs) {
          continue;
        }
        ghost var before := seen[..];
        seen[irhs] := true;
        ghost var marked := seen[..];
        if right[irhs] == UNUSED {
          TakeFree(graph, left0, right0, seen0, ilhs, irhs);
          left[ilhs] := irhs;
          right[irhs] := ilhs;
          return true;
        }
        assert irhs in old(Unseen(seen)) && irhs !in Unseen(seen) && Unseen(seen) <= old(Unseen(seen));
        ok := TryAugment(right[irhs], seen, closed);
        if ok {
          TakeOver(graph, left0, right0, seen0, marked, left[..], right[..], ilhs, irhs);
          left[ilhs] := irhs;
          right[irhs] := ilhs;
          return true;
        }
        KeepExploring(graph, right0, seen0, before, marked, seen[..], irhs);
      }
      return false;
    }

    /** The pairs that are recorded. */
    method ListPairs() returns (result: seq<(nat, nat)>)
      requires Valid()
      ensures result == PairsOf(left[..])
    {
      result := [];
      for ilhs := 0 to left.Length
        invariant result == PairsOf(left[..ilhs])
      {
        assert left[..ilhs + 1][..ilhs] == left[..ilhs];
        var irhs := left[ilhs];
        if irhs == UNUSED {
          continue;
        }
        result := result + [(ilhs, irhs)];
      }
      assert left[..left.Length] == left[..];
    }

    /** Search once from every left node, then list the pairs that were formed. */
    method Compute() returns (result: seq<(nat, nat)>)
      requires Valid()
      requires forall l :: 0 <= l < left.Length ==> left[l] == UNUSED
      modifies left, right
      ensures Valid() && result == PairsOf(left[..])
      ensures IsMatching(graph, PairSet(result)) && |PairSet(result)| == |result|
      ensures forall m :: IsMatching(graph, m) ==> |m| <= |result|
    {
      ghost var closed: set<nat> := {};
      for ilhs := 0 to graph.LhsSize()
        invariant Valid()
        invariant forall l :: ilhs <= l < left.Length ==> left[l] == UNUSED
        invariant Closed(graph, right[..], closed)
        invariant forall l: nat :: l < ilhs && left[l] == UNUSED ==> EdgesInto(graph, l, closed)
      {
        ghost var left0, right0 := left[..], right[..];
        var seen := new bool[graph.RhsSize()](_ => false);
        ghost var unseen := seen[..];
        var ok := TryAugment(ilhs, seen, closed);
        if ok {
          ClosedStays(graph, right0, right[..], closed);
        } else {
          ClosedGrows(graph, right[..], closed, unseen, seen[..], ilhs);
          assert forall l: nat :: l < ilhs && left[l] == UNUSED ==> EdgesInto(graph, l, closed + SeenSet(seen[..]));
          closed := closed + SeenSet(seen[..]);
        }
      }
      result := ListPairs();
      PairsFormMatching(graph, left[..], right[..]);
      forall m | IsMatching(graph, m) ensures |m| <= |result| {
        NoMatchingIsLarger(graph, left[..], right[..], closed, m);
      }
    }
  }

  lemma {:induction false} KeepExploring(g: MatchMatrix, right: seq<int>, seen0: seq<bool>, before: seq<bool>,
                                         marked: seq<bool>,
                                         seen: seq<bool>, irhs: nat)
    requires g.Valid() && |right| == |seen0| == |before| == g.RhsSize() && irhs < g.RhsSize()
    requires marked == before[irhs := true] && Grows(seen0, before) && Grows(marked, seen)
    requires 0 <= right[irhs] < g.LhsSize()
    requires NewlySeenExplored(g, right, seen0, before)
    requires Explored(g, right, marked, seen, right[irhs])
    ensures NewlySeenExplored(g, right, seen0, seen)
  {
    assert SeenSet(before) <= SeenSet(seen);
  }

  // ---------------------------------------------------------------- closed sets

  lemma {:induction false} ClosedStays(g: MatchMatrix, right: seq<int>, right': seq<int>, closed: set<nat>)
    requires g.Valid() && |right| == |right'| == g.RhsSize() && Closed(g, right, closed)
    requires forall r :: r in closed ==> right'[r] == right[r]
    ensures Closed(g, right', closed)
  {
  }

  lemma {:induction false} ClosedGrows(g: MatchMatrix, right: seq<int>, closed: set<nat>, unseen: seq<bool>,
                                       seen: seq<bool>, ilhs: nat)
    requires g.Valid() && |right| == |unseen| == |seen| == g.RhsSize() && ilhs < g.LhsSize()
    requires forall r :: 0 <= r < |unseen| ==> !unseen[r]
    requires Closed(g, right, closed) && Explored(g, right, unseen, seen, ilhs)
    ensures Closed(g, right, closed + SeenSet(seen)) && EdgesInto(g, ilhs, closed + SeenSet(seen))
  {
  }

  // ---------------------------------------------------------------- matchings

  /** A set of edges no two of which share a node. */
  ghost predicate IsMatching(g: MatchMatrix, m: set<(nat, nat)>) {
    && g.Valid()
    && (forall p :: p in m ==> p.0 < g.LhsSize() && p.1 < g.RhsSize() && g.HasEdge(p.0, p.1))
    && forall p, q :: p in m && q in m && (p.0 == q.0 || p.1 == q.1) ==> p == q
  }

  ghost function PairSet(ps: seq<(nat, nat)>): set<(nat, nat)> {
    set p | p in ps
  }

  /** The pairs recorded in `left`, in the order of the left nodes. */
  function PairsOf(left: seq<int>): seq<(nat, nat)>
    requires forall l :: 0 <= l < |left| ==> left[l] >= UNUSED
  {
    if left == [] then []
    else
      var n := |left| - 1;
      PairsOf(left[..n]) + if left[n] == UNUSED then [] else [(n, left[n])]
  }

  ghost function UsedLeft(left: seq<int>): set<nat> {
    set l: nat | l < |left| && left[l] != UNUSED
  }

  lemma {:induction false} PairsOfHas(left: seq<int>, l: nat, r: nat)
    requires forall i :: 0 <= i < |left| ==> left[i] >= UNUSED
    ensures (l, r) in PairsOf(left) <==> l < |left| && left[l] == r
  {
    if left != [] {
      PairsOfHas(left[..|left| - 1], l, r);
    }
  }

  lemma {:induction false} PairsOfCount(left: seq<int>)
    requires forall l :: 0 <= l < |left| ==> left[l] >= UNUSED
    ensures |PairsOf(left)| == |PairSet(PairsOf(left))| == |UsedLeft(left)|
  {
    if left == [] {
      assert PairSet(PairsOf(left)) == {} && UsedLeft(left) == {};
    } else {
      var n := |left| - 1;
      PairsOfCount(left[..n]);
      if left[n] != UNUSED { PairsOfHas(left[..n], n, left[n]); }
      UsedStep(left);
      PairSetStep(PairsOf(left[..n]), n, left[n]);
    }
  }

  lemma {:induction false} UsedStep(left: seq<int>)
    requires left != []
    ensures var n := |left| - 1;
            |UsedLeft(left)| == |UsedLeft(left[..n])| + if left[n] == UNUSED then 0 else 1
  {
    var n := |left| - 1;
    assert UsedLeft(left) == UsedLeft(left[..n]) + if left[n] == UNUSED then {} else {n};
  }

  lemma {:induction false} PairSetStep(ps: seq<(nat, nat)>, l: nat, r: int)
    requires r >= UNUSED && (r != UNUSED ==> (l, r) !in ps)
    ensures r == UNUSED ==> |PairSet(ps + [])| == |PairSet(ps)|
    ensures r != UNUSED ==> |PairSet(ps + [(l, r)])| == |PairSet(ps)| + 1
  {
    if r != UNUSED {
      assert PairSet(ps + [(l, r)]) == PairSet(ps) + {(l, r)};
    } else {
      assert ps + [] == ps;
    }
  }

  lemma {:induction false} PairsFormMatching(g: MatchMatrix, left: seq<int>, right: seq<int>)
    requires Mutual(g, left, right)
    ensures IsMatching(g, PairSet(PairsOf(left))) && |PairSet(PairsOf(left))| == |PairsOf(left)|
  {
    PairsOfCount(left);
    forall p | p in PairsOf(left) ensures p.0 < |left| && left[p.0] == p.1 {
      PairsOfHas(left, p.0, p.1);
    }
  }

  /** Map each edge of any matching to a used left node: through the closed set if it ends
      there, directly otherwise. */
  function Charge(right: seq<int>, closed: set<nat>, p: (nat, nat)): int
    requires p.1 < |right|
  {
    if p.1 in closed then right[p.1] else p.0
  }

  lemma {:induction false} ImageOfInjection(right: seq<int>, closed: set<nat>, m: set<(nat, nat)>, used: set<nat>)
    requires forall p :: p in m ==> p.1 < |right| && Charge(right, closed, p) >= 0 && Charge(right, closed, p) in used
    requires forall p, q :: p in m && q in m && Charge(right, closed, p) == Charge(right, closed, q) ==> p == q
    ensures |m| <= |used|
    decreases |m|
  {
    if m != {} {
      var p :| p in m;
      var c := Charge(right, closed, p);
      ImageOfInjection(right, closed, m - {p}, used - {c});
    }
  }

  /** The failed searches leave a vertex cover of the size of the matching: no matching of the
      graph can be larger. */
  lemma {:induction false} NoMatchingIsLarger(g: MatchMatrix, left: seq<int>, right: seq<int>, closed: set<nat>,
                                              m: set<(nat, nat)>)
    requires Mutual(g, left, right) && Closed(g, right, closed) && IsMatching(g, m)
    requires forall l: nat :: l < g.LhsSize() && left[l] == UNUSED ==> EdgesInto(g, l, closed)
    ensures |m| <= |PairsOf(left)|
  {
    forall p, q | p in m && q in m && Charge(right, closed, p) == Charge(right, closed, q) ensures p == q {
      ChargesDiffer(g, left, right, closed, m, p, q);
    }
    ImageOfInjection(right, closed, m, UsedLeft(left));
    PairsOfCount(left);
  }

  lemma {:induction false} ChargesDiffer(g: MatchMatrix, left: seq<int>, right: seq<int>, closed: set<nat>,
                                         m: set<(nat, nat)>,
                                         p: (nat, nat), q: (nat, nat))
    requires Mutual(g, left, right) && Closed(g, right, closed) && IsMatching(g, m)
    requires p in m && q in m && Charge(right, closed, p) == Charge(right, closed, q)
    ensures p == q
  {
    assert g.HasEdge(p.0, p.1) && g.HasEdge(q.0, q.1);
    assert p.1 in closed ==> EdgesInto(g, right[p.1], closed) && left[right[p.1]] == p.1;
    assert q.1 in closed ==> EdgesInto(g, right[q.1], closed) && left[right[q.1]] == q.1;
  }

  /** `FindMaxBipartiteMatching`: the result is a matching of the graph, and none is larger. */
  method FindMaxBipartiteMatching(g: MatchMatrix) returns (result: seq<(nat, nat)>)
    requires g.Valid()
    ensures IsMatching(g, PairSet(result)) && |PairSet(result)| == |result|
    ensures forall m :: IsMatching(g, m) ==> |m| <= |result|
  {
    var state := new MaxBipartiteMatchState(g);
    result := state.Compute();
  }
}
