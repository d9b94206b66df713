/** `UnorderedElementsAre` and its relatives: the decision of gmock-matchers.cc whether the
    elements can be assigned to the matchers. */
module UnorderedMatchers {
  import opened Matching

  /** `ExactMatch` sets both flags. */
  datatype MatchFlags = MatchFlags(superset: bool, subset: bool)

  /** An assignment of elements to matchers that meets the flags: every matcher is used for
      `Superset`, every element for `Subset`. */
  ghost predicate Satisfies(g: MatchMatrix, flags: MatchFlags, m: set<(nat, nat)>) {
    && IsMatching(g, m)
    && (flags.superset ==> CoversRight(g, m))
    && (flags.subset ==> CoversLeft(g, m))
  }

  ghost predicate CoversRight(g: MatchMatrix, m: set<(nat, nat)>) {
    forall r: nat :: r < g.RhsSize() ==> r in Rights(m)
  }

  ghost predicate CoversLeft(g: MatchMatrix, m: set<(nat, nat)>) {
    forall l: nat :: l < g.LhsSize() ==> l in Lefts(m)
  }

  ghost function Rights(m: set<(nat, nat)>): set<nat> {
    set p | p in m :: p.1
  }

  ghost function Lefts(m: set<(nat, nat)>): set<nat> {
    set p | p in m :: p.0
  }

  ghost function Below(n: nat): (s: set<nat>)
    ensures |s| == n
    ensures forall i: nat :: i in s <==> i < n
  {
    if n == 0 then {} else Below(n - 1) + {n - 1}
  }

  lemma {:induction false} ProjectionSizes(g: MatchMatrix, m: set<(nat, nat)>)
    requires IsMatching(g, m)
    ensures |Rights(m)| == |m| == |Lefts(m)|
    decreases |m|
  {
    if m == {} {
      assert Rights(m) == {} && Lefts(m) == {};
    } else {
      var p :| p in m;
      var rest := m - {p};
      ProjectionSizes(g, rest);
      assert Rights(m) == Rights(rest) + {p.1};
      assert Lefts(m) == Lefts(rest) + {p.0};
      assert p.1 !in Rights(rest) && p.0 !in Lefts(rest);
    }
  }

  lemma {:induction false} SubsetOfFullSize(a: set<nat>, b: set<nat>)
    requires a <= b
    ensures |a| <= |b|
    ensures |a| == |b| ==> a == b
  {
    assert b == a + (b - a);
    assert |b| == |a| + |b - a|;
  }

  /** A matching covers one side exactly when it has as many edges as that side has nodes. */
  lemma {:induction false} CoverageIsSize(g: MatchMatrix, m: set<(nat, nat)>)
    requires IsMatching(g, m)
    ensures |m| <= g.RhsSize() && |m| <= g.LhsSize()
    ensures CoversRight(g, m) <==> |m| == g.RhsSize()
    ensures CoversLeft(g, m) <==> |m| == g.LhsSize()
  {
    ProjectionSizes(g, m);
    SubsetOfFullSize(Rights(m), Below(g.RhsSize()));
    SubsetOfFullSize(Lefts(m), Below(g.LhsSize()));
    if CoversRight(g, m) {
      assert Rights(m) == Below(g.RhsSize());
    }
    if CoversLeft(g, m) {
      assert Lefts(m) == Below(g.LhsSize());
    }
  }

  /** `FindPairing`: true exactly when some assignment meets the flags. */
  method FindPairing(g: MatchMatrix, flags: MatchFlags) returns (result: bool)
    requires g.Valid()
    ensures result <==> exists m :: Satisfies(g, flags, m)
  {
    var matches := FindMaxBipartiteMatching(g);
    var maxFlow := |matches|;
    ghost var best := PairSet(matches);
    CoverageIsSize(g, best);
    forall m | Satisfies(g, flags, m)
      ensures flags.superset ==> maxFlow >= g.RhsSize()
      ensures flags.subset ==> maxFlow >= g.LhsSize()
    {
      CoverageIsSize(g, m);
    }
    if flags.superset && maxFlow < g.RhsSize() {
      return false;
    }
    if flags.subset && maxFlow < g.LhsSize() {
      return false;
    }
    assert Satisfies(g, flags, best);
    return true;
  }

  ghost predicate ElementMatched(g: MatchMatrix, l: nat)
    requires g.Valid() && l < g.LhsSize()
  {
    exists r: nat :: r < g.RhsSize() && g.HasEdge(l, r)
  }

  ghost predicate MatcherMatched(g: MatchMatrix, r: nat)
    requires g.Valid() && r < g.RhsSize()
  {
    exists l: nat :: l < g.LhsSize() && g.HasEdge(l, r)
  }

  /** `VerifyMatchMatrix`: true exactly when no matcher (for `Superset`) and no element (for
      `Subset`) is without any match. */
  method VerifyMatchMatrix(g: MatchMatrix, flags: MatchFlags) returns (result: bool)
    requires g.Valid()
    ensures result <==>
            && (flags.superset ==> forall r: nat :: r < g.RhsSize() ==> MatcherMatched(g, r))
            && (flags.subset ==> forall l: nat :: l < g.LhsSize() ==> ElementMatched(g, l))
  {
    result := true;
    var elementMatched := new bool[g.LhsSize()](_ => false);
    var matcherMatched := new bool[g.RhsSize()](_ => false);
    for ilhs := 0 to g.LhsSize()
      invariant forall l: nat :: l < ilhs ==> (elementMatched[l] <==> ElementMatched(g, l))
      invariant forall l :: ilhs <= l < elementMatched.Length ==> !elementMatched[l]
      invariant forall r: nat :: r < g.RhsSize() ==> (matcherMatched[r] <==> exists l: nat :: l < ilhs && g.HasEdge(l, r))
    {
      for irhs := 0 to g.RhsSize()
        invariant forall l: nat :: l < ilhs ==> (elementMatched[l] <==> ElementMatched(g, l))
        invariant forall l :: ilhs < l < elementMatched.Length ==> !elementMatched[l]
        invariant elementMatched[ilhs] <==> exists r: nat :: r < irhs && g.HasEdge(ilhs, r)
        invariant forall r: nat :: irhs <= r < g.RhsSize() ==> (matcherMatched[r] <==> exists l: nat :: l < ilhs && g.HasEdge(l, r))
        invariant forall r: nat :: r < irhs ==> (matcherMatched[r] <==> exists l: nat :: l <= ilhs && g.HasEdge(l, r))
      {
        var matched := g.HasEdge(ilhs, irhs);
        elementMatched[ilhs] := elementMatched[ilhs] || matched;
        matcherMatched[irhs] := matcherMatched[irhs] || matched;
      }
    }
    assert forall r: nat :: r < g.RhsSize() ==> (matcherMatched[r] <==> MatcherMatched(g, r));
    if flags.superset {
      for mi := 0 to matcherMatched.Length
        invariant result <==> forall r: nat :: r < mi ==> MatcherMatched(g, r)
      {
        if matcherMatched[mi] {
          continue;
        }
        result := false;
      }
    }
    ghost var before := result;
    if flags.subset {
      for ei := 0 to elementMatched.Length
        invariant result <==> before && forall l: nat :: l < ei ==> ElementMatched(g, l)
      {
        if elementMatched[ei] {
          continue;
        }
        result := false;
      }
    }
  }

  /** A match-matrix that fails verification admits no assignment. */
  lemma {:induction false} AssignmentsPassVerification(g: MatchMatrix, flags: MatchFlags, m: set<(nat, nat)>)
    requires g.Valid() && Satisfies(g, flags, m)
    ensures flags.superset ==> forall r: nat :: r < g.RhsSize() ==> MatcherMatched(g, r)
    ensures flags.subset ==> forall l: nat :: l < g.LhsSize() ==> ElementMatched(g, l)
  {
    if flags.superset {
      forall r: nat | r < g.RhsSize() ensures MatcherMatched(g, r) {
        assert r in Rights(m);
        var p :| p in m && p.1 == r;
        assert g.HasEdge(p.0, r);
      }
    }
    if flags.subset {
      forall l: nat | l < g.LhsSize() ensures ElementMatched(g, l) {
        assert l in Lefts(m);
        var p :| p in m && p.0 == l;
        assert g.HasEdge(l, p.1);
      }
    }
  }

  /** The whole decision, with both short cuts in front: it accepts exactly when some
      assignment meets the flags. */
  method Matches(g: MatchMatrix, flags: MatchFlags) returns (result: bool)
    requires g.Valid()
    ensures result <==> exists m :: Satisfies(g, flags, m)
  {
    forall m | Satisfies(g, flags, m)
      ensures flags.superset && flags.subset ==> g.LhsSize() == g.RhsSize()
      ensures flags.superset ==> forall r: nat :: r < g.RhsSize() ==> MatcherMatched(g, r)
      ensures flags.subset ==> forall l: nat :: l < g.LhsSize() ==> ElementMatched(g, l)
    {
      CoverageIsSize(g, m);
      AssignmentsPassVerification(g, flags, m);
    }
    if g.LhsSize() == 0 && g.RhsSize() == 0 {
      assert Satisfies(g, flags, {});
      return true;
    }
    if flags.superset && flags.subset && g.LhsSize() != g.RhsSize() {
      return false;
    }
    result := VerifyMatchMatrix(g, flags);
    if result {
      result := FindPairing(g, flags);
    }
  }
}
