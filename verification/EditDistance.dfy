/** The edit scripts of gtest.cc: the cost table, the path rebuilt from it, and when that path
    is as cheap as possible. Costs are counted in units of 0.00001. */
module EditDistance {

  datatype EditType = Match | Add | Remove | Replace

  /** The cost of `n` additions or removals. */
  function Edits(n: nat): int {
    n * 100000
  }

  const EDIT := 100000
  const REPLACEMENT := 100001

  // ---------------------------------------------------------------- the table

  datatype Cell = Cell(cost: int, move: EditType)

  /** The entry for the first `i` elements of `left` and the first `j` of `right`. */
  function Table<T(==)>(left: seq<T>, right: seq<T>, i: nat, j: nat): Cell
    requires i <= |left| && j <= |right|
    decreases i + j
  {
    if j == 0 then Cell(Edits(i), Remove)
    else if i == 0 then Cell(Edits(j), Add)
    else Choose(left[i - 1] == right[j - 1], Table(left, right, i, j - 1).cost, Table(left, right, i - 1, j).cost,
                Table(left, right, i - 1, j - 1).cost)
  }

  /** The entry of a cell, from the costs above, to the left and before. */
  function Choose(equal: bool, add: int, remove: int, replace: int): (c: Cell)
    ensures c.cost == (if c.move == Add then add else if c.move == Remove then remove else replace) + Price(c.move)
  {
    if equal then Cell(replace, Match)
    else if add < remove && add < replace then Cell(add + EDIT, Add)
    else if remove < add && remove < replace then Cell(remove + EDIT, Remove)
    else Cell(replace + REPLACEMENT, Replace)
  }

  lemma {:induction false} TableIs<T>(left: seq<T>, right: seq<T>, i: nat, j: nat, a: nat, b: nat)
    requires i <= |left| && j <= |right| && i == a + 1 && j == b + 1
    ensures Table(left, right, i, j) ==
            Choose(left[a] == right[b], Table(left, right, i, b).cost, Table(left, right, a, j).cost, Table(left, right, a, b).cost)
  {
  }

  function Before(move: EditType, i: nat, j: nat): (int, int) {
    (if move == Add then i else i - 1, if move == Remove then j else j - 1)
  }

  /** The best moves, followed back from the cell `(i, j)`. */
  function Path<T(==)>(left: seq<T>, right: seq<T>, i: nat, j: nat): seq<EditType>
    requires i <= |left| && j <= |right|
    decreases i + j
  {
    if i == 0 && j == 0 then []
    else
      MovesStayInside(left, right, i, j);
      var move := Table(left, right, i, j).move;
      var (i', j') := Before(move, i, j);
      Path(left, right, i', j') + [move]
  }

  /** Neither index underflows. */
  lemma {:induction false} MovesStayInside<T>(left: seq<T>, right: seq<T>, i: nat, j: nat)
    requires i <= |left| && j <= |right| && (i > 0 || j > 0)
    ensures var (i', j') := Before(Table(left, right, i, j).move, i, j); i' >= 0 && j' >= 0 && i' + j' < i + j
  {
  }

  function Reversed<T>(s: seq<T>): seq<T> {
    if s == [] then [] else Reversed(s[1..]) + [s[0]]
  }

  lemma {:induction false} ReversedSnoc<T>(s: seq<T>, x: T)
    ensures Reversed(s + [x]) == [x] + Reversed(s)
  {
    if s != [] {
      ReversedSnoc(s[1..], x);
      assert (s + [x])[1..] == s[1..] + [x];
    }
  }

  /** The two tables are filled in the first column, in the rows up to `i` and, in the next row,
      up to column `j`. */
  ghost predicate Filled<T>(costs: array2<int>, bestMove: array2<EditType>, left: seq<T>, right: seq<T>, i: int, j: int)
    reads costs, bestMove
  {
    && costs.Length0 == bestMove.Length0 == |left| + 1
    && costs.Length1 == bestMove.Length1 == |right| + 1
    && forall a, b :: 0 <= a <= |left| && 0 <= b <= |right| && (b == 0 || a <= i || (a == i + 1 && b <= j)) ==>
                        costs[a, b] == Table(left, right, a, b).cost && bestMove[a, b] == Table(left, right, a, b).move
  }

  /** `CalculateOptimalEdits`: fill the two tables, then walk back from the last cell. */
  method CalculateOptimalEdits<T(==)>(left: seq<T>, right: seq<T>) returns (bestPath: seq<EditType>)
    ensures bestPath == Path(left, right, |left|, |right|)
  {
    var costs := new int[|left| + 1, |right| + 1];
    var bestMove := new EditType[|left| + 1, |right| + 1];
    FillBorders(costs, bestMove, left, right);
    for i := 0 to |left|
      invariant Filled(costs, bestMove, left, right, i, 0)
    {
      FillRow(costs, bestMove, left, right, i);
    }
    bestPath := WalkBack(left, right, costs, bestMove);
  }

  /** The first column and the first row. */
  method FillBorders<T(==)>(costs: array2<int>, bestMove: array2<EditType>, left: seq<T>, right: seq<T>)
    requires costs.Length0 == bestMove.Length0 == |left| + 1 && costs.Length1 == bestMove.Length1 == |right| + 1
    modifies costs, bestMove
    ensures Filled(costs, bestMove, left, right, 0, 0)
  {
    for i := 0 to |left| + 1
      invariant forall a :: 0 <= a < i ==> costs[a, 0] == Table(left, right, a, 0).cost && bestMove[a, 0] == Table(left, right, a, 0).move
    {
      costs[i, 0] := Edits(i);
      bestMove[i, 0] := Remove;
    }
    for j := 1 to |right| + 1
      invariant Filled(costs, bestMove, left, right, -1, j - 1)
    {
      costs[0, j] := Edits(j);
      bestMove[0, j] := Add;
    }
  }

  /** The inner loop, for one element of `left`. */
  method FillRow<T(==)>(costs: array2<int>, bestMove: array2<EditType>, left: seq<T>, right: seq<T>, i: nat)
    requires i < |left| && Filled(costs, bestMove, left, right, i, 0)
    modifies costs, bestMove
    ensures Filled(costs, bestMove, left, right, i + 1, 0)
  {
    for j := 0 to |right|
      invariant Filled(costs, bestMove, left, right, i, j)
    {
      if left[i] == right[j] {
        costs[i + 1, j + 1] := costs[i, j];
        bestMove[i + 1, j + 1] := Match;
        continue;
      }
      var add := costs[i + 1, j];
      var remove := costs[i, j + 1];
      var replace := costs[i, j];
      if add < remove && add < replace {
        costs[i + 1, j + 1] := add + EDIT;
        bestMove[i + 1, j + 1] := Add;
      } else if remove < add && remove < replace {
        costs[i + 1, j + 1] := remove + EDIT;
        bestMove[i + 1, j + 1] := Remove;
      } else {
        costs[i + 1, j + 1] := replace + REPLACEMENT;
        bestMove[i + 1, j + 1] := Replace;
      }
    }
  }

  /** The loop that reconstructs the path, last move first, and the final reversal. */
  method WalkBack<T(==)>(left: seq<T>, right: seq<T>, costs: array2<int>, bestMove: array2<EditType>)
    returns (bestPath: seq<EditType>)
    requires Filled(costs, bestMove, left, right, |left|, 0)
    ensures bestPath == Path(left, right, |left|, |right|)
  {
    bestPath := [];
    var i, j := |left|, |right|;
    while i > 0 || j > 0
      invariant 0 <= i <= |left| && 0 <= j <= |right|
      invariant Path(left, right, i, j) + Reversed(bestPath) == Path(left, right, |left|, |right|)
      decreases i + j
    {
      var move := bestMove[i, j];
      MovesStayInside(left, right, i, j);
      ReversedSnoc(bestPath, move);
      bestPath := bestPath + [move];
      i := if move != Add then i - 1 else i;
      j := if move != Remove then j - 1 else j;
    }
    bestPath := Reversed(bestPath);
  }

  // ---------------------------------------------------------------- scripts

  function Price(move: EditType): int {
    match move
    case Match => 0
    case Replace => REPLACEMENT
    case _ => EDIT
  }

  function ScriptCost(es: seq<EditType>): int {
    if es == [] then 0 else ScriptCost(es[..|es| - 1]) + Price(es[|es| - 1])
  }

  /** `es` turns the first `i` elements of `left` into the first `j` of `right`. */
  predicate IsScript<T(==)>(es: seq<EditType>, left: seq<T>, i: int, right: seq<T>, j: int)
    requires i <= |left| && j <= |right|
  {
    if es == [] then i == 0 && j == 0
    else
      var front := es[..|es| - 1];
      match es[|es| - 1]
      case Match => i > 0 && j > 0 && left[i - 1] == right[j - 1] && IsScript(front, left, i - 1, right, j - 1)
      case Add => j > 0 && IsScript(front, left, i, right, j - 1)
      case Remove => i > 0 && IsScript(front, left, i - 1, right, j)
      case Replace => i > 0 && j > 0 && IsScript(front, left, i - 1, right, j - 1)
  }

  lemma {:induction false} ScriptSnoc<T>(front: seq<EditType>, move: EditType, left: seq<T>, i: nat, right: seq<T>,
                                         j: nat)
    requires i <= |left| && j <= |right|
    requires var (i', j') := Before(move, i, j); i' >= 0 && j' >= 0 && IsScript(front, left, i', right, j')
    requires move == Match ==> left[i - 1] == right[j - 1]
    ensures IsScript(front + [move], left, i, right, j)
    ensures ScriptCost(front + [move]) == ScriptCost(front) + Price(move)
  {
    assert (front + [move])[..|front|] == front;
  }

  /** The path is a script from `left` to `right`, and costs what the table says. */
  lemma {:induction false} PathIsScript<T>(left: seq<T>, right: seq<T>, i: nat, j: nat)
    requires i <= |left| && j <= |right|
    ensures IsScript(Path(left, right, i, j), left, i, right, j)
    ensures ScriptCost(Path(left, right, i, j)) == Table(left, right, i, j).cost
    decreases i + j
  {
    if i > 0 || j > 0 {
      MovesStayInside(left, right, i, j);
      var move := Table(left, right, i, j).move;
      var (i', j') := Before(move, i, j);
      PathIsScript(left, right, i', j');
      ScriptSnoc(Path(left, right, i', j'), move, left, i, right, j);
      TableStep(left, right, i, j);
    }
  }

  /** A cell costs what its move adds to the cell before it. */
  lemma {:induction false} TableStep<T>(left: seq<T>, right: seq<T>, i: nat, j: nat)
    requires i <= |left| && j <= |right| && (i > 0 || j > 0)
    ensures var c := Table(left, right, i, j);
            var (i', j') := Before(c.move, i, j);
            i' >= 0 && j' >= 0 && c.cost == Table(left, right, i', j').cost + Price(c.move)
  {
  }

  /** What a script costs: nothing for a match, 1 for an addition or a removal and a little more
      for a replacement. */
  lemma {:induction false} ScriptPrices(es: seq<EditType>)
    ensures ScriptCost([]) == 0 && ScriptCost(es + [Match]) == ScriptCost(es)
    ensures ScriptCost(es + [Add]) == ScriptCost(es + [Remove]) == ScriptCost(es) + 100000
    ensures ScriptCost(es + [Replace]) == ScriptCost(es) + 100001
  {
    assert forall move :: (es + [move])[..|es|] == es;
  }

  /** Along the borders only one kind of move is left. */
  lemma {:induction false} BorderPaths<T>(left: seq<T>, right: seq<T>, n: nat)
    ensures Path(left, right, 0, 0) == []
    ensures 0 < n <= |left| ==> Path(left, right, n, 0) == Path(left, right, n - 1, 0) + [Remove]
    ensures 0 < n <= |right| ==> Path(left, right, 0, n) == Path(left, right, 0, n - 1) + [Add]
  {
  }

  lemma {:induction false} PathStep<T>(left: seq<T>, right: seq<T>, i: nat, j: nat, a: nat, b: nat)
    requires i <= |left| && j <= |right| && i == a + 1 && j == b + 1
    ensures var move := Table(left, right, i, j).move;
            Path(left, right, i, j) ==
            (if move == Add then Path(left, right, i, b) else if move == Remove then Path(left, right, a, j) else Path(left, right, a, b))
            + [move]
  {
  }

  /** The last move inside the table: equal elements are matched whatever that costs; otherwise an
      addition or a removal has to be cheaper than both other ways. */
  lemma {:induction false} LastMoveIs<T>(left: seq<T>, right: seq<T>, i: nat, j: nat, a: nat, b: nat)
    requires i <= |left| && j <= |right| && i == a + 1 && j == b + 1
    ensures var up, back, before := Path(left, right, i, b), Path(left, right, a, j), Path(left, right, a, b);
            var add, remove, replace := ScriptCost(up), ScriptCost(back), ScriptCost(before);
            Path(left, right, i, j) ==
            if left[a] == right[b] then before + [Match]
            else if add < remove && add < replace then up + [Add]
            else if remove < add && remove < replace then back + [Remove]
            else before + [Replace]
  {
    PathIsScript(left, right, i, b);
    PathIsScript(left, right, a, j);
    PathIsScript(left, right, a, b);
    TableIs(left, right, i, j, a, b);
    PathStep(left, right, i, j, a, b);
  }

  // ---------------------------------------------------------------- cheapest scripts

  function Min(a: int, b: int): int {
    if a <= b then a else b
  }

  /** The cost of a cheapest script, by Wagner and Fischer's recurrence. */
  function Cheapest<T(==)>(left: seq<T>, right: seq<T>, i: nat, j: nat): int
    requires i <= |left| && j <= |right|
    decreases i + j
  {
    if j == 0 then Edits(i)
    else if i == 0 then Edits(j)
    else
      CheapestOf(left[i - 1] == right[j - 1], Cheapest(left, right, i, j - 1), Cheapest(left, right, i - 1, j),
                 Cheapest(left, right, i - 1, j - 1))
  }

  function CheapestOf(equal: bool, add: int, remove: int, replace: int): int {
    Min(Min(add, remove) + EDIT, replace + if equal then 0 else REPLACEMENT)
  }

  /** Some script costs that. */
  lemma {:induction false} CheapestScript<T>(left: seq<T>, right: seq<T>, i: nat, j: nat) returns (es: seq<EditType>)
    requires i <= |left| && j <= |right|
    ensures IsScript(es, left, i, right, j) && ScriptCost(es) == Cheapest(left, right, i, j)
    decreases i + j
  {
    if i == 0 && j == 0 {
      es := [];
    } else {
      var move := CheapestMove(left, right, i, j);
      var (i', j') := Before(move, i, j);
      var front := CheapestScript(left, right, i', j');
      ScriptSnoc(front, move, left, i, right, j);
      es := front + [move];
    }
  }

  lemma {:induction false} CheapestMove<T>(left: seq<T>, right: seq<T>, i: nat, j: nat) returns (move: EditType)
    requires i <= |left| && j <= |right| && (i > 0 || j > 0)
    ensures var (i', j') := Before(move, i, j);
            && i' >= 0 && j' >= 0 && (move == Match ==> left[i - 1] == right[j - 1])
            && Cheapest(left, right, i, j) == Cheapest(left, right, i', j') + Price(move)
  {
    if j == 0 {
      move := Remove;
    } else if i == 0 {
      move := Add;
    } else {
      var add, remove := Cheapest(left, right, i, j - 1), Cheapest(left, right, i - 1, j);
      var replace := Cheapest(left, right, i - 1, j - 1);
      move := MoveOf(left[i - 1] == right[j - 1], add, remove, replace);
    }
  }

  function MoveOf(equal: bool, add: int, remove: int, replace: int): (move: EditType)
    ensures CheapestOf(equal, add, remove, replace) ==
            (if move == Add then add else if move == Remove then remove else replace) + Price(move)
    ensures move == Match ==> equal
  {
    var diagonal := replace + if equal then 0 else REPLACEMENT;
    if diagonal <= Min(add, remove) + EDIT then (if equal then Match else Replace)
    else if add <= remove then Add
    else Remove
  }

  /** No script is cheaper. */
  lemma {:induction false} NoScriptIsCheaper<T>(es: seq<EditType>, left: seq<T>, i: nat, right: seq<T>, j: nat)
    requires i <= |left| && j <= |right| && IsScript(es, left, i, right, j)
    ensures ScriptCost(es) >= Cheapest(left, right, i, j)
    decreases |es|
  {
    if es != [] {
      var front, move := es[..|es| - 1], es[|es| - 1];
      var (i', j') := Before(move, i, j);
      NoScriptIsCheaper(front, left, i', right, j');
    }
  }

  /** One element more or less changes the cheapest cost by at most one edit. */
  lemma {:induction false} NeighboursAreClose<T>(left: seq<T>, right: seq<T>, i: nat, j: nat)
    requires i <= |left| && j <= |right|
    ensures i > 0 ==> Cheapest(left, right, i - 1, j) <= Cheapest(left, right, i, j) + EDIT
    ensures j > 0 ==> Cheapest(left, right, i, j - 1) <= Cheapest(left, right, i, j) + EDIT
    decreases i + j
  {
    if i > 0 && j > 0 {
      NeighboursAreClose(left, right, i, j - 1);
      NeighboursAreClose(left, right, i - 1, j);
    }
  }

  /** The costs around the cell `(i, j)`. */
  datatype Around = Around(equal: bool, add: int, remove: int, replace: int) {
    /** The replace branch is taken although adding or removing costs no more. */
    predicate Tie() {
      Choose(equal, add, remove, replace).move == Replace && (add <= replace || remove <= replace)
    }
  }

  function CheapestAround<T(==)>(left: seq<T>, right: seq<T>, i: nat, j: nat): Around
    requires 0 < i <= |left| && 0 < j <= |right|
  {
    Around(left[i - 1] == right[j - 1], Cheapest(left, right, i, j - 1), Cheapest(left, right, i - 1, j),
           Cheapest(left, right, i - 1, j - 1))
  }

  function TableAround<T(==)>(left: seq<T>, right: seq<T>, i: nat, j: nat): Around
    requires 0 < i <= |left| && 0 < j <= |right|
  {
    Around(left[i - 1] == right[j - 1], Table(left, right, i, j - 1).cost, Table(left, right, i - 1, j).cost,
           Table(left, right, i - 1, j - 1).cost)
  }

  /** With the true cheapest costs around it, no cell would take the replace branch although adding
      or removing costs no more. */
  ghost predicate NoBadTie<T>(left: seq<T>, right: seq<T>, i: nat, j: nat)
    requires i <= |left| && j <= |right|
  {
    forall a: nat, b: nat :: 0 < a <= i && 0 < b <= j ==> !CheapestAround(left, right, a, b).Tie()
  }

  /** Without a bad tie the table is optimal. */
  lemma {:induction false} NoTieMeansCheapest<T>(left: seq<T>, right: seq<T>, i: nat, j: nat)
    requires i <= |left| && j <= |right| && NoBadTie(left, right, i, j)
    ensures Table(left, right, i, j).cost == Cheapest(left, right, i, j)
    decreases i + j
  {
    if i > 0 && j > 0 {
      NoTieMeansCheapest(left, right, i, j - 1);
      NoTieMeansCheapest(left, right, i - 1, j);
      NoTieMeansCheapest(left, right, i - 1, j - 1);
      NeighboursAreClose(left, right, i - 1, j);
      NeighboursAreClose(left, right, i, j - 1);
      NoTieOnCosts(CheapestAround(left, right, i, j));
    }
  }

  /** The whole table, that is the script for every pair of prefixes, is optimal exactly when no
      cell has a bad tie. */
  lemma {:induction false} TableIsCheapestIffNoBadTie<T>(left: seq<T>, right: seq<T>)
    ensures (forall i: nat, j: nat :: i <= |left| && j <= |right| ==> Table(left, right, i, j).cost == Cheapest(left, right, i, j))
       <==> NoBadTie(left, right, |left|, |right|)
  {
    if NoBadTie(left, right, |left|, |right|) {
      forall i: nat, j: nat | i <= |left| && j <= |right| ensures Table(left, right, i, j).cost == Cheapest(left, right, i, j) {
        NoTieMeansCheapest(left, right, i, j);
      }
    } else {
      var i: nat, j: nat :| 0 < i <= |left| && 0 < j <= |right| && CheapestAround(left, right, i, j).Tie();
      SomeCellIsDearer(left, right, i, j);
    }
  }

  /** Next to a bad tie the table is dearer in one of the four cells around it. */
  lemma {:induction false} SomeCellIsDearer<T>(left: seq<T>, right: seq<T>, i: nat, j: nat)
    requires 0 < i <= |left| && 0 < j <= |right| && CheapestAround(left, right, i, j).Tie()
    ensures exists a: nat, b: nat :: a <= |left| && b <= |right| && Table(left, right, a, b).cost != Cheapest(left, right, a, b)
  {
    var a: nat, b: nat := i - 1, j - 1;
    if && Table(left, right, i, b).cost == Cheapest(left, right, i, b) && Table(left, right, a, j).cost == Cheapest(left, right, a, j)
       && Table(left, right, a, b).cost == Cheapest(left, right, a, b) {
      assert TableAround(left, right, i, j) == CheapestAround(left, right, i, j);
      TieIsDearer(left, right, i, j);
    }
  }

  lemma {:induction false} TableIsNotCheaper<T>(left: seq<T>, right: seq<T>, i: nat, j: nat)
    requires i <= |left| && j <= |right|
    ensures Table(left, right, i, j).cost >= Cheapest(left, right, i, j)
  {
    PathIsScript(left, right, i, j);
    NoScriptIsCheaper(Path(left, right, i, j), left, i, right, j);
  }

  lemma {:induction false} TieOnCosts(t: Around, add: int, remove: int, replace: int)
    requires t.Tie() && t.add >= add && t.remove >= remove
    ensures Choose(t.equal, t.add, t.remove, t.replace).cost > CheapestOf(t.equal, add, remove, replace)
  {
  }

  lemma {:induction false} NoTieOnCosts(t: Around)
    requires !t.Tie() && t.replace <= t.add + EDIT && t.replace <= t.remove + EDIT
    ensures Choose(t.equal, t.add, t.remove, t.replace).cost == CheapestOf(t.equal, t.add, t.remove, t.replace)
  {
  }

  lemma {:induction false} TieIsDearer<T>(left: seq<T>, right: seq<T>, i: nat, j: nat)
    requires 0 < i <= |left| && 0 < j <= |right| && TableAround(left, right, i, j).Tie()
    ensures Table(left, right, i, j).cost > Cheapest(left, right, i, j)
  {
    TableIsNotCheaper(left, right, i, j - 1);
    TableIsNotCheaper(left, right, i - 1, j);
    TieOnCosts(TableAround(left, right, i, j), Cheapest(left, right, i, j - 1), Cheapest(left, right, i - 1, j), Cheapest(left, right, i - 1, j - 1));
  }

  /** Without a bad tie no script at all is cheaper than the one that is returned. */
  lemma {:induction false} PathIsCheapest<T>(left: seq<T>, right: seq<T>, es: seq<EditType>)
    requires NoBadTie(left, right, |left|, |right|) && IsScript(es, left, |left|, right, |right|)
    ensures ScriptCost(Path(left, right, |left|, |right|)) <= ScriptCost(es)
  {
    PathIsScript(left, right, |left|, |right|);
    NoTieMeansCheapest(left, right, |left|, |right|);
    NoScriptIsCheaper(es, left, |left|, right, |right|);
  }

  /** The documented optimality fails: from a b a to b a b the result replaces three elements,
      where removing the first and adding one at the end would do. */
  lemma {:induction false} ThreeReplacementsInsteadOfTwoEdits()
    ensures var left, right := [0, 1, 0], [1, 0, 1];
            && Path(left, right, 3, 3) == [Replace, Replace, Replace]
            && IsScript([Remove, Match, Match, Add], left, 3, right, 3)
            && ScriptCost([Remove, Match, Match, Add]) < ScriptCost(Path(left, right, 3, 3))
  {
    var left, right := [0, 1, 0], [1, 0, 1];
    assert Table(left, right, 1, 2).cost == EDIT && Table(left, right, 2, 1).cost == EDIT;
    assert Table(left, right, 2, 2) == Cell(2 * REPLACEMENT, Replace);
    assert Table(left, right, 2, 3).cost == EDIT && Table(left, right, 3, 2).cost == EDIT;
    assert Table(left, right, 3, 3) == Cell(3 * REPLACEMENT, Replace);
    assert Path(left, right, 1, 1) == [Replace];
    assert Path(left, right, 2, 2) == [Replace, Replace];
    assert Path(left, right, 3, 3) == [Replace, Replace, Replace];
    PathIsScript(left, right, 3, 3);
    ShiftedScript(left, right);
  }

  lemma {:induction false} ShiftedScript<T>(left: seq<T>, right: seq<T>)
    requires |left| == |right| == 3 && left[1] == right[0] && left[2] == right[1]
    ensures IsScript([Remove, Match, Match, Add], left, 3, right, 3)
    ensures ScriptCost([Remove, Match, Match, Add]) == 2 * EDIT
  {
    var es := [Remove, Match, Match, Add];
    assert es[..3] == [Remove, Match, Match] && es[..2] == [Remove, Match] && es[..1] == [Remove];
    assert es[..3][..2] == es[..2] && es[..2][..1] == es[..1] && es[..1][..0] == [];
    assert IsScript([], left, 0, right, 0) && ScriptCost([]) == 0;
    assert IsScript(es[..1], left, 1, right, 0) && ScriptCost(es[..1]) == EDIT;
    assert IsScript(es[..2], left, 2, right, 1) && ScriptCost(es[..2]) == EDIT;
    assert IsScript(es[..3], left, 3, right, 2) && ScriptCost(es[..3]) == EDIT;
  }

  /** A bad tie need not spoil the script that is returned: from a b to b a a it costs as little as
      any, although the table has a bad tie on the way. */
  lemma {:induction false} TieBesideOptimalPath()
    ensures var left, right := [0, 1], [1, 0, 0];
            !NoBadTie(left, right, 2, 3) && Table(left, right, 2, 3).cost == Cheapest(left, right, 2, 3)
  {
    var left, right := [0, 1], [1, 0, 0];
    assert Table(left, right, 1, 1).cost == REPLACEMENT && Cheapest(left, right, 1, 1) == REPLACEMENT;
    assert Table(left, right, 1, 2).cost == EDIT && Cheapest(left, right, 1, 2) == EDIT;
    assert Table(left, right, 2, 1).cost == EDIT && Cheapest(left, right, 2, 1) == EDIT;
    assert Cheapest(left, right, 1, 3) == 2 * EDIT && Table(left, right, 1, 3).cost == 2 * EDIT;
    assert CheapestAround(left, right, 2, 2) == Around(false, EDIT, EDIT, REPLACEMENT);
    assert CheapestAround(left, right, 2, 2).Tie();
    assert Table(left, right, 2, 2).cost == 2 * REPLACEMENT && Cheapest(left, right, 2, 2) == 2 * EDIT;
  }

  // ---------------------------------------------------------------- interned lines

  /** Numbers for strings, in the order in which they are first asked for. */
  class InternalStrings {
    var ids: map<string, nat>

    predicate Valid() reads this {
      && (forall s | s in ids :: ids[s] < |ids|)
      && (forall s, t | s in ids && t in ids && ids[s] == ids[t] :: s == t)
    }

    constructor ()
      ensures Valid() && ids == map[]
    {
      ids := map[];
    }

    method GetId(str: string) returns (id: nat)
      requires Valid()
      modifies this
      ensures Valid() && str in ids && id == ids[str]
      ensures ids == if str in old(ids) then old(ids) else old(ids)[str := |old(ids)|]
    {
      if str in ids {
        return ids[str];
      }
      id := |ids|;
      ids := ids[str := id];
    }

    /** The ids of some lines; ids given before stay as they are. */
    method GetIds(lines: seq<string>) returns (numbers: seq<nat>)
      requires Valid()
      modifies this
      ensures Valid() && forall s | s in old(ids) :: s in ids && ids[s] == old(ids)[s]
      ensures |numbers| == |lines| && forall k :: 0 <= k < |lines| ==> lines[k] in ids && ids[lines[k]] == numbers[k]
    {
      numbers := [];
      for i := 0 to |lines|
        invariant Valid() && forall s | s in old(ids) :: s in ids && ids[s] == old(ids)[s]
        invariant |numbers| == i && forall k :: 0 <= k < i ==> lines[k] in ids && ids[lines[k]] == numbers[k]
      {
        var id := GetId(lines[i]);
        numbers := numbers + [id];
      }
    }
  }

  /** The same elements are equal, as far as the first `n` of `left` go. */
  ghost predicate SameEqualities<T, U>(left: seq<T>, right: seq<T>, left': seq<U>, right': seq<U>, n: nat)
    requires n <= |left| == |left'| && |right| == |right'|
  {
    n == 0 ||
    (SameEqualities(left, right, left', right', n - 1) &&
     forall b :: 0 <= b < |right| ==> (left[n - 1] == right[b] <==> left'[n - 1] == right'[b]))
  }

  lemma {:induction false} SameEquality<T, U>(left: seq<T>, right: seq<T>, left': seq<U>, right': seq<U>, n: nat,
                                              a: nat, b: nat)
    requires a < n <= |left| == |left'| && b < |right| == |right'| && SameEqualities(left, right, left', right', n)
    ensures left[a] == right[b] <==> left'[a] == right'[b]
  {
    if a < n - 1 { SameEquality(left, right, left', right', n - 1, a, b); }
  }

  lemma {:induction false} TableOfRenamed<T, U>(left: seq<T>, right: seq<T>, left': seq<U>, right': seq<U>, i: nat,
                                                j: nat)
    requires i <= |left| == |left'| && j <= |right| == |right'| && SameEqualities(left, right, left', right', |left|)
    ensures Table(left, right, i, j) == Table(left', right', i, j)
    decreases i + j
  {
    if i > 0 && j > 0 {
      var a: nat, b: nat := i - 1, j - 1;
      SameEquality(left, right, left', right', |left|, a, b);
      TableOfRenamed(left, right, left', right', a, j);
      TableOfRenamed(left, right, left', right', i, b);
      TableOfRenamed(left, right, left', right', a, b);
      TableIs(left, right, i, j, a, b);
      TableIs(left', right', i, j, a, b);
    }
  }

  /** The path depends only on which elements are equal. */
  lemma {:induction false} PathOfRenamed<T, U>(left: seq<T>, right: seq<T>, left': seq<U>, right': seq<U>, i: nat,
                                               j: nat)
    requires i <= |left| == |left'| && j <= |right| == |right'| && SameEqualities(left, right, left', right', |left|)
    ensures Path(left, right, i, j) == Path(left', right', i, j)
    decreases i + j
  {
    if i > 0 || j > 0 {
      TableOfRenamed(left, right, left', right', i, j);
      MovesStayInside(left, right, i, j);
      var (i', j') := Before(Table(left, right, i, j).move, i, j);
      PathOfRenamed(left, right, left', right', i', j');
    }
  }

  /** `CalculateOptimalEdits` on lines: their ids have the same path. */
  method CalculateLineEdits(left: seq<string>, right: seq<string>) returns (bestPath: seq<EditType>)
    ensures bestPath == Path(left, right, |left|, |right|)
  {
    var internTable := new InternalStrings();
    var leftIds := internTable.GetIds(left);
    var rightIds := internTable.GetIds(right);
    for n := 0 to |left|
      invariant SameEqualities(left, right, leftIds, rightIds, n)
    {
    }
    PathOfRenamed(left, right, leftIds, rightIds, |left|, |right|);
    bestPath := CalculateOptimalEdits(leftIds, rightIds);
  }
}
