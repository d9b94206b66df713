/** The unified diff of gtest.cc. A hunk is the value that its header and body print, and a diff
    is judged by replaying it: do the hunks, applied to `left`, give `right`? */
module UnifiedDiff {
  import opened Text
  import opened EditDistance

  // ---------------------------------------------------------------- hunks

  datatype Line = Line(kind: char, text: string)

  /** The lines of two kinds, in order. */
  function Texts(lines: seq<Line>, a: char, b: char): seq<string> {
    if lines == [] then []
    else
      var last := lines[|lines| - 1];
      Texts(lines[..|lines| - 1], a, b) + if last.kind == a || last.kind == b then [last.text] else []
  }

  lemma {:induction false} TextsSnoc(lines: seq<Line>, line: Line, a: char, b: char)
    ensures Texts(lines + [line], a, b) == Texts(lines, a, b) + if line.kind == a || line.kind == b then [line.text] else []
  {
    assert (lines + [line])[..|lines|] == lines;
  }

  lemma {:induction false} TextsAppend(x: seq<Line>, y: seq<Line>, a: char, b: char)
    ensures Texts(x + y, a, b) == Texts(x, a, b) + Texts(y, a, b)
  {
    if y == [] {
      assert x + y == x;
    } else {
      var front, last := y[..|y| - 1], y[|y| - 1];
      TextsAppend(x, front, a, b);
      ByLast(x, y);
      TextsSnoc(x + front, last, a, b);
      TextsSnoc(front, last, a, b);
      Assoc(Texts(x, a, b), Texts(front, a, b), if last.kind == a || last.kind == b then [last.text] else []);
    }
  }

  predicate OfKind(lines: seq<Line>, kind: char) {
    forall k :: 0 <= k < |lines| ==> lines[k].kind == kind
  }

  lemma {:induction false} OtherKinds(lines: seq<Line>, kind: char, a: char, b: char)
    requires OfKind(lines, kind) && kind != a && kind != b
    ensures Texts(lines, a, b) == []
  {
    if lines != [] { OtherKinds(lines[..|lines| - 1], kind, a, b); }
  }

  /** No removal comes right after an addition. */
  predicate RemovesFirst(lines: seq<Line>) {
    forall k :: 0 < k < |lines| ==> !(lines[k].kind == '-' && lines[k - 1].kind == '+')
  }

  /** What a hunk prints. */
  datatype Printed = Printed(leftStart: nat, rightStart: nat, adds: nat, removes: nat, common: nat, lines: seq<Line>) {
    function OldLines(): seq<string> { Texts(lines, ' ', '-') }
    function NewLines(): seq<string> { Texts(lines, ' ', '+') }

    /** The header counts the lines of the body. */
    predicate WellFormed() {
      && leftStart > 0 && rightStart > 0 && adds + removes > 0
      && common == |Texts(lines, ' ', ' ')|
      && removes + common == |OldLines()| && adds + common == |NewLines()|
      && RemovesFirst(lines)
    }
  }

  /** `Hunk`: removals and additions wait until the next common line, removals first. */
  class Hunk {
    var leftStart: nat
    var rightStart: nat
    var adds: nat
    var removes: nat
    var common: nat
    var hunk: seq<Line>
    var hunkAdds: seq<Line>
    var hunkRemoves: seq<Line>

    ghost function Old(): seq<string> reads this { Texts(hunk, ' ', '-') + Texts(hunkRemoves, ' ', '-') }
    ghost function New(): seq<string> reads this { Texts(hunk, ' ', '+') + Texts(hunkAdds, ' ', '+') }

    ghost predicate Counted() reads this {
      && OfKind(hunkRemoves, '-') && OfKind(hunkAdds, '+') && RemovesFirst(hunk)
      && common == |Texts(hunk, ' ', ' ')|
      && removes + common == |Old()| && adds + common == |New()|
    }

    ghost predicate Valid() reads this {
      Counted() && (hunk != [] ==> hunk[|hunk| - 1].kind == ' ')
    }

    constructor (leftStart: nat, rightStart: nat)
      ensures Valid() && this.leftStart == leftStart && this.rightStart == rightStart
      ensures Old() == [] && New() == [] && !HasEdits()
    {
      this.leftStart := leftStart;
      this.rightStart := rightStart;
      adds, removes, common := 0, 0, 0;
      hunk, hunkAdds, hunkRemoves := [], [], [];
    }

    predicate HasEdits() reads this {
      adds > 0 || removes > 0
    }

    method PushLine(edit: char, line: string)
      requires Valid()
      modifies this`adds, this`removes, this`common, this`hunk, this`hunkAdds, this`hunkRemoves
      ensures Valid()
      ensures Old() == old(Old()) + if edit == ' ' || edit == '-' then [line] else []
      ensures New() == old(New()) + if edit == ' ' || edit == '+' then [line] else []
      ensures HasEdits() == (old(HasEdits()) || edit == '-' || edit == '+')
    {
      match edit
      case ' ' =>
        FlushEdits();
        PushCommon(line);
      case '-' =>
        PushedTexts(hunk, hunkRemoves, line, '-');
        removes := removes + 1;
        hunkRemoves := hunkRemoves + [Line('-', line)];
      case '+' =>
        PushedTexts(hunk, hunkAdds, line, '+');
        adds := adds + 1;
        hunkAdds := hunkAdds + [Line('+', line)];
      case _ =>
    }

    /** A common line, once the edits before it are flushed. */
    method PushCommon(line: string)
      requires Counted() && hunkAdds == [] && hunkRemoves == []
      modifies this`common, this`hunk
      ensures Valid() && Old() == old(Old()) + [line] && New() == old(New()) + [line]
    {
      TextsSnoc(hunk, Line(' ', line), ' ', '-');
      TextsSnoc(hunk, Line(' ', line), ' ', '+');
      TextsSnoc(hunk, Line(' ', line), ' ', ' ');
      common := common + 1;
      hunk := hunk + [Line(' ', line)];
    }

    method FlushEdits()
      requires Valid()
      modifies this`hunk, this`hunkAdds, this`hunkRemoves
      ensures Counted() && hunkAdds == [] && hunkRemoves == []
      ensures hunk == old(hunk + hunkRemoves + hunkAdds)
      ensures Old() == old(Old()) && New() == old(New())
    {
      FlushedTexts(hunk, hunkRemoves, hunkAdds);
      FlushedOrder(hunk, hunkRemoves, hunkAdds);
      hunk := hunk + hunkRemoves;
      hunkRemoves := [];
      hunk := hunk + hunkAdds;
      hunkAdds := [];
    }

    method PrintTo() returns (printed: Printed)
      requires Valid()
      modifies this`hunk, this`hunkAdds, this`hunkRemoves
      ensures printed.leftStart == leftStart && printed.rightStart == rightStart
      ensures printed.OldLines() == old(Old()) && printed.NewLines() == old(New())
      ensures leftStart > 0 && rightStart > 0 && old(HasEdits()) ==> printed.WellFormed()
    {
      FlushEdits();
      printed := Printed(leftStart, rightStart, adds, removes, common, hunk);
    }
  }

  lemma {:induction false} PushedTexts(hunk: seq<Line>, edits: seq<Line>, line: string, kind: char)
    requires OfKind(edits, kind)
    ensures OfKind(edits + [Line(kind, line)], kind)
    ensures Texts(hunk, ' ', kind) + Texts(edits + [Line(kind, line)], ' ', kind) ==
            Texts(hunk, ' ', kind) + Texts(edits, ' ', kind) + [line]
  {
    TextsSnoc(edits, Line(kind, line), ' ', kind);
  }

  lemma {:induction false} FlushedTexts(hunk: seq<Line>, removes: seq<Line>, adds: seq<Line>)
    requires OfKind(removes, '-') && OfKind(adds, '+')
    ensures Texts(hunk + removes + adds, ' ', '-') == Texts(hunk, ' ', '-') + Texts(removes, ' ', '-')
    ensures Texts(hunk + removes + adds, ' ', '+') == Texts(hunk, ' ', '+') + Texts(adds, ' ', '+')
    ensures Texts(hunk + removes + adds, ' ', ' ') == Texts(hunk, ' ', ' ')
  {
    OtherKinds(adds, '+', ' ', '-');
    OtherKinds(removes, '-', ' ', '+');
    OtherKinds(adds, '+', ' ', ' ');
    OtherKinds(removes, '-', ' ', ' ');
    TextsOfThree(hunk, removes, adds, ' ', '-');
    TextsOfThree(hunk, removes, adds, ' ', '+');
    TextsOfThree(hunk, removes, adds, ' ', ' ');
  }

  /** Of the middle and the last part at most one has such lines. */
  lemma {:induction false} TextsOfThree(x: seq<Line>, y: seq<Line>, z: seq<Line>, a: char, b: char)
    requires Texts(y, a, b) == [] || Texts(z, a, b) == []
    ensures Texts(z, a, b) == [] ==> Texts(x + y + z, a, b) == Texts(x, a, b) + Texts(y, a, b)
    ensures Texts(y, a, b) == [] ==> Texts(x + y + z, a, b) == Texts(x, a, b) + Texts(z, a, b)
    ensures Texts(y, a, b) == Texts(z, a, b) == [] ==> Texts(x + y + z, a, b) == Texts(x, a, b)
  {
    TextsAppend(x + y, z, a, b);
    TextsAppend(x, y, a, b);
  }

  lemma {:induction false} FlushedOrder(hunk: seq<Line>, removes: seq<Line>, adds: seq<Line>)
    requires OfKind(removes, '-') && OfKind(adds, '+') && RemovesFirst(hunk)
    requires hunk != [] ==> hunk[|hunk| - 1].kind == ' '
    ensures RemovesFirst(hunk + removes + adds)
  {
    var all := hunk + removes + adds;
    forall k | 0 < k < |all| ensures !(all[k].kind == '-' && all[k - 1].kind == '+') {
      if k == |hunk| {
        assert all[k - 1] == hunk[k - 1];
      }
    }
  }

  // ---------------------------------------------------------------- replaying

  /** How much of `left` the hunks have used, and what they have put out. */
  datatype Patched = Patched(used: nat, out: seq<string>)

  predicate Fits(left: seq<string>, p: Patched, h: Printed) {
    && h.WellFormed()
    && p.used <= h.leftStart - 1 && h.leftStart - 1 + |h.OldLines()| <= |left|
    && left[h.leftStart - 1..h.leftStart - 1 + |h.OldLines()|] == h.OldLines()
    && h.rightStart - 1 == |p.out| + (h.leftStart - 1 - p.used)
  }

  /** Apply the hunks in turn. Each must begin after the one before it ended, must find its old
      lines at its left start, and must put its new lines at its right start. */
  function Replay(left: seq<string>, hunks: seq<Printed>): (r: Option<Patched>)
    ensures r.Some? ==> r.value.used <= |left|
  {
    if hunks == [] then Some(Patched(0, []))
    else
      var h := hunks[|hunks| - 1];
      match Replay(left, hunks[..|hunks| - 1])
      case None => None
      case Some(p) =>
        if Fits(left, p, h) then Some(Applied(left, p, h)) else None
  }

  function Applied(left: seq<string>, p: Patched, h: Printed): (r: Patched)
    requires Fits(left, p, h)
    ensures r.used <= |left|
  {
    Patched(h.leftStart - 1 + |h.OldLines()|, p.out + left[p.used..h.leftStart - 1] + h.NewLines())
  }

  function Patch(left: seq<string>, hunks: seq<Printed>): Option<seq<string>> {
    match Replay(left, hunks)
    case None => None
    case Some(p) => Some(p.out + left[p.used..])
  }

  /** What replaying one hunk does: it fits where its old lines stand, one line is line 1, and puts
      its new lines there. */
  lemma {:induction false} PatchWithOne(left: seq<string>, a: seq<string>, b: seq<string>, h: Printed)
    requires h.WellFormed() && left == a + h.OldLines() + b
    ensures Patch(left, []) == Some(left)
    ensures h.leftStart == h.rightStart == |a| + 1 ==> Patch(left, [h]) == Some(a + h.NewLines() + b)
    ensures h.leftStart != h.rightStart ==> Patch(left, [h]) == None
  {
    assert [h][..0] == [];
    assert left[..|a|] == a && left[|a|..|a| + |h.OldLines()|] == h.OldLines() && left[|a| + |h.OldLines()|..] == b;
    assert Replay(left, [h]) == if Fits(left, Patched(0, []), h) then Some(Applied(left, Patched(0, []), h)) else None;
    EmptyEnds(left);
    EmptyEnds(a);
  }

  lemma {:induction false} Joined<T>(s: seq<T>, i: nat, j: nat, k: nat)
    requires i <= j <= k <= |s|
    ensures s[..i] + s[i..j] + s[j..k] == s[..k]
  {
  }

  /** The hunk replaces `left[l0..l]` by `right[r0..r]`, after equal lines from `l'` and `r'` on. */
  ghost predicate Joins(left: seq<string>, right: seq<string>, h: Printed, l': nat, r': nat, l0: nat, r0: nat, l: nat,
                        r: nat)
  {
    && l' <= l0 <= l <= |left| && r' <= r0 <= r <= |right|
    && h.WellFormed() && h.leftStart == l0 + 1 && h.rightStart == r0 + 1
    && left[l'..l0] == right[r'..r0] && h.OldLines() == left[l0..l] && h.NewLines() == right[r0..r]
  }

  /** The hunks turn `left[..l]` into `right[..r]`. */
  ghost predicate ReplaysTo(left: seq<string>, right: seq<string>, hunks: seq<Printed>, l: nat, r: nat) {
    if hunks == [] then l == 0 && r == 0
    else
      var front, h := hunks[..|hunks| - 1], hunks[|hunks| - 1];
      exists l': nat, r': nat, l0: nat, r0: nat ::
        ReplaysTo(left, right, front, l', r') && Joins(left, right, h, l', r', l0, r0, l, r)
  }

  lemma {:induction false} ReplaysToSnoc(left: seq<string>, right: seq<string>, hunks: seq<Printed>, h: Printed,
                                         l': nat, r': nat, l0: nat, r0: nat, l: nat, r: nat)
    requires ReplaysTo(left, right, hunks, l', r') && Joins(left, right, h, l', r', l0, r0, l, r)
    ensures ReplaysTo(left, right, hunks + [h], l, r)
  {
    var all := hunks + [h];
    assert all[..|all| - 1] == hunks && all[|all| - 1] == h;
    assert Joins(left, right, all[|all| - 1], l', r', l0, r0, l, r);
  }

  lemma {:induction false} AppliedIs(left: seq<string>, right: seq<string>, h: Printed, l': nat, r': nat, l0: nat,
                                     r0: nat, l: nat, r: nat)
    requires Joins(left, right, h, l', r', l0, r0, l, r)
    ensures Fits(left, Patched(l', right[..r']), h) && Applied(left, Patched(l', right[..r']), h) == Patched(l, right[..r])
  {
    assert |left[l'..l0]| == |right[r'..r0]|;
    Joined(right, r', r0, r);
  }

  lemma {:induction false} ReplaysToMeans(left: seq<string>, right: seq<string>, hunks: seq<Printed>, l: nat, r: nat)
    requires ReplaysTo(left, right, hunks, l, r)
    ensures l <= |left| && r <= |right| && Replay(left, hunks) == Some(Patched(l, right[..r]))
  {
    if hunks == [] {
      assert right[..0] == [];
    } else {
      var front, h := hunks[..|hunks| - 1], hunks[|hunks| - 1];
      var l': nat, r': nat, l0: nat, r0: nat :|
        ReplaysTo(left, right, front, l', r') && Joins(left, right, h, l', r', l0, r0, l, r);
      ReplaysToMeans(left, right, front, l', r');
      AppliedIs(left, right, h, l', r', l0, r0, l, r);
      assert Replay(left, hunks) == Some(Applied(left, Patched(l', right[..r']), h));
    }
  }

  // ---------------------------------------------------------------- positions in a script

  /** The position in `left` after the first `k` edits. */
  function LeftAt(edits: seq<EditType>, k: nat): nat
    requires k <= |edits|
  {
    if k == 0 then 0 else LeftAt(edits, k - 1) + if edits[k - 1] != Add then 1 else 0
  }

  function RightAt(edits: seq<EditType>, k: nat): nat
    requires k <= |edits|
  {
    if k == 0 then 0 else RightAt(edits, k - 1) + if edits[k - 1] != Remove then 1 else 0
  }

  predicate StepOk<T(==)>(edits: seq<EditType>, left: seq<T>, right: seq<T>, k: nat)
    requires k < |edits|
  {
    && LeftAt(edits, k + 1) <= |left| && RightAt(edits, k + 1) <= |right|
    && (edits[k] == Match ==> left[LeftAt(edits, k)] == right[RightAt(edits, k)])
  }

  /** `edits` leads from `left` to `right`, read from the front. */
  ghost predicate Leads<T>(edits: seq<EditType>, left: seq<T>, right: seq<T>) {
    && LeftAt(edits, |edits|) == |left| && RightAt(edits, |edits|) == |right|
    && forall k: nat :: k < |edits| ==> StepOk(edits, left, right, k)
  }

  lemma {:induction false} ScriptSteps<T>(edits: seq<EditType>, n: nat, left: seq<T>, i: nat, right: seq<T>, j: nat)
    requires n <= |edits| && i <= |left| && j <= |right| && IsScript(edits[..n], left, i, right, j)
    ensures LeftAt(edits, n) == i && RightAt(edits, n) == j
    ensures forall k: nat :: k < n ==> StepOk(edits, left, right, k)
  {
    if n > 0 {
      assert edits[..n][..n - 1] == edits[..n - 1];
      var (i', j') := Before(edits[n - 1], i, j);
      ScriptSteps(edits, n - 1, left, i', right, j');
    }
  }

  lemma {:induction false} PathLeads<T>(left: seq<T>, right: seq<T>)
    ensures Leads(Path(left, right, |left|, |right|), left, right)
  {
    var edits := Path(left, right, |left|, |right|);
    PathIsScript(left, right, |left|, |right|);
    assert edits[..|edits|] == edits;
    ScriptSteps(edits, |edits|, left, |left|, right, |right|);
  }

  ghost predicate AllMatch(edits: seq<EditType>, start: nat, end: nat) {
    end <= |edits| && forall k :: start <= k < end ==> edits[k] == Match
  }

  /** Over a run of matches both sides advance together, over equal lines. */
  lemma {:induction false} MatchRun<T>(edits: seq<EditType>, left: seq<T>, right: seq<T>, start: nat, end: nat)
    requires Leads(edits, left, right) && start <= end && AllMatch(edits, start, end)
    ensures LeftAt(edits, end) == LeftAt(edits, start) + end - start <= |left|
    ensures RightAt(edits, end) == RightAt(edits, start) + end - start <= |right|
    ensures left[LeftAt(edits, start)..LeftAt(edits, end)] == right[RightAt(edits, start)..RightAt(edits, end)]
    decreases end
  {
    if start != end {
      assert StepOk(edits, left, right, end - 1);
      MatchRun(edits, left, right, start, end - 1);
      RunGrows(left, right, LeftAt(edits, start), LeftAt(edits, end - 1), RightAt(edits, start), RightAt(edits, end - 1));
    } else {
      Within(edits, left, right, start);
    }
  }

  lemma {:induction false} RunGrows<T>(left: seq<T>, right: seq<T>, l0: nat, l: nat, r0: nat, r: nat)
    requires l0 <= l < |left| && r0 <= r < |right| && left[l0..l] == right[r0..r] && left[l] == right[r]
    ensures left[l0..l + 1] == right[r0..r + 1]
  {
    assert left[l0..l + 1] == left[l0..l] + [left[l]];
    assert right[r0..r + 1] == right[r0..r] + [right[r]];
  }

  lemma {:induction false} Within<T>(edits: seq<EditType>, left: seq<T>, right: seq<T>, k: nat)
    requires Leads(edits, left, right) && k <= |edits|
    ensures LeftAt(edits, k) <= |left| && RightAt(edits, k) <= |right|
    decreases |edits| - k
  {
    if k != |edits| { Within(edits, left, right, k + 1); }
  }

  lemma {:induction false} LeftGrows(edits: seq<EditType>, start: nat, end: nat)
    requires start <= end <= |edits|
    ensures LeftAt(edits, start) <= LeftAt(edits, end)
  {
    if start != end { LeftGrows(edits, start, end - 1); }
  }

  // ---------------------------------------------------------------- context

  /** Some change is at most `context` edits away. */
  ghost predicate Near(edits: seq<EditType>, e: nat, context: nat) {
    exists f :: 0 <= f < |edits| && edits[f] != Match && f - context <= e <= f + context
  }

  /** Some hunk prints line `x` of `left`. */
  ghost predicate Shows(hunks: seq<Printed>, x: nat) {
    exists k :: 0 <= k < |hunks| && hunks[k].leftStart - 1 <= x < hunks[k].leftStart - 1 + hunks[k].removes + hunks[k].common
  }

  /** Of the first `n` edits exactly the matches near a change are printed. */
  ghost predicate ShowsContext(edits: seq<EditType>, hunks: seq<Printed>, context: nat, n: nat) {
    n <= |edits| && forall e: nat {:trigger Near(edits, e, context)} ::
      e < n && edits[e] == Match ==> (Shows(hunks, LeftAt(edits, e)) <==> Near(edits, e, context))
  }

  /** The changes before `n` are more than `context` away, those from `n` on at least `context`. */
  ghost predicate QuietAt(edits: seq<EditType>, start: nat, n: nat, context: nat) {
    && start <= n <= |edits|
    && (forall f :: start <= f < n && edits[f] != Match ==> f + context < n)
    && (forall f :: n <= f < |edits| && edits[f] != Match ==> n + context <= f)
  }

  /** The hunks print lines before `l` only. */
  ghost predicate EndBy(hunks: seq<Printed>, l: nat) {
    forall k :: 0 <= k < |hunks| ==> hunks[k].leftStart - 1 + hunks[k].removes + hunks[k].common <= l
  }

  /** What holds between two hunks, after `n` edits. */
  ghost predicate Between(edits: seq<EditType>, left: seq<string>, right: seq<string>, context: nat,
                          hunks: seq<Printed>, n: nat)
  {
    && Leads(edits, left, right) && n <= |edits|
    && LeftAt(edits, n) <= |left| && RightAt(edits, n) <= |right|
    && ReplaysTo(left, right, hunks, LeftAt(edits, n), RightAt(edits, n))
    && EndBy(hunks, LeftAt(edits, n))
    && ShowsContext(edits, hunks, context, n)
    && (n == 0 || n == |edits| || QuietAt(edits, 0, n, context))
  }

  // ---------------------------------------------------------------- building the diff

  /** The lines of context before the first edit of a hunk. */
  method StartHunk(left: seq<string>, l: nat, r: nat, prefix: nat) returns (hunk: Hunk)
    requires prefix <= l <= |left| && prefix <= r
    ensures fresh(hunk) && hunk.Valid() && !hunk.HasEdits()
    ensures hunk.leftStart == l - prefix + 1 && hunk.rightStart == r - prefix + 1
    ensures hunk.Old() == hunk.New() == left[l - prefix..l]
  {
    hunk := new Hunk(l - prefix + 1, r - prefix + 1);
    for i := prefix downto 0
      invariant fresh(hunk) && hunk.Valid() && !hunk.HasEdits()
      invariant hunk.leftStart == l - prefix + 1 && hunk.rightStart == r - prefix + 1
      invariant hunk.Old() == hunk.New() == left[l - prefix..l - i]
    {
      hunk.PushLine(' ', left[l - i - 1]);
    }
  }

  method NextEdit(edits: seq<EditType>, start: nat) returns (it: nat)
    requires start <= |edits|
    ensures IsNextEdit(edits, start, it)
  {
    it := start;
    while it < |edits| && edits[it] == Match
      invariant start <= it <= |edits| && AllMatch(edits, start, it)
    {
      it := it + 1;
    }
  }

  function Advance(i: nat, more: bool): nat {
    if more then i + 1 else i
  }

  function Taken<T>(s: seq<T>, i: nat, more: bool): seq<T>
    requires more ==> i < |s|
  {
    if more then [s[i]] else []
  }

  /** The lines of one edit. */
  method PushEdit(edit: EditType, left: seq<string>, right: seq<string>, hunk: Hunk, l: nat, r: nat)
    returns (l': nat, r': nat)
    requires hunk.Valid()
    requires edit != Add ==> l < |left|
    requires edit != Remove ==> r < |right|
    requires edit == Match ==> left[l] == right[r]
    modifies hunk`adds, hunk`removes, hunk`common, hunk`hunk, hunk`hunkAdds, hunk`hunkRemoves
    ensures hunk.Valid()
    ensures l' == Advance(l, edit != Add) && r' == Advance(r, edit != Remove)
    ensures hunk.Old() == old(hunk.Old()) + Taken(left, l, edit != Add)
    ensures hunk.New() == old(hunk.New()) + Taken(right, r, edit != Remove)
    ensures hunk.HasEdits() == (old(hunk.HasEdits()) || edit != Match)
  {
    if edit == Match || edit == Remove || edit == Replace {
      hunk.PushLine(if edit == Match then ' ' else '-', left[l]);
    }
    if edit == Add || edit == Replace {
      hunk.PushLine('+', right[r]);
    }
    l' := if edit != Add then l + 1 else l;
    r' := if edit != Remove then r + 1 else r;
  }

  ghost predicate AllNear(edits: seq<EditType>, start: nat, end: nat, context: nat) {
    forall e: nat :: start <= e < end ==> Near(edits, e, context)
  }

  /** The edits from `start` to `n` all belong to one hunk, and the last `suffix` of them are the
      matches after its last change. */
  ghost predicate Belong(edits: seq<EditType>, context: nat, start: nat, n: nat, suffix: nat) {
    && start <= n <= |edits|
    && (start < |edits| ==> edits[start] != Match)
    && AllNear(edits, start, n, context)
    && (start == n ==> suffix == 0)
    && (start < n ==> context > 0 && start + suffix < n && edits[n - suffix - 1] != Match && AllMatch(edits, n - suffix, n))
  }

  function NextSuffix(edit: EditType, suffix: nat): nat {
    if edit == Match then suffix + 1 else 0
  }

  /** `it` is the next change after `n`, if there is one. */
  ghost predicate IsNextEdit(edits: seq<EditType>, n: nat, it: nat) {
    n <= it <= |edits| && AllMatch(edits, n, it) && (it < |edits| ==> edits[it] != Match)
  }

  lemma {:induction false} BelongsToo(edits: seq<EditType>, context: nat, start: nat, n: nat, suffix: nat, it: nat)
    requires Belong(edits, context, start, n, suffix) && n < |edits|
    requires suffix < context || (IsNextEdit(edits, n, it) && it < |edits| && it - n < context)
    ensures Belong(edits, context, start, n + 1, NextSuffix(edits[n], suffix))
  {
    if suffix < context && edits[n] == Match {
      assert edits[n - suffix - 1] != Match;
    } else if suffix >= context {
      assert edits[it] != Match;
    } else {
      assert edits[n] != Match;
    }
    assert Near(edits, n, context);
  }

  lemma {:induction false} QuietEnd(edits: seq<EditType>, context: nat, start: nat, n: nat, suffix: nat, it: nat)
    requires Belong(edits, context, start, n, suffix) && n < |edits| && suffix >= context && context > 0
    requires IsNextEdit(edits, n, it) && (it == |edits| || it - n >= context)
    ensures QuietAt(edits, start, n, context)
  {
  }

  /** From the first edit of a hunk to its last line of context. */
  method FillHunk(edits: seq<EditType>, left: seq<string>, right: seq<string>, context: nat, hunk: Hunk, start: nat,
                  l: nat, r: nat)
    returns (editI: nat, l': nat, r': nat)
    requires Leads(edits, left, right) && start <= |edits| && l == LeftAt(edits, start) && r == RightAt(edits, start)
    requires start < |edits| ==> edits[start] != Match
    requires hunk.Valid() && !hunk.HasEdits()
    modifies hunk`adds, hunk`removes, hunk`common, hunk`hunk, hunk`hunkAdds, hunk`hunkRemoves
    ensures hunk.Valid() && start <= editI <= |edits|
    ensures l <= l' <= |left| && r <= r' <= |right| && l' == LeftAt(edits, editI) && r' == RightAt(edits, editI)
    ensures hunk.Old() == old(hunk.Old()) + left[l..l'] && hunk.New() == old(hunk.New()) + right[r..r']
    ensures hunk.HasEdits() <==> start < editI
    ensures start < editI <==> start < |edits| && context > 0
    ensures AllNear(edits, start, editI, context)
    ensures editI == |edits| || context == 0 || QuietAt(edits, start, editI, context)
  {
    editI, l', r' := start, l, r;
    var suffix: nat := 0;
    Within(edits, left, right, start);
    while editI < |edits|
      invariant hunk.Valid() && Belong(edits, context, start, editI, suffix)
      invariant l <= l' <= |left| && r <= r' <= |right| && l' == LeftAt(edits, editI) && r' == RightAt(edits, editI)
      invariant hunk.Old() == old(hunk.Old()) + left[l..l'] && hunk.New() == old(hunk.New()) + right[r..r']
      invariant hunk.HasEdits() <==> start < editI
    {
      ghost var it: nat := 0;
      if suffix >= context {
        var next := NextEdit(edits, editI);
        it := next;
        if next == |edits| || next - editI >= context {
          if context > 0 { QuietEnd(edits, context, start, editI, suffix, next); }
          break;
        }
      }
      BelongsToo(edits, context, start, editI, suffix, it);
      Step(edits, left, right, editI);
      var edit := edits[editI];
      SliceGrows(old(hunk.Old()), left, l, l', edit != Add);
      SliceGrows(old(hunk.New()), right, r, r', edit != Remove);
      suffix := NextSuffix(edit, suffix);
      l', r' := PushEdit(edit, left, right, hunk, l', r');
      editI := editI + 1;
    }
  }

  lemma {:induction false} Step<T>(edits: seq<EditType>, left: seq<T>, right: seq<T>, k: nat)
    requires Leads(edits, left, right) && k < |edits|
    ensures LeftAt(edits, k + 1) == Advance(LeftAt(edits, k), edits[k] != Add) <= |left|
    ensures RightAt(edits, k + 1) == Advance(RightAt(edits, k), edits[k] != Remove) <= |right|
    ensures edits[k] == Match ==> left[LeftAt(edits, k)] == right[RightAt(edits, k)]
  {
    assert StepOk(edits, left, right, k);
  }

  lemma {:induction false} SliceGrows<T>(before: seq<T>, s: seq<T>, i: nat, j: nat, more: bool)
    requires i <= j <= |s| && (more ==> j < |s|)
    ensures before + s[i..j] + Taken(s, j, more) == before + s[i..Advance(j, more)]
  {
  }

  /** Before the next edit `first` there is room for the context, all of it matches. */
  lemma {:induction false} PrefixRun(edits: seq<EditType>, left: seq<string>, right: seq<string>, context: nat,
                                     hunks: seq<Printed>, n: nat, first: nat, prefix: nat)
    requires Between(edits, left, right, context, hunks, n) && n < |edits| && IsNextEdit(edits, n, first)
    requires prefix <= context && prefix <= LeftAt(edits, first)
    ensures prefix <= first && LeftAt(edits, first - prefix) == LeftAt(edits, first) - prefix
    ensures prefix <= RightAt(edits, first) && RightAt(edits, first - prefix) == RightAt(edits, first) - prefix
    ensures LeftAt(edits, first) <= |left| && RightAt(edits, first) <= |right|
    ensures left[LeftAt(edits, first) - prefix..LeftAt(edits, first)] == right[RightAt(edits, first) - prefix..RightAt(edits, first)]
    ensures first < |edits| ==> n <= first - prefix
  {
    LeftIsBelow(edits, first);
    MatchRun(edits, left, right, first - prefix, first);
  }

  lemma {:induction false} LeftIsBelow(edits: seq<EditType>, k: nat)
    requires k <= |edits|
    ensures LeftAt(edits, k) <= k
  {
    if k > 0 { LeftIsBelow(edits, k - 1); }
  }

  lemma {:induction false} ShowsSnoc(hunks: seq<Printed>, h: Printed, x: nat)
    ensures Shows(hunks + [h], x) <==> Shows(hunks, x) || h.leftStart - 1 <= x < h.leftStart - 1 + h.removes + h.common
  {
    var all := hunks + [h];
    assert all[|hunks|] == h;
    assert forall k :: 0 <= k < |hunks| ==> all[k] == hunks[k];
    if h.leftStart - 1 <= x < h.leftStart - 1 + h.removes + h.common {
      assert Shows(all, x);
    }
    if Shows(hunks, x) {
      var k :| 0 <= k < |hunks| && hunks[k].leftStart - 1 <= x < hunks[k].leftStart - 1 + hunks[k].removes + hunks[k].common;
      assert all[k] == hunks[k];
    }
  }

  /** A match moves on in `left`. */
  lemma {:induction false} MatchMoves(edits: seq<EditType>, e: nat, n: nat)
    requires e < |edits| && n <= |edits| && edits[e] == Match
    ensures LeftAt(edits, e) < LeftAt(edits, n) <==> e < n
  {
    if e < n {
      LeftGrows(edits, e + 1, n);
    } else {
      LeftGrows(edits, n, e);
    }
  }

  /** A hunk over the edits from `first - prefix` to `n'`. */
  ghost predicate Spans(edits: seq<EditType>, context: nat, first: nat, prefix: nat, n': nat, h: Printed) {
    && prefix <= first < n' <= |edits| && edits[first] != Match
    && (prefix == context || (prefix < context && prefix == first))
    && AllNear(edits, first, n', context)
    && h.leftStart == LeftAt(edits, first - prefix) + 1
    && h.leftStart - 1 + h.removes + h.common == LeftAt(edits, n')
  }

  lemma {:induction false} NextShowsAt(edits: seq<EditType>, context: nat, hunks: seq<Printed>, n: nat, first: nat,
                                       prefix: nat, n': nat, h: Printed, e: nat)
    requires n <= |edits| && EndBy(hunks, LeftAt(edits, n))
    requires n == 0 || QuietAt(edits, 0, n, context)
    requires e < n ==> (Shows(hunks, LeftAt(edits, e)) <==> Near(edits, e, context))
    requires Spans(edits, context, first, prefix, n', h) && IsNextEdit(edits, n, first) && n <= first - prefix
    requires e < n' && edits[e] == Match
    ensures Shows(hunks + [h], LeftAt(edits, e)) <==> Near(edits, e, context)
  {
    ShowsSnoc(hunks, h, LeftAt(edits, e));
    MatchMoves(edits, e, first - prefix);
    MatchMoves(edits, e, n');
    if e >= first - prefix {
      NearFirst(edits, first, prefix, n', context, e);
    } else if e >= n {
      NotYetShown(edits, hunks, n, e);
      NotNear(edits, context, n, first, prefix, e);
    }
  }

  /** The next hunk shows the context it should. */
  lemma {:induction false} NextShows(edits: seq<EditType>, context: nat, hunks: seq<Printed>, n: nat, first: nat,
                                     prefix: nat, n': nat, h: Printed)
    requires n <= |edits| && EndBy(hunks, LeftAt(edits, n))
    requires ShowsContext(edits, hunks, context, n) && (n == 0 || QuietAt(edits, 0, n, context))
    requires Spans(edits, context, first, prefix, n', h) && IsNextEdit(edits, n, first) && n <= first - prefix
    ensures ShowsContext(edits, hunks + [h], context, n')
  {
    forall e: nat | e < n' && edits[e] == Match
      ensures Shows(hunks + [h], LeftAt(edits, e)) <==> Near(edits, e, context)
    {
      NextShowsAt(edits, context, hunks, n, first, prefix, n', h, e);
    }
  }

  lemma {:induction false} NearFirst(edits: seq<EditType>, first: nat, prefix: nat, n': nat, context: nat, e: nat)
    requires first < n' <= |edits| && prefix <= context && edits[first] != Match && AllNear(edits, first, n', context)
    requires first - prefix <= e < n'
    ensures Near(edits, e, context)
  {
  }

  lemma {:induction false} NotNear(edits: seq<EditType>, context: nat, n: nat, first: nat, prefix: nat, e: nat)
    requires n <= |edits| && (n == 0 || QuietAt(edits, 0, n, context)) && IsNextEdit(edits, n, first)
    requires prefix == context || prefix == first
    requires n <= e < first - prefix
    ensures !Near(edits, e, context)
  {
  }

  lemma {:induction false} NotYetShown(edits: seq<EditType>, hunks: seq<Printed>, n: nat, e: nat)
    requires n <= e < |edits| && EndBy(hunks, LeftAt(edits, n))
    ensures !Shows(hunks, LeftAt(edits, e))
  {
    LeftGrows(edits, n, e);
  }

  lemma {:induction false} LastShows(edits: seq<EditType>, context: nat, hunks: seq<Printed>, n: nat)
    requires n <= |edits| && EndBy(hunks, LeftAt(edits, n))
    requires ShowsContext(edits, hunks, context, n) && (n == 0 || QuietAt(edits, 0, n, context))
    requires AllMatch(edits, n, |edits|)
    ensures ShowsContext(edits, hunks, context, |edits|)
  {
    forall e: nat | n <= e < |edits| ensures !Shows(hunks, LeftAt(edits, e)) && !Near(edits, e, context) {
      NotYetShown(edits, hunks, n, e);
    }
  }

  lemma {:induction false} LastPatch(edits: seq<EditType>, left: seq<string>, right: seq<string>, hunks: seq<Printed>,
                                     n: nat)
    requires Leads(edits, left, right) && AllMatch(edits, n, |edits|) && n <= |edits|
    requires ReplaysTo(left, right, hunks, LeftAt(edits, n), RightAt(edits, n))
    ensures Patch(left, hunks) == Some(right)
  {
    ReplaysToMeans(left, right, hunks, LeftAt(edits, n), RightAt(edits, n));
    MatchRun(edits, left, right, n, |edits|);
    Rejoined(left, right, LeftAt(edits, n), RightAt(edits, n));
  }

  lemma {:induction false} Rejoined<T>(left: seq<T>, right: seq<T>, l: nat, r: nat)
    requires l <= |left| && r <= |right| && left[l..|left|] == right[r..|right|]
    ensures right[..r] + left[l..] == right
  {
    assert right == right[..r] + right[r..];
  }

  /** A larger quiet stretch. */
  lemma {:induction false} QuietFrom(edits: seq<EditType>, context: nat, n: nat, first: nat, n': nat)
    requires n == 0 || QuietAt(edits, 0, n, context)
    requires IsNextEdit(edits, n, first) && QuietAt(edits, first, n', context)
    ensures QuietAt(edits, 0, n', context)
  {
  }

  /** The next hunk keeps everything that holds between two hunks. */
  lemma {:induction false} NextHunk(edits: seq<EditType>, left: seq<string>, right: seq<string>, context: nat,
                                    hunks: seq<Printed>, n: nat,
                                    first: nat, prefix: nat, n': nat, h: Printed)
    requires Between(edits, left, right, context, hunks, n) && n < |edits| && IsNextEdit(edits, n, first)
    requires Spans(edits, context, first, prefix, n', h) && n <= first - prefix && h.WellFormed()
    requires LeftAt(edits, n') <= |left| && RightAt(edits, n') <= |right|
    requires h.leftStart == LeftAt(edits, first - prefix) + 1 && h.rightStart == RightAt(edits, first - prefix) + 1
    requires LeftAt(edits, first - prefix) <= LeftAt(edits, n') && RightAt(edits, first - prefix) <= RightAt(edits, n')
    requires h.OldLines() == left[LeftAt(edits, first - prefix)..LeftAt(edits, n')]
    requires h.NewLines() == right[RightAt(edits, first - prefix)..RightAt(edits, n')]
    requires n' == |edits| || QuietAt(edits, first, n', context)
    ensures Between(edits, left, right, context, hunks + [h], n')
  {
    NextShows(edits, context, hunks, n, first, prefix, n', h);
    ReplayNext(edits, left, right, hunks, n, first - prefix, n', h);
    LeftGrows(edits, n, n');
    if n' != |edits| {
      QuietFrom(edits, context, n, first, n');
    }
  }

  lemma {:induction false} ReplayNext(edits: seq<EditType>, left: seq<string>, right: seq<string>, hunks: seq<Printed>,
                                      n: nat, start: nat, n': nat, h: Printed)
    requires Leads(edits, left, right) && n <= start <= n' <= |edits| && AllMatch(edits, n, start) && h.WellFormed()
    requires ReplaysTo(left, right, hunks, LeftAt(edits, n), RightAt(edits, n))
    requires LeftAt(edits, start) <= LeftAt(edits, n') <= |left| && RightAt(edits, start) <= RightAt(edits, n') <= |right|
    requires h.leftStart == LeftAt(edits, start) + 1 && h.rightStart == RightAt(edits, start) + 1
    requires h.OldLines() == left[LeftAt(edits, start)..LeftAt(edits, n')]
    requires h.NewLines() == right[RightAt(edits, start)..RightAt(edits, n')]
    ensures ReplaysTo(left, right, hunks + [h], LeftAt(edits, n'), RightAt(edits, n'))
  {
    MatchRun(edits, left, right, n, start);
    ReplaysToSnoc(left, right, hunks, h, LeftAt(edits, n), RightAt(edits, n), LeftAt(edits, start), RightAt(edits, start),
                  LeftAt(edits, n'), RightAt(edits, n'));
  }

  /** When only matches are left, the hunks so far are the diff. */
  lemma {:induction false} Finished(edits: seq<EditType>, left: seq<string>, right: seq<string>, context: nat,
                                    hunks: seq<Printed>, n: nat)
    requires Between(edits, left, right, context, hunks, n) && AllMatch(edits, n, |edits|)
    ensures Patch(left, hunks) == Some(right)
    ensures ShowsContext(edits, hunks, context, |edits|)
  {
    LastPatch(edits, left, right, hunks, n);
    if n < |edits| {
      LastShows(edits, context, hunks, n);
    }
  }

  lemma {:induction false} NoContext(edits: seq<EditType>, left: seq<string>)
    ensures Patch(left, []) == Some(left)
    ensures ShowsContext(edits, [], 0, |edits|)
  {
    assert [] + left[0..] == left;
    assert forall e: nat :: e < |edits| && edits[e] == Match ==> !Shows([], LeftAt(edits, e)) && !Near(edits, e, 0);
  }

  /** The hunk that was made around the change at `first` is the next one. */
  lemma {:induction false} MadeHunk(edits: seq<EditType>, left: seq<string>, right: seq<string>, context: nat,
                                    hunks: seq<Printed>, n: nat,
                                    first: nat, prefix: nat, n': nat, h: Printed)
    requires Between(edits, left, right, context, hunks, n) && n < |edits| && IsNextEdit(edits, n, first)
    requires prefix == if LeftAt(edits, first) < context then LeftAt(edits, first) else context
    requires first < n' <= |edits| && AllNear(edits, first, n', context) && h.WellFormed()
    requires LeftAt(edits, first) <= LeftAt(edits, n') <= |left| && RightAt(edits, first) <= RightAt(edits, n') <= |right|
    requires prefix <= RightAt(edits, first)
    requires h.leftStart == LeftAt(edits, first) - prefix + 1 && h.rightStart == RightAt(edits, first) - prefix + 1
    requires h.OldLines() == left[LeftAt(edits, first) - prefix..LeftAt(edits, first)] + left[LeftAt(edits, first)..LeftAt(edits, n')]
    requires h.NewLines() == left[LeftAt(edits, first) - prefix..LeftAt(edits, first)] + right[RightAt(edits, first)..RightAt(edits, n')]
    requires n' == |edits| || QuietAt(edits, first, n', context)
    ensures Between(edits, left, right, context, hunks + [h], n')
  {
    PrefixRun(edits, left, right, context, hunks, n, first, prefix);
    var l, l', r, r' := LeftAt(edits, first), LeftAt(edits, n'), RightAt(edits, first), RightAt(edits, n');
    SliceJoin(left, l - prefix, l, l');
    SliceJoin(right, r - prefix, r, r');
    if prefix < context {
      FirstHunkOnly(edits, n, context, first);
    }
    NextHunk(edits, left, right, context, hunks, n, first, prefix, n', h);
  }

  lemma {:induction false} SliceJoin<T>(s: seq<T>, i: nat, j: nat, k: nat)
    requires i <= j <= k <= |s|
    ensures s[i..j] + s[j..k] == s[i..k]
  {
  }

  /** Only the first hunk can have less context before it than is asked for. */
  lemma {:induction false} FirstHunkOnly(edits: seq<EditType>, n: nat, context: nat, first: nat)
    requires n < |edits| && IsNextEdit(edits, n, first) && first < |edits|
    requires n == 0 || QuietAt(edits, 0, n, context)
    requires LeftAt(edits, first) < context
    ensures n == 0 && LeftAt(edits, first) == first
  {
    RunLength(edits, n, first);
  }

  lemma {:induction false} RunLength(edits: seq<EditType>, start: nat, end: nat)
    requires start <= end && AllMatch(edits, start, end)
    ensures LeftAt(edits, end) == LeftAt(edits, start) + end - start
  {
    if start < end { RunLength(edits, start, end - 1); }
  }

  /** The hunk around the change at `first`, or nothing when there is none or no context. */
  method MakeHunk(edits: seq<EditType>, left: seq<string>, right: seq<string>, context: nat, first: nat, l: nat,
                  r: nat, ghost n: nat, ghost hunks: seq<Printed>)
    returns (printed: Option<Printed>, editI: nat, l': nat, r': nat)
    requires Between(edits, left, right, context, hunks, n) && n < |edits| && IsNextEdit(edits, n, first)
    requires l == LeftAt(edits, first) && r == RightAt(edits, first)
    ensures printed == None <==> first == |edits| || context == 0
    ensures printed.Some? ==> first < editI <= |edits| && l' == LeftAt(edits, editI) && r' == RightAt(edits, editI)
    ensures printed.Some? ==> Between(edits, left, right, context, hunks + [printed.value], editI)
  {
    var prefix := if l < context then l else context;
    PrefixRun(edits, left, right, context, hunks, n, first, prefix);
    var hunk := StartHunk(left, l, r, prefix);
    editI, l', r' := FillHunk(edits, left, right, context, hunk, first, l, r);
    if !hunk.HasEdits() {
      return None, editI, l', r';
    }
    var h := hunk.PrintTo();
    MadeHunk(edits, left, right, context, hunks, n, first, prefix, editI, h);
    printed := Some(h);
  }

  /** `CreateUnifiedDiff`. The hunks follow one another without overlap, and replaying them on
      `left` gives `right`, exactly when some context is asked for or there is nothing to change;
      without context no hunk is printed at all. The common lines printed are those with a change
      at most `context` edits away. */
  method CreateUnifiedDiff(left: seq<string>, right: seq<string>, context: nat) returns (hunks: seq<Printed>)
    ensures Patch(left, hunks) == Some(right) <==> context > 0 || left == right
    ensures context == 0 ==> hunks == []
    ensures var edits := Path(left, right, |left|, |right|); ShowsContext(edits, hunks, context, |edits|)
  {
    var edits := CalculateLineEdits(left, right);
    PathLeads(left, right);
    hunks := [];
    var l: nat, r: nat, editI: nat := 0, 0, 0;
    while editI < |edits|
      invariant Between(edits, left, right, context, hunks, editI)
      invariant l == LeftAt(edits, editI) && r == RightAt(edits, editI)
      invariant context == 0 ==> editI == 0 && hunks == []
    {
      ghost var n := editI;
      while editI < |edits| && edits[editI] == Match
        invariant n <= editI <= |edits| && AllMatch(edits, n, editI)
        invariant l == LeftAt(edits, editI) && r == RightAt(edits, editI)
      {
        l, r, editI := l + 1, r + 1, editI + 1;
      }
      var printed;
      printed, editI, l, r := MakeHunk(edits, left, right, context, editI, l, r, n, hunks);
      if printed == None {
        if context == 0 {
          NoContext(edits, left);
        } else {
          Finished(edits, left, right, context, hunks, n);
        }
        return;
      }
      hunks := hunks + [printed.value];
    }
    Finished(edits, left, right, context, hunks, editI);
  }
}
