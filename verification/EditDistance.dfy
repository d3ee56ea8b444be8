/** The shell's "did you mean" search: a two-row dynamic program for the edit
    distance between two words, and the choice of the closest manual page.

    Edit scripts give the distance a meaning of its own: a script is a list of
    insertions, deletions and substitutions at explicit positions, run from left
    to right on the whole word. */
module EditDistance {

  import opened Common

  datatype Edit = Insert(at: nat, c: char) | Delete(at: nat) | Substitute(at: nat, c: char)

  predicate Fits(e: Edit, s: string) {
    if e.Insert? then e.at <= |s| else e.at < |s|
  }

  function Apply(e: Edit, s: string): string
    requires Fits(e, s)
  {
    match e
    case Insert(at, c) => s[..at] + [c] + s[at..]
    case Delete(at) => s[..at] + s[at + 1..]
    case Substitute(at, c) => s[at := c]
  }

  function Run(script: seq<Edit>, s: string): Option<string> {
    if script == [] then Some(s)
    else if !Fits(script[0], s) then None
    else Run(script[1..], Apply(script[0], s))
  }

  predicate Turns(script: seq<Edit>, a: string, b: string) {
    Run(script, a) == Some(b)
  }

  /** The number d is the least length of a script that turns a into b. */
  ghost predicate IsEditDistance(a: string, b: string, d: nat) {
    && (exists script :: Turns(script, a, b) && |script| == d)
    && (forall script :: Turns(script, a, b) ==> d <= |script|)
  }

  // ---------- The recurrence that the table follows ----------

  function Min(x: int, y: int): int { if x <= y then x else y }

  function Max(x: int, y: int): int { if x >= y then x else y }

  function Init(s: string): string requires s != [] { s[..|s| - 1] }

  function Last(s: string): char requires s != [] { s[|s| - 1] }

  function Cost(x: char, y: char): nat { if x == y then 0 else 1 }

  function Dist(a: string, b: string): (d: nat)
    decreases |a| + |b|
  {
    if a == [] then |b|
    else if b == [] then |a|
    else Min(Min(Dist(Init(a), b) + 1, Dist(a, Init(b)) + 1), Dist(Init(a), Init(b)) + Cost(Last(a), Last(b)))
  }

  lemma {:induction false} DistBounds(a: string, b: string)
    ensures |a| - |b| <= Dist(a, b) && |b| - |a| <= Dist(a, b)
    ensures Dist(a, b) <= Max(|a|, |b|)
    decreases |a| + |b|
  {
    if a != [] && b != [] {
      DistBounds(Init(a), b);
      DistBounds(a, Init(b));
      DistBounds(Init(a), Init(b));
    }
  }

  lemma {:induction false} DistSymmetric(a: string, b: string)
    ensures Dist(a, b) == Dist(b, a)
    decreases |a| + |b|
  {
    if a != [] && b != [] {
      DistSymmetric(Init(a), b);
      DistSymmetric(a, Init(b));
      DistSymmetric(Init(a), Init(b));
    }
  }

  lemma {:induction false} DistZero(a: string, b: string)
    ensures Dist(a, b) == 0 <==> a == b
    decreases |a|
  {
    if a != [] && b != [] {
      DistZero(Init(a), Init(b));
      assert a == Init(a) + [Last(a)] && b == Init(b) + [Last(b)];
    }
  }

  lemma {:induction false} DistTriangle(a: string, b: string, c: string)
    ensures Dist(a, c) <= Dist(a, b) + Dist(b, c)
    decreases |a| + |b| + |c|
  {
    DistBounds(a, b);
    DistBounds(b, c);
    DistBounds(a, c);
    if a != [] && b != [] && c != [] {
      if Dist(a, b) == Dist(Init(a), b) + 1 {
        DistTriangle(Init(a), b, c);
      } else if Dist(b, c) == Dist(b, Init(c)) + 1 {
        DistTriangle(a, b, Init(c));
      } else if Dist(a, b) == Dist(a, Init(b)) + 1 {
        if Dist(b, c) == Dist(Init(b), c) + 1 {
          DistTriangle(a, Init(b), c);
        } else {
          DistTriangle(a, Init(b), Init(c));
        }
      } else if Dist(b, c) == Dist(Init(b), c) + 1 {
        DistTriangle(Init(a), Init(b), c);
      } else {
        DistTriangle(Init(a), Init(b), Init(c));
      }
    }
  }

  // ---------- Lower bound: one edit moves the distance by at most one ----------

  lemma {:induction false} SharedTail(x: string, y: string, tail: string)
    ensures Dist(x + tail, y + tail) <= Dist(x, y)
    decreases |tail|
  {
    if tail == [] {
      assert x + tail == x && y + tail == y;
    } else {
      SharedTail(x, y, Init(tail));
      assert Init(x + tail) == x + Init(tail) && Init(y + tail) == y + Init(tail);
    }
  }

  lemma DistStep(a: string, b: string)
    requires b != []
    ensures Dist(a, b) <= Dist(a, Init(b)) + 1
    ensures a != [] ==> Dist(a, b) <= Dist(Init(a), Init(b)) + 1
  {
  }

  lemma Adjacent(a: string, b: string, head: string)
    requires a == head || (a != [] && Init(a) == head)
    requires b == head || (b != [] && Init(b) == head)
    ensures Dist(a, b) <= 1
  {
    DistZero(head, head);
    if b != head {
      DistStep(a, b);
    } else if a != head {
      DistStep(b, a);
      DistSymmetric(a, b);
    }
  }

  /** Replacing at most one letter by at most one letter costs at most one. */
  lemma DistSplice(head: string, x: string, y: string, tail: string)
    requires |x| <= 1 && |y| <= 1
    ensures Dist(head + x + tail, head + y + tail) <= 1
  {
    assert x != [] ==> Init(head + x) == head;
    assert y != [] ==> Init(head + y) == head;
    Adjacent(head + x, head + y, head);
    SharedTail(head + x, head + y, tail);
  }

  lemma OneEdit(e: Edit, s: string)
    requires Fits(e, s)
    ensures Dist(s, Apply(e, s)) <= 1
  {
    var head := s[..e.at];
    var x := if e.Insert? then [] else [s[e.at]];
    var y := if e.Delete? then [] else [e.c];
    var tail := s[e.at + |x|..];
    assert s == head + x + tail;
    assert Apply(e, s) == head + y + tail;
    DistSplice(head, x, y, tail);
  }

  lemma {:induction false} ScriptAtLeastDist(script: seq<Edit>, a: string, b: string)
    requires Turns(script, a, b)
    ensures Dist(a, b) <= |script|
    decreases |script|
  {
    if script == [] {
      DistZero(a, b);
    } else {
      var next := Apply(script[0], a);
      ScriptAtLeastDist(script[1..], next, b);
      OneEdit(script[0], a);
      DistTriangle(a, next, b);
    }
  }

  // ---------- Upper bound: a script of that length exists ----------

  lemma {:induction false} RunThen(first: seq<Edit>, e: Edit, a: string, b: string)
    requires Turns(first, a, b) && Fits(e, b)
    ensures Turns(first + [e], a, Apply(e, b))
    decreases |first|
  {
    if first == [] {
      assert first + [e] == [e];
    } else {
      RunThen(first[1..], e, Apply(first[0], a), b);
      assert (first + [e])[1..] == first[1..] + [e];
    }
  }

  lemma {:induction false} RunWithTail(script: seq<Edit>, a: string, b: string, c: char)
    requires Turns(script, a, b)
    ensures Turns(script, a + [c], b + [c])
    decreases |script|
  {
    if script != [] {
      var e := script[0];
      assert Apply(e, a + [c]) == Apply(e, a) + [c];
      RunWithTail(script[1..], Apply(e, a), b, c);
    }
  }

  lemma DeleteLast(a: string, b: string, rest: seq<Edit>)
    requires a != [] && Turns(rest, Init(a), b)
    ensures Turns([Delete(|a| - 1)] + rest, a, b)
  {
    var script := [Delete(|a| - 1)] + rest;
    assert Apply(script[0], a) == Init(a) && script[1..] == rest;
  }

  lemma InsertLast(a: string, b: string, first: seq<Edit>)
    requires b != [] && Turns(first, a, Init(b))
    ensures Turns(first + [Insert(|b| - 1, Last(b))], a, b)
  {
    var e := Insert(|b| - 1, Last(b));
    RunThen(first, e, a, Init(b));
    assert Apply(e, Init(b)) == b;
  }

  lemma MatchLast(a: string, b: string, same: seq<Edit>) returns (script: seq<Edit>)
    requires a != [] && b != [] && Turns(same, Init(a), Init(b))
    ensures Turns(script, a, b) && |script| == |same| + Cost(Last(a), Last(b))
  {
    var mid := Init(b) + [Last(a)];
    RunWithTail(same, Init(a), Init(b), Last(a));
    assert a == Init(a) + [Last(a)] && b == Init(b) + [Last(b)];
    if Last(a) == Last(b) {
      script := same;
    } else {
      var e := Substitute(|b| - 1, Last(b));
      RunThen(same, e, a, mid);
      script := same + [e];
      assert Apply(e, mid) == b;
    }
  }

  lemma {:induction false} BestScript(a: string, b: string) returns (script: seq<Edit>)
    ensures Turns(script, a, b) && |script| == Dist(a, b)
    decreases |a| + |b|
  {
    if a == [] && b == [] {
      script := [];
    } else if a != [] && Dist(a, b) == Dist(Init(a), b) + 1 {
      var rest := BestScript(Init(a), b);
      DeleteLast(a, b, rest);
      script := [Delete(|a| - 1)] + rest;
    } else if b != [] && Dist(a, b) == Dist(a, Init(b)) + 1 {
      var first := BestScript(a, Init(b));
      InsertLast(a, b, first);
      script := first + [Insert(|b| - 1, Last(b))];
    } else {
      var same := BestScript(Init(a), Init(b));
      script := MatchLast(a, b, same);
    }
  }

  /** The recurrence computes the least script length, for every pair of words. */
  lemma DistIsEditDistance(a: string, b: string)
    ensures IsEditDistance(a, b, Dist(a, b))
  {
    var best := BestScript(a, b);
    forall script | Turns(script, a, b) ensures Dist(a, b) <= |script| {
      ScriptAtLeastDist(script, a, b);
    }
  }

  // ---------- The two-row table ----------

  ghost function Table(a: string, b: string, i: nat, j: nat): nat
    requires i <= |a| && j <= |b|
  {
    Dist(a[..i], b[..j])
  }

  ghost predicate RowHolds(row: seq<nat>, a: string, b: string, i: nat)
    requires i <= |a| && |row| <= |b| + 1
  {
    forall j :: 0 <= j < |row| ==> row[j] == Table(a, b, i, j)
  }

  lemma Cell(a: string, b: string, i: nat, j: nat)
    requires 0 < i <= |a| && 0 < j <= |b|
    ensures Table(a, b, i, j) ==
            Min(Min(Table(a, b, i - 1, j) + 1, Table(a, b, i, j - 1) + 1),
                Table(a, b, i - 1, j - 1) + Cost(a[i - 1], b[j - 1]))
  {
    assert Init(a[..i]) == a[..i - 1] && Init(b[..j]) == b[..j - 1];
  }

  lemma Edge(a: string, b: string, i: nat, j: nat)
    requires i <= |a| && j <= |b|
    ensures Table(a, b, i, 0) == i && Table(a, b, 0, j) == j
    ensures Table(a, b, |a|, |b|) == Dist(a, b)
  {
    assert b[..0] == [] && a[..0] == [];
    assert a[..|a|] == a && b[..|b|] == b;
  }

  method FillRow(a: string, b: string, i: nat, prevRow: array<nat>, currentRow: array<nat>)
    requires 0 < i <= |a| && prevRow != currentRow
    requires prevRow.Length == currentRow.Length == |b| + 1
    requires RowHolds(prevRow[..], a, b, i - 1)
    modifies currentRow
    ensures RowHolds(currentRow[..], a, b, i)
  {
    currentRow[0] := i;
    Edge(a, b, i, 0);
    for j := 1 to |b| + 1
      invariant RowHolds(currentRow[..j], a, b, i)
      invariant RowHolds(prevRow[..], a, b, i - 1)
    {
      var substitutionCost := if a[i - 1] == b[j - 1] then 0 else 1;
      Cell(a, b, i, j);
      assert currentRow[..j][j - 1] == Table(a, b, i, j - 1);
      assert prevRow[..][j] == Table(a, b, i - 1, j) && prevRow[..][j - 1] == Table(a, b, i - 1, j - 1);
      currentRow[j] := Min(Min(prevRow[j] + 1, currentRow[j - 1] + 1), prevRow[j - 1] + substitutionCost);
    }
    assert currentRow[..|b| + 1] == currentRow[..];
  }

  method CloneFromSlice(target: array<nat>, source: array<nat>)
    requires target.Length == source.Length
    modifies target
    ensures target[..] == old(source[..])
  {
    for j := 0 to target.Length
      invariant target[..j] == old(source[..j])
      invariant source[j..] == old(source[j..])
    {
      target[j] := source[j];
    }
  }

  method Levenshtein(a: string, b: string) returns (d: nat)
    ensures d == Dist(a, b)
    ensures IsEditDistance(a, b, d)
  {
    hide Table, IsEditDistance;
    DistIsEditDistance(a, b);
    if |a| == 0 { return |b|; }
    if |b| == 0 { return |a|; }
    var prevRow := new nat[|b| + 1](j => j);
    var currentRow := new nat[|b| + 1](_ => 0);
    forall j | 0 <= j <= |b| ensures Table(a, b, 0, j) == j { Edge(a, b, 0, j); }
    for i := 1 to |a| + 1
      invariant RowHolds(prevRow[..], a, b, i - 1)
    {
      FillRow(a, b, i, prevRow, currentRow);
      CloneFromSlice(prevRow, currentRow);
    }
    Edge(a, b, |a|, |b|);
    assert prevRow[..][|b|] == Dist(a, b);
    d := prevRow[|b|];
  }

  // ---------- The closest manual page ----------

  /** Distance over longer length, below 0.4, in exact arithmetic. */
  predicate Similar(page: string, candidate: string) {
    var longer := Max(|page|, |candidate|);
    longer != 0 && 5 * Dist(page, candidate) < 2 * longer
  }

  lemma SimilarIsRelative(page: string, candidate: string)
    ensures var longer := if |page| >= |candidate| then |page| else |candidate|;
            Similar(page, candidate) <==> longer > 0 && Ratio(Dist(page, candidate) as real, longer as real) < 0.4
  {
    hide Dist, Ratio;
    if Max(|page|, |candidate|) > 0 { BelowRatio(Dist(page, candidate), Max(|page|, |candidate|)); }
  }

  lemma BelowRatio(d: int, n: int)
    requires n > 0
    ensures 5 * d < 2 * n <==> Ratio(d as real, n as real) < 0.4
  {
    BelowQuotient(d as real, n as real);
    hide Ratio;
  }

  function Ratio(x: real, n: real): real
    requires n > 0.0
  {
    x / n
  }

  lemma BelowQuotient(x: real, n: real)
    requires n > 0.0
    ensures Ratio(x, n) < 0.4 <==> 5.0 * x < 2.0 * n
  {
    var q := Ratio(x, n);
    assert x == q * n;
    if q < 0.4 {
      assert (0.4 - q) * n > 0.0;
    } else {
      assert (q - 0.4) * n >= 0.0;
    }
  }

  /** Of the similar candidates the first one at the least distance. */
  function FindClosest(page: string, pages: seq<string>): (r: Option<string>)
    ensures r.None? <==> forall k :: 0 <= k < |pages| ==> !Similar(page, pages[k])
    ensures r.Some? ==> exists k :: IsFirstClosest(page, pages, k) && pages[k] == r.value
  {
    if pages == [] then None
    else
      var last := pages[|pages| - 1];
      var front := pages[..|pages| - 1];
      var r := FindClosest(page, front);
      assert pages == front + [last];
      assert r.Some? && !(Similar(page, last) && Dist(page, last) < Dist(page, r.value)) ==>
        exists k :: IsFirstClosest(page, front, k) && front[k] == r.value && IsFirstClosest(page, pages, k);
      if Similar(page, last) && (r.None? || Dist(page, last) < Dist(page, r.value)) then
        assert IsFirstClosest(page, pages, |pages| - 1);
        Some(last)
      else r
  }

  ghost predicate IsFirstClosest(page: string, pages: seq<string>, k: int) {
    && 0 <= k < |pages| && Similar(page, pages[k])
    && (forall j :: 0 <= j < |pages| && Similar(page, pages[j]) ==>
          Dist(page, pages[k]) <= Dist(page, pages[j]) && (j < k ==> Dist(page, pages[k]) < Dist(page, pages[j])))
  }

  /** A page that exists is suggested for its own name, and a suggestion at
      distance zero is that very page. */
  lemma ExactNameWins(page: string, pages: seq<string>)
    requires page != "" && page in pages
    ensures FindClosest(page, pages) == Some(page)
  {
    DistZero(page, page);
    var r := FindClosest(page, pages);
    var k :| 0 <= k < |pages| && pages[k] == page;
    assert Similar(page, pages[k]);
    DistZero(page, r.value);
  }
}
