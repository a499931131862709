/**
 Plateaus of the parameter grid: the connected components of the positive cells under single steps along
 one axis, found by a depth-first search with an explicit stack.
 */
module Plateaus {
  import opened Sums
  import opened Sequences

  datatype Coord = Coord(basket: int, tp: int, sl: int)

  // A grid cell: the net returns observed for it.
  datatype Cell = Cell(observed: seq<real>)

  // At least one observation and a positive mean.
  predicate IsPositive(c: Cell) {
    c.observed != [] && Sum(c.observed) / |c.observed| as real > 0.0
  }

  // A cell is positive exactly when what was observed adds up to more than nothing.
  lemma PositiveCells(c: Cell)
    ensures IsPositive(c) <==> Sum(c.observed) > 0.0
    ensures c.observed != [] && (forall i :: 0 <= i < |c.observed| ==> c.observed[i] > 0.0) ==> IsPositive(c)
    ensures (forall i :: 0 <= i < |c.observed| ==> c.observed[i] <= 0.0) ==> !IsPositive(c)
  {
    if c.observed != [] {
      SignOfMean(Sum(c.observed), |c.observed| as real);
    }
    SumHasTheSign(c.observed);
  }

  lemma SignOfMean(sum: real, n: real)
    requires n > 0.0
    ensures sum / n > 0.0 <==> sum > 0.0
  {
    var mean := sum / n;
    assert mean * n == sum;
    if mean > 0.0 {
      assert mean * n > 0.0;
    } else {
      assert mean * n <= 0.0;
    }
  }

  lemma {:induction false} SumHasTheSign(s: seq<real>)
    ensures s != [] && (forall i :: 0 <= i < |s| ==> s[i] > 0.0) ==> Sum(s) > 0.0
    ensures (forall i :: 0 <= i < |s| ==> s[i] <= 0.0) ==> Sum(s) <= 0.0
  {
    if s == [] {
    } else {
      SumHasTheSign(s[..|s| - 1]);
    }
  }

  // Raising observations keeps a positive cell positive.
  lemma RaisingKeepsPositive(c: Cell, d: Cell)
    requires IsPositive(c) && |c.observed| == |d.observed| && forall i :: 0 <= i < |c.observed| ==> c.observed[i] <= d.observed[i]
    ensures IsPositive(d)
  {
    PositiveCells(c);
    PositiveCells(d);
    SumGrows(c.observed, d.observed);
  }

  lemma {:induction false} SumGrows(a: seq<real>, b: seq<real>)
    requires |a| == |b| && forall i :: 0 <= i < |a| ==> a[i] <= b[i]
    ensures Sum(a) <= Sum(b)
  {
    if a == [] {
    } else {
      SumGrows(a[..|a| - 1], b[..|b| - 1]);
    }
  }

  function PositiveCoords(byCoord: map<Coord, Cell>): set<Coord> {
    set c | c in byCoord && IsPositive(byCoord[c])
  }

  predicate Adjacent(a: Coord, b: Coord) {
    || (a.tp == b.tp && a.sl == b.sl && (b.basket == a.basket + 1 || b.basket == a.basket - 1))
    || (a.basket == b.basket && a.sl == b.sl && (b.tp == a.tp + 1 || b.tp == a.tp - 1))
    || (a.basket == b.basket && a.tp == b.tp && (b.sl == a.sl + 1 || b.sl == a.sl - 1))
  }

  function Neighbours(c: Coord): seq<Coord> {
    [c.(basket := c.basket + 1), c.(basket := c.basket - 1), c.(tp := c.tp + 1), c.(tp := c.tp - 1),
     c.(sl := c.sl + 1), c.(sl := c.sl - 1)]
  }

  lemma NeighboursAreAdjacent(a: Coord, b: Coord)
    ensures b in Neighbours(a) <==> Adjacent(a, b)
  {
    var n := Neighbours(a);
    assert n[0] in n && n[1] in n && n[2] in n && n[3] in n && n[4] in n && n[5] in n;
  }

  function Apart(a: int, b: int): nat {
    if a < b then b - a else a - b
  }

  // A step changes one of the three parameters by one.
  lemma StepsAreOneApart(a: Coord, b: Coord)
    ensures Adjacent(a, b) <==> Apart(a.basket, b.basket) + Apart(a.tp, b.tp) + Apart(a.sl, b.sl) == 1
  {
  }

  // ------------------------------------------------------------------ connection by steps

  predicate IsPath(p: seq<Coord>, s: set<Coord>) {
    && p != []
    && (forall i :: 0 <= i < |p| ==> p[i] in s)
    && (forall i :: 0 < i < |p| ==> Adjacent(p[i - 1], p[i]))
  }

  ghost predicate Connected(a: Coord, b: Coord, s: set<Coord>) {
    exists p :: IsPath(p, s) && p[0] == a && p[|p| - 1] == b
  }

  lemma ConnectedToItself(a: Coord, s: set<Coord>)
    requires a in s
    ensures Connected(a, a, s)
  {
    assert IsPath([a], s);
  }

  lemma StepConnects(a: Coord, b: Coord, c: Coord, s: set<Coord>)
    requires Connected(a, b, s) && Adjacent(b, c) && c in s
    ensures Connected(a, c, s)
  {
    var p :| IsPath(p, s) && p[0] == a && p[|p| - 1] == b;
    assert IsPath(p + [c], s);
  }

  lemma ConnectedInLarger(a: Coord, b: Coord, s: set<Coord>, t: set<Coord>)
    requires Connected(a, b, s) && s <= t
    ensures Connected(a, b, t)
  {
    var p :| IsPath(p, s) && p[0] == a && p[|p| - 1] == b;
    assert IsPath(p, t);
  }

  lemma ConnectedBackwards(a: Coord, b: Coord, s: set<Coord>)
    requires Connected(a, b, s)
    ensures Connected(b, a, s)
  {
    var p :| IsPath(p, s) && p[0] == a && p[|p| - 1] == b;
    forall i | 0 <= i < |p|
      ensures Reversed(p)[i] == p[|p| - 1 - i]
    {
      ReversedAt(p, i);
    }
    assert IsPath(Reversed(p), s);
  }

  lemma ConnectedThrough(a: Coord, b: Coord, c: Coord, s: set<Coord>)
    requires Connected(a, b, s) && Connected(b, c, s)
    ensures Connected(a, c, s)
  {
    var p :| IsPath(p, s) && p[0] == a && p[|p| - 1] == b;
    var q :| IsPath(q, s) && q[0] == b && q[|q| - 1] == c;
    var r := p + q[1..];
    assert IsPath(r, s);
    assert r[|r| - 1] == c;
  }

  // No step leads out of the set.
  predicate Closed(part: set<Coord>, s: set<Coord>) {
    forall a, b :: a in part && b in s && Adjacent(a, b) ==> b in part
  }

  lemma {:induction false} ClosedKeepsPaths(part: set<Coord>, s: set<Coord>, p: seq<Coord>)
    requires Closed(part, s) && IsPath(p, s) && p[0] in part
    ensures p[|p| - 1] in part
  {
    if |p| > 1 {
      assert IsPath(p[..|p| - 1], s);
      ClosedKeepsPaths(part, s, p[..|p| - 1]);
    }
  }

  // ------------------------------------------------------------------ the search

  function Elements(s: seq<Coord>): set<Coord> {
    set i | 0 <= i < |s| :: s[i]
  }

  // A component is connected and no step leads out of it.
  ghost predicate IsComponent(c: seq<Coord>, positive: set<Coord>) {
    && c != [] && Distinct(c) && Elements(c) <= positive
    && Closed(Elements(c), positive)
    && forall a, b :: a in Elements(c) && b in Elements(c) ==> Connected(a, b, Elements(c))
  }

  function Covered(components: seq<seq<Coord>>): set<Coord> {
    if components == [] then {} else Covered(components[..|components| - 1]) + Elements(components[|components| - 1])
  }

  // Pairwise disjoint components that cover exactly the set.
  ghost predicate IsPartition(components: seq<seq<Coord>>, s: set<Coord>, positive: set<Coord>) {
    && Covered(components) == s
    && (forall i :: 0 <= i < |components| ==> IsComponent(components[i], positive))
    && (forall i, j :: 0 <= i < j < |components| ==> Elements(components[i]) !! Elements(components[j]))
  }

  // Visits the unvisited positive neighbours of a cell.
  method Expand(cur: Coord, positive: set<Coord>, visited: set<Coord>, stack: seq<Coord>)
    returns (visited': set<Coord>, stack': seq<Coord>)
    requires Distinct(stack) && Elements(stack) <= visited
    ensures visited' == visited + (Elements(Neighbours(cur)) * positive)
    ensures Distinct(stack') && Elements(stack') == Elements(stack) + (visited' - visited)
    ensures visited' == visited ==> stack' == stack
  {
    visited', stack' := visited, stack;
    var ns := Neighbours(cur);
    for k := 0 to |ns|
      invariant visited' == visited + (Elements(ns[..k]) * positive)
      invariant Distinct(stack') && Elements(stack') == Elements(stack) + (visited' - visited)
      invariant visited' == visited ==> stack' == stack
    {
      var n := ns[k];
      ElementsOfSnoc(ns[..k], n);
      assert ns[..k + 1] == ns[..k] + [n];
      if n in positive && n !in visited' {
        ElementsOfSnoc(stack', n);
        DistinctSnoc(stack', n);
        visited' := visited' + {n};
        stack' := stack' + [n];
      }
    }
    assert ns[..|ns|] == ns;
  }

  lemma ElementsOfSnoc(s: seq<Coord>, c: Coord)
    ensures Elements(s + [c]) == Elements(s) + {c}
  {
    var r := s + [c];
    assert r[|s|] == c && forall i :: 0 <= i < |s| ==> r[i] == s[i];
  }

  lemma DistinctSnoc(s: seq<Coord>, c: Coord)
    requires Distinct(s) && c !in Elements(s)
    ensures Distinct(s + [c])
  {
  }

  // Midway through a component: `comp` has been expanded and the stack is waiting; together they are
  // what the search has found from its start.
  ghost predicate Searching(start: Coord, comp: seq<Coord>, stack: seq<Coord>, before: set<Coord>,
                            visited: set<Coord>, positive: set<Coord>)
  {
    && visited <= positive && before <= visited && start in visited - before
    && Elements(comp) + Elements(stack) == visited - before && Elements(comp) !! Elements(stack)
    && Distinct(comp) && Distinct(stack)
    && (forall a, b :: a in Elements(comp) && b in positive && Adjacent(a, b) ==> b in visited)
    && (forall a :: a in visited - before ==> Connected(start, a, visited - before))
  }

  lemma PopAndExpand(start: Coord, comp: seq<Coord>, stack: seq<Coord>, before: set<Coord>, visited: set<Coord>,
                     positive: set<Coord>, visited': set<Coord>, stack': seq<Coord>)
    requires stack != [] && Searching(start, comp, stack, before, visited, positive)
    requires var cur, rest := stack[|stack| - 1], stack[..|stack| - 1];
      && visited' == visited + (Elements(Neighbours(cur)) * positive)
      && Distinct(stack') && Elements(stack') == Elements(rest) + (visited' - visited)
    ensures Searching(start, comp + [stack[|stack| - 1]], stack', before, visited', positive)
  {
    var cur, rest := stack[|stack| - 1], stack[..|stack| - 1];
    hide Connected, Adjacent, Neighbours, Elements, Distinct;
    TopOfStack(stack);
    ElementsOfSnoc(comp, cur);
    NeighboursAreReached(cur);
    CellMoves(Elements(comp), Elements(rest), cur, visited, visited', before);
    DistinctSnoc(comp, cur);
    StillConnected(start, cur, visited - before, visited' - before);
  }

  lemma TopOfStack(stack: seq<Coord>)
    requires stack != [] && Distinct(stack)
    ensures var cur, rest := stack[|stack| - 1], stack[..|stack| - 1];
            Elements(stack) == Elements(rest) + {cur} && cur !in Elements(rest)
  {
    ElementsOfSnoc(stack[..|stack| - 1], stack[|stack| - 1]);
    assert stack == stack[..|stack| - 1] + [stack[|stack| - 1]];
  }

  // A cell moves from the waiting ones to the component, and the new ones join the waiting.
  lemma CellMoves(comp: set<Coord>, rest: set<Coord>, cur: Coord, visited: set<Coord>, visited': set<Coord>, before: set<Coord>)
    requires comp + (rest + {cur}) == visited - before && comp !! rest + {cur} && cur !in rest
    requires before <= visited <= visited'
    ensures cur in visited - before && cur !in comp
    ensures (comp + {cur}) + (rest + (visited' - visited)) == visited' - before
    ensures comp + {cur} !! rest + (visited' - visited)
  {
    assert cur in rest + {cur};
  }

  lemma NeighboursAreReached(cur: Coord)
    ensures forall b :: b in Elements(Neighbours(cur)) <==> Adjacent(cur, b)
  {
    forall b
      ensures b in Elements(Neighbours(cur)) <==> Adjacent(cur, b)
    {
      NeighboursAreAdjacent(cur, b);
    }
  }

  // Neighbours of a connected cell are connected.
  lemma StillConnected(start: Coord, cur: Coord, found: set<Coord>, more: set<Coord>)
    requires found <= more && cur in found && (forall a :: a in found ==> Connected(start, a, found))
    requires forall a :: a in more - found ==> a in Elements(Neighbours(cur))
    ensures forall a :: a in more ==> Connected(start, a, more)
  {
    hide Connected;
    NeighboursAreReached(cur);
    forall a | a in more
      ensures Connected(start, a, more)
    {
      if a in found {
        ConnectedInLarger(start, a, found, more);
      } else {
        ConnectedInLarger(start, cur, found, more);
        StepConnects(start, cur, a, more);
      }
    }
  }

  // With an empty stack the component is complete.
  lemma SearchEnds(start: Coord, comp: seq<Coord>, before: set<Coord>, visited: set<Coord>, positive: set<Coord>)
    requires Searching(start, comp, [], before, visited, positive) && Closed(before, positive)
    ensures IsComponent(comp, positive) && Elements(comp) == visited - before && Closed(visited, positive)
  {
    var found := Elements(comp);
    forall a, b | a in found && b in positive && Adjacent(a, b)
      ensures b in found
    {
      assert Adjacent(b, a);
    }
    forall a, b | a in found && b in found
      ensures Connected(a, b, found)
    {
      ConnectedBackwards(start, a, found);
      ConnectedThrough(a, start, b, found);
    }
  }

  method FindPlateaus(byCoord: map<Coord, Cell>) returns (components: seq<seq<Coord>>)
    ensures IsPartition(components, PositiveCoords(byCoord), PositiveCoords(byCoord))
  {
    hide Searching, IsPartition, IsComponent, Closed, Elements, Covered, PositiveCoords, Distinct;
    var positive := PositiveCoords(byCoord);
    EmptyPartition(positive);
    var visited: set<Coord> := {};
    components := [];
    // The iteration order over the set is arbitrary.
    var todo := positive;
    while todo != {}
      invariant todo <= positive && positive - todo <= visited <= positive
      invariant Closed(visited, positive) && IsPartition(components, visited, positive)
      decreases |todo|
    {
      var start :| start in todo;
      todo := todo - {start};
      if start in visited {
        continue;
      }
      ghost var before := visited;
      var stack := [start];
      visited := visited + {start};
      var comp: seq<Coord> := [];
      StartSearch(start, before, positive);
      while stack != []
        invariant Searching(start, comp, stack, before, visited, positive)
        decreases positive - visited, |stack|
      {
        var cur, rest := stack[|stack| - 1], stack[..|stack| - 1];
        SearchingParts(start, comp, stack, before, visited, positive);
        var visited', stack' := Expand(cur, positive, visited, rest);
        PopAndExpand(start, comp, stack, before, visited, positive, visited', stack');
        comp := comp + [cur];
        visited, stack := visited', stack';
      }
      SearchingParts(start, comp, stack, before, visited, positive);
      SearchEnds(start, comp, before, visited, positive);
      assert before + Elements(comp) == visited;
      AddComponent(components, comp, before, positive);
      components := components + [comp];
    }
    assert visited == positive;
  }

  lemma SearchingParts(start: Coord, comp: seq<Coord>, stack: seq<Coord>, before: set<Coord>, visited: set<Coord>,
                       positive: set<Coord>)
    requires Searching(start, comp, stack, before, visited, positive)
    ensures before <= visited <= positive && start in visited
    ensures stack != [] ==> Distinct(stack[..|stack| - 1]) && Elements(stack[..|stack| - 1]) <= visited
  {
    assert Elements(stack) <= visited;
    if stack != [] {
      assert Elements(stack[..|stack| - 1]) <= Elements(stack);
    }
  }

  lemma EmptyPartition(positive: set<Coord>)
    ensures Closed({}, positive) && IsPartition([], {}, positive)
  {
  }

  lemma StartSearch(start: Coord, before: set<Coord>, positive: set<Coord>)
    requires before <= positive && start in positive - before
    ensures Searching(start, [], [start], before, before + {start}, positive)
  {
    assert [] + [start] == [start] && Elements([]) == {};
    ElementsOfSnoc([], start);
    assert Elements([start]) == {start};
    assert before + {start} - before == {start};
    ConnectedToItself(start, {start});
  }

  lemma {:induction false} ComponentIsCovered(components: seq<seq<Coord>>, i: nat)
    requires i < |components|
    ensures Elements(components[i]) <= Covered(components)
  {
    if i < |components| - 1 {
      ComponentIsCovered(components[..|components| - 1], i);
    }
  }

  lemma AddComponent(components: seq<seq<Coord>>, comp: seq<Coord>, before: set<Coord>, positive: set<Coord>)
    requires IsPartition(components, before, positive)
    requires IsComponent(comp, positive) && Elements(comp) !! before
    ensures IsPartition(components + [comp], before + Elements(comp), positive)
  {
    var r := components + [comp];
    assert r[..|components|] == components;
    forall i | 0 <= i < |components|
      ensures Elements(r[i]) !! Elements(comp)
    {
      ComponentIsCovered(components, i);
    }
  }

  // ------------------------------------------------------------------ what a plateau is

  ghost predicate SamePlateau(components: seq<seq<Coord>>, a: Coord, b: Coord) {
    exists i :: 0 <= i < |components| && a in Elements(components[i]) && b in Elements(components[i])
  }

  lemma {:induction false} CoveredIsSomewhere(components: seq<seq<Coord>>, a: Coord) returns (i: nat)
    requires a in Covered(components)
    ensures i < |components| && a in Elements(components[i])
  {
    var n := |components| - 1;
    if a in Elements(components[n]) {
      i := n;
    } else {
      i := CoveredIsSomewhere(components[..n], a);
    }
  }

  // Whatever order the search starts in, two positive cells are on one plateau exactly when single
  // steps over positive cells lead from one to the other.
  lemma PlateausAreConnectedComponents(components: seq<seq<Coord>>, positive: set<Coord>, a: Coord, b: Coord)
    requires IsPartition(components, positive, positive) && a in positive && b in positive
    ensures SamePlateau(components, a, b) <==> Connected(a, b, positive)
  {
    if i :| 0 <= i < |components| && a in Elements(components[i]) && b in Elements(components[i]) {
      ConnectedInLarger(a, b, Elements(components[i]), positive);
    }
    if Connected(a, b, positive) {
      var i := CoveredIsSomewhere(components, a);
      var p :| IsPath(p, positive) && p[0] == a && p[|p| - 1] == b;
      ClosedKeepsPaths(Elements(components[i]), positive, p);
    }
  }

  // Any two results over the same cells have the same plateaus.
  lemma PlateausAreUnique(first: seq<seq<Coord>>, second: seq<seq<Coord>>, positive: set<Coord>, a: Coord, b: Coord)
    requires IsPartition(first, positive, positive) && IsPartition(second, positive, positive)
    requires a in positive && b in positive
    ensures SamePlateau(first, a, b) <==> SamePlateau(second, a, b)
  {
    PlateausAreConnectedComponents(first, positive, a, b);
    PlateausAreConnectedComponents(second, positive, a, b);
  }
}
