/**
 * The order in which payables are visited (payables.ts). A pass visits at most twenty due players and moves them behind the
 * others, so no due player waits longer than its place in the order allows.
 */
module PayableRotation {
  type Player = nat

  const CLAIMS_PER_PASS: nat := 20

  ghost predicate Distinct(s: seq<Player>) { forall i, j :: 0 <= i < j < |s| ==> s[i] != s[j] }

  function Filter(s: seq<Player>, due: Player -> bool): (r: seq<Player>)
    ensures |r| <= |s| && forall p :: p in r <==> p in s && due(p)
  {
    if s == [] then [] else (if due(s[0]) then [s[0]] else []) + Filter(s[1..], due)
  }

  function Without(s: seq<Player>, p: Player): (r: seq<Player>)
    ensures forall q :: q in r <==> q in s && q != p
  {
    if s == [] then [] else (if s[0] == p then [] else [s[0]]) + Without(s[1..], p)
  }

  function Take(s: seq<Player>, n: nat): seq<Player> { if |s| <= n then s else s[..n] }

  /** The due players one pass visits. */
  function DuePlayers(order: seq<Player>, due: Player -> bool): seq<Player> { Take(Filter(order, due), CLAIMS_PER_PASS) }

  /** A visited player goes to the end of the order, or leaves it. */
  function Visit(order: seq<Player>, p: Player, keeps: Player -> bool): seq<Player> {
    Without(order, p) + if keeps(p) then [p] else []
  }

  function VisitAll(order: seq<Player>, visited: seq<Player>, keeps: Player -> bool): seq<Player>
    decreases |visited|
  {
    if visited == [] then order else VisitAll(Visit(order, visited[0], keeps), visited[1..], keeps)
  }

  /** One pass: newly nominated players join at the end, then the due ones are visited. */
  function AfterPass(order: seq<Player>, added: seq<Player>, due: Player -> bool, keeps: Player -> bool): seq<Player> {
    VisitAll(order + added, DuePlayers(order + added, due), keeps)
  }

  /**
   * One pass visits the first due players, at most twenty. When the order names no player twice, what it leaves is the
   * players it did not visit, in their old order, and then the visited ones that stay, in the order of their visits.
   */
  method RunPass(order: seq<Player>, added: seq<Player>, due: Player -> bool, keeps: Player -> bool)
    returns (next: seq<Player>, visits: seq<Player>)
    ensures next == AfterPass(order, added, due, keeps)
    ensures visits <= Filter(order + added, due) && |visits| <= 20
    ensures |visits| < 20 ==> visits == Filter(order + added, due)
    ensures Distinct(order + added) ==> next == Unvisited(order + added, visits) + Filter(visits, keeps)
  {
    hide Unvisited, Filter, Visit, Distinct;
    next := order + added;
    visits := DuePlayers(next, due);
    if Distinct(next) {
      VisitsInOrder(next, due, keeps);
    }
    var n := 0;
    while n < |visits|
      invariant n <= |visits| && VisitAll(next, visits[n..], keeps) == AfterPass(order, added, due, keeps)
    {
      next := Visit(next, visits[n], keeps);
      n := n + 1;
    }
  }

  // ---- What a pass leaves -----------------------------------------------------------------------------------------------

  /** The players not visited, in order. */
  function Unvisited(order: seq<Player>, visited: seq<Player>): seq<Player> {
    if order == [] then [] else (if order[0] in visited then [] else [order[0]]) + Unvisited(order[1..], visited)
  }

  lemma {:induction false} UnvisitedConcat(a: seq<Player>, b: seq<Player>, visited: seq<Player>)
    ensures Unvisited(a + b, visited) == Unvisited(a, visited) + Unvisited(b, visited)
  {
    if a == [] {
      assert a + b == b;
    } else {
      assert (a + b)[1..] == a[1..] + b;
      UnvisitedConcat(a[1..], b, visited);
    }
  }

  lemma {:induction false} UnvisitedWithout(order: seq<Player>, p: Player, rest: seq<Player>)
    ensures Unvisited(Without(order, p), rest) == Unvisited(order, [p] + rest)
  {
    if order != [] {
      var first, later := order[0], order[1..];
      UnvisitedWithout(later, p, rest);
      assert first in [p] + rest <==> first == p || first in rest;
      if first == p {
        assert Without(order, p) == Without(later, p);
      } else {
        assert Without(order, p) == [first] + Without(later, p);
        UnvisitedConcat([first], Without(later, p), rest);
        assert Unvisited([first], rest) == if first in rest then [] else [first];
      }
    }
  }

  /** Visiting `p` first: what is left of the others, and `p` behind them if it stays. */
  lemma VisitLeaves(order: seq<Player>, p: Player, rest: seq<Player>, keeps: Player -> bool)
    requires p !in rest
    ensures Unvisited(Visit(order, p, keeps), rest) == Unvisited(order, [p] + rest) + if keeps(p) then [p] else []
  {
    UnvisitedConcat(Without(order, p), if keeps(p) then [p] else [], rest);
    UnvisitedWithout(order, p, rest);
    assert Unvisited([p], rest) == [p];
  }

  lemma {:induction false} VisitAllLeaves(order: seq<Player>, visited: seq<Player>, keeps: Player -> bool)
    requires Distinct(visited)
    ensures VisitAll(order, visited, keeps) == Unvisited(order, visited) + Filter(visited, keeps)
    decreases |visited|
  {
    if visited == [] {
      NothingVisited(order);
    } else {
      var p, rest := visited[0], visited[1..];
      assert visited == [p] + rest && p !in rest;
      VisitAllLeaves(Visit(order, p, keeps), rest, keeps);
      hide Unvisited, Visit;
      VisitLeaves(order, p, rest, keeps);
      Joined(Unvisited(order, visited), if keeps(p) then [p] else [], Filter(rest, keeps));
    }
  }

  lemma Joined(a: seq<Player>, b: seq<Player>, c: seq<Player>)
    ensures (a + b) + c == a + (b + c)
  {
  }

  lemma {:induction false} NothingVisited(order: seq<Player>)
    ensures Unvisited(order, []) == order
  {
    if order != [] {
      NothingVisited(order[1..]);
    }
  }

  lemma VisitsInOrder(order: seq<Player>, due: Player -> bool, keeps: Player -> bool)
    requires Distinct(order)
    ensures var visits := DuePlayers(order, due);
      VisitAll(order, visits, keeps) == Unvisited(order, visits) + Filter(visits, keeps)
  {
    FilterDistinct(order, due);
    VisitAllLeaves(order, DuePlayers(order, due), keeps);
  }

  // ---- No starvation ----------------------------------------------------------------------------------------------------

  /** The players ahead of `p`. */
  function Ahead(order: seq<Player>, p: Player): (r: seq<Player>)
    ensures |r| <= |order| && p !in r && forall q :: q in r ==> q in order
  {
    if order == [] || order[0] == p then [] else [order[0]] + Ahead(order[1..], p)
  }

  lemma {:induction false} WithoutDrops(s: seq<Player>, p: Player)
    requires Distinct(s)
    ensures Distinct(Without(s, p)) && |Without(s, p)| == |s| - if p in s then 1 else 0
  {
    if s != [] {
      assert Distinct(s[1..]) && s[0] !in s[1..];
      WithoutDrops(s[1..], p);
    }
  }

  /** Moving a player ahead of `p` to the end leaves the others ahead of `p`. */
  lemma {:induction false} AheadAfterWithout(order: seq<Player>, q: Player, p: Player, tail: seq<Player>)
    requires p in order && q != p
    ensures Ahead(Without(order, q) + tail, p) == Without(Ahead(order, p), q)
  {
    var rest := order[1..];
    if order[0] == p {
      assert (Without(order, q) + tail)[0] == p;
    } else {
      AheadAfterWithout(rest, q, p, tail);
      if order[0] == q {
        assert Without(order, q) == Without(rest, q);
        assert Ahead(order, p)[0] == q && Ahead(order, p)[1..] == Ahead(rest, p);
      } else {
        assert Without(order, q) + tail == [order[0]] + (Without(rest, q) + tail);
        assert Ahead(order, p)[1..] == Ahead(rest, p);
      }
    }
  }

  lemma {:induction false} AheadDistinct(order: seq<Player>, p: Player)
    requires Distinct(order)
    ensures Distinct(Ahead(order, p))
  {
    if order != [] && order[0] != p {
      assert Distinct(order[1..]) && order[0] !in order[1..];
      AheadDistinct(order[1..], p);
    }
  }

  lemma VisitDistinct(order: seq<Player>, q: Player, keeps: Player -> bool)
    requires Distinct(order)
    ensures Distinct(Visit(order, q, keeps))
  {
    WithoutDrops(order, q);
  }

  /** Each visited player that was ahead of `p` moves `p` up one place. */
  lemma {:induction false} VisitsMoveUp(order: seq<Player>, visited: seq<Player>, keeps: Player -> bool, p: Player)
    requires Distinct(order) && Distinct(visited) && p in order
    requires forall q :: q in visited ==> q in Ahead(order, p)
    ensures p in VisitAll(order, visited, keeps) && Distinct(VisitAll(order, visited, keeps))
    ensures |Ahead(VisitAll(order, visited, keeps), p)| == |Ahead(order, p)| - |visited|
    decreases |visited|
  {
    if visited != [] {
      var q := visited[0];
      assert q in visited;
      VisitDistinct(order, q, keeps);
      AheadAfterWithout(order, q, p, if keeps(q) then [q] else []);
      AheadDistinct(order, p);
      WithoutDrops(Ahead(order, p), q);
      forall r | r in visited[1..] ensures r in Ahead(Visit(order, q, keeps), p) {
        assert r in visited && r != q;
      }
      VisitsMoveUp(Visit(order, q, keeps), visited[1..], keeps, p);
    }
  }

  function Behind(order: seq<Player>, p: Player): seq<Player> {
    if order == [] then [] else if order[0] == p then order[1..] else Behind(order[1..], p)
  }

  lemma {:induction false} OrderSplits(order: seq<Player>, p: Player)
    requires p in order
    ensures order == Ahead(order, p) + [p] + Behind(order, p)
  {
    if order[0] != p {
      OrderSplits(order[1..], p);
    }
  }

  lemma {:induction false} FilterConcat(a: seq<Player>, b: seq<Player>, due: Player -> bool)
    ensures Filter(a + b, due) == Filter(a, due) + Filter(b, due)
  {
    if a == [] {
      assert a + b == b;
    } else {
      assert (a + b)[1..] == a[1..] + b;
      FilterConcat(a[1..], b, due);
    }
  }

  lemma FilterSplits(order: seq<Player>, due: Player -> bool, p: Player)
    requires p in order && due(p)
    ensures Filter(order, due) == Filter(Ahead(order, p), due) + [p] + Filter(Behind(order, p), due)
  {
    OrderSplits(order, p);
    FilterConcat(Ahead(order, p) + [p], Behind(order, p), due);
    FilterConcat(Ahead(order, p), [p], due);
    assert Filter([p], due) == [p];
  }

  lemma TakeHolds(s: seq<Player>, n: nat, i: nat)
    requires i < |s|
    ensures i < n ==> s[i] in Take(s, n)
  {
    if i < n {
      assert Take(s, n)[i] == s[i];
    }
  }

  lemma {:induction false} FilterDistinct(s: seq<Player>, due: Player -> bool)
    requires Distinct(s)
    ensures Distinct(Filter(s, due))
  {
    if s != [] {
      assert Distinct(s[1..]) && s[0] !in s[1..];
      FilterDistinct(s[1..], due);
    }
  }

  /** A due player the pass leaves out had twenty due players ahead of it. */
  lemma LeftOutHasTwentyAhead(order: seq<Player>, due: Player -> bool, p: Player)
    requires p in order && due(p) && p !in DuePlayers(order, due)
    ensures |DuePlayers(order, due)| == CLAIMS_PER_PASS
    ensures forall q :: q in DuePlayers(order, due) ==> q in Ahead(order, p)
  {
    var all, ahead := Filter(order, due), Filter(Ahead(order, p), due);
    FilterSplits(order, due, p);
    assert all[|ahead|] == p;
    TakeHolds(all, CLAIMS_PER_PASS, |ahead|);
    assert all[..CLAIMS_PER_PASS] == ahead[..CLAIMS_PER_PASS];
  }

  lemma {:induction false} AheadOfAppended(order: seq<Player>, added: seq<Player>, p: Player)
    requires p in order
    ensures Ahead(order + added, p) == Ahead(order, p)
  {
    if order[0] != p {
      assert (order + added)[1..] == order[1..] + added;
      AheadOfAppended(order[1..], added, p);
    }
  }

  /** A due player a pass leaves out is twenty places further up after it. */
  lemma LeftOutMovesUp(order: seq<Player>, added: seq<Player>, due: Player -> bool, keeps: Player -> bool, p: Player)
    requires Distinct(order + added) && p in order && due(p) && p !in DuePlayers(order + added, due)
    ensures var next := AfterPass(order, added, due, keeps);
      p in next && Distinct(next) && |Ahead(next, p)| == |Ahead(order, p)| - 20
  {
    var all := order + added;
    LeftOutHasTwentyAhead(all, due, p);
    FilterDistinct(all, due);
    VisitsMoveUp(all, DuePlayers(all, due), keeps, p);
    AheadOfAppended(order, added, p);
  }

  datatype Pass = Pass(added: seq<Player>, due: Player -> bool, keeps: Player -> bool)

  /** `p` is due at every pass and none of them visits it. */
  ghost predicate Starves(order: seq<Player>, passes: seq<Pass>, p: Player)
    decreases |passes|
  {
    passes == [] ||
    (var a := passes[0];
     && Distinct(order + a.added) && a.due(p) && p !in DuePlayers(order + a.added, a.due)
     && Starves(AfterPass(order, a.added, a.due, a.keeps), passes[1..], p))
  }

  /** A due player waits at most one pass for each twenty players ahead of it, whatever joins and leaves meanwhile. */
  lemma {:induction false} NoStarvation(order: seq<Player>, passes: seq<Pass>, p: Player)
    requires p in order && Starves(order, passes, p)
    ensures |passes| * 20 <= |Ahead(order, p)|
    decreases |passes|
  {
    if passes != [] {
      var a := passes[0];
      LeftOutMovesUp(order, a.added, a.due, a.keeps, p);
      NoStarvation(AfterPass(order, a.added, a.due, a.keeps), passes[1..], p);
    }
  }
}
