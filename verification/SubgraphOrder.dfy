/** Which parents the search finds when it walks its sets in a given order. */
module SubgraphOrder {
  import opened Graphs
  import opened Subgraph
  import opened SubgraphRuns
  import opened SubgraphArity

  /** The parents of one target after these active sets, one after the other; `ex` holds the sets that explain it. */
  function Gathered(ex: set<set<Name>>, parents: set<Name>, order: seq<set<Name>>): set<Name>
    decreases |order|
  {
    if order == [] then parents
    else Gathered(ex, if order[0] in ex then Extended(parents, order[0]) else parents, order[1..])
  }

  /** An order in which `itertools.combinations` may list the parts of the frontier: smaller ones first. */
  ghost predicate IsOrder(frontier: set<Name>, order: seq<set<Name>>) {
    && (forall S :: S in order <==> S <= frontier && S != {})
    && (forall i, j :: 0 <= i < j < |order| ==> |order[i]| <= |order[j]| && order[i] != order[j])
  }

  lemma {:induction false} GatheredJoin(ex: set<set<Name>>, parents: set<Name>, a: seq<set<Name>>, b: seq<set<Name>>)
    ensures Gathered(ex, parents, a + b) == Gathered(ex, Gathered(ex, parents, a), b)
    decreases |a|
  {
    if a == [] {
      assert a + b == b;
    } else {
      assert (a + b)[1..] == a[1..] + b;
      GatheredJoin(ex, if a[0] in ex then Extended(parents, a[0]) else parents, a[1..], b);
    }
  }

  lemma {:induction false} GatheredStays(ex: set<set<Name>>, parents: set<Name>, order: seq<set<Name>>)
    requires forall S :: S in order && S in ex ==> Extended(parents, S) == parents
    ensures Gathered(ex, parents, order) == parents
    decreases |order|
  {
    if order != [] {
      assert order[0] in order;
      GatheredStays(ex, parents, order[1..]);
    }
  }

  // ---------- An order with a given pair in front of the others ----------

  lemma {:induction false} Listing(S: set<set<Name>>) returns (l: seq<set<Name>>)
    ensures forall x :: x in l <==> x in S
    ensures forall i, j :: 0 <= i < j < |l| ==> l[i] != l[j]
    decreases S
  {
    l := [];
    if x :| x in S {
      var rest := Listing(S - {x});
      l := [x] + rest;
    }
  }

  ghost predicate Sorted(order: seq<set<Name>>) {
    forall i, j :: 0 <= i < j < |order| ==> |order[i]| <= |order[j]| && order[i] != order[j]
  }

  lemma SortedJoin(a: seq<set<Name>>, b: seq<set<Name>>, n: nat)
    requires Sorted(a) && Sorted(b)
    requires (forall S :: S in a ==> |S| <= n) && (forall S :: S in b ==> |S| >= n) && forall S :: S in a ==> S !in b
    ensures Sorted(a + b)
  {
    var c := a + b;
    forall i, j | 0 <= i < j < |c| ensures |c[i]| <= |c[j]| && c[i] != c[j] {
      if i < |a| && j >= |a| {
        assert c[i] in a && c[j] in b;
      }
    }
  }

  lemma SameSizes(l: seq<set<Name>>, n: nat)
    requires (forall S :: S in l ==> |S| == n) && forall i, j :: 0 <= i < j < |l| ==> l[i] != l[j]
    ensures Sorted(l)
  {
    assert forall i :: 0 <= i < |l| ==> l[i] in l;
  }

  lemma SizesFrom(frontier: set<Name>, r: nat) returns (l: seq<set<Name>>)
    ensures forall S :: S in l <==> S <= frontier && |S| >= r
    ensures Sorted(l)
    decreases |frontier| + 1 - r
  {
    if r > |frontier| {
      l := [];
      forall S | S <= frontier ensures |S| < r {
        SubsetSize(S, frontier);
      }
    } else {
      var now := Listing(Combinations(frontier, r));
      var later := SizesFrom(frontier, r + 1);
      SameSizes(now, r);
      SortedJoin(now, later, r);
      l := now + later;
    }
  }

  lemma PairFirst(frontier: set<Name>, P: set<Name>) returns (ones: seq<set<Name>>, rest: seq<set<Name>>)
    requires P <= frontier && |P| == 2
    ensures IsOrder(frontier, ones + [P] + rest)
    ensures (forall S :: S in ones ==> |S| == 1) && forall S :: S in rest ==> S <= frontier && |S| >= 2
  {
    ones := Listing(Combinations(frontier, 1));
    var others := Listing(Combinations(frontier, 2) - {P});
    var larger := SizesFrom(frontier, 3);
    rest := others + larger;
    SameSizes(ones, 1);
    SameSizes(others, 2);
    SortedJoin(others, larger, 2);
    SortedJoin([P], rest, 2);
    SortedJoin(ones, [P] + rest, 1);
    assert ones + ([P] + rest) == ones + [P] + rest;
    forall S ensures S in ones + [P] + rest <==> S <= frontier && S != {} {
      if S <= frontier && S != {} {
        assert |S| >= 1;
      }
    }
  }

  // ---------- Rival pairs ----------

  lemma PairsMeet(g: Digraph, rule: Rule, s: Stage, t: Name, P: set<Name>, Q: set<Name>)
    requires g.Valid() && StageInv(g, rule, s) && t !in s.explored + s.frontier
    requires |P| == 2 && P in Explanations(g, rule, s, t) && Q in Explanations(g, rule, s, t)
    requires forall p :: {p} !in Explanations(g, rule, s, t)
    ensures P * Q != {}
  {
    var ex := Explanations(g, rule, s, t);
    ExplanationsOverlap(g, rule, s, t);
    var p, q := PairSplit(P);
    assert PairOnly(ex, p, q);
    assert p in P && q in P;
  }

  /** Every pair that explains a target, when no node explains it alone, is what some order of the sets leaves it
      as parents.  So with rival pairs the set order decides. */
  lemma EachPairCanBeChosen(g: Digraph, rule: Rule, s: Stage, t: Name, P: set<Name>) returns (order: seq<set<Name>>)
    requires g.Valid() && StageInv(g, rule, s) && t !in s.explored + s.frontier
    requires |P| == 2 && P in Explanations(g, rule, s, t) && forall p :: {p} !in Explanations(g, rule, s, t)
    ensures IsOrder(s.frontier, order) && Gathered(Explanations(g, rule, s, t), {}, order) == P
  {
    var ex := Explanations(g, rule, s, t);
    var ones, rest := PairFirst(s.frontier, P);
    order := ones + [P] + rest;
    forall S | S in ones ensures S !in ex {
      var p := SingletonSplit(S);
    }
    forall S | S in rest && S in ex ensures Extended(P, S) == P {
      PairsMeet(g, rule, s, t, P, S);
    }
    GatheredParts(ex, ones, P, rest);
  }

  lemma GatheredParts(ex: set<set<Name>>, ones: seq<set<Name>>, P: set<Name>, rest: seq<set<Name>>)
    requires (forall S :: S in ones ==> S !in ex) && P in ex && |P| == 2
    requires forall S :: S in rest && S in ex ==> Extended(P, S) == P
    ensures Gathered(ex, {}, ones + [P] + rest) == P
  {
    GatheredStays(ex, {}, ones);
    GatheredStays(ex, P, rest);
    assert [P][1..] == [];
    assert Gathered(ex, {}, [P]) == Extended({}, P) == P;
    GatheredJoin(ex, {}, ones + [P], rest);
    GatheredJoin(ex, {}, ones, [P]);
  }

  /** Whatever the order, what is left is what one round may choose. */
  lemma OrdersChoose(g: Digraph, rule: Rule, s: Stage, t: Name, order: seq<set<Name>>)
    requires g.Valid() && StageInv(g, rule, s) && t !in s.explored + s.frontier && IsOrder(s.frontier, order)
    ensures ChosenParents(Explanations(g, rule, s, t), Gathered(Explanations(g, rule, s, t), {}, order))
  {
    assert order[..0] == [];
    GatheredPartly(g, rule, s, t, order, |order|);
    assert order[..|order|] == order;
    AllTried(g, rule, s, t, order);
  }

  function Tried(order: seq<set<Name>>, n: nat): set<set<Name>>
    requires n <= |order|
  {
    set S | S in order[..n]
  }

  lemma {:induction false} GatheredPartly(g: Digraph, rule: Rule, s: Stage, t: Name, order: seq<set<Name>>, n: nat)
    requires g.Valid() && StageInv(g, rule, s) && t !in s.explored + s.frontier && IsOrder(s.frontier, order) && n <= |order|
    ensures PartialParents(Explanations(g, rule, s, t), Tried(order, n), Gathered(Explanations(g, rule, s, t), {}, order[..n]))
    ensures InSizeOrder(s.frontier, Tried(order, n))
    decreases n
  {
    TriedInOrder(s.frontier, order, n);
    if n > 0 {
      GatheredPartly(g, rule, s, t, order, n - 1);
      ExplanationsOverlap(g, rule, s, t);
      OneMoreTried(Explanations(g, rule, s, t), s.frontier, order, n);
    }
  }

  lemma GatheredNext(ex: set<set<Name>>, order: seq<set<Name>>, n: nat)
    requires 0 < n <= |order|
    ensures Gathered(ex, {}, order[..n]) ==
      if order[n - 1] in ex then Extended(Gathered(ex, {}, order[..n - 1]), order[n - 1]) else Gathered(ex, {}, order[..n - 1])
  {
    var S := order[n - 1];
    assert order[..n] == order[..n - 1] + [S] && [S][1..] == [];
    GatheredJoin(ex, {}, order[..n - 1], [S]);
  }

  lemma OneMoreTried(ex: set<set<Name>>, frontier: set<Name>, order: seq<set<Name>>, n: nat)
    requires 0 < n <= |order| && Overlapping(ex) && forall P :: P in ex ==> P <= frontier
    requires InSizeOrder(frontier, Tried(order, n - 1)) && InSizeOrder(frontier, Tried(order, n))
    requires PartialParents(ex, Tried(order, n - 1), Gathered(ex, {}, order[..n - 1]))
    ensures PartialParents(ex, Tried(order, n), Gathered(ex, {}, order[..n]))
  {
    TriedMore(order, n);
    GatheredNext(ex, order, n);
    OneMoreActiveSet(ex, frontier, Tried(order, n - 1), order[n - 1], Gathered(ex, {}, order[..n - 1]));
  }

  lemma TriedMore(order: seq<set<Name>>, n: nat)
    requires 0 < n <= |order|
    ensures Tried(order, n) == Tried(order, n - 1) + {order[n - 1]}
  {
    assert order[..n] == order[..n - 1] + [order[n - 1]];
  }

  lemma TriedInOrder(frontier: set<Name>, order: seq<set<Name>>, n: nat)
    requires IsOrder(frontier, order) && n <= |order|
    ensures InSizeOrder(frontier, Tried(order, n))
  {
    forall S, p | S in Tried(order, n) && |S| >= 2 && p in frontier ensures {p} in Tried(order, n) {
      var i :| 0 <= i < n && order[..n][i] == S;
      assert order[i] == S && {p} in order && |{p}| == 1;
      var j :| 0 <= j < |order| && order[j] == {p};
      assert j < i;
      assert order[..n][j] == {p};
    }
    forall S | S in Tried(order, n) ensures S <= frontier && S != {} {
      assert S in order;
    }
  }

  lemma AllTried(g: Digraph, rule: Rule, s: Stage, t: Name, order: seq<set<Name>>)
    requires g.Valid() && StageInv(g, rule, s) && t !in s.explored + s.frontier && IsOrder(s.frontier, order)
    requires PartialParents(Explanations(g, rule, s, t), Tried(order, |order|), Gathered(Explanations(g, rule, s, t), {}, order))
    ensures ChosenParents(Explanations(g, rule, s, t), Gathered(Explanations(g, rule, s, t), {}, order))
  {
    var ex, parents := Explanations(g, rule, s, t), Gathered(Explanations(g, rule, s, t), {}, order);
    assert order[..|order|] == order;
    forall S | S in ex && S != {} ensures S in Tried(order, |order|) {
      assert S in order;
    }
    forall p | {p} in ex ensures {p} in Tried(order, |order|) {
      assert p in {p};
    }
    forall S | S in ex && |S| == 2 ensures S in Tried(order, |order|) {
    }
  }

  /** An object made from three free objects: one order gives it the first two as parents, another the last two. */
  lemma SetOrderDecides(g: Digraph, s: Stage, t: Name, a: Name, b: Name, c: Name) returns (order: seq<set<Name>>, order': seq<set<Name>>)
    requires g.Valid() && StageInv(g, ByPredecessor, s) && t !in s.explored + s.frontier
    requires a != b && b != c && a != c && {a, b, c} <= s.frontier
    requires g.Preds(t) == {a, b, c} && g.Ancestors(t) == {a, b, c}
    ensures IsOrder(s.frontier, order) && Gathered(Explanations(g, ByPredecessor, s, t), {}, order) == {a, b}
    ensures IsOrder(s.frontier, order') && Gathered(Explanations(g, ByPredecessor, s, t), {}, order') == {b, c}
  {
    ThreeFreeParents(g, s, t, a, b, c);
    order := EachPairCanBeChosen(g, ByPredecessor, s, t, {a, b});
    order' := EachPairCanBeChosen(g, ByPredecessor, s, t, {b, c});
  }
}
