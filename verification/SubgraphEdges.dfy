/** What the two searches do, said in edges and reachability alone. */
module SubgraphEdges {
  import opened Graphs
  import opened Subgraph
  import opened SubgraphRuns
  import opened SubgraphArity

  /** The nodes outside `explored` from which `t` can be reached. */
  ghost function Upstream(g: Digraph, explored: set<Name>, t: Name): set<Name> {
    set u | u in g.nodes && u !in explored && u != t && Reach(g.edges, u, t)
  }

  /** Some edge leads on from a node behind `t`. */
  ghost predicate LeadsOn(E: set<Edge>, t: Name) {
    exists q, r :: (t, q) in E && Reach(E, q, r)
  }

  lemma UpstreamIsNew(g: Digraph, s: Stage, t: Name)
    requires g.Valid()
    ensures NewAncestors(g, s, t) == Upstream(g, s.explored, t)
  {
    forall u ensures u in g.Ancestors(t) <==> u in g.nodes && u != t && Reach(g.edges, u, t) {
      AncestorsReach(g, u, t);
    }
  }

  // ---------- The older search on acyclic graphs ----------

  lemma ExcuseLeadsOn(g: Digraph, t: Name, q: Name)
    requires q in Excuses(g, BySuccessor, t)
    ensures LeadsOn(g.edges, t)
  {
    var r :| r in g.Descendants(q);
    DescendantsAreReached(g, q, r);
    assert (t, q) in g.edges;
  }

  lemma LeadsToExcuse(g: Digraph, t: Name) returns (q: Name)
    requires Acyclic(g.edges) && LeadsOn(g.edges, t)
    ensures q in Excuses(g, BySuccessor, t)
  {
    var r;
    q, r :| (t, q) in g.edges && Reach(g.edges, q, r);
    DescendantsAreReached(g, q, r);
    assert r in g.Descendants(q);
  }

  lemma EdgeFromAncestor(g: Digraph, p: Name, t: Name)
    requires g.Valid() && Acyclic(g.edges) && (p, t) in g.edges
    ensures p in g.Ancestors(t)
  {
    EdgeReach(g.edges, p, t);
    AncestorsReach(g, p, t);
  }

  lemma LastBefore(g: Digraph, a: Name, t: Name) returns (p: Name)
    requires g.Valid() && Acyclic(g.edges) && a in g.Ancestors(t)
    ensures p in g.Ancestors(t) && (p, t) in g.edges
  {
    AncestorsReach(g, a, t);
    p := ReachLast(g.edges, a, t);
    EdgeFromAncestor(g, p, t);
  }

  lemma AncestorsSuffice(g: Digraph, A: set<Name>, B: set<Name>, t: Name)
    requires g.Valid() && Acyclic(g.edges) && t in Matched(g, BySuccessor, B) && g.Ancestors(t) <= A
    ensures t in Matched(g, BySuccessor, A)
  {
    var p :| p in B && (p, t) in g.edges;
    EdgeFromAncestor(g, p, t);
    var q :| q in Excuses(g, BySuccessor, t);
    assert g.Ancestors(t) <= A + {q};
    assert Matches(g, BySuccessor, A, t);
  }

  lemma NotAllActive(g: Digraph, A: set<Name>, B: set<Name>, t: Name)
    requires g.Valid() && Acyclic(g.edges) && t in Matched(g, BySuccessor, B) && t !in Matched(g, BySuccessor, A)
    ensures g.Ancestors(t) - A != {}
  {
    if g.Ancestors(t) <= A {
      AncestorsSuffice(g, A, B, t);
    } else {
      var a :| a in g.Ancestors(t) && a !in A;
      assert a in g.Ancestors(t) - A;
    }
  }

  /** The older search explains a target by exactly those parts of the frontier that hold all its new ancestors. */
  lemma ExplainedByAll(g: Digraph, s: Stage, t: Name, S: set<Name>)
    requires g.Valid() && Acyclic(g.edges) && StageInv(g, BySuccessor, s) && t !in s.explored + s.frontier
    requires S <= s.frontier
    ensures S in Explanations(g, BySuccessor, s, t) <==>
      NewAncestors(g, s, t) != {} && NewAncestors(g, s, t) <= S && LeadsOn(g.edges, t)
  {
    if S in Explanations(g, BySuccessor, s, t) {
      OlderParents(g, s, t, S);
      NotAllActive(g, s.explored, s.explored + S, t);
      var q :| q in Excuses(g, BySuccessor, t);
      ExcuseLeadsOn(g, t, q);
    }
    if NewAncestors(g, s, t) != {} && NewAncestors(g, s, t) <= S && LeadsOn(g.edges, t) {
      var a :| a in NewAncestors(g, s, t);
      var p := LastBefore(g, a, t);
      var q := LeadsToExcuse(g, t);
      assert p in s.explored + S && g.Ancestors(t) <= s.explored + S + {q};
      assert Matches(g, BySuccessor, s.explored + S, t);
    }
  }

  /** What is chosen where exactly the supersets of `N` within the frontier explain. */
  lemma ChosenIsAll(ex: set<set<Name>>, frontier: set<Name>, N: set<Name>, ok: bool, parents: set<Name>)
    requires forall S :: S in ex <==> S <= frontier && ok && N != {} && N <= S
    requires ChosenParents(ex, parents)
    ensures parents == if ok && 1 <= |N| <= 2 && N <= frontier then N else {}
  {
    if p :| {p} in ex {
      assert N == {p} by { assert forall x :: x in N ==> x in {p}; }
      forall q ensures q in parents <==> q == p {
        assert p in {q} <==> q == p;
      }
    } else if parents != {} {
      var a, b := PairSplit(parents);
      assert N <= parents;
      WithinPair(N, a, b);
      assert a in parents && b in parents;
      assert N == {a} ==> {a} in ex;
      assert N == {b} ==> {b} in ex;
    } else if ok && 1 <= |N| <= 2 && N <= frontier {
      assert N in ex;
      var p := SingletonSplit(N);
    }
  }

  lemma WithinPair(N: set<Name>, a: Name, b: Name)
    requires N <= {a, b} && N != {} && a != b
    ensures N == {a} || N == {b} || (N == {a, b} && |N| == 2)
  {
    if a in N && b in N {
      assert N == {a, b};
    } else if a in N {
      assert N == {a};
    } else {
      assert N == {b};
    }
  }

  /** On an acyclic graph, a round of the older search gives a target that is new to it all its new ancestors as parents,
      if these are one or two, lie in the frontier, and an edge leads on from a node behind the target;
      otherwise it gives none. */
  lemma OlderParentsExactly(g: Digraph, start: set<Name>, trace: seq<Stage>, k: nat, t: Name)
    requires g.Valid() && Acyclic(g.edges) && start <= g.nodes && IsRun(g, BySuccessor, start, trace)
    requires 0 < k < |trace| && t !in trace[k].explored
    ensures var new' := Upstream(g, trace[k - 1].explored, t);
      trace[k].g2.Preds(t) == if 1 <= |new'| <= 2 && new' <= trace[k - 1].frontier && LeadsOn(g.edges, t) then new' else {}
  {
    var s := trace[k - 1];
    StagesKeepInv(g, BySuccessor, start, trace, k - 1);
    ParentsFrom(g, BySuccessor, start, trace, k, t);
    FrontierMoves(g, BySuccessor, start, trace, k);
    UpstreamIsNew(g, s, t);
    var ex, N := Explanations(g, BySuccessor, s, t), NewAncestors(g, s, t);
    forall S ensures S in ex <==> S <= s.frontier && LeadsOn(g.edges, t) && N != {} && N <= S {
      if S <= s.frontier { ExplainedByAll(g, s, t, S); }
    }
    ChosenIsAll(ex, s.frontier, N, LeadsOn(g.edges, t), trace[k].g2.Preds(t));
  }

  /** Its next frontier: the unexplored nodes behind an explored one, all of whose ancestors are explored and from behind
      which an edge leads on. */
  lemma OlderFrontierExactly(g: Digraph, start: set<Name>, trace: seq<Stage>, k: nat, t: Name)
    requires g.Valid() && Acyclic(g.edges) && start <= g.nodes && IsRun(g, BySuccessor, start, trace) && 0 < k < |trace|
    ensures t in trace[k].frontier <==>
      && t !in trace[k].explored && (exists p :: p in trace[k].explored && (p, t) in g.edges)
      && Upstream(g, trace[k].explored, t) == {} && LeadsOn(g.edges, t)
  {
    var s := trace[k];
    FrontierMoves(g, BySuccessor, start, trace, k);
    UpstreamIsNew(g, s, t);
    if t in Matched(g, BySuccessor, s.explored) {
      var q :| q in Excuses(g, BySuccessor, t) && g.Ancestors(t) <= s.explored + {q};
      ExcuseLeadsOn(g, t, q);
      if q in g.Ancestors(t) {
        AncestorsReach(g, q, t);
        EdgeReach(g.edges, t, q);
        ReachTrans(g.edges, t, q, t);
      }
    }
    if LeadsOn(g.edges, t) && NewAncestors(g, s, t) == {} {
      var q := LeadsToExcuse(g, t);
      assert g.Ancestors(t) <= s.explored + {q};
    }
  }

  // ---------- The newer search on all graphs ----------

  /** Its next frontier: the unexplored nodes behind an explored one, all of whose ancestors are explored but
      possibly for one predecessor from which another node can be reached. */
  lemma NewerFrontierExactly(g: Digraph, start: set<Name>, trace: seq<Stage>, k: nat, t: Name)
    requires g.Valid() && start <= g.nodes && IsRun(g, ByPredecessor, start, trace) && 0 < k < |trace|
    ensures t in trace[k].frontier <==>
      && t !in trace[k].explored && (exists p :: p in trace[k].explored && (p, t) in g.edges)
      && exists q, r :: (q, t) in g.edges && r != q && Reach(g.edges, q, r) && Upstream(g, trace[k].explored, t) <= {q}
  {
    var s := trace[k];
    FrontierMoves(g, ByPredecessor, start, trace, k);
    UpstreamIsNew(g, s, t);
    if t in Matched(g, ByPredecessor, s.explored) {
      var q :| q in Excuses(g, ByPredecessor, t) && g.Ancestors(t) <= s.explored + {q};
      var r :| r in g.Descendants(q);
      DescendantsAreReached(g, q, r);
      assert (q, t) in g.edges;
    }
    if q, r :| (q, t) in g.edges && r != q && Reach(g.edges, q, r) && Upstream(g, s.explored, t) <= {q} {
      DescendantsAreReached(g, q, r);
      assert r in g.Descendants(q);
      assert q in Excuses(g, ByPredecessor, t) && g.Ancestors(t) <= s.explored + {q};
    }
  }

  lemma ChosenExactly(ex: set<set<Name>>, parents: set<Name>)
    requires ChosenParents(ex, parents)
    ensures parents != {} <==> exists S :: S in ex && 1 <= |S| <= 2
  {
    if p :| {p} in ex {
      assert p in parents && |{p}| == 1;
    } else {
      forall S | S in ex && |S| == 1 ensures false { var p := SingletonSplit(S); }
    }
  }

  /** A round of the newer search gives a target that is new to it parents exactly if the condition of `ArityExactly` holds. */
  lemma NewerParentsExactly(g: Digraph, start: set<Name>, trace: seq<Stage>, k: nat, t: Name)
    requires g.Valid() && start <= g.nodes && IsRun(g, ByPredecessor, start, trace)
    requires 0 < k < |trace| && t !in trace[k].explored
    ensures var s := trace[k - 1];
      trace[k].g2.Preds(t) != {} <==>
      if g.Ancestors(t) <= s.explored + s.frontier then
        1 <= |NewAncestors(g, s, t)| <= 2 || (|NewAncestors(g, s, t)| == 3 && HasSparePredecessor(g, s, t))
      else exists q :: OneStaysOut(g, s, t, q)
  {
    var s := trace[k - 1];
    StagesKeepInv(g, ByPredecessor, start, trace, k - 1);
    ParentsFrom(g, ByPredecessor, start, trace, k, t);
    FrontierMoves(g, ByPredecessor, start, trace, k);
    ArityExactly(g, s, t);
    ChosenExactly(Explanations(g, ByPredecessor, s, t), trace[k].g2.Preds(t));
  }
}
