/**
 Graphs in which every node has at most one outgoing edge: messages under their parent
 pointers, and addresses under their forwards. Nothing here assumes the graph is acyclic or
 that an edge leads to a node with an edge of its own.
 */
module FunctionalGraph {
  import opened Outcomes

  type Node = string
  type Graph = map<Node, Node>

  // ------------------------------------------------------------ reachability

  /** Where `n` hops from `a` lead, if there are that many. */
  function Hop(g: Graph, a: Node, n: nat): Option<Node>
    decreases n
  {
    if n == 0 then Some(a) else if a in g then Hop(g, g[a], n - 1) else None
  }

  /** Zero or more hops lead from `a` to `b`. */
  ghost predicate Leads(g: Graph, a: Node, b: Node)
  {
    exists n: nat :: Hop(g, a, n) == Some(b)
  }

  /** One or more hops lead from `a` to `b`. */
  ghost predicate Reaches(g: Graph, a: Node, b: Node)
  {
    a in g && Leads(g, g[a], b)
  }

  ghost predicate Acyclic(g: Graph)
  {
    forall a | a in g :: !Reaches(g, a, a)
  }

  lemma {:induction false} HopsAdd(g: Graph, a: Node, m: nat, n: nat)
    requires Hop(g, a, m).Some?
    ensures Hop(g, a, m + n) == Hop(g, Hop(g, a, m).value, n)
    decreases m
  {
    if m > 0 { HopsAdd(g, g[a], m - 1, n); }
  }

  lemma {:induction false} EarlierHops(g: Graph, a: Node, m: nat, n: nat)
    requires m <= n && Hop(g, a, n).Some?
    ensures Hop(g, a, m).Some?
    decreases m
  {
    if m > 0 { EarlierHops(g, g[a], m - 1, n - 1); }
  }

  lemma LeadsSelf(g: Graph, a: Node)
    ensures Leads(g, a, a)
  {
    assert Hop(g, a, 0) == Some(a);
  }

  lemma LeadsTransitive(g: Graph, a: Node, b: Node, c: Node)
    requires Leads(g, a, b) && Leads(g, b, c)
    ensures Leads(g, a, c)
  {
    var m: nat :| Hop(g, a, m) == Some(b);
    var n: nat :| Hop(g, b, n) == Some(c);
    HopsAdd(g, a, m, n);
  }

  /** Leading somewhere is being there, or leading there after one hop. */
  lemma LeadsStep(g: Graph, a: Node, b: Node)
    ensures Leads(g, a, b) <==> a == b || Reaches(g, a, b)
  {
    if Leads(g, a, b) {
      var n: nat :| Hop(g, a, n) == Some(b);
      if n > 0 { assert Hop(g, g[a], n - 1) == Some(b); }
    }
    LeadsSelf(g, a);
    if Reaches(g, a, b) {
      var n: nat :| Hop(g, g[a], n) == Some(b);
      assert Hop(g, a, n + 1) == Some(b);
    }
  }

  /** A set that hops never leave holds everything its members lead to. */
  ghost predicate Closed(g: Graph, s: set<Node>)
  {
    forall x | x in s && x in g :: g[x] in s
  }

  lemma {:induction false} ClosedHolds(g: Graph, s: set<Node>, a: Node, n: nat)
    requires Closed(g, s) && a in s && Hop(g, a, n).Some?
    ensures Hop(g, a, n).value in s
    decreases n
  {
    if n > 0 { ClosedHolds(g, s, g[a], n - 1); }
  }

  // ------------------------------------------------------------ the bounded walk

  /** Follow edges until there is none to follow, or until one leads back into `seen`. */
  function Walk(g: Graph, current: Node, seen: set<Node>): Node
    decreases g.Keys - seen
  {
    if current in seen || current !in g then current
    else
      assert current in g.Keys - seen && current !in g.Keys - (seen + {current});
      Walk(g, g[current], seen + {current})
  }

  function Root(g: Graph, a: Node): Node
  {
    Walk(g, a, {})
  }

  /** A visited node that the walk will not meet again may be forgotten. */
  lemma {:induction false} WalkForgets(g: Graph, c: Node, seen: set<Node>, m: Node)
    requires !Leads(g, c, m)
    ensures Walk(g, c, seen + {m}) == Walk(g, c, seen)
    decreases g.Keys - seen
  {
    LeadsStep(g, c, m);
    if c !in seen && c in g {
      assert c in g.Keys - seen && c !in g.Keys - (seen + {c});
      WalkForgets(g, g[c], seen + {c}, m);
      assert seen + {m} + {c} == seen + {c} + {m};
    }
  }

  /** Off a cycle, a node and its successor have the same root. */
  lemma RootOfSuccessor(g: Graph, a: Node)
    requires a in g && !Reaches(g, a, a)
    ensures Root(g, a) == Root(g, g[a])
  {
    WalkForgets(g, g[a], {}, a);
    assert {} + {a} == {a};
  }

  /** A walk that has passed `m` and leads back to it, with nothing visited between, stops there. */
  lemma {:induction false} WalkReturns(g: Graph, c: Node, seen: set<Node>, m: Node, n: nat)
    requires m in seen && Hop(g, c, n) == Some(m)
    requires forall k: nat | k < n :: Hop(g, c, k).Some? && Hop(g, c, k).value !in seen
    ensures Walk(g, c, seen) == m
    decreases n
  {
    if n > 0 {
      assert Hop(g, c, 0) == Some(c);
      forall k: nat | k < n - 1
        ensures Hop(g, g[c], k).Some? && Hop(g, g[c], k).value !in seen + {c}
      {
        assert Hop(g, c, k + 1).Some? && Hop(g, c, n - k - 1).value !in seen;
        if Hop(g, c, k + 1).value == c {
          HopsAdd(g, c, k + 1, n - k - 1);
        }
      }
      WalkReturns(g, g[c], seen + {c}, m, n - 1);
    }
  }

  function FirstHit(g: Graph, a: Node, b: Node, n: nat): (k: nat)
    requires Hop(g, a, n) == Some(b)
    ensures k <= n && Hop(g, a, k) == Some(b)
    ensures forall j: nat | j < k :: Hop(g, a, j).Some? && Hop(g, a, j).value != b
    decreases n
  {
    if a == b then 0
    else
      var k := FirstHit(g, g[a], b, n - 1);
      assert forall j: nat | 0 < j < k + 1 :: Hop(g, a, j) == Hop(g, g[a], j - 1);
      k + 1
  }

  /** Exactly the nodes with no outgoing edge and the nodes on a cycle are their own root. */
  lemma OwnRoot(g: Graph, a: Node)
    ensures Root(g, a) == a <==> (a !in g || Reaches(g, a, a))
  {
    if a in g && Reaches(g, a, a) {
      var n: nat :| Hop(g, g[a], n) == Some(a);
      WalkReturns(g, g[a], {} + {a}, a, FirstHit(g, g[a], a, n));
    } else if a in g {
      RootOfSuccessor(g, a);
      RootIsLed(g, g[a]);
    }
  }

  /** A node that is not its own root hands its root on to its successor. */
  lemma RootPassesOn(g: Graph, a: Node)
    requires Root(g, a) != a
    ensures a in g && Root(g, g[a]) == Root(g, a)
  {
    OwnRoot(g, a);
    RootOfSuccessor(g, a);
  }

  lemma {:induction false} WalkIsLed(g: Graph, c: Node, seen: set<Node>)
    ensures Leads(g, c, Walk(g, c, seen))
    decreases g.Keys - seen
  {
    LeadsSelf(g, c);
    if c !in seen && c in g {
      assert c in g.Keys - seen && c !in g.Keys - (seen + {c});
      WalkIsLed(g, g[c], seen + {c});
      LeadsStep(g, c, Walk(g, c, seen));
    }
  }

  lemma RootIsLed(g: Graph, a: Node)
    ensures Leads(g, a, Root(g, a))
  {
    WalkIsLed(g, a, {});
  }

  /** Where every visited node leads to the current one, the walk ends at an end or on a cycle. */
  lemma {:induction false} WalkEnds(g: Graph, c: Node, seen: set<Node>)
    requires forall x | x in seen :: Reaches(g, x, c)
    ensures var r := Walk(g, c, seen); r !in g || Reaches(g, r, r)
    decreases g.Keys - seen
  {
    if c !in seen && c in g {
      assert c in g.Keys - seen && c !in g.Keys - (seen + {c});
      forall x | x in seen + {c}
        ensures Reaches(g, x, g[c])
      {
        LeadsSelf(g, g[c]);
        if x != c {
          LeadsStep(g, c, g[c]);
          LeadsTransitive(g, g[x], c, g[c]);
        }
      }
      WalkEnds(g, g[c], seen + {c});
    }
  }

  /** Finding the root twice finds it once, cycles and dangling edges included. */
  lemma RootIsIdempotent(g: Graph, a: Node)
    ensures Root(g, Root(g, a)) == Root(g, a)
  {
    WalkEnds(g, a, {});
    OwnRoot(g, Root(g, a));
  }

  /** On an acyclic graph the root has no outgoing edge: `seen` never stops the walk. */
  lemma AcyclicRootIsAnEnd(g: Graph, a: Node)
    requires Acyclic(g)
    ensures Root(g, a) !in g
  {
    WalkEnds(g, a, {});
  }

  // ------------------------------------------------------------ changing the graph

  ghost predicate AgreeOn(g: Graph, h: Graph, s: set<Node>)
  {
    forall x | x in s :: (x in g <==> x in h) && (x in g ==> g[x] == h[x])
  }

  /** Two graphs that agree on a closed set give its members the same walks. */
  lemma {:induction false} WalkFrame(g: Graph, h: Graph, s: set<Node>, c: Node, seen: set<Node>)
    requires Closed(g, s) && AgreeOn(g, h, s) && c in s
    ensures Walk(g, c, seen) == Walk(h, c, seen)
    decreases g.Keys - seen
  {
    if c !in seen && c in g {
      assert c in g.Keys - seen && c !in g.Keys - (seen + {c});
      WalkFrame(g, h, s, g[c], seen + {c});
    }
  }

  lemma RootFrame(g: Graph, h: Graph, s: set<Node>, a: Node)
    requires Closed(g, s) && AgreeOn(g, h, s) && a in s
    ensures Root(g, a) == Root(h, a)
  {
    WalkFrame(g, h, s, a, {});
  }

  /** Every edge of `h` is a route of `g`. */
  ghost predicate Refines(h: Graph, g: Graph)
  {
    forall x | x in h :: Reaches(g, x, h[x])
  }

  lemma {:induction false} RefinedHops(g: Graph, h: Graph, a: Node, n: nat)
    requires Refines(h, g) && Hop(h, a, n).Some?
    ensures Leads(g, a, Hop(h, a, n).value)
    decreases n
  {
    LeadsSelf(g, a);
    if n > 0 {
      RefinedHops(g, h, h[a], n - 1);
      LeadsStep(g, a, h[a]);
      LeadsTransitive(g, a, h[a], Hop(h, a, n).value);
    }
  }

  /** A graph whose edges are routes of an acyclic one is acyclic. */
  lemma RefinementIsAcyclic(g: Graph, h: Graph)
    requires Acyclic(g) && Refines(h, g)
    ensures Acyclic(h)
  {
    forall a | a in h
      ensures !Reaches(h, a, a)
    {
      if Reaches(h, a, a) {
        var n: nat :| Hop(h, h[a], n) == Some(a);
        RefinedHops(g, h, h[a], n);
        LeadsTransitive(g, g[a], h[a], a);
      }
    }
  }

  /** What a node on a cycle leads to leads back to it. */
  lemma {:induction false} CycleLeadsBack(g: Graph, x: Node, n: nat)
    requires Reaches(g, x, x) && Hop(g, x, n).Some?
    ensures Reaches(g, Hop(g, x, n).value, x)
  {
    if n > 0 {
      EarlierHops(g, x, n - 1, n);
      HopsAdd(g, x, n - 1, 1);
      var y := Hop(g, x, n - 1).value;
      CycleLeadsBack(g, x, n - 1);
      assert Hop(g, x, n) == Hop(g, g[y], 0) == Some(g[y]);
      LeadsStep(g, g[y], x);
    }
  }

  /** Hops from a node that never comes to `a` do not depend on the edge at `a`. */
  lemma {:induction false} AvoidedHops(g: Graph, h: Graph, a: Node, c: Node, n: nat)
    requires !Leads(g, c, a) && g - {a} == h - {a}
    ensures Hop(h, c, n) == Hop(g, c, n)
    decreases n
  {
    LeadsStep(g, c, a);
    assert c in g <==> c in g - {a};
    assert c in h <==> c in h - {a};
    if n > 0 && c in g {
      assert g[c] == (g - {a})[c] == (h - {a})[c] == h[c];
      AvoidedHops(g, h, a, g[c], n - 1);
    }
  }

  /** One edge added or moved at a node that its target does not lead to closes no cycle. */
  lemma NewEdgeIsAcyclic(g: Graph, a: Node, b: Node)
    requires Acyclic(g) && !Leads(g, b, a)
    ensures Acyclic(g[a := b]) && !Leads(g[a := b], b, a)
  {
    var h := g[a := b];
    assert g - {a} == h - {a};
    forall n: nat
      ensures Hop(h, b, n) != Some(a)
    {
      AvoidedHops(g, h, a, b, n);
    }
    forall x | x in h
      ensures !Reaches(h, x, x)
    {
      if Reaches(h, x, x) {
        var n: nat :| Hop(h, h[x], n) == Some(x);
        if Leads(h, x, a) {
          var k: nat :| Hop(h, x, k) == Some(a);
          CycleLeadsBack(h, x, k);
          LeadsTransitive(h, b, x, a);
        } else {
          AvoidedHops(h, g, a, x, n + 1);
        }
      }
    }
  }
}
