/** The superseded mailbox's forwarding table: addresses that renamed agents left behind. */
module Forwarding {
  import opened FunctionalGraph
  import opened Outcomes
  import opened Ordering

  type Address = Node

  datatype Entry = Entry(firstSeen: string, lastSeen: string, profile: string, stale: bool)

  datatype Refusal = SameName | HeldByActiveAgent | ForwardsBack
  datatype Outcome = Renamed(former: Address, latter: Address) | Refused(reason: Refusal)

  /** The table after `former` was renamed: its own row replaced, then every row that pointed at it. */
  function Redirect(g: Graph, former: Address, latter: Address): Graph
  {
    PointAt(g[former := latter], former, latter)
  }

  /** `UPDATE forwards SET new_address = latter WHERE new_address = former`. */
  function PointAt(g: Graph, former: Address, latter: Address): Graph
  {
    map x | x in g :: if g[x] == former then latter else g[x]
  }

  /** A rename is refused for the table's sake exactly when one of these fails. */
  ghost predicate Allowed(g: Graph, former: Address, latter: Address)
  {
    latter != former && !Reaches(g, latter, former)
  }

  lemma RedirectIsAcyclic(g: Graph, former: Address, latter: Address)
    requires Acyclic(g) && Allowed(g, former, latter)
    ensures Acyclic(Redirect(g, former, latter))
  {
    LeadsStep(g, latter, former);
    NewEdgeIsAcyclic(g, former, latter);
    var h, r := g[former := latter], Redirect(g, former, latter);
    forall x | x in r
      ensures Reaches(h, x, r[x])
    {
      LeadsSelf(h, latter);
      LeadsStep(h, former, latter);
      LeadsSelf(h, h[x]);
    }
    RefinementIsAcyclic(h, r);
  }

  /** What never came to `former` still ends where it did. */
  lemma RedirectLeavesOthers(g: Graph, former: Address, latter: Address, a: Address)
    requires !Leads(g, a, former)
    ensures Root(Redirect(g, former, latter), a) == Root(g, a)
  {
    var s := set x | x in g.Keys + g.Values + {a} && !Leads(g, x, former);
    forall x | x in s
      ensures x != former && (x in g ==> g[x] != former && g[x] in s)
    {
      LeadsStep(g, x, former);
      if x in g {
        LeadsStep(g, g[x], former);
        assert g[x] in g.Values;
      }
    }
    RootFrame(g, Redirect(g, former, latter), s, a);
  }

  lemma {:induction false} RedirectMoves(g: Graph, former: Address, latter: Address, a: Address, n: nat)
    requires Acyclic(g) && Allowed(g, former, latter) && Hop(g, a, n) == Some(former)
    ensures Root(Redirect(g, former, latter), a) == Root(g, latter)
    decreases n
  {
    var r := Redirect(g, former, latter);
    RedirectIsAcyclic(g, former, latter);
    LeadsStep(g, latter, former);
    RedirectLeavesOthers(g, former, latter, latter);
    RootOfSuccessor(r, a);
    if a != former && g[a] != former {
      RedirectMoves(g, former, latter, g[a], n - 1);
    }
  }

  /**
   Mail follows a rename. Afterwards every address whose forwards came to the old name ends
   where the new name ended, and every other address ends where it did.
   */
  lemma MailFollows(g: Graph, former: Address, latter: Address, a: Address)
    requires Acyclic(g) && Allowed(g, former, latter)
    ensures Root(Redirect(g, former, latter), a) == Root(g, if Leads(g, a, former) then latter else a)
    ensures Root(Redirect(g, former, latter), a) != former
  {
    var r := Redirect(g, former, latter);
    if Leads(g, a, former) {
      var n: nat :| Hop(g, a, n) == Some(former);
      RedirectMoves(g, former, latter, a, n);
    } else {
      RedirectLeavesOthers(g, former, latter, a);
    }
    RedirectIsAcyclic(g, former, latter);
    AcyclicRootIsAnEnd(r, a);
  }

  /** Every forward leads straight to an address that does not forward. */
  ghost predicate OneHop(g: Graph)
  {
    forall x | x in g :: g[x] !in g
  }

  /** A rename keeps chains at one hop exactly when the new name has no forward of its own. */
  lemma RenameStaysOneHop(g: Graph, former: Address, latter: Address)
    requires OneHop(g) && Allowed(g, former, latter)
    ensures OneHop(Redirect(g, former, latter)) <==> latter !in g
  {
    var r := Redirect(g, former, latter);
    assert former in r && r[former] == latter;
  }

  lemma RenameCanMakeTwoHops(a: Address, b: Address, c: Address)
    requires a != b && b != c && a != c
    ensures var g: Graph := map[b := c];
      OneHop(g) && Allowed(g, a, b) && Hop(Redirect(g, a, b), a, 2) == Some(c)
  {
    var g: Graph := map[b := c];
    if Reaches(g, b, a) {
      LeadsStep(g, c, a);
    }
    var r := Redirect(g, a, b);
    assert r[a] == b && r[b] == c;
    assert Hop(r, c, 0) == Some(c) && Hop(r, b, 1) == Some(c);
  }

  /** The table after a run of attempted renames, refused ones leaving it alone. */
  ghost function Run(g: Graph, renames: seq<(Address, Address)>): Graph
    decreases |renames|
  {
    if renames == [] then g
    else
      var (former, latter) := renames[0];
      Run(if Allowed(g, former, latter) then Redirect(g, former, latter) else g, renames[1..])
  }

  lemma {:induction false} RunsStayAcyclic(g: Graph, renames: seq<(Address, Address)>)
    requires Acyclic(g)
    ensures Acyclic(Run(g, renames))
    decreases |renames|
  {
    if renames != [] {
      var (former, latter) := renames[0];
      if Allowed(g, former, latter) { RedirectIsAcyclic(g, former, latter); }
      RunsStayAcyclic(if Allowed(g, former, latter) then Redirect(g, former, latter) else g, renames[1..]);
    }
  }

  /** The parts of the superseded mailbox that a rename consults or rewrites for routing. */
  class Directory {
    var agents: map<Address, Entry>
    var forwards: Graph
    var expiries: map<Address, string>

    /** No chain of forwards is circular, and every forward has the time it expires. */
    ghost predicate Valid()
      reads this
    {
      Acyclic(forwards) && expiries.Keys == forwards.Keys
    }

    constructor ()
      ensures Valid() && agents == map[] && forwards == map[]
    {
      agents, forwards, expiries := map[], map[], map[];
    }

    /** Whether following forwards from `start` reaches `target`, on any table. */
    method ResolvesTo(start: Address, target: Address) returns (yes: bool)
      ensures yes <==> Reaches(forwards, start, target)
    {
      var seen: set<Address> := {};
      var current := start;
      LeadsSelf(forwards, start);
      while current !in seen
        invariant seen <= forwards.Keys
        invariant Leads(forwards, start, current)
        invariant start in seen || current == start
        invariant forall x | x in seen :: forwards[x] in seen + {current}
        invariant forall x | x in seen :: forwards[x] != target
        decreases forwards.Keys - seen
      {
        if current !in forwards {
          if Reaches(forwards, start, target) {
            ReachedInside(forwards, seen + {current}, start, target);
          }
          return false;
        }
        seen := seen + {current};
        LeadsStep(forwards, current, forwards[current]);
        LeadsSelf(forwards, forwards[current]);
        LeadsTransitive(forwards, start, current, forwards[current]);
        ghost var previous := current;
        current := forwards[current];
        if current == target {
          ReachesThrough(forwards, start, previous);
          return true;
        }
      }
      if Reaches(forwards, start, target) {
        ReachedInside(forwards, seen, start, target);
      }
      return false;
    }

    /** Where `address` now delivers and whether that has expired; `None` if it was never renamed. */
    method ResolveForward(address: Address, now: string) returns (to: Option<(Address, bool)>)
      requires Valid()
      ensures to.None? <==> Hop(forwards, address, 1) == None
      ensures to.Some? ==>
        && Hop(forwards, address, 1) == Some(to.value.0)
        && (to.value.1 <==> expiries[address] == now || Less(expiries[address], now))
    {
      if address !in forwards {
        return None;
      }
      assert Hop(forwards, forwards[address], 0) == Some(forwards[address]);
      LessIsTotal(now, expiries[address]);
      LessIsAsymmetric(now, expiries[address]);
      return Some((forwards[address], !Less(now, expiries[address])));
    }

    method Rename(former: Address, latter: Address, now: string, expires: string) returns (r: Outcome)
      requires Valid()
      modifies this
      ensures Valid()
      ensures r.Renamed? <==> old((latter in agents ==> agents[latter].stale) && Allowed(forwards, former, latter))
      ensures r.Renamed? ==>
        && r == Renamed(former, latter)
        && forwards == Redirect(old(forwards), former, latter)
        && expiries == old(expiries)[former := expires]
        && agents == old(if former in agents
            then agents[latter := agents[former].(lastSeen := now)] - {former} else agents)
      ensures r.Refused? ==> unchanged(this)
    {
      if latter == former {
        return Refused(SameName);
      }
      if latter in agents && !agents[latter].stale {
        return Refused(HeldByActiveAgent);
      }
      var back := ResolvesTo(latter, former);
      if back {
        return Refused(ForwardsBack);
      }
      RedirectIsAcyclic(forwards, former, latter);
      if former in agents {
        agents := agents[latter := agents[former].(lastSeen := now)];
        agents := agents - {former};
      }
      forwards, expiries := forwards[former := latter], expiries[former := expires];
      forwards := PointAt(forwards, former, latter);
      return Renamed(former, latter);
    }
  }

  lemma ReachesThrough(g: Graph, a: Node, b: Node)
    requires Leads(g, a, b) && b in g
    ensures Reaches(g, a, g[b])
  {
    LeadsSelf(g, g[b]);
    LeadsStep(g, a, b);
    LeadsStep(g, b, g[b]);
    if a != b {
      LeadsTransitive(g, g[a], b, g[b]);
    }
  }

  /** A target that no edge inside a closed set points at is not reached from inside it. */
  lemma ReachedInside(g: Graph, s: set<Node>, a: Node, target: Node)
    requires Closed(g, s) && a in s && Reaches(g, a, target)
    ensures exists x :: x in s && x in g && g[x] == target
  {
    var n: nat :| Hop(g, g[a], n) == Some(target);
    assert Hop(g, a, n + 1) == Some(target);
    EarlierHops(g, a, n, n + 1);
    HopsAdd(g, a, n, 1);
    var x := Hop(g, a, n).value;
    ClosedHolds(g, s, a, n);
    assert x in g && Hop(g, g[x], 0) == Some(target);
  }
}
