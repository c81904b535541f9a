/**
 Thread listings and expiry depend on turns a viewer is not party to. Exactly how far: they tell two
 mailboxes apart that look alike to a viewer when they put its own mail into different threads, or
 let different parts of it expire.
 */
module HiddenTurns {
  import opened Outcomes
  import opened Ordering
  import opened Records
  import opened Rules
  import opened StorePort
  import opened Engine
  import opened NonInterference
  import Addressing
  import Delivery
  import FunctionalGraph
  import Naming
  import Runs
  import Threads

  // ------------------------------------------------------------ thread listings

  lemma TurnsAreMine(hub: string, s: Store, me: Name, caller: string, root: Id)
    requires s.WellKeyed() && me in s.actors && Addressing.LocalName(caller, hub) == Ok(me)
    ensures TurnsOf(hub, s, caller, root).Ok?
    ensures var turns := TurnsOf(hub, s, caller, root).value;
      && IsSorted(turns, Older)
      && forall o :: o in turns <==> o.id in Mine(s, me) && s.messages[o.id] == o && RootOf(s.messages, o.id) == root
  {
    hide Addressing.LocalName, IsParty, VisibleTurns, Listing, ContextOf, RootOf, IsSorted, Older;
    Threads.ViewersSeeTheirTurns(s.messages, root, me, ContextIn(s));
  }

  /**
   Two mailboxes that look alike list a thread alike exactly if each message of the viewer's own is
   in that thread in both or in neither.
   */
  lemma ListingsAgree(hub: string, s: Store, t: Store, me: Name, caller: string, root: Id)
    requires s.WellKeyed() && t.WellKeyed() && LooksAlike(s, t, me)
    requires me in s.actors && Addressing.LocalName(caller, hub) == Ok(me)
    ensures TurnsOf(hub, s, caller, root) == TurnsOf(hub, t, caller, root) <==>
      forall id | id in Mine(s, me) :: RootOf(s.messages, id) == root <==> RootOf(t.messages, id) == root
  {
    hide Addressing.LocalName, IsParty, TurnsOf, ContextOf, RootOf, IsSorted, Older, StrictTotalOn;
    TurnsAreMine(hub, s, me, caller, root);
    TurnsAreMine(hub, t, me, caller, root);
    var x, y := TurnsOf(hub, s, caller, root).value, TurnsOf(hub, t, caller, root).value;
    forall id | id in Mine(s, me)
      ensures id in Mine(t, me) && s.messages[id] == t.messages[id] && s.messages[id].id == id
    {
      assert Mine(s, me)[id] == Mine(t, me)[id];
    }
    if forall id | id in Mine(s, me) :: RootOf(s.messages, id) == root <==> RootOf(t.messages, id) == root {
      forall o ensures o in x <==> o in y {}
      assert Elements(x) == Elements(y);
      MessagesAreOrdered(s.messages);
      OrderedPart(s.messages.Values, Elements(x));
      SortedIsUnique(x, y, Older);
    } else {
      var id :| id in Mine(s, me) && !(RootOf(s.messages, id) == root <==> RootOf(t.messages, id) == root);
      assert s.messages[id] in x <==> s.messages[id] !in y;
    }
  }

  lemma OrderedPart(all: set<Message>, part: set<Message>)
    requires StrictTotalOn(all, Older) && part <= all
    ensures StrictTotalOn(part, Older)
  {
  }

  /** Every thread is listed alike exactly if the viewer's own messages have the same roots in both. */
  lemma AllListingsAgree(hub: string, s: Store, t: Store, me: Name, caller: string)
    requires s.WellKeyed() && t.WellKeyed() && LooksAlike(s, t, me)
    requires me in s.actors && Addressing.LocalName(caller, hub) == Ok(me)
    ensures (forall root :: TurnsOf(hub, s, caller, root) == TurnsOf(hub, t, caller, root)) <==>
      forall id | id in Mine(s, me) :: RootOf(s.messages, id) == RootOf(t.messages, id)
  {
    hide Addressing.LocalName, TurnsOf, RootOf, LooksAlike, Mine;
    if forall root :: TurnsOf(hub, s, caller, root) == TurnsOf(hub, t, caller, root) {
      forall id | id in Mine(s, me)
        ensures RootOf(s.messages, id) == RootOf(t.messages, id)
      {
        var root := RootOf(s.messages, id);
        assert TurnsOf(hub, s, caller, root) == TurnsOf(hub, t, caller, root);
        ListingsAgree(hub, s, t, me, caller, root);
      }
    }
    if forall id | id in Mine(s, me) :: RootOf(s.messages, id) == RootOf(t.messages, id) {
      forall root
        ensures TurnsOf(hub, s, caller, root) == TurnsOf(hub, t, caller, root)
      {
        ListingsAgree(hub, s, t, me, caller, root);
      }
    }
  }

  // ------------------------------------------------------------ expiry

  /** Two mailboxes that look alike still do after an expiry exactly if it takes the same of the viewer's own mail. */
  lemma ExpiriesAgree(s: Store, t: Store, me: Name, cutoff: Time)
    requires LooksAlike(s, t, me)
    ensures var gone, lost := Threads.Expired(s.messages, cutoff), Threads.Expired(t.messages, cutoff);
      LooksAlike(RemoveFrom(s, gone), RemoveFrom(t, lost), me) <==>
        forall id | id in Mine(s, me) :: id in gone <==> id in lost
  {
    hide IsParty, ContextOf, Threads.Expired;
    var gone, lost := Threads.Expired(s.messages, cutoff), Threads.Expired(t.messages, cutoff);
    var s', t' := RemoveFrom(s, gone), RemoveFrom(t, lost);
    assert Mine(s', me) == Mine(s, me) - gone && Mine(t', me) == Mine(t, me) - lost;
    forall id | id in Mine(s, me) ensures id in Mine(t, me) {}
    if forall id | id in Mine(s, me) :: id in gone <==> id in lost {
      assert Mine(s, me) - gone == Mine(t, me) - lost;
    } else {
      var id :| id in Mine(s, me) && !(id in gone <==> id in lost);
      assert id in Mine(s', me) <==> id !in Mine(t', me);
    }
  }

  // ------------------------------------------------------------ mailboxes that differ

  /** A three-message store in which `o` answers `h`, and `h` answers whatever it answers. */
  function Chain(g: Message, h: Message, o: Message): Messages
  {
    map[g.id := g, h.id := h, o.id := o]
  }

  lemma ChainRoot(g: Message, h: Message, o: Message)
    requires g.id != h.id && h.id != o.id && g.id != o.id
    requires g.inReplyTo == None && o.inReplyTo == Some(h.id) && h.inReplyTo in {None, Some(g.id)}
    ensures RootOf(Chain(g, h, o), o.id) == if h.inReplyTo == None then h.id else g.id
  {
    var e := ParentGraph(Chain(g, h, o));
    assert e == if h.inReplyTo == None then map[o.id := h.id] else map[o.id := h.id, h.id := g.id];
    var seen := {} + {o.id};
    assert FunctionalGraph.Root(e, o.id) == FunctionalGraph.Walk(e, h.id, seen);
    assert h.id in e ==> FunctionalGraph.Walk(e, h.id, seen) == FunctionalGraph.Walk(e, g.id, seen + {h.id});
  }

  /**
   Thread listings do depend on hidden turns. Where only the parent of a hidden turn differs,
   two mailboxes look alike, and one lists a turn of the viewer's under a root the other does not.
   */
  lemma ThreadsCanTell(s: Store, g: Message, h: Message, o: Message, me: Name)
    requires g.id != h.id && h.id != o.id && g.id != o.id
    requires g.inReplyTo == None && o.inReplyTo == Some(h.id) && h.inReplyTo == None
    requires !IsParty(g, me, ContextIn(s)) && !IsParty(h, me, ContextIn(s)) && IsParty(o, me, ContextIn(s))
    ensures var t, u := s.(messages := Chain(g, h, o)), s.(messages := Chain(g, h.(inReplyTo := Some(g.id)), o));
      && LooksAlike(t, u, me) && Keyed(t.messages) && Keyed(u.messages)
      && o in VisibleTurns(Listing(t.messages), h.id, me, ContextIn(t))
      && o !in VisibleTurns(Listing(u.messages), h.id, me, ContextIn(u))
  {
    hide ContextOf, IsParty, VisibleTurns, Listing;
    var h' := h.(inReplyTo := Some(g.id));
    SameParties(h, h', me, ContextIn(s));
    ListedUnder(s, g, h, o, me);
    ListedUnder(s, g, h', o, me);
    OnlyMine(s, g, h, o, me);
    OnlyMine(s, g, h', o, me);
  }

  lemma SameParties(o: Message, p: Message, who: Name, ctx: Context)
    requires p == o.(inReplyTo := p.inReplyTo)
    ensures IsParty(p, who, ctx) <==> IsParty(o, who, ctx)
  {
    hide Resolve;
    assert o.Audience() == p.Audience();
  }

  /** The last turn is listed under the second exactly if that answers none. */
  lemma ListedUnder(s: Store, g: Message, h: Message, o: Message, me: Name)
    requires g.id != h.id && h.id != o.id && g.id != o.id
    requires g.inReplyTo == None && o.inReplyTo == Some(h.id) && h.inReplyTo in {None, Some(g.id)}
    requires IsParty(o, me, ContextIn(s))
    ensures Keyed(Chain(g, h, o))
    ensures o in VisibleTurns(Listing(Chain(g, h, o)), h.id, me, ContextIn(s)) <==> h.inReplyTo == None
  {
    hide ContextOf, IsParty, VisibleTurns, Listing, RootOf;
    ChainRoot(g, h, o);
    Threads.ViewersSeeTheirTurns(Chain(g, h, o), h.id, me, ContextIn(s));
  }

  lemma OnlyMine(s: Store, g: Message, h: Message, o: Message, me: Name)
    requires g.id != h.id && h.id != o.id && g.id != o.id
    requires !IsParty(g, me, ContextIn(s)) && !IsParty(h, me, ContextIn(s)) && IsParty(o, me, ContextIn(s))
    ensures Mine(s.(messages := Chain(g, h, o)), me) == map[o.id := o]
  {
    hide IsParty, ContextOf;
  }

  // ------------------------------------------------------------ mailboxes the engine leaves

  /** Three actors, no groups. */
  function Trio(a: Name, b: Name, c: Name): Store
  {
    Store(map[a := NewActor(a, NO_PROFILE, ""), b := NewActor(b, NO_PROFILE, ""), c := NewActor(c, NO_PROFILE, "")],
      map[], map[])
  }

  ghost predicate Distinguishable(hub: string, a: Name, b: Name, c: Name)
  {
    && a != b && b != c && a != c && Naming.EVERYONE !in {a, b, c}
    && Runs.ReadsBack(hub, a) && Runs.ReadsBack(hub, b) && Runs.ReadsBack(hub, c)
  }

  lemma TrioHasNoGroups(a: Name, b: Name, c: Name, m: Messages)
    requires a != b && b != c && a != c
    ensures ContextIn(Trio(a, b, c).(messages := m)) == Context({a, b, c}, map[])
  {
    var s := Trio(a, b, c).(messages := m);
    assert s.actors[a] in s.ActorSet() && s.actors[b] in s.ActorSet() && s.actors[c] in s.ActorSet();
    assert GroupNames(s.ActorSet()) == {};
  }

  /** Without groups, whoever wrote or is named is party, and nobody else. */
  lemma PartyByName(o: Message, who: Name, actors: set<Name>)
    requires Naming.EVERYONE !in o.Audience() && o.Audience() <= actors && o.sender !in o.Audience()
    ensures IsParty(o, who, Context(actors, map[])) <==> who == o.sender || who in o.Audience()
  {
    hide Resolve;
    Delivery.ReachesItsNames(o, Context(actors, map[]));
  }

  lemma TrioIsWhole(hub: string, a: Name, b: Name, c: Name)
    requires Distinguishable(hub, a, b, c)
    ensures Runs.Inv(hub, Runs.World(Trio(a, b, c), {}))
  {
    hide Runs.ReadsBack;
  }

  /** A note from one to another, or to two, without subject or body. */
  function Memo(id: Id, sender: Name, to: Name, cc: seq<Name>, parent: Option<Id>, published: Time): Message
  {
    Message(id, sender, [to], cc, parent, None, "", published, map[])
  }

  /** Posting a note among the three, on a message its author wrote or received. */
  lemma Posting(hub: string, a: Name, b: Name, c: Name, m: Messages, used: set<Id>, o: Message)
    requires Distinguishable(hub, a, b, c) && Runs.Inv(hub, Runs.World(Trio(a, b, c).(messages := m), used))
    requires o.id !in used && |o.to| == 1 && |o.cc| <= 1 && (o.cc != [] ==> o.cc[0] != o.to[0])
    requires o.sender in {a, b, c} && o.Audience() <= {a, b, c} && o.sender !in o.Audience()
    requires o.inReplyTo.Some? ==>
      var p := o.inReplyTo.value;
      p in m && (m[p].sender == o.sender || o.sender in m[p].Audience())
    ensures Runs.Inv(hub, Runs.World(Trio(a, b, c).(messages := m[o.id := o]), used + {o.id}))
  {
    hide Runs.ReadsBack, IsParty, ContextOf, FunctionalGraph.Acyclic, ParentGraph, Threads.NoDangling;
    var s := Trio(a, b, c).(messages := m);
    TrioHasNoGroups(a, b, c, m);
    if o.inReplyTo.Some? {
      var p := m[o.inReplyTo.value];
      assert Runs.WellAddressed(p, s.actors.Keys);
      PartyByName(p, o.sender, {a, b, c});
    }
    assert Runs.WellAddressed(o, s.actors.Keys);
    Runs.AddingKeepsInv(hub, Runs.World(s, used), o);
  }

  /** Whether `h` answers `g` is hidden from `me`, and the engine can leave it either way. */
  lemma ChainIsWhole(hub: string, a: Name, b: Name, me: Name, parent: Option<Id>)
    requires Distinguishable(hub, a, b, me) && parent in {None, Some("1")}
    ensures var g, h := Memo("1", a, b, [], None, ""), Memo("2", a, b, [], parent, "");
      var o := Memo("3", b, me, [], Some("2"), "");
      && Runs.Inv(hub, Runs.World(Trio(a, b, me).(messages := Chain(g, h, o)), {"1", "2", "3"}))
      && !IsParty(g, me, Context({a, b, me}, map[])) && !IsParty(h, me, Context({a, b, me}, map[]))
      && IsParty(o, me, Context({a, b, me}, map[]))
  {
    hide Runs.Inv, Runs.ReadsBack, IsParty, ContextOf;
    var g, h, o := Memo("1", a, b, [], None, ""), Memo("2", a, b, [], parent, ""), Memo("3", b, me, [], Some("2"), "");
    assert g.Audience() == {b} && h.Audience() == {b} && o.Audience() == {me};
    PartyByName(g, me, {a, b, me});
    PartyByName(h, me, {a, b, me});
    PartyByName(o, me, {a, b, me});
    TrioIsWhole(hub, a, b, me);
    assert Trio(a, b, me).(messages := map[]) == Trio(a, b, me);
    Posting(hub, a, b, me, map[], {}, g);
    assert {} + {"1"} == {"1"} && {"1"} + {"2"} == {"1", "2"} && {"1", "2"} + {"3"} == {"1", "2", "3"};
    assert map[]["1" := g] == map["1" := g];
    Posting(hub, a, b, me, map["1" := g], {"1"}, h);
    assert map["1" := g]["2" := h] == map["1" := g, "2" := h];
    Posting(hub, a, b, me, map["1" := g, "2" := h], {"1", "2"}, o);
    assert map["1" := g, "2" := h]["3" := o] == Chain(g, h, o);
  }

  /** So two mailboxes that the engine can leave look alike to `me` and list one thread differently. */
  lemma ThreadsCanTellApart(hub: string, a: Name, b: Name, me: Name) returns (t: Runs.World, u: Runs.World)
    requires Distinguishable(hub, a, b, me)
    ensures Runs.Inv(hub, t) && Runs.Inv(hub, u) && LooksAlike(t.store, u.store, me)
    ensures TurnsOf(hub, t.store, me, "2") != TurnsOf(hub, u.store, me, "2")
  {
    hide Runs.Inv, IsParty, ContextOf, VisibleTurns, Listing, LooksAlike, Addressing.LocalName;
    var g, h, o := Memo("1", a, b, [], None, ""), Memo("2", a, b, [], None, ""), Memo("3", b, me, [], Some("2"), "");
    ChainIsWhole(hub, a, b, me, None);
    ChainIsWhole(hub, a, b, me, Some("1"));
    TrioHasNoGroups(a, b, me, map[]);
    TrioHasNoGroups(a, b, me, Chain(g, h, o));
    TrioHasNoGroups(a, b, me, Chain(g, h.(inReplyTo := Some("1")), o));
    assert Trio(a, b, me).(messages := map[]) == Trio(a, b, me);
    ThreadsCanTell(Trio(a, b, me), g, h, o, me);
    t := Runs.World(Trio(a, b, me).(messages := Chain(g, h, o)), {"1", "2", "3"});
    u := Runs.World(Trio(a, b, me).(messages := Chain(g, h.(inReplyTo := Some("1")), o)), {"1", "2", "3"});
  }

  /** A fresh answer that `me` never sees keeps an old message of its own alive, which expires without it. */
  lemma ExpiryCanTellApart(hub: string, a: Name, b: Name, me: Name) returns (t: Runs.World, u: Runs.World)
    requires Distinguishable(hub, a, b, me)
    ensures Runs.Inv(hub, t) && Runs.Inv(hub, u) && LooksAlike(t.store, u.store, me)
    ensures "1" in Mine(t.store, me)
    ensures "1" in Threads.Expired(t.store.messages, "5") && "1" !in Threads.Expired(u.store.messages, "5")
  {
    hide Runs.Inv, IsParty, ContextOf, Runs.ReadsBack;
    var o, x := Memo("1", a, b, [me], None, ""), Memo("2", b, a, [], Some("1"), "9");
    assert o.Audience() == {b, me} && x.Audience() == {a};
    PartyByName(o, me, {a, b, me});
    PartyByName(x, me, {a, b, me});
    TrioIsWhole(hub, a, b, me);
    assert Trio(a, b, me).(messages := map[]) == Trio(a, b, me);
    Posting(hub, a, b, me, map[], {}, o);
    assert {} + {"1"} == {"1"} && {"1"} + {"2"} == {"1", "2"};
    assert map[]["1" := o] == map["1" := o];
    Posting(hub, a, b, me, map["1" := o], {"1"}, x);
    assert map["1" := o]["2" := x] == map["1" := o, "2" := x];
    t := Runs.World(Trio(a, b, me).(messages := map["1" := o]), {"1"});
    u := Runs.World(Trio(a, b, me).(messages := map["1" := o, "2" := x]), {"1", "2"});
    TrioHasNoGroups(a, b, me, t.store.messages);
    TrioHasNoGroups(a, b, me, u.store.messages);
    AnswerSharesRoot(o, x);
    OnlyRoot(o);
  }

  lemma OnlyRoot(o: Message)
    requires o.inReplyTo == None
    ensures RootOf(map[o.id := o], o.id) == o.id
  {
    FunctionalGraph.OwnRoot(ParentGraph(map[o.id := o]), o.id);
  }

  lemma AnswerSharesRoot(o: Message, x: Message)
    requires o.id != x.id && o.inReplyTo == None && x.inReplyTo == Some(o.id)
    ensures var m := map[o.id := o, x.id := x]; RootOf(m, o.id) == o.id && RootOf(m, x.id) == o.id
  {
    var g := ParentGraph(map[o.id := o, x.id := x]);
    assert g == map[x.id := o.id];
    FunctionalGraph.OwnRoot(g, o.id);
    if FunctionalGraph.Reaches(g, x.id, x.id) { FunctionalGraph.LeadsStep(g, o.id, x.id); }
    FunctionalGraph.RootOfSuccessor(g, x.id);
  }
}
