/** What the threading and expiry rules mean on stored messages, cyclic and dangling ones included. */
module Threads {
  import opened Outcomes
  import opened Ordering
  import opened Records
  import opened Rules
  import opened FunctionalGraph
  import opened Timestamps

  // ------------------------------------------------------------ listings and maps

  lemma ListingById(m: Messages)
    requires Keyed(m)
    ensures ById(Listing(m)) == m
  {
    var r := ById(Listing(m));
    forall id | id in m ensures id in r { assert m[id] in m.Values; }
    forall id | id in r ensures id in m && r[id] == m[id] { assert r[id] in m.Values; }
  }

  lemma ListingFirst(m: Messages, id: Id)
    requires Keyed(m)
    ensures First(Listing(m), id) == if id in m then Some(m[id]) else None
  {
    var o := First(Listing(m), id);
    if o.Some? { assert o.value in m.Values; }
    if id in m { assert m[id] in Listing(m); }
  }

  // ------------------------------------------------------------ threads

  /** The stored ids of the conversation rooted at `root`. */
  function Thread(m: Messages, root: Id): set<Id>
  {
    set id | id in m && RootOf(m, id) == root
  }

  lemma StoredIsClosed(m: Messages)
    ensures Closed(ParentGraph(m), m.Keys)
  {
  }

  lemma RootIsStored(m: Messages, id: Id)
    ensures RootOf(m, id) in m <==> id in m
  {
    var g := ParentGraph(m);
    StoredIsClosed(m);
    RootIsLed(g, id);
    var n: nat :| Hop(g, id, n) == Some(RootOf(m, id));
    if id in m {
      ClosedHolds(g, m.Keys, id, n);
    } else {
      OwnRoot(g, id);
    }
  }

  /** A thread has turns exactly when its id is stored and is its own root. */
  lemma ThreadIsInhabited(m: Messages, root: Id)
    ensures Thread(m, root) != {} <==> root in m && RootOf(m, root) == root
  {
    if Thread(m, root) != {} {
      var id :| id in Thread(m, root);
      RootIsStored(m, id);
      RootIsIdempotent(ParentGraph(m), id);
    }
    if root in m && RootOf(m, root) == root { assert root in Thread(m, root); }
  }

  /** The same of the listing the rule computes. */
  lemma ThreadListing(m: Messages, root: Id)
    requires Keyed(m)
    ensures forall o :: o in ThreadMembers(Listing(m), root) <==> o.id in Thread(m, root) && m[o.id] == o
    ensures ThreadMembers(Listing(m), root) != [] <==> root in m && RootOf(m, root) == root
    ensures IsSorted(ThreadMembers(Listing(m), root), Older)
  {
    ListingById(m);
    var r := ThreadMembers(Listing(m), root);
    FilterKeepsOrder(Listing(m), (o: Message) => RootOf(ById(Listing(m)), o.id) == root, Older);
    forall o
      ensures o in r <==> o.id in Thread(m, root) && m[o.id] == o
    {
      assert o in m.Values <==> o.id in m && m[o.id] == o;
    }
    ThreadIsInhabited(m, root);
    if Thread(m, root) != {} {
      var id :| id in Thread(m, root);
      assert m[id] in r;
    }
    if r != [] { assert r[0].id in Thread(m, root); }
  }

  /**
   A viewer gets exactly the turns of the thread it is party to, oldest first: nothing for a
   thread that does not exist, and nothing for one in which no turn is its own.
   */
  lemma ViewersSeeTheirTurns(m: Messages, root: Id, viewer: Name, ctx: Context)
    requires Keyed(m)
    ensures var turns := VisibleTurns(Listing(m), root, viewer, ctx);
      && IsSorted(turns, Older)
      && forall o :: o in turns <==> o.id in Thread(m, root) && m[o.id] == o && IsParty(o, viewer, ctx)
  {
    hide IsParty, Thread, Listing, ThreadMembers;
    ThreadListing(m, root);
    FilterKeepsOrder(ThreadMembers(Listing(m), root), (o: Message) => IsParty(o, viewer, ctx), Older);
  }

  /** Threads partition the stored messages. */
  lemma ThreadsPartition(m: Messages)
    ensures forall id | id in m :: RootOf(m, id) in m && id in Thread(m, RootOf(m, id))
    ensures forall r, s | r != s :: Thread(m, r) !! Thread(m, s)
  {
    forall id | id in m ensures RootOf(m, id) in m { RootIsStored(m, id); }
  }

  // ------------------------------------------------------------ expiry

  predicate Idle(m: Messages, root: Id, cutoff: Time)
  {
    forall id | id in m :: RootOf(m, id) == root ==> Less(m[id].published, cutoff)
  }

  /** The stored messages of every fully idle conversation. */
  function Expired(m: Messages, cutoff: Time): set<Id>
  {
    set id | id in m && Idle(m, RootOf(m, id), cutoff)
  }

  /** The two loops, run on a store's listing, return exactly these. */
  lemma ExpiredOfListing(m: Messages, cutoff: Time)
    requires Keyed(m)
    ensures IdleIds(Listing(m), cutoff) == Expired(m, cutoff)
  {
    ListingById(m);
    var g := ParentGraph(m);
    var all := Elements(Listing(m));
    assert forall o :: o in all <==> o in m.Values;
    forall root
      ensures IsIdle(all, g, root, cutoff) <==> Idle(m, root, cutoff)
    {
      if IsIdle(all, g, root, cutoff) {
        forall id | id in m && RootOf(m, id) == root ensures Less(m[id].published, cutoff) { assert m[id] in all; }
      }
      if Idle(m, root, cutoff) {
        forall o | o in all && Root(g, o.id) == root ensures Less(o.published, cutoff) { assert o.id in m; }
      }
    }
    forall id
      ensures id in IdleIds(Listing(m), cutoff) <==> id in Expired(m, cutoff)
    {
      if id in m { assert m[id] in Listing(m); }
    }
  }

  lemma ExpiredIsStored(m: Messages, cutoff: Time)
    ensures Expired(m, cutoff) <= m.Keys
  {
  }

  /** Whole conversations go, or nothing of them does. */
  lemma ExpiryTakesWholeThreads(m: Messages, cutoff: Time, root: Id)
    ensures Thread(m, root) <= Expired(m, cutoff) || Thread(m, root) !! Expired(m, cutoff)
  {
  }

  lemma ExpiryIsMonotone(m: Messages, early: Time, late: Time)
    requires early == late || Less(early, late)
    ensures Expired(m, early) <= Expired(m, late)
  {
    forall id | id in Expired(m, early)
      ensures Idle(m, RootOf(m, id), late)
    {
      forall j | j in m && RootOf(m, j) == RootOf(m, id)
        ensures Less(m[j].published, late)
      {
        if Less(early, late) { LessIsTransitive(m[j].published, early, late); }
      }
    }
  }

  /**
   Where messages carry the strings of their instants, a message expires exactly when every
   turn of its conversation was sent before the cutoff instant.
   */
  lemma ExpiryIsByInstant(m: Messages, times: map<Id, Instant>, cutoff: Instant, id: Id)
    requires cutoff.Valid() && id in m
    requires forall j | j in m :: j in times && times[j].Valid() && m[j].published == Iso(times[j])
    ensures id in Expired(m, Iso(cutoff)) <==>
      forall j | j in m && RootOf(m, j) == RootOf(m, id) :: times[j].IsBefore(cutoff)
  {
    hide Iso;
    forall j | j in m
      ensures Less(m[j].published, Iso(cutoff)) <==> times[j].IsBefore(cutoff)
    {
      StringOrderIsTimeOrder(times[j], cutoff);
    }
  }

  function Remaining(m: Messages, cutoff: Time): Messages
  {
    m - Expired(m, cutoff)
  }

  /** Removing messages only removes edges. */
  lemma RemovalRefines(m: Messages, gone: set<Id>)
    ensures Refines(ParentGraph(m - gone), ParentGraph(m))
  {
    var g, h := ParentGraph(m), ParentGraph(m - gone);
    forall x | x in h
      ensures Reaches(g, x, h[x])
    {
      assert x in g && g[x] == h[x];
      LeadsSelf(g, h[x]);
    }
  }

  /**
   A surviving message and its old root, which survives with it, have one root afterwards.
   Off a cycle the walk to the old root is untouched; on one the message is its own old root.
   */
  lemma {:induction false} SurvivorsStayTogether(m: Messages, cutoff: Time, id: Id, n: nat)
    requires id in Remaining(m, cutoff) && Hop(ParentGraph(m), id, n) == Some(RootOf(m, id))
    ensures RootOf(m, id) in Remaining(m, cutoff)
    ensures RootOf(Remaining(m, cutoff), id) == RootOf(Remaining(m, cutoff), RootOf(m, id))
    decreases n
  {
    var g, h := ParentGraph(m), ParentGraph(Remaining(m, cutoff));
    if RootOf(m, id) != id {
      RootPassesOn(g, id);
      var parent := g[id];
      assert parent in Remaining(m, cutoff) && id in h && h[id] == parent;
      SurvivorsStayTogether(m, cutoff, parent, n - 1);
      OwnRoot(g, id);
      RemovalRefines(m, Expired(m, cutoff));
      if Reaches(h, id, id) {
        var k: nat :| Hop(h, h[id], k) == Some(id);
        RefinedHops(g, h, h[id], k);
      }
      RootOfSuccessor(h, id);
    }
  }

  lemma SurvivorsShareRoots(m: Messages, cutoff: Time, id: Id)
    requires id in Remaining(m, cutoff)
    ensures RootOf(Remaining(m, cutoff), id) == RootOf(Remaining(m, cutoff), RootOf(m, id))
  {
    RootIsLed(ParentGraph(m), id);
    var n: nat :| Hop(ParentGraph(m), id, n) == Some(RootOf(m, id));
    SurvivorsStayTogether(m, cutoff, id, n);
  }

  /** Expiring again at the same cutoff removes nothing: on every store, cyclic ones too. */
  lemma ExpiryIsIdempotent(m: Messages, cutoff: Time)
    ensures Expired(Remaining(m, cutoff), cutoff) == {}
  {
    var rest := Remaining(m, cutoff);
    forall id | id in rest
      ensures !Idle(rest, RootOf(rest, id), cutoff)
    {
      var live :| live in m && RootOf(m, live) == RootOf(m, id) && !Less(m[live].published, cutoff);
      assert live in rest;
      SurvivorsShareRoots(m, cutoff, id);
      SurvivorsShareRoots(m, cutoff, live);
    }
  }

  // ------------------------------------------------------------ nothing is decapitated

  /** Every parent pointer names a stored message. */
  ghost predicate NoDangling(m: Messages)
  {
    forall id | id in m :: m[id].inReplyTo.Some? ==> m[id].inReplyTo.value in m
  }

  /** Expiry leaves no pointer dangling and moves no surviving message to another root. */
  lemma ExpiryKeepsThreads(m: Messages, cutoff: Time)
    requires NoDangling(m) && Acyclic(ParentGraph(m))
    ensures NoDangling(Remaining(m, cutoff)) && Acyclic(ParentGraph(Remaining(m, cutoff)))
    ensures forall id | id in Remaining(m, cutoff) :: RootOf(Remaining(m, cutoff), id) == RootOf(m, id)
  {
    var rest := Remaining(m, cutoff);
    var g, h := ParentGraph(m), ParentGraph(rest);
    forall x | x in rest && x in g
      ensures g[x] in rest
    {
      RootOfSuccessor(g, x);
    }
    assert AgreeOn(g, h, rest.Keys);
    forall id | id in rest ensures RootOf(rest, id) == RootOf(m, id) { RootFrame(g, h, rest.Keys, id); }
    RemovalRefines(m, Expired(m, cutoff));
    RefinementIsAcyclic(g, h);
    forall id | id in rest && rest[id].inReplyTo.Some?
      ensures rest[id].inReplyTo.value in rest
    {
      assert id in g;
    }
  }

  lemma AddedEdge(m: Messages, o: Message)
    requires NoDangling(m) && o.id !in m && (o.inReplyTo.Some? ==> o.inReplyTo.value in m)
    ensures var g, h := ParentGraph(m), ParentGraph(m[o.id := o]);
      h == if o.inReplyTo.Some? then g[o.id := o.inReplyTo.value] else g
  {
    var g, h := ParentGraph(m), ParentGraph(m[o.id := o]);
    var expected := if o.inReplyTo.Some? then g[o.id := o.inReplyTo.value] else g;
    forall x ensures x in h <==> x in expected {}
    forall x | x in h ensures h[x] == expected[x] {}
  }

  lemma GraphHasStoredKeys(m: Messages)
    ensures ParentGraph(m).Keys <= m.Keys
  {
  }

  /** A message added under an unused id that nothing points at changes no walk. */
  lemma AddingFramesWalks(m: Messages, o: Message)
    requires NoDangling(m) && o.id !in m && (o.inReplyTo.Some? ==> o.inReplyTo.value in m)
    ensures forall id | id in m :: RootOf(m[o.id := o], id) == RootOf(m, id)
  {
    var g, h := ParentGraph(m), ParentGraph(m[o.id := o]);
    AddedEdge(m, o);
    StoredIsClosed(m);
    GraphHasStoredKeys(m);
    forall id | id in m ensures Root(h, id) == Root(g, id) { RootFrame(g, h, m.Keys, id); }
  }

  lemma StoredLeadsToStored(m: Messages, p: Id, id: Id)
    requires p in m && Leads(ParentGraph(m), p, id)
    ensures id in m
  {
    var n: nat :| Hop(ParentGraph(m), p, n) == Some(id);
    ClosedHolds(ParentGraph(m), m.Keys, p, n);
  }

  /**
   Adding a message under an unused id, on a stored parent or none, leaves no pointer dangling
   and moves no stored message to another root; the new one takes its parent's root.
   */
  lemma AddingKeepsThreads(m: Messages, o: Message)
    requires NoDangling(m) && Acyclic(ParentGraph(m)) && o.id !in m
    requires o.inReplyTo.Some? ==> o.inReplyTo.value in m
    ensures NoDangling(m[o.id := o]) && Acyclic(ParentGraph(m[o.id := o]))
    ensures forall id | id in m :: RootOf(m[o.id := o], id) == RootOf(m, id)
    ensures RootOf(m[o.id := o], o.id) == if o.inReplyTo.Some? then RootOf(m, o.inReplyTo.value) else o.id
  {
    var g, h := ParentGraph(m), ParentGraph(m[o.id := o]);
    AddedEdge(m, o);
    AddingFramesWalks(m, o);
    OwnRoot(h, o.id);
    if o.inReplyTo.Some? {
      var p := o.inReplyTo.value;
      if Leads(g, p, o.id) { StoredLeadsToStored(m, p, o.id); }
      NewEdgeIsAcyclic(g, o.id, p);
      RootOfSuccessor(h, o.id);
    }
  }
}
