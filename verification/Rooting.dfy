/** Exactly when stored messages keep their roots while store calls interleave. */
module Rooting {
  import opened Outcomes
  import opened Records
  import opened Rules
  import opened StorePort
  import opened Engine
  import opened Processes
  import opened Interleaving
  import opened FunctionalGraph
  import opened Grounding
  import Threads

  /**
   What is answered, by a message stored or about to be, has been stored once: its id was given out
   and nothing is about to be stored under it. It may have been removed since.
   */
  ghost predicate AnswersOld(w: Shared)
  {
    && (forall id | id in w.store.messages && w.store.messages[id].inReplyTo.Some? ::
         Old(w, w.store.messages[id].inReplyTo.value))
    && forall pid | pid in w.running && w.running[pid].SendStoring? && w.running[pid].message.inReplyTo.Some? ::
         Old(w, w.running[pid].message.inReplyTo.value)
  }

  /** Nothing is under way, or everything at its beginning, on a store without dangling parents. */
  lemma BeginsWithOldAnswers(w: Shared)
    requires Inv(w) && Threads.NoDangling(w.store.messages)
    requires forall pid | pid in w.running :: !w.running[pid].SendStoring?
    ensures AnswersOld(w)
  {
    hide Descends, Distinct, KeepsIdentity, Old;
    forall id | id in w.store.messages ensures Old(w, id) { StoredIsOld(w, id); }
  }

  lemma StepKeepsOldAnswers(hub: string, b: Backend, w: Shared, pid: Pid)
    requires Inv(w) && MayStep(w, pid) && Fresh(hub, w, pid) && AnswersOld(w)
    ensures AnswersOld(StepOf(hub, b, w, pid))
  {
    hide Resume, AnswerTo, After, CallOf, Descends, Distinct, KeepsIdentity, MadeOnce, Old;
    var p, next := w.running[pid], StepOf(hub, b, w, pid);
    MadeOnStored(hub, w.store, p);
    forall id | Old(w, id) ensures Old(next, id) { OldStays(hub, b, w, pid, id); }
    forall id | id in w.store.messages ensures Old(w, id) { StoredIsOld(w, id); }
    forall id | id in next.store.messages && next.store.messages[id].inReplyTo.Some?
      ensures Old(w, next.store.messages[id].inReplyTo.value)
    {
      CallsStoreWhatWasMade(b, w.store, p, id);
    }
  }

  // ------------------------------------------------------------ call by call

  /** What is stored before and after keeps its root. */
  ghost predicate RootsKept(before: Messages, after: Messages)
  {
    forall id | id in before && id in after :: RootOf(after, id) == RootOf(before, id)
  }

  /** Removing `ids` would take the stored parent of a stored message that stays. */
  ghost predicate TakesAParent(m: Messages, ids: set<Id>)
  {
    exists id :: id in m && id !in ids && m[id].inReplyTo.Some? && m[id].inReplyTo.value in m
                 && m[id].inReplyTo.value in ids
  }

  /** The operation's next call is such a removal. */
  ghost predicate Uproots(w: Shared, pid: Pid)
  {
    && pid in w.running && w.running[pid].ExpireRemoving?
    && TakesAParent(w.store.messages, w.running[pid].ids)
  }

  /** On any acyclic store a removal keeps the roots of what stays exactly if it takes no parent of it. */
  lemma RemovalKeepsRoots(m: Messages, ids: set<Id>)
    requires Acyclic(ParentGraph(m))
    ensures RootsKept(m, m - ids) <==> !TakesAParent(m, ids)
  {
    var g, h := ParentGraph(m), ParentGraph(m - ids);
    if TakesAParent(m, ids) {
      var id :| id in m && id !in ids && m[id].inReplyTo.Some? && m[id].inReplyTo.value in m
        && m[id].inReplyTo.value in ids;
      OwnRoot(h, id);
      AcyclicRootIsAnEnd(g, id);
      assert id in g && RootOf(m, id) != id && RootOf(m - ids, id) == id;
    } else {
      var stay := m.Keys - ids;
      assert Closed(g, stay) && AgreeOn(g, h, stay);
      forall id | id in m - ids ensures RootOf(m - ids, id) == RootOf(m, id) { RootFrame(g, h, stay, id); }
    }
  }

  /** A message that no stored message answers moves no root, whether its own parent is stored or not. */
  lemma StoringKeepsRoots(m: Messages, o: Message)
    requires o.id !in m && o.inReplyTo != Some(o.id)
    requires forall id | id in m :: m[id].inReplyTo != Some(o.id)
    ensures RootsKept(m, m[o.id := o])
  {
    var g, h := ParentGraph(m), ParentGraph(m[o.id := o]);
    Threads.StoredIsClosed(m);
    assert AgreeOn(g, h, m.Keys);
    forall id | id in m ensures RootOf(m[o.id := o], id) == RootOf(m, id) { RootFrame(g, h, m.Keys, id); }
  }

  /** A store call keeps every root exactly if it is not a removal that takes the parent of what stays. */
  lemma StepRoots(hub: string, b: Backend, w: Shared, pid: Pid)
    requires Inv(w) && MayStep(w, pid) && Fresh(hub, w, pid) && AnswersOld(w)
    ensures RootsKept(w.store.messages, StepOf(hub, b, w, pid).store.messages) <==> !Uproots(w, pid)
  {
    hide Resume, AnswerTo, After, CallOf, Descends, Distinct, KeepsIdentity, RootOf, ParentGraph, Acyclic, TakesAParent;
    var p := w.running[pid];
    CallsKeepMessages(b, w.store, p);
    if p.ExpireRemoving? {
      ReachableGraphsAreAcyclic(w);
      RemovalKeepsRoots(w.store.messages, p.ids);
    } else if p.SendStoring? {
      StoringKeepsRoots(w.store.messages, p.message);
    }
  }

  // ------------------------------------------------------------ along a schedule

  ghost predicate RootsKeptThroughout(hub: string, b: Backend, w: Shared, schedule: seq<Pid>)
    requires Inv(w) && Possible(hub, b, w, schedule)
    decreases |schedule|
  {
    schedule == [] ||
      (StepKeepsInv(hub, b, w, schedule[0]);
       RootsKept(w.store.messages, StepOf(hub, b, w, schedule[0]).store.messages)
         && RootsKeptThroughout(hub, b, StepOf(hub, b, w, schedule[0]), schedule[1..]))
  }

  ghost predicate NeverUproots(hub: string, b: Backend, w: Shared, schedule: seq<Pid>)
    requires Inv(w) && Possible(hub, b, w, schedule)
    decreases |schedule|
  {
    schedule == [] ||
      (!Uproots(w, schedule[0]) &&
        (StepKeepsInv(hub, b, w, schedule[0]); NeverUproots(hub, b, StepOf(hub, b, w, schedule[0]), schedule[1..])))
  }

  /** Under interleaving every call keeps every root exactly if no removal takes the parent of what stays. */
  lemma {:induction false} RootsKeptUnlessUprooted(hub: string, b: Backend, w: Shared, schedule: seq<Pid>)
    requires Inv(w) && Possible(hub, b, w, schedule) && AnswersOld(w)
    ensures RootsKeptThroughout(hub, b, w, schedule) <==> NeverUproots(hub, b, w, schedule)
    decreases |schedule|
  {
    hide StepOf, Descends, Distinct, KeepsIdentity, MadeOnce, Fresh, AnswersOld, Uproots, RootsKept;
    if schedule != [] {
      StepKeepsInv(hub, b, w, schedule[0]);
      StepRoots(hub, b, w, schedule[0]);
      StepKeepsOldAnswers(hub, b, w, schedule[0]);
      RootsKeptUnlessUprooted(hub, b, StepOf(hub, b, w, schedule[0]), schedule[1..]);
    }
  }

  // ------------------------------------------------------------ message by message

  /**
   `after` holds some of the old messages, unchanged, and no message answered before, stored or not,
   that was not stored before.
   */
  ghost predicate Outlived(before: Messages, after: Messages)
  {
    && (forall id | id in before && id in after :: after[id] == before[id])
    && forall id | id in before && before[id].inReplyTo.Some? && before[id].inReplyTo.value in after ::
         before[id].inReplyTo.value in before
  }

  /** Everything the walk from `id` passes is stored in `after`. */
  ghost predicate WalkStays(before: Messages, after: Messages, id: Id)
  {
    forall n: nat :: Hop(ParentGraph(before), id, n).Some? ==> Hop(ParentGraph(before), id, n).value in after
  }

  /** Along what is stored at both ends, one graph's hops are the other's. */
  lemma {:induction false} HopsOutlive(before: Messages, after: Messages, id: Id, n: nat)
    requires Outlived(before, after) && id in before && id in after && Hop(ParentGraph(after), id, n).Some?
    ensures Hop(ParentGraph(before), id, n) == Hop(ParentGraph(after), id, n)
    decreases n
  {
    if n > 0 { HopsOutlive(before, after, ParentGraph(after)[id], n - 1); }
  }

  lemma {:induction false} StayingWalkEndsAlike(before: Messages, after: Messages, id: Id, n: nat)
    requires Outlived(before, after) && Acyclic(ParentGraph(after))
    requires Hop(ParentGraph(before), id, n) == Some(RootOf(before, id)) && RootOf(before, id) !in ParentGraph(before)
    requires id in before && RootOf(before, id) in before
    requires forall k: nat | k <= n ::
      Hop(ParentGraph(before), id, k).Some? && Hop(ParentGraph(before), id, k).value in after
    ensures RootOf(after, id) == RootOf(before, id)
    decreases n
  {
    var g, h := ParentGraph(before), ParentGraph(after);
    assert Hop(g, id, 0) == Some(id);
    if n == 0 {
      OwnRoot(h, id);
    } else {
      var parent := g[id];
      assert Hop(g, id, 1) == Hop(g, parent, 0) == Some(parent);
      assert h[id] == parent;
      RootOfSuccessor(h, id);
      RootPassesOn(g, id);
      forall k: nat | k <= n - 1
        ensures Hop(g, parent, k).Some? && Hop(g, parent, k).value in after
      {
        assert Hop(g, id, k + 1) == Hop(g, parent, k);
      }
      StayingWalkEndsAlike(before, after, parent, n - 1);
    }
  }

  /** A message keeps its root exactly if everything on the way there is still stored. */
  lemma RootStaysWithItsWalk(before: Messages, after: Messages, id: Id)
    requires Outlived(before, after) && Acyclic(ParentGraph(before)) && Acyclic(ParentGraph(after))
    requires id in before && id in after
    ensures RootOf(after, id) == RootOf(before, id) <==> WalkStays(before, after, id)
  {
    var g, h := ParentGraph(before), ParentGraph(after);
    AcyclicRootIsAnEnd(g, id);
    Threads.RootIsStored(before, id);
    if RootOf(after, id) == RootOf(before, id) {
      RootIsLed(h, id);
      var k: nat :| Hop(h, id, k) == Some(RootOf(after, id));
      forall n: nat | Hop(g, id, n).Some?
        ensures Hop(g, id, n).value in after
      {
        HopsOutlive(before, after, id, k);
        if n > k { EndsThere(g, id, k, n); }
        EarlierHops(h, id, n, k);
        HopsOutlive(before, after, id, n);
        Threads.StoredIsClosed(after);
        ClosedHolds(h, after.Keys, id, n);
      }
    } else if WalkStays(before, after, id) {
      RootIsLed(g, id);
      var n: nat :| Hop(g, id, n) == Some(RootOf(before, id));
      forall k: nat | k <= n ensures Hop(g, id, k).Some? { EarlierHops(g, id, k, n); }
      StayingWalkEndsAlike(before, after, id, n);
      assert false;
    }
  }

  lemma EndsThere(g: Graph, a: Node, k: nat, n: nat)
    requires k < n && Hop(g, a, k).Some? && Hop(g, a, k).value !in g
    ensures Hop(g, a, n) == None
  {
    HopsAdd(g, a, k, n - k);
  }

  /** What has been stored once is, whenever it is stored, as it was. */
  lemma {:induction false} OldThroughout(hub: string, b: Backend, w: Shared, schedule: seq<Pid>, id: Id)
    requires Inv(w) && Possible(hub, b, w, schedule) && Old(w, id)
    ensures var e := Outcome(hub, b, w, schedule);
      id in e.store.messages ==> id in w.store.messages && e.store.messages[id] == w.store.messages[id]
    decreases |schedule|
  {
    hide StepOf, Descends, Distinct, KeepsIdentity, MadeOnce, Fresh, Old;
    if schedule != [] {
      StepKeepsInv(hub, b, w, schedule[0]);
      OldStays(hub, b, w, schedule[0], id);
      StepBringsNothingBack(hub, b, w, schedule[0], id);
      OldThroughout(hub, b, StepOf(hub, b, w, schedule[0]), schedule[1..], id);
    }
  }

  lemma StepBringsNothingBack(hub: string, b: Backend, w: Shared, pid: Pid, id: Id)
    requires Inv(w) && MayStep(w, pid) && Fresh(hub, w, pid) && Old(w, id)
    ensures var e := StepOf(hub, b, w, pid);
      id in e.store.messages ==> id in w.store.messages && e.store.messages[id] == w.store.messages[id]
  {
    hide Resume, AnswerTo, After, CallOf, Descends, Distinct, KeepsIdentity, MadeOnce;
    CallsKeepMessages(b, w.store, w.running[pid]);
  }

  /**
   Whatever interleaves, a message stored at both ends of a schedule keeps its root exactly if
   everything its walk passed at the beginning is stored at the end.
   */
  lemma RootsFollowTheirWalks(hub: string, b: Backend, w: Shared, schedule: seq<Pid>, id: Id)
    requires Inv(w) && Possible(hub, b, w, schedule) && AnswersOld(w)
    requires id in w.store.messages && id in Outcome(hub, b, w, schedule).store.messages
    ensures var before, after := w.store.messages, Outcome(hub, b, w, schedule).store.messages;
      && after[id] == before[id]
      && (RootOf(after, id) == RootOf(before, id) <==> WalkStays(before, after, id))
  {
    hide Descends, Distinct, KeepsIdentity, MadeOnce, Fresh, Old, Possible, RootOf, ParentGraph, Acyclic, WalkStays;
    var e := Outcome(hub, b, w, schedule);
    forall x | x in w.store.messages ensures Old(w, x) { StoredIsOld(w, x); }
    forall x | Old(w, x)
      ensures x in e.store.messages ==> x in w.store.messages && e.store.messages[x] == w.store.messages[x]
    {
      OldThroughout(hub, b, w, schedule, x);
    }
    ReachableGraphsAreAcyclic(w);
    ReachableGraphsAreAcyclic(e);
    RootStaysWithItsWalk(w.store.messages, e.store.messages, id);
  }

  // ------------------------------------------------------------ which removals uproot

  /**
   An expiry takes the parent of a stored message that stays exactly if a message stored since its
   listing answers one of those it removes.
   */
  lemma ExpiryUprootsTheUnlisted(hub: string, b: Backend, w: Shared, expirer: Pid, cutoff: Time, schedule: seq<Pid>)
    requires Inv(w) && expirer in w.running && w.running[expirer] == ExpireListing(cutoff)
    requires Possible(hub, b, w, [expirer] + schedule) && expirer !in schedule
    requires Threads.Expired(w.store.messages, cutoff) != {}
    ensures var listed := w.store.messages;
      var ids := Threads.Expired(listed, cutoff);
      var u := Outcome(hub, b, w, [expirer] + schedule);
      && expirer in u.running && u.running[expirer] == ExpireRemoving(ids)
      && (Uproots(u, expirer) <==>
            exists id :: id in u.store.messages && id !in listed && AnswersAmong(u.store.messages, id, ids))
  {
    hide Descends, Distinct, KeepsIdentity, MadeOnce, Threads.Expired, Fresh, StepOf, Uproots, Since, AnswersAmong;
    assert ([expirer] + schedule)[1..] == schedule;
    ListingStep(hub, b, w, expirer, cutoff);
    StepKeepsInv(hub, b, w, expirer);
    var v := StepOf(hub, b, w, expirer);
    SinceThroughout(hub, b, v, schedule, w.store.messages, expirer);
    ReachableGraphsAreAcyclic(w);
    UprootedAreUnlisted(w.store.messages, cutoff, Outcome(hub, b, v, schedule), expirer);
  }

  /** The message answers one of `ids` that is stored. */
  ghost predicate AnswersAmong(m: Messages, id: Id, ids: set<Id>)
  {
    id in m && m[id].inReplyTo.Some? && m[id].inReplyTo.value in m && m[id].inReplyTo.value in ids
  }

  lemma UprootedAreUnlisted(listed: Messages, cutoff: Time, u: Shared, expirer: Pid)
    requires Inv(u) && Since(listed, u) && Acyclic(ParentGraph(listed))
    requires expirer in u.running && u.running[expirer] == ExpireRemoving(Threads.Expired(listed, cutoff))
    ensures Uproots(u, expirer) <==>
      exists id :: id in u.store.messages && id !in listed
                   && AnswersAmong(u.store.messages, id, Threads.Expired(listed, cutoff))
  {
    hide Inv, Acyclic, ParentGraph, Threads.Expired;
    var m, ids := u.store.messages, Threads.Expired(listed, cutoff);
    Threads.ExpiredIsStored(listed, cutoff);
    forall id | AnswersAmong(m, id, ids)
      ensures id !in ids <==> id !in listed
    {
      if id in listed { ExpiredTogether(listed, cutoff, id); }
    }
    assert Uproots(u, expirer) <==> exists id :: id in m && id !in ids && AnswersAmong(m, id, ids);
  }
}
