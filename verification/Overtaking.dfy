/**
 What interleaving costs. Over every store with a visible message in an idle thread there are
 schedules of one reply, or one read, and one expiry that leave a reply without its parent, move a
 stored message to another root, make a reply start a thread of its own, or leave a read mark
 without its message.
 */
module Overtaking {
  import opened Outcomes
  import opened Records
  import opened Rules
  import opened StorePort
  import opened Engine
  import opened Processes
  import opened Interleaving
  import opened FunctionalGraph
  import opened Stepping
  import Addressing
  import Ordering
  import Delivery
  import Naming
  import Runs
  import Threads
  import Grounding

  // ------------------------------------------------------------ a reply against an expiry

  /**
   A reply to a visible message of an idle thread and an expiry of that thread, both still at their
   beginning, over a store as whole operations leave it. Other operations may be under way.
   */
  ghost predicate Race(cfg: Config, w: Shared, used: set<Id>, replier: Pid, expirer: Pid, r: Request, cutoff: Time)
  {
    && Inv(w) && Runs.Inv(cfg.hub, Runs.World(w.store, used))
    && replier in w.running && expirer in w.running && replier != expirer
    && r.Reply? && w.running[replier] == Start(cfg, r) && r.id !in w.issued
    && w.running[expirer] == Start(cfg, Expire(Some(cutoff)))
    && Visible(cfg.hub, w.store, r.caller, r.objectId).Ok?
    && r.objectId in Threads.Expired(w.store.messages, cutoff)
  }

  /** The reply that is made. */
  lemma RaceReply(cfg: Config, w: Shared, used: set<Id>, replier: Pid, expirer: Pid, r: Request, cutoff: Time)
    returns (o: Message)
    requires Race(cfg, w, used, replier, expirer, r, cutoff)
    ensures ComposeReply(cfg.hub, w.store, r.caller, r.objectId, r.body, r.subject, r.id, r.now) == Ok(o)
    ensures o.id == r.id && o.inReplyTo == Some(r.objectId)
    ensures r.id !in w.store.messages && r.objectId in w.store.messages
  {
    hide Start, Threads.Expired, ComposeReply, Visible, Descends, Distinct, KeepsIdentity, MadeOnce;
    Delivery.ReplyAnswersItsSender(cfg.hub, Runs.World(w.store, used), r.caller, r.objectId, r.body, r.subject,
      r.id, r.now);
    o := ComposeReply(cfg.hub, w.store, r.caller, r.objectId, r.body, r.subject, r.id, r.now).value;
    ReplyHasItsId(cfg.hub, w.store, r);
    Threads.ExpiredIsStored(w.store.messages, cutoff);
    if r.id in w.store.messages { StoredIsIssued(w, r.id); }
  }

  lemma ReplyHasItsId(hub: string, s: Store, r: Request)
    requires r.Reply? && ComposeReply(hub, s, r.caller, r.objectId, r.body, r.subject, r.id, r.now).Ok?
    ensures ComposeReply(hub, s, r.caller, r.objectId, r.body, r.subject, r.id, r.now).value.id == r.id
  {
    hide Visible, RequireActor, LocalNames, Attached, Resolve, Ordering.SortNames, ContextOf, Known, ReplyDraft;
  }

  /** The reply has seen its parent; the expiry runs; the reply is stored, and its parent is gone. */
  lemma ExpiryCanOvertakeAReply(cfg: Config, b: Backend, w: Shared, used: set<Id>, replier: Pid, expirer: Pid,
                                r: Request, cutoff: Time)
    requires Race(cfg, w, used, replier, expirer, r, cutoff)
    ensures var schedule := Thrice(replier) + Thrice(replier) + [expirer, expirer] + [replier];
      Possible(cfg.hub, b, w, schedule) &&
      var m := Outcome(cfg.hub, b, w, schedule).store.messages;
      r.id in m && m[r.id].inReplyTo == Some(r.objectId) && r.objectId !in m
  {
    hide Start, Inv, Runs.Inv, LeadsTo, ComposeReply, Visible, Threads.Expired;
    var o := RaceReply(cfg, w, used, replier, expirer, r, cutoff);
    var ids := Threads.Expired(w.store.messages, cutoff);
    ReplyMakes(cfg, b, w, replier, r, o);
    var v := w.(issued := w.issued + [o.id], running := w.running[replier := SendStoring(o)]);
    var u := ExpiryRuns(cfg, b, v, expirer, cutoff);
    SchedulesJoin(cfg.hub, b, w, Thrice(replier) + Thrice(replier), v, [expirer, expirer], u);
    LeadsToInv(cfg.hub, b, v, [expirer, expirer], u);
    StoreStep(cfg.hub, b, u, replier, o);
    var e := u.(store := u.store.(messages := u.store.messages[o.id := o]),
                running := u.running[replier := Finished(Note(o))]);
    SchedulesJoin(cfg.hub, b, w, Thrice(replier) + Thrice(replier) + [expirer, expirer], u, [replier], e);
    LeadsToOutcome(cfg.hub, b, w, Thrice(replier) + Thrice(replier) + [expirer, expirer] + [replier], e);
  }

  /**
   The expiry has listed the store; the reply runs; the expiry removes its parent. What is left of
   the thread is the reply, now dangling, under another root than before.
   */
  lemma ReplyCanOvertakeAnExpiry(cfg: Config, b: Backend, w: Shared, used: set<Id>, replier: Pid, expirer: Pid,
                                 r: Request, cutoff: Time)
    requires Race(cfg, w, used, replier, expirer, r, cutoff)
    ensures var schedule := [expirer] + (Thrice(replier) + Thrice(replier)) + [replier];
      && Possible(cfg.hub, b, w, schedule) && Possible(cfg.hub, b, w, schedule + [expirer])
      && var before := Outcome(cfg.hub, b, w, schedule).store.messages;
         var after := Outcome(cfg.hub, b, w, schedule + [expirer]).store.messages;
         && r.id in before && r.id in after && before[r.id] == after[r.id]
         && after[r.id].inReplyTo == Some(r.objectId) && r.objectId !in after
         && RootOf(before, r.id) == RootOf(before, r.objectId) != r.id && RootOf(after, r.id) == r.id
  {
    hide Start, Inv, Runs.Inv, LeadsTo, ComposeReply, Visible, Threads.Expired, RootOf, Race;
    var o := RaceReply(cfg, w, used, replier, expirer, r, cutoff);
    var m, ids := w.store.messages, Threads.Expired(w.store.messages, cutoff);
    RaceBegins(cfg, w, used, replier, expirer, r, cutoff);
    ListStep(cfg.hub, b, w, expirer, cutoff);
    var v := w.(running := w.running[expirer := ExpireRemoving(ids)]);
    LeadsToInv(cfg.hub, b, w, [expirer], v);
    ReplyMakes(cfg, b, v, replier, r, o);
    var six := Thrice(replier) + Thrice(replier);
    var x := v.(issued := v.issued + [o.id], running := v.running[replier := SendStoring(o)]);
    SchedulesJoin(cfg.hub, b, w, [expirer], v, six, x);
    LeadsToInv(cfg.hub, b, v, six, x);
    StoreStep(cfg.hub, b, x, replier, o);
    var u := x.(store := x.store.(messages := m[o.id := o]), running := x.running[replier := Finished(Note(o))]);
    SchedulesJoin(cfg.hub, b, w, [expirer] + six, x, [replier], u);
    LeadsToInv(cfg.hub, b, x, [replier], u);
    RemoveStep(cfg.hub, b, u, expirer, ids);
    var e := u.(store := RemoveFrom(u.store, ids),
                running := u.running[expirer := Finished(Count(|ids * u.store.messages.Keys|))]);
    SchedulesJoin(cfg.hub, b, w, [expirer] + six + [replier], u, [expirer], e);
    LeadsToOutcome(cfg.hub, b, w, [expirer] + six + [replier], u);
    LeadsToOutcome(cfg.hub, b, w, [expirer] + six + [replier] + [expirer], e);
    RootMoves(cfg.hub, Runs.World(w.store, used), o, r.objectId, cutoff);
  }

  /**
   The reply has seen its parent; the expiry runs; the reply looks for its parent again, silently
   starts a thread of its own, and answers as if it had been sent as asked.
   */
  lemma ReplyCanLoseItsThread(cfg: Config, b: Backend, w: Shared, used: set<Id>, replier: Pid, expirer: Pid,
                              r: Request, cutoff: Time)
    requires Race(cfg, w, used, replier, expirer, r, cutoff)
    ensures var schedule := Thrice(replier) + [expirer, expirer] + Thrice(replier) + [replier];
      Possible(cfg.hub, b, w, schedule) &&
      var e := Outcome(cfg.hub, b, w, schedule);
      && r.id in e.store.messages && e.store.messages[r.id].inReplyTo == None
      && RootOf(e.store.messages, r.id) == r.id
      && replier in e.running && e.running[replier] == Finished(Note(e.store.messages[r.id]))
  {
    hide Start, Inv, Runs.Inv, LeadsTo, ComposeReply, Visible, Threads.Expired, LocalNames, Known, ContextOf,
      ReplyDraft, Addressing.LocalName, Sending, RootOf, ContextIn;
    var o := RaceReply(cfg, w, used, replier, expirer, r, cutoff);
    KeyedStore(w);
    ReplyIsSent(cfg.hub, w.store, r);
    SendingIsReply(cfg.hub, w.store, r);
    var d := ReplyDraft(r.caller, Visible(cfg.hub, w.store, r.caller, r.objectId).value, r.body, r.subject);
    var me := Addressing.LocalName(r.caller, cfg.hub).value;
    ReplySees(cfg, b, w, replier, r);
    var v := w.(running := w.running[replier := SendFetching(me, d, r.id, r.now)]);
    var u := ExpiryRuns(cfg, b, v, expirer, cutoff);
    SchedulesJoin(cfg.hub, b, w, Thrice(replier), v, [expirer, expirer], u);
    LeadsToInv(cfg.hub, b, v, [expirer, expirer], u);
    SameDirectory(w.store, u.store);
    SendMakes(cfg.hub, b, u, replier, me, d, r.id, r.now);
    var o' := Sending(cfg.hub, u.store, me, d, r.id, r.now);
    SendingHasItsId(cfg.hub, u.store, me, d, r.id, r.now);
    SendingIsAnswer(cfg.hub, w.store, r);
    var x := u.(issued := u.issued + [r.id], running := u.running[replier := SendStoring(o')]);
    SchedulesJoin(cfg.hub, b, w, Thrice(replier) + [expirer, expirer], u, Thrice(replier), x);
    LeadsToInv(cfg.hub, b, u, Thrice(replier), x);
    StoreStep(cfg.hub, b, x, replier, o');
    var e := x.(store := x.store.(messages := x.store.messages[o'.id := o']),
                running := x.running[replier := Finished(Note(o'))]);
    SchedulesJoin(cfg.hub, b, w, Thrice(replier) + [expirer, expirer] + Thrice(replier), x, [replier], e);
    LeadsToOutcome(cfg.hub, b, w, Thrice(replier) + [expirer, expirer] + Thrice(replier) + [replier], e);
    OrphanIsItsRoot(e.store.messages, o');
  }

  lemma SameDirectory(s: Store, t: Store)
    requires s.actors == t.actors
    ensures ContextIn(s) == ContextIn(t)
  {
  }

  lemma SendingIsAnswer(hub: string, s: Store, r: Request)
    requires s.WellKeyed() && r.Reply? && Visible(hub, s, r.caller, r.objectId).Ok?
    ensures ReplyDraft(r.caller, Visible(hub, s, r.caller, r.objectId).value, r.body, r.subject).inReplyTo ==
      Some(r.objectId)
  {
    hide IsParty, ContextOf, Addressing.LocalName;
  }

  lemma RaceBegins(cfg: Config, w: Shared, used: set<Id>, replier: Pid, expirer: Pid, r: Request, cutoff: Time)
    requires Race(cfg, w, used, replier, expirer, r, cutoff)
    ensures Inv(w) && Runs.Inv(cfg.hub, Runs.World(w.store, used))
    ensures r.Reply? && r.id !in w.issued && replier != expirer
    ensures replier in w.running && w.running[replier] == Start(cfg, r)
    ensures expirer in w.running && w.running[expirer] == ExpireListing(cutoff)
    ensures r.objectId in Threads.Expired(w.store.messages, cutoff)
  {
    hide Inv, Runs.Inv, Threads.Expired, Visible, Addressing.LocalName;
  }

  lemma RootMoves(hub: string, v: Runs.World, o: Message, parent: Id, cutoff: Time)
    requires Runs.Inv(hub, v) && o.id !in v.store.messages && o.inReplyTo == Some(parent) && parent in v.store.messages
    requires parent in Threads.Expired(v.store.messages, cutoff)
    ensures var before := v.store.messages[o.id := o];
      var after := before - Threads.Expired(v.store.messages, cutoff);
      && o.id in after && parent !in after
      && RootOf(before, o.id) == RootOf(before, parent) != o.id && RootOf(after, o.id) == o.id
  {
    hide Threads.Expired, Runs.WellAddressed, Runs.ReadsBack, RootOf;
    var m := v.store.messages;
    var after := m[o.id := o] - Threads.Expired(m, cutoff);
    Threads.ExpiredIsStored(m, cutoff);
    Threads.AddingKeepsThreads(m, o);
    Threads.RootIsStored(m, parent);
    OrphanIsItsRoot(after, o);
  }

  lemma OrphanIsItsRoot(m: Messages, o: Message)
    requires o.id in m && m[o.id] == o && (o.inReplyTo.Some? ==> o.inReplyTo.value !in m)
    ensures RootOf(m, o.id) == o.id
  {
    OwnRoot(ParentGraph(m), o.id);
  }

  // ------------------------------------------------------------ every store has such a race

  /** An unplaced message whose parent, if any, is placed. */
  lemma {:induction false} NextToPlace(m: Messages, placed: seq<Id>, id: Id, n: nat) returns (next: Id)
    requires Threads.NoDangling(m) && Acyclic(ParentGraph(m)) && id in m && id !in placed
    requires Hop(ParentGraph(m), id, n) == Some(RootOf(m, id))
    ensures next in m && next !in placed && (m[next].inReplyTo.Some? ==> m[next].inReplyTo.value in placed)
    decreases n
  {
    var g := ParentGraph(m);
    if m[id].inReplyTo.None? || m[id].inReplyTo.value in placed {
      next := id;
    } else {
      assert id in g;
      AcyclicRootIsAnEnd(g, id);
      RootOfSuccessor(g, id);
      next := NextToPlace(m, placed, g[id], n - 1);
    }
  }

  /** Where no parent is missing and no walk is circular, the messages can have been made one after another. */
  lemma {:induction false} AgeOrder(m: Messages, placed: seq<Id>) returns (issued: seq<Id>)
    requires Threads.NoDangling(m) && Acyclic(ParentGraph(m)) && Keyed(m)
    requires Distinct(placed) && forall id | id in placed :: id in m && Descends(placed, m[id])
    ensures Distinct(issued) && forall id :: id in issued <==> id in m
    ensures forall id | id in m :: Descends(issued, m[id])
    decreases m.Keys - set id | id in placed
  {
    hide Acyclic, ParentGraph, Descends;
    if forall id | id in m :: id in placed {
      issued := placed;
    } else {
      var id :| id in m && id !in placed;
      RootIsLed(ParentGraph(m), id);
      var n: nat :| Hop(ParentGraph(m), id, n) == Some(RootOf(m, id));
      var next := NextToPlace(m, placed, id, n);
      NewestDescends(placed, m[next]);
      forall x | x in placed ensures Descends(placed + [next], m[x]) { IssuedGrows(placed, next, m[x]); }
      assert next in m.Keys - (set x | x in placed);
      assert (set x | x in placed + [next]) == (set x | x in placed) + {next};
      issued := AgeOrder(m, placed + [next]);
    }
  }

  /** Over every store that whole operations leave, a reply in an idle thread and an expiry can race. */
  lemma EveryStoreHasARace(cfg: Config, v: Runs.World, r: Request, cutoff: Time) returns (w: Shared)
    requires Runs.Inv(cfg.hub, v) && r.Reply? && r.id !in v.used
    requires Visible(cfg.hub, v.store, r.caller, r.objectId).Ok?
    requires r.objectId in Threads.Expired(v.store.messages, cutoff)
    ensures w.store == v.store && w.running == map[0 := Start(cfg, r), 1 := Start(cfg, Expire(Some(cutoff)))]
    ensures Race(cfg, w, v.used, 0, 1, r, cutoff)
  {
    hide Visible, Threads.Expired, Runs.WellAddressed, Runs.ReadsBack, Start, Ready, Acyclic, ParentGraph, Descends;
    var issued := AgeOrder(v.store.messages, []);
    w := Shared(v.store, issued, map[], map[0 := Start(cfg, r), 1 := Start(cfg, Expire(Some(cutoff)))]);
    StartIsReady(cfg, r);
    StartIsReady(cfg, Expire(Some(cutoff)));
  }

  /** Two actors, and one message from the first to the second. */
  function Letter(a: Name, b: Name): Store
  {
    var o := Message("1", a, [b], [], None, None, "", "", map[]);
    Store(map[a := NewActor(a, NO_PROFILE, ""), b := NewActor(b, NO_PROFILE, "")], map["1" := o], map[])
  }

  lemma NoGroups(a: Name, b: Name)
    requires a != b
    ensures ContextIn(Letter(a, b)) == Context({a, b}, map[])
  {
    var actors := Letter(a, b).ActorSet();
    assert Letter(a, b).actors[a] in actors && Letter(a, b).actors[b] in actors;
    assert GroupNames(actors) == {};
  }

  lemma LetterIsVisible(hub: string, a: Name, b: Name)
    requires a != b && b != Naming.EVERYONE && Runs.ReadsBack(hub, b)
    ensures Visible(hub, Letter(a, b), b, "1").Ok?
  {
    hide Addressing.LocalName, ContextIn, Resolve;
    NoGroups(a, b);
    LetterReaches(a, b);
  }

  lemma LetterReaches(a: Name, b: Name)
    requires a != b && b != Naming.EVERYONE
    ensures IsParty(Letter(a, b).messages["1"], b, Context({a, b}, map[]))
  {
    hide Resolve;
    ResolveOne(b, Context({a, b}, map[]));
    assert Letter(a, b).messages["1"].Audience() == {b};
  }

  lemma LetterIsIdle(a: Name, b: Name, cutoff: Time)
    requires cutoff != ""
    ensures "1" in Threads.Expired(Letter(a, b).messages, cutoff)
  {
    OrphanIsItsRoot(Letter(a, b).messages, Letter(a, b).messages["1"]);
  }

  lemma LetterIsWhole(hub: string, a: Name, b: Name)
    requires a != b && a != Naming.EVERYONE && b != Naming.EVERYONE && Runs.ReadsBack(hub, a)
    ensures Runs.Inv(hub, Runs.World(Letter(a, b), {"1"}))
  {
    hide Runs.ReadsBack;
    var m := Letter(a, b).messages;
    assert ParentGraph(m) == map[];
    assert m["1"].Audience() == {b};
  }

  /** Two actors and one unanswered message are enough for a race. */
  lemma RacesHappen(cfg: Config, a: Name, b: Name, cutoff: Time) returns (w: Shared, r: Request)
    requires Addressing.Half(a) && Addressing.Half(b) && a != b
    requires a != Naming.EVERYONE && b != Naming.EVERYONE && cutoff != ""
    ensures Race(cfg, w, {"1"}, 0, 1, r, cutoff)
  {
    hide Addressing.Half, Addressing.LocalName, Runs.Inv, Visible, Threads.Expired, Race, Letter;
    HalfReadsBack(cfg.hub, a);
    HalfReadsBack(cfg.hub, b);
    LetterIsWhole(cfg.hub, a, b);
    LetterIsVisible(cfg.hub, a, b);
    LetterIsIdle(a, b, cutoff);
    r := Reply(b, "1", "", None, "2", "");
    w := EveryStoreHasARace(cfg, Runs.World(Letter(a, b), {"1"}), r, cutoff);
  }

  lemma HalfReadsBack(hub: string, name: Name)
    requires Addressing.Half(name)
    ensures Runs.ReadsBack(hub, name)
  {
    hide Addressing.Parse;
    Addressing.ParseBare(name);
  }

  // ------------------------------------------------------------ a read against an expiry

  /** Over every store that whole operations leave, a read of a message in an idle thread and an expiry can race. */
  lemma EveryStoreHasAReadRace(cfg: Config, v: Runs.World, caller: string, objectId: Id, now: Time, cutoff: Time)
    returns (w: Shared)
    requires Runs.Inv(cfg.hub, v)
    ensures Inv(w) && w.store == v.store
    ensures w.running == map[0 := Start(cfg, Read(caller, objectId, now)), 1 := Start(cfg, Expire(Some(cutoff)))]
  {
    hide Runs.WellAddressed, Runs.ReadsBack, Start, Ready, Acyclic, ParentGraph, Descends;
    var issued := AgeOrder(v.store.messages, []);
    w := Shared(v.store, issued, map[],
      map[0 := Start(cfg, Read(caller, objectId, now)), 1 := Start(cfg, Expire(Some(cutoff)))]);
    StartIsReady(cfg, Read(caller, objectId, now));
    StartIsReady(cfg, Expire(Some(cutoff)));
  }

  lemma VisibleIsStored(hub: string, s: Store, caller: string, objectId: Id)
    requires Visible(hub, s, caller, objectId).Ok?
    ensures objectId in s.messages && Addressing.LocalName(caller, hub).Ok?
  {
    hide IsParty, ContextOf, Addressing.LocalName;
  }

  /** The read has seen the message; the expiry runs; the mark is made, and its message is gone. */
  lemma MarkCanOutliveItsMessage(cfg: Config, b: Backend, w: Shared, reader: Pid, expirer: Pid, caller: string,
                                 objectId: Id, now: Time, cutoff: Time)
    requires Inv(w) && reader in w.running && expirer in w.running && reader != expirer
    requires w.running[reader] == Start(cfg, Read(caller, objectId, now))
    requires w.running[expirer] == Start(cfg, Expire(Some(cutoff)))
    requires Visible(cfg.hub, w.store, caller, objectId).Ok? && objectId in Threads.Expired(w.store.messages, cutoff)
    ensures var schedule := Thrice(reader) + [reader] + [expirer, expirer] + [reader];
      Possible(cfg.hub, b, w, schedule) &&
      var e := Outcome(cfg.hub, b, w, schedule).store;
      (objectId, Addressing.LocalName(caller, cfg.hub).value) in e.marks && objectId !in e.messages
  {
    hide Start, Inv, LeadsTo, Visible, Threads.Expired, Addressing.LocalName;
    var before := Thrice(reader) + [reader];
    VisibleIsStored(cfg.hub, w.store, caller, objectId);
    ReadLooks(cfg, b, w, reader, caller, objectId, now);
    var o, me := w.store.messages[objectId], Addressing.LocalName(caller, cfg.hub).value;
    var mark := ReadMark(objectId, me, now);
    var v := w.(running := w.running[reader := Marking(o, mark)]);
    var u := ExpiryRuns(cfg, b, v, expirer, cutoff);
    SchedulesJoin(cfg.hub, b, w, before, v, [expirer, expirer], u);
    LeadsToInv(cfg.hub, b, v, [expirer, expirer], u);
    MarkStep(cfg.hub, b, u, reader, o, mark);
    var e := u.(store := Marked(u.store, mark.object_, mark.reader, mark.at),
                running := u.running[reader := Finished(Note(o))]);
    SchedulesJoin(cfg.hub, b, w, before + [expirer, expirer], u, [reader], e);
    LeadsToOutcome(cfg.hub, b, w, before + [expirer, expirer] + [reader], e);
  }
}
