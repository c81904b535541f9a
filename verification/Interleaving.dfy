/**
 Any number of operations over one store, their store calls interleaved in any order. What is
 proved here holds in every state any schedule reaches; nothing assumes an operation runs whole.
 */
module Interleaving {
  import opened Outcomes
  import opened Ordering
  import opened Records
  import opened Rules
  import opened StorePort
  import opened Engine
  import opened Processes
  import opened FunctionalGraph
  import Addressing

  type Pid = nat

  /**
   `issued` lists message ids in the order their messages were made; `won` remembers which
   operation's claim put each actor into the store.
   */
  datatype Shared = Shared(store: Store, issued: seq<Id>, won: map<Name, Pid>, running: map<Pid, Process>)

  predicate MayStep(w: Shared, pid: Pid)
  {
    pid in w.running && !w.running[pid].Finished?
  }

  /** The message an operation has made and not yet stored. */
  function Made(p: Process): Option<Message>
  {
    if p.SendStoring? then Some(p.message) else None
  }

  ghost function StepOf(hub: string, b: Backend, w: Shared, pid: Pid): Shared
    requires w.store.WellKeyed() && MayStep(w, pid) && Ready(w.running[pid])
  {
    var p := w.running[pid];
    var call := CallOf(p);
    var (s, q) := Advance(hub, b, w.store, p);
    Shared(s,
      if Made(q).Some? then w.issued + [Made(q).value.id] else w.issued,
      if call.ClaimName? && call.actor.name !in w.store.actors then w.won[call.actor.name := pid] else w.won,
      w.running[pid := q])
  }

  /** Message ids are unique identifiers: one just made was never made before. */
  ghost predicate Fresh(hub: string, w: Shared, pid: Pid)
    requires w.store.WellKeyed() && MayStep(w, pid) && Ready(w.running[pid])
  {
    var q := Resume(hub, w.running[pid], AnswerTo(w.store, CallOf(w.running[pid])));
    Made(q).Some? ==> Made(q).value.id !in w.issued
  }

  // ------------------------------------------------------------ the invariant

  /** `later` was issued after `earlier`. */
  ghost predicate IssuedAfter(issued: seq<Id>, later: Id, earlier: Id)
  {
    exists i, j :: 0 <= i < j < |issued| && issued[i] == earlier && issued[j] == later
  }

  /** A message has an issued id, and answers only a message issued before it. */
  ghost predicate Descends(issued: seq<Id>, o: Message)
  {
    o.id in issued && (o.inReplyTo.Some? ==> IssuedAfter(issued, o.id, o.inReplyTo.value))
  }

  ghost predicate Distinct(issued: seq<Id>)
  {
    forall i, j | 0 <= i < j < |issued| :: issued[i] != issued[j]
  }

  /** A message is stored once: one about to be stored is neither stored yet nor about to be by another operation. */
  ghost predicate MadeOnce(s: Store, running: map<Pid, Process>)
  {
    && (forall pid | pid in running && running[pid].SendStoring? :: running[pid].message.id !in s.messages)
    && (forall pid, other | pid in running && other in running && pid != other ::
         running[pid].SendStoring? && running[other].SendStoring? ==>
           running[pid].message.id != running[other].message.id)
  }

  /** An overwrite in flight carries the identity the store holds. */
  ghost predicate KeepsIdentity(s: Store, p: Process)
  {
    p.ProfilePutting? ==>
      p.actor.name in s.actors
      && p.actor.kind == s.actors[p.actor.name].kind && p.actor.created == s.actors[p.actor.name].created
  }

  ghost predicate Inv(w: Shared)
  {
    && w.store.WellKeyed()
    && Distinct(w.issued)
    && (forall id | id in w.store.messages :: Descends(w.issued, w.store.messages[id]))
    && (forall pid | pid in w.running :: w.running[pid].Finished? || Ready(w.running[pid]))
    && (forall pid | pid in w.running && w.running[pid].SendStoring? :: Descends(w.issued, w.running[pid].message))
    && (forall pid | pid in w.running :: KeepsIdentity(w.store, w.running[pid]))
    && MadeOnce(w.store, w.running)
  }

  /** An empty store and operations at their beginning. */
  ghost predicate Starts(cfg: Config, w: Shared, asked: map<Pid, Request>)
  {
    && w == Shared(EMPTY, [], map[], w.running)
    && w.running.Keys == asked.Keys
    && forall pid | pid in asked :: w.running[pid] == Start(cfg, asked[pid])
  }

  lemma StartIsReady(cfg: Config, r: Request)
    ensures var p := Start(cfg, r); (p.Finished? || Ready(p)) && !p.SendStoring? && !p.ProfilePutting?
  {
    hide Addressing.LocalName;
  }

  lemma StartsHold(cfg: Config, w: Shared, asked: map<Pid, Request>)
    requires Starts(cfg, w, asked)
    ensures Inv(w)
  {
    hide Start, Ready;
    forall pid | pid in asked { StartIsReady(cfg, asked[pid]); }
  }

  lemma IssuedGrows(issued: seq<Id>, id: Id, o: Message)
    requires Descends(issued, o)
    ensures Descends(issued + [id], o)
  {
    var more := issued + [id];
    if o.inReplyTo.Some? {
      var i, j :| 0 <= i < j < |issued| && issued[i] == o.inReplyTo.value && issued[j] == o.id;
      assert more[i] == o.inReplyTo.value && more[j] == o.id;
    }
  }

  lemma NewestDescends(issued: seq<Id>, o: Message)
    requires o.inReplyTo.Some? ==> o.inReplyTo.value in issued
    ensures Descends(issued + [o.id], o)
  {
    var more := issued + [o.id];
    assert more[|issued|] == o.id;
    if o.inReplyTo.Some? {
      var i :| 0 <= i < |issued| && issued[i] == o.inReplyTo.value;
      assert more[i] == o.inReplyTo.value;
    }
  }

  /** The only way to come to a message to store is to make one, on a parent just seen in the store. */
  lemma MadeOnStored(hub: string, s: Store, p: Process)
    requires s.WellKeyed() && Ready(p)
    ensures var q := Resume(hub, p, AnswerTo(s, CallOf(p)));
      q.SendStoring? && q.message.inReplyTo.Some? ==>
        q.message.inReplyTo.value in s.messages
  {
    hide Resume, AnswerTo, CallOf;
    if p.SendListing? {
      ListedParentIsStored(hub, s, p);
    } else if p.SendContext? {
      NoParentAskedFor(hub, p, AnswerTo(s, CallOf(p)));
    } else {
      OnlySendsMake(hub, p, AnswerTo(s, CallOf(p)));
    }
  }

  lemma OnlySendsMake(hub: string, p: Process, a: Answer)
    requires Ready(p) && !p.SendContext? && !p.SendListing?
    ensures !Resume(hub, p, a).SendStoring?
  {
    hide Addressing.LocalName, LocalNames, IsParty, ContextOf, IdleIds, Unread, VisibleTurns, ReplyDraft;
  }

  lemma NoParentAskedFor(hub: string, p: Process, a: Answer)
    requires Ready(p) && p.SendContext?
    ensures var q := Resume(hub, p, a); q.SendStoring? ==> q.message.inReplyTo.None?
  {
    hide ContextOf, Known, Resolve, SortNames;
  }

  lemma ListedParentIsStored(hub: string, s: Store, p: Process)
    requires s.WellKeyed() && p.SendListing?
    ensures var q := Resume(hub, p, AnswerTo(s, CallOf(p)));
      q.SendStoring? && q.message.inReplyTo.Some? ==> q.message.inReplyTo.value in s.messages
  {
    hide IsParty, Resolve, SortNames;
    if p.draft.inReplyTo.Some? {
      var found := First(Listing(s.messages), p.draft.inReplyTo.value);
      if found.Some? { assert found.value in s.messages.Values; }
    }
  }

  /** The only way to come to an overwrite is from the actor just fetched. */
  lemma PuttingWhatWasFetched(hub: string, s: Store, p: Process)
    requires s.WellKeyed() && Ready(p)
    ensures KeepsIdentity(s, Resume(hub, p, AnswerTo(s, CallOf(p))))
  {
    hide Addressing.LocalName, LocalNames, Addressed, IsParty, ContextOf, Known, IdleIds, Unread, VisibleTurns, MarksOf,
      Listing, MayAttachTo;
  }

  /** No call changes who an existing actor is, provided an overwrite carries its identity. */
  ghost predicate SameIdentities(s: Store, t: Store)
  {
    forall n | n in s.actors ::
      n in t.actors && t.actors[n].name == s.actors[n].name
      && t.actors[n].kind == s.actors[n].kind && t.actors[n].created == s.actors[n].created
  }

  lemma CallKeepsIdentities(b: Backend, s: Store, c: Call)
    requires s.WellKeyed()
    requires c.PutActor? ==>
      c.actor.name in s.actors
      && c.actor.kind == s.actors[c.actor.name].kind && c.actor.created == s.actors[c.actor.name].created
    ensures SameIdentities(s, After(b, s, c))
  {
  }

  lemma CallsKeepIdentities(b: Backend, s: Store, p: Process)
    requires s.WellKeyed() && Ready(p) && KeepsIdentity(s, p)
    ensures SameIdentities(s, After(b, s, CallOf(p)))
  {
    hide After, SameIdentities;
    CallKeepsIdentities(b, s, CallOf(p));
  }

  /** A call stores no message but the one an operation has made. */
  lemma CallsStoreWhatWasMade(b: Backend, s: Store, p: Process, id: Id)
    requires Ready(p) && id in After(b, s, CallOf(p)).messages
    ensures var after := After(b, s, CallOf(p)).messages;
      || (id in s.messages && after[id] == s.messages[id])
      || (p.SendStoring? && id == p.message.id && after[id] == p.message)
  {
  }

  /** What has been stored is not made again. */
  lemma StoringIsLast(hub: string, s: Store, p: Process)
    requires s.WellKeyed() && Ready(p) && p.SendStoring?
    ensures Resume(hub, p, AnswerTo(s, CallOf(p))).Finished?
  {
  }

  lemma StepKeepsMadeOnce(hub: string, b: Backend, w: Shared, pid: Pid)
    requires Inv(w) && MayStep(w, pid) && Fresh(hub, w, pid)
    ensures var next := StepOf(hub, b, w, pid); MadeOnce(next.store, next.running)
  {
    hide After, AnswerTo, Resume, CallOf;
    var p := w.running[pid];
    var next := StepOf(hub, b, w, pid);
    if p.SendStoring? { StoringIsLast(hub, w.store, p); }
    forall id | id in next.store.messages
      ensures id in w.store.messages || (p.SendStoring? && id == p.message.id)
    {
      CallsStoreWhatWasMade(b, w.store, p, id);
    }
  }

  lemma StepKeepsInv(hub: string, b: Backend, w: Shared, pid: Pid)
    requires Inv(w) && MayStep(w, pid) && Fresh(hub, w, pid)
    ensures Inv(StepOf(hub, b, w, pid))
    ensures SameIdentities(w.store, StepOf(hub, b, w, pid).store)
  {
    hide After, AnswerTo, Resume, CallOf, Descends, MadeOnce;
    var p := w.running[pid];
    var next := StepOf(hub, b, w, pid);
    var a := AnswerTo(w.store, CallOf(p));
    var q := Resume(hub, p, a);
    ResumeProgresses(hub, p, a);
    AfterKeepsKeys(b, w.store, CallOf(p));
    MadeOnStored(hub, w.store, p);
    PuttingWhatWasFetched(hub, w.store, p);
    StepKeepsMadeOnce(hub, b, w, pid);
    CallsKeepIdentities(b, w.store, p);
    if q.SendStoring? {
      var o := q.message;
      if o.inReplyTo.Some? { StoredIsIssued(w, o.inReplyTo.value); }
      NewestDescends(w.issued, o);
    }
    forall o | Descends(w.issued, o) ensures Descends(next.issued, o) {
      if q.SendStoring? { IssuedGrows(w.issued, q.message.id, o); }
    }
    forall id | id in next.store.messages ensures Descends(next.issued, next.store.messages[id]) {
      CallsStoreWhatWasMade(b, w.store, p, id);
    }
  }

  lemma StoredIsIssued(w: Shared, id: Id)
    requires Inv(w) && id in w.store.messages
    ensures id in w.issued
  {
  }

  // ------------------------------------------------------------ schedules

  ghost predicate Possible(hub: string, b: Backend, w: Shared, schedule: seq<Pid>)
    requires Inv(w)
    decreases |schedule|
  {
    schedule == [] ||
      (MayStep(w, schedule[0]) && Fresh(hub, w, schedule[0]) &&
       (StepKeepsInv(hub, b, w, schedule[0]);
        Possible(hub, b, StepOf(hub, b, w, schedule[0]), schedule[1..])))
  }

  ghost function Outcome(hub: string, b: Backend, w: Shared, schedule: seq<Pid>): (e: Shared)
    requires Inv(w) && Possible(hub, b, w, schedule)
    ensures Inv(e) && SameIdentities(w.store, e.store)
    decreases |schedule|
  {
    if schedule == [] then w else
      StepKeepsInv(hub, b, w, schedule[0]);
      Outcome(hub, b, StepOf(hub, b, w, schedule[0]), schedule[1..])
  }

  /** The schedule is possible and comes to `e`. */
  ghost predicate LeadsTo(hub: string, b: Backend, w: Shared, schedule: seq<Pid>, e: Shared)
  {
    Inv(w) && Possible(hub, b, w, schedule) && Outcome(hub, b, w, schedule) == e
  }

  /** One schedule after another. */
  lemma {:induction false} SchedulesJoin(hub: string, b: Backend, w: Shared, first: seq<Pid>, v: Shared,
                                         rest: seq<Pid>, e: Shared)
    requires LeadsTo(hub, b, w, first, v) && LeadsTo(hub, b, v, rest, e)
    ensures LeadsTo(hub, b, w, first + rest, e)
    decreases |first|
  {
    hide Descends, Distinct, KeepsIdentity, MadeOnce, StepOf, Fresh;
    if first == [] {
      assert first + rest == rest;
    } else {
      StepKeepsInv(hub, b, w, first[0]);
      assert (first + rest)[1..] == first[1..] + rest;
      SchedulesJoin(hub, b, StepOf(hub, b, w, first[0]), first[1..], v, rest, e);
    }
  }

  lemma OneStepLeads(hub: string, b: Backend, w: Shared, pid: Pid)
    requires Inv(w) && MayStep(w, pid) && Fresh(hub, w, pid)
    ensures LeadsTo(hub, b, w, [pid], StepOf(hub, b, w, pid))
  {
    hide Descends, Distinct, KeepsIdentity, MadeOnce, StepOf, Fresh;
    StepKeepsInv(hub, b, w, pid);
    var v := StepOf(hub, b, w, pid);
    assert [pid][1..] == [];
    assert Possible(hub, b, v, []) && Outcome(hub, b, v, []) == v;
  }

  /** Once an actor exists its name, type and creation time never change, under any schedule. */
  lemma IdentityIsPermanent(hub: string, b: Backend, w: Shared, schedule: seq<Pid>, n: Name)
    requires Inv(w) && Possible(hub, b, w, schedule) && n in w.store.actors
    ensures var e := Outcome(hub, b, w, schedule).store.actors;
      n in e && e[n].name == n && e[n].kind == w.store.actors[n].kind && e[n].created == w.store.actors[n].created
  {
    hide Descends, Ready, Possible;
    var e := Outcome(hub, b, w, schedule);
  }

  // ------------------------------------------------------------ parents are older

  function IndexOf(issued: seq<Id>, id: Id): (i: nat)
    requires id in issued
    ensures i < |issued| && issued[i] == id
  {
    if issued[0] == id then 0 else 1 + IndexOf(issued[1..], id)
  }

  lemma OnlyIndex(issued: seq<Id>, i: nat)
    requires Distinct(issued) && i < |issued|
    ensures IndexOf(issued, issued[i]) == i
  {
  }

  lemma ParentIsOlder(w: Shared, id: Id)
    requires Inv(w) && id in ParentGraph(w.store.messages)
    ensures var p := ParentGraph(w.store.messages)[id];
      id in w.issued && p in w.issued && IndexOf(w.issued, p) < IndexOf(w.issued, id)
  {
    hide Ready, KeepsIdentity, Distinct;
    var o := w.store.messages[id];
    assert Descends(w.issued, o) && o.id == id;
    var i, j :| 0 <= i < j < |w.issued| && w.issued[i] == o.inReplyTo.value && w.issued[j] == o.id;
    OnlyIndex(w.issued, i);
    OnlyIndex(w.issued, j);
  }

  lemma {:induction false} AncestorsAreOlder(w: Shared, id: Id, n: nat)
    requires Inv(w) && id in w.store.messages && Hop(ParentGraph(w.store.messages), id, n).Some?
    ensures var a := Hop(ParentGraph(w.store.messages), id, n).value;
      id in w.issued && a in w.issued && IndexOf(w.issued, a) + n <= IndexOf(w.issued, id)
    decreases n
  {
    hide Descends, Ready;
    StoredIsIssued(w, id);
    if n > 0 {
      ParentIsOlder(w, id);
      AncestorsAreOlder(w, ParentGraph(w.store.messages)[id], n - 1);
    }
  }

  /**
   However store calls interleave, the parent graph is acyclic, so the walk to a root always
   ends at a message without a stored parent and never because it met a message twice.
   */
  lemma ReachableGraphsAreAcyclic(w: Shared)
    requires Inv(w)
    ensures Acyclic(ParentGraph(w.store.messages))
    ensures forall id :: RootOf(w.store.messages, id) !in ParentGraph(w.store.messages)
  {
    hide Descends, Ready;
    var g := ParentGraph(w.store.messages);
    forall id | id in g
      ensures !Reaches(g, id, id)
    {
      if Reaches(g, id, id) {
        var n: nat :| Hop(g, g[id], n) == Some(id);
        AncestorsAreOlder(w, id, n + 1);
      }
    }
    forall id ensures RootOf(w.store.messages, id) !in g { AcyclicRootIsAnEnd(g, id); }
  }

  lemma EveryScheduleIsAcyclic(cfg: Config, b: Backend, w: Shared, asked: map<Pid, Request>, schedule: seq<Pid>)
    requires Starts(cfg, w, asked) && Inv(w) && Possible(cfg.hub, b, w, schedule)
    ensures var e := Outcome(cfg.hub, b, w, schedule);
      && Acyclic(ParentGraph(e.store.messages))
      && (forall id | id in e.store.messages :: Descends(e.issued, e.store.messages[id]))
  {
    hide Descends, Ready, Starts;
    ReachableGraphsAreAcyclic(Outcome(cfg.hub, b, w, schedule));
  }

  // ------------------------------------------------------------ the two stores

  /** Where overwrites carry the stored identity, the two stores do the same. */
  lemma StoresAgree(s: Store, p: Process)
    requires Ready(p) && KeepsIdentity(s, p)
    ensures After(InMemory, s, CallOf(p)) == After(Sqlite, s, CallOf(p))
  {
  }

  /**
   Any schedule possible over one store is possible over the other and comes to the same state,
   responses included, although one overwrite takes the new `created` and the other does not.
   */
  lemma {:induction false} StoresAreInterchangeable(hub: string, w: Shared, schedule: seq<Pid>)
    requires Inv(w) && Possible(hub, InMemory, w, schedule)
    ensures Possible(hub, Sqlite, w, schedule)
    ensures Outcome(hub, InMemory, w, schedule) == Outcome(hub, Sqlite, w, schedule)
    decreases |schedule|
  {
    hide Descends, Ready, Resume, CallOf, AnswerTo, After;
    if schedule != [] {
      var pid := schedule[0];
      StoresAgree(w.store, w.running[pid]);
      assert StepOf(hub, InMemory, w, pid) == StepOf(hub, Sqlite, w, pid);
      StepKeepsInv(hub, InMemory, w, pid);
      StoresAreInterchangeable(hub, StepOf(hub, InMemory, w, pid), schedule[1..]);
    }
  }
}
