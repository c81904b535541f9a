/**
 Operations driven by themselves in a shared state: which schedules bring a reply, a read or an
 expiry to the call that writes, and what that call leaves.
 */
module Stepping {
  import opened Outcomes
  import opened Ordering
  import opened Records
  import opened Rules
  import opened StorePort
  import opened Engine
  import opened Processes
  import opened Interleaving
  import Addressing
  import Threads
  import Grounding

  function Thrice(pid: Pid): seq<Pid>
  {
    [pid, pid, pid]
  }

  // ------------------------------------------------------------ steps that only look

  /** The next call changes nothing in the store, and the operation goes on as `q`. */
  ghost predicate Looks(hub: string, s: Store, p: Process, q: Process)
    requires s.WellKeyed()
  {
    Ready(p) && Resume(hub, p, AnswerTo(s, CallOf(p))) == q && !q.SendStoring?
    && forall b :: After(b, s, CallOf(p)) == s
  }

  lemma LookStep(hub: string, b: Backend, w: Shared, pid: Pid, q: Process)
    requires Inv(w) && pid in w.running && Looks(hub, w.store, w.running[pid], q)
    ensures LeadsTo(hub, b, w, [pid], w.(running := w.running[pid := q]))
  {
    hide Descends, Distinct, KeepsIdentity, MadeOnce, Resume, AnswerTo, CallOf;
    var call := CallOf(w.running[pid]);
    assert After(b, w.store, call) == w.store;
    assert call.ClaimName? ==> call.actor.name in w.store.actors;
    OneStepLeads(hub, b, w, pid);
  }

  /** Two looks, or any two schedules, of which the second starts where the first came to. */
  lemma ThenLook(hub: string, b: Backend, w: Shared, pid: Pid, schedule: seq<Pid>, p: Process, q: Process)
    requires LeadsTo(hub, b, w, schedule, w.(running := w.running[pid := p])) && Looks(hub, w.store, p, q)
    ensures LeadsTo(hub, b, w, schedule + [pid], w.(running := w.running[pid := q]))
  {
    hide Descends, Distinct, KeepsIdentity, MadeOnce, Looks, Outcome, Possible;
    var v := w.(running := w.running[pid := p]);
    var e := w.(running := w.running[pid := q]);
    assert Inv(v) by { LeadsToInv(hub, b, w, schedule, v); }
    LookStep(hub, b, v, pid, q);
    assert v.(running := v.running[pid := q]) == e;
    SchedulesJoin(hub, b, w, schedule, v, [pid], e);
  }

  lemma LeadsToInv(hub: string, b: Backend, w: Shared, schedule: seq<Pid>, e: Shared)
    requires LeadsTo(hub, b, w, schedule, e)
    ensures Inv(w) && Inv(e)
  {
    hide Inv;
  }

  // ------------------------------------------------------------ a reply up to its storing

  lemma FetchLooks(hub: string, s: Store, name: Name, objectId: Id, purpose: Purpose)
    requires s.WellKeyed() && name in s.actors
    ensures Looks(hub, s, SeeFetching(name, objectId, purpose), SeeMessage(name, objectId, purpose))
  {
    hide SeenIn;
  }

  lemma MessageLooks(hub: string, s: Store, me: Name, objectId: Id, purpose: Purpose)
    requires s.WellKeyed() && objectId in s.messages
    ensures Looks(hub, s, SeeMessage(me, objectId, purpose), SeeContext(me, s.messages[objectId], purpose))
  {
    hide SeenIn, SendIn, SendAs, IdleIds, Unread, VisibleTurns, MayAttachTo, ContextOf, Listing, MarksOf, RemoveFrom;
    assert CallOf(SeeMessage(me, objectId, purpose)) == GetMessage(objectId);
  }

  lemma ContextLooks(hub: string, s: Store, me: Name, o: Message, purpose: Purpose)
    requires s.WellKeyed()
    ensures Looks(hub, s, SeeContext(me, o, purpose), SeenIn(hub, me, o, purpose, ContextIn(s)))
  {
    hide IsParty, ContextOf, Addressing.LocalName, ReplyDraft;
  }

  lemma SenderLooks(hub: string, s: Store, name: Name, d: Draft, id: Id, now: Time)
    requires s.WellKeyed() && name in s.actors
    ensures Looks(hub, s, SendFetching(name, d, id, now), SendAs(hub, name, d, id, now))
  {
    hide LocalNames;
  }

  lemma AudienceLooks(hub: string, s: Store, me: Name, d: Draft, to: seq<Name>, cc: seq<Name>, id: Id, now: Time)
    requires s.WellKeyed() && d.inReplyTo.Some?
    ensures Looks(hub, s, SendContext(me, d, to, cc, id, now), SendIn(me, d, to, cc, id, now, ContextIn(s)))
  {
    hide ContextOf, Known, Addressed;
  }

  /** A reply up to having seen the message it answers. */
  lemma ReplySees(cfg: Config, b: Backend, w: Shared, pid: Pid, r: Request)
    requires Inv(w) && pid in w.running && r.Reply? && w.running[pid] == Start(cfg, r)
    requires Visible(cfg.hub, w.store, r.caller, r.objectId).Ok?
    ensures var d := ReplyDraft(r.caller, Visible(cfg.hub, w.store, r.caller, r.objectId).value, r.body, r.subject);
      var me := Addressing.LocalName(r.caller, cfg.hub).value;
      LeadsTo(cfg.hub, b, w, Thrice(pid), w.(running := w.running[pid := SendFetching(me, d, r.id, r.now)]))
  {
    hide Descends, Distinct, KeepsIdentity, MadeOnce, Inv, LeadsTo, Looks, IsParty, ContextOf, Addressing.LocalName,
      CallOf, Resume, AnswerTo, After;
    var s := w.store;
    KeyedStore(w);
    var purpose := ToReply(r.caller, r.body, r.subject, r.id, r.now);
    var me, original := Addressing.LocalName(r.caller, cfg.hub).value, s.messages[r.objectId];
    var d := ReplyDraft(r.caller, original, r.body, r.subject);
    FetchLooks(cfg.hub, s, me, r.objectId, purpose);
    LookStep(cfg.hub, b, w, pid, SeeMessage(me, r.objectId, purpose));
    MessageLooks(cfg.hub, s, me, r.objectId, purpose);
    ThenLook(cfg.hub, b, w, pid, [pid], SeeMessage(me, r.objectId, purpose), SeeContext(me, original, purpose));
    ContextLooks(cfg.hub, s, me, original, purpose);
    ThenLook(cfg.hub, b, w, pid, [pid] + [pid], SeeContext(me, original, purpose), SendFetching(me, d, r.id, r.now));
    assert [pid] + [pid] + [pid] == Thrice(pid);
  }

  /** A send from there up to its look for the parent. */
  lemma SendLooks(hub: string, b: Backend, w: Shared, pid: Pid, me: Name, d: Draft, id: Id, now: Time)
    requires Inv(w) && pid in w.running && w.running[pid] == SendFetching(me, d, id, now)
    requires me in w.store.actors && d.inReplyTo.Some? && LocalNames(hub, d.to).Ok? && LocalNames(hub, d.cc).Ok?
    requires Elements(LocalNames(hub, d.to).value + LocalNames(hub, d.cc).value) <= Known(ContextIn(w.store))
    ensures var last := SendListing(me, d, LocalNames(hub, d.to).value, LocalNames(hub, d.cc).value,
                          ContextIn(w.store), id, now);
      LeadsTo(hub, b, w, [pid, pid], w.(running := w.running[pid := last]))
  {
    hide Descends, Distinct, KeepsIdentity, MadeOnce, Inv, LeadsTo, Looks, ContextOf, LocalNames, Known,
      CallOf, Resume, AnswerTo, After;
    KeyedStore(w);
    var s, to, cc := w.store, LocalNames(hub, d.to).value, LocalNames(hub, d.cc).value;
    SenderLooks(hub, s, me, d, id, now);
    LookStep(hub, b, w, pid, SendContext(me, d, to, cc, id, now));
    AudienceLooks(hub, s, me, d, to, cc, id, now);
    ThenLook(hub, b, w, pid, [pid], SendContext(me, d, to, cc, id, now),
      SendListing(me, d, to, cc, ContextIn(s), id, now));
    assert [pid] + [pid] == [pid, pid];
  }

  lemma KeyedStore(w: Shared)
    requires Inv(w)
    ensures w.store.WellKeyed()
  {
  }

  /** What a send makes of its look for the parent. */
  lemma ListingMakes(hub: string, s: Store, p: Process)
    requires s.WellKeyed() && p.SendListing?
    ensures Ready(p) && Resume(hub, p, AnswerTo(s, CallOf(p))) ==
      SendStoring(Addressed(p.draft, p.sender, p.to, p.cc, Attached(s.messages, p.sender, p.draft.inReplyTo, p.ctx),
        p.ctx, p.id, p.now))
  {
    hide ContextOf, Addressed, Listing, MayAttachTo, Attached;
    AttachRule(s.messages, p.sender, p.draft.inReplyTo, p.ctx);
  }

  /**
   A reply keeps the parent it names exactly if that is stored when the store is listed and its
   author is party to it under the directory fetched before; otherwise it is stored without one.
   */
  lemma ReplyKeepsItsParent(hub: string, s: Store, p: Process, parent: Id)
    requires s.WellKeyed() && p.SendListing? && p.draft.inReplyTo == Some(parent)
    ensures var q := Resume(hub, p, AnswerTo(s, CallOf(p)));
      && q.SendStoring?
      && q.message.inReplyTo ==
           if parent in s.messages && IsParty(s.messages[parent], p.sender, p.ctx) then Some(parent) else None
  {
    hide IsParty, Resolve, SortNames, AnswerTo, CallOf, Resume;
    ListingMakes(hub, s, p);
  }

  // ------------------------------------------------------------ steps that write

  lemma MakeStep(hub: string, b: Backend, w: Shared, pid: Pid, o: Message)
    requires Inv(w) && pid in w.running && w.running[pid].SendListing? && o.id !in w.issued
    requires Made(Resume(hub, w.running[pid], AnswerTo(w.store, CallOf(w.running[pid])))) == Some(o)
    ensures LeadsTo(hub, b, w, [pid], w.(issued := w.issued + [o.id], running := w.running[pid := SendStoring(o)]))
  {
    hide Descends, Distinct, KeepsIdentity, MadeOnce, Resume, AnswerTo;
    OneStepLeads(hub, b, w, pid);
  }

  lemma StoreStep(hub: string, b: Backend, w: Shared, pid: Pid, o: Message)
    requires Inv(w) && pid in w.running && w.running[pid] == SendStoring(o)
    ensures LeadsTo(hub, b, w, [pid],
      w.(store := w.store.(messages := w.store.messages[o.id := o]), running := w.running[pid := Finished(Note(o))]))
  {
    hide Descends, Distinct, KeepsIdentity, MadeOnce;
    OneStepLeads(hub, b, w, pid);
  }

  lemma ListStep(hub: string, b: Backend, w: Shared, pid: Pid, cutoff: Time)
    requires Inv(w) && pid in w.running && w.running[pid] == ExpireListing(cutoff)
    requires Threads.Expired(w.store.messages, cutoff) != {}
    ensures LeadsTo(hub, b, w, [pid],
      w.(running := w.running[pid := ExpireRemoving(Threads.Expired(w.store.messages, cutoff))]))
  {
    hide Inv, Threads.Expired, Ready, StepOf, Fresh;
    KeyedStore(w);
    Grounding.ListingStep(hub, b, w, pid, cutoff);
    OneStepLeads(hub, b, w, pid);
  }

  lemma RemovingDoes(hub: string, b: Backend, s: Store, ids: set<Id>)
    requires s.WellKeyed()
    ensures Advance(hub, b, s, ExpireRemoving(ids)) ==
      (RemoveFrom(s, ids), Finished(Count(|ids * s.messages.Keys|)))
  {
    hide RemoveFrom, SeenIn, SendIn, SendAs, IdleIds, Unread, VisibleTurns, MayAttachTo, ContextOf;
    assert CallOf(ExpireRemoving(ids)) == RemoveMessages(ids);
  }

  lemma RemoveStep(hub: string, b: Backend, w: Shared, pid: Pid, ids: set<Id>)
    requires Inv(w) && pid in w.running && w.running[pid] == ExpireRemoving(ids)
    ensures LeadsTo(hub, b, w, [pid],
      w.(store := RemoveFrom(w.store, ids),
         running := w.running[pid := Finished(Count(|ids * w.store.messages.Keys|))]))
  {
    hide Descends, Distinct, KeepsIdentity, MadeOnce, RemoveFrom, Resume, After, AnswerTo;
    RemovingDoes(hub, b, w.store, ids);
    OneStepLeads(hub, b, w, pid);
  }

  lemma MarkStep(hub: string, b: Backend, w: Shared, pid: Pid, o: Message, mark: ReadMark)
    requires Inv(w) && pid in w.running && w.running[pid] == Marking(o, mark)
    ensures LeadsTo(hub, b, w, [pid],
      w.(store := Marked(w.store, mark.object_, mark.reader, mark.at), running := w.running[pid := Finished(Note(o))]))
  {
    hide Descends, Distinct, KeepsIdentity, MadeOnce;
    OneStepLeads(hub, b, w, pid);
  }

  /** What a send stores that finds this store at each of its looks. */
  function Sending(hub: string, s: Store, me: Name, d: Draft, id: Id, now: Time): Message
    requires LocalNames(hub, d.to).Ok? && LocalNames(hub, d.cc).Ok?
  {
    Addressed(d, me, LocalNames(hub, d.to).value, LocalNames(hub, d.cc).value,
      Attached(s.messages, me, d.inReplyTo, ContextIn(s)), ContextIn(s), id, now)
  }

  lemma SendingHasItsId(hub: string, s: Store, me: Name, d: Draft, id: Id, now: Time)
    requires LocalNames(hub, d.to).Ok? && LocalNames(hub, d.cc).Ok?
    ensures Sending(hub, s, me, d, id, now).id == id
    ensures Sending(hub, s, me, d, id, now).inReplyTo == Attached(s.messages, me, d.inReplyTo, ContextIn(s))
  {
    hide LocalNames, Attached, Resolve, ContextOf;
  }

  /** A send that names a parent, up to the message it is about to store. */
  lemma SendMakes(hub: string, b: Backend, w: Shared, pid: Pid, me: Name, d: Draft, id: Id, now: Time)
    requires Inv(w) && pid in w.running && w.running[pid] == SendFetching(me, d, id, now) && id !in w.issued
    requires me in w.store.actors && d.inReplyTo.Some? && LocalNames(hub, d.to).Ok? && LocalNames(hub, d.cc).Ok?
    requires Elements(LocalNames(hub, d.to).value + LocalNames(hub, d.cc).value) <= Known(ContextIn(w.store))
    ensures LeadsTo(hub, b, w, Thrice(pid),
      w.(issued := w.issued + [id], running := w.running[pid := SendStoring(Sending(hub, w.store, me, d, id, now))]))
  {
    hide Descends, Distinct, KeepsIdentity, MadeOnce, Inv, LeadsTo, LocalNames, Known, Addressed, Attached, ContextOf,
      CallOf, Resume, AnswerTo;
    KeyedStore(w);
    var last := SendListing(me, d, LocalNames(hub, d.to).value, LocalNames(hub, d.cc).value, ContextIn(w.store), id,
      now);
    var v := w.(running := w.running[pid := last]);
    SendLooks(hub, b, w, pid, me, d, id, now);
    LeadsToInv(hub, b, w, [pid, pid], v);
    ListingMakes(hub, w.store, last);
    var o := Sending(hub, w.store, me, d, id, now);
    SendingHasItsId(hub, w.store, me, d, id, now);
    MakeStep(hub, b, v, pid, o);
    var e := w.(issued := w.issued + [id], running := w.running[pid := SendStoring(o)]);
    assert v.(issued := v.issued + [id], running := v.running[pid := SendStoring(o)]) == e;
    SchedulesJoin(hub, b, w, [pid, pid], v, [pid], e);
    assert [pid, pid] + [pid] == Thrice(pid);
  }

  /** An accepted reply has what its sending needs, and is what it sends. */
  lemma ReplyIsSent(hub: string, s: Store, r: Request)
    requires r.Reply? && ComposeReply(hub, s, r.caller, r.objectId, r.body, r.subject, r.id, r.now).Ok?
    ensures Visible(hub, s, r.caller, r.objectId).Ok? && Addressing.LocalName(r.caller, hub).Ok?
    ensures var d := ReplyDraft(r.caller, Visible(hub, s, r.caller, r.objectId).value, r.body, r.subject);
      && d.inReplyTo == Some(Visible(hub, s, r.caller, r.objectId).value.id)
      && LocalNames(hub, d.to).Ok? && LocalNames(hub, d.cc).Ok?
      && Elements(LocalNames(hub, d.to).value + LocalNames(hub, d.cc).value) <= Known(ContextIn(s))
  {
    hide IsParty, ContextOf, Addressing.LocalName, LocalNames, Known, Addressed, Attached;
  }

  lemma SendingIsReply(hub: string, s: Store, r: Request)
    requires s.WellKeyed()
    requires r.Reply? && ComposeReply(hub, s, r.caller, r.objectId, r.body, r.subject, r.id, r.now).Ok?
    ensures var d := ReplyDraft(r.caller, Visible(hub, s, r.caller, r.objectId).value, r.body, r.subject);
      var me := Addressing.LocalName(r.caller, hub).value;
      && me in s.actors && LocalNames(hub, d.to).Ok? && LocalNames(hub, d.cc).Ok?
      && ComposeReply(hub, s, r.caller, r.objectId, r.body, r.subject, r.id, r.now) ==
           Ok(Sending(hub, s, me, d, r.id, r.now))
  {
    hide IsParty, ContextOf, Addressing.LocalName, LocalNames, Known, Addressed, Attached;
    ReplyIsSent(hub, s, r);
  }

  /** A reply up to the message it is about to store. */
  lemma ReplyMakes(cfg: Config, b: Backend, w: Shared, pid: Pid, r: Request, o: Message)
    requires Inv(w) && pid in w.running && r.Reply? && w.running[pid] == Start(cfg, r) && r.id !in w.issued
    requires ComposeReply(cfg.hub, w.store, r.caller, r.objectId, r.body, r.subject, r.id, r.now) == Ok(o)
    ensures LeadsTo(cfg.hub, b, w, Thrice(pid) + Thrice(pid),
      w.(issued := w.issued + [r.id], running := w.running[pid := SendStoring(o)]))
  {
    hide Start, Inv, LeadsTo, ComposeReply, Visible, LocalNames, Known, ContextOf, ReplyDraft, Sending,
      Addressing.LocalName;
    KeyedStore(w);
    ReplyIsSent(cfg.hub, w.store, r);
    SendingIsReply(cfg.hub, w.store, r);
    ReplySees(cfg, b, w, pid, r);
    var d := ReplyDraft(r.caller, Visible(cfg.hub, w.store, r.caller, r.objectId).value, r.body, r.subject);
    var me := Addressing.LocalName(r.caller, cfg.hub).value;
    var v := w.(running := w.running[pid := SendFetching(me, d, r.id, r.now)]);
    LeadsToInv(cfg.hub, b, w, Thrice(pid), v);
    SendMakes(cfg.hub, b, v, pid, me, d, r.id, r.now);
    var e := w.(issued := w.issued + [r.id], running := w.running[pid := SendStoring(o)]);
    assert v.(issued := v.issued + [r.id], running := v.running[pid := SendStoring(o)]) == e;
    SchedulesJoin(cfg.hub, b, w, Thrice(pid), v, Thrice(pid), e);
  }

  lemma LeadsToOutcome(hub: string, b: Backend, w: Shared, schedule: seq<Pid>, e: Shared)
    requires LeadsTo(hub, b, w, schedule, e)
    ensures Inv(w) && Possible(hub, b, w, schedule) && Outcome(hub, b, w, schedule) == e
  {
    hide Inv;
  }

  /** An expiry that nothing interrupts. */
  lemma ExpiryRuns(cfg: Config, b: Backend, v: Shared, expirer: Pid, cutoff: Time) returns (u: Shared)
    requires exists w, schedule :: LeadsTo(cfg.hub, b, w, schedule, v)
    requires expirer in v.running && v.running[expirer] == Start(cfg, Expire(Some(cutoff)))
    requires Threads.Expired(v.store.messages, cutoff) != {}
    ensures LeadsTo(cfg.hub, b, v, [expirer, expirer], u)
    ensures u.issued == v.issued && u.store == RemoveFrom(v.store, Threads.Expired(v.store.messages, cutoff))
    ensures forall pid | pid in v.running && pid != expirer :: pid in u.running && u.running[pid] == v.running[pid]
  {
    hide Inv, LeadsTo, Threads.Expired, RemoveFrom;
    var w, schedule :| LeadsTo(cfg.hub, b, w, schedule, v);
    LeadsToInv(cfg.hub, b, w, schedule, v);
    var ids := Threads.Expired(v.store.messages, cutoff);
    ListStep(cfg.hub, b, v, expirer, cutoff);
    var x := v.(running := v.running[expirer := ExpireRemoving(ids)]);
    LeadsToInv(cfg.hub, b, v, [expirer], x);
    RemoveStep(cfg.hub, b, x, expirer, ids);
    u := x.(store := RemoveFrom(x.store, ids),
            running := x.running[expirer := Finished(Count(|ids * x.store.messages.Keys|))]);
    SchedulesJoin(cfg.hub, b, v, [expirer], x, [expirer], u);
    assert [expirer] + [expirer] == [expirer, expirer];
  }

  lemma ReaderLooks(hub: string, s: Store, name: Name, objectId: Id, now: Time)
    requires s.WellKeyed() && name in s.actors
    ensures Looks(hub, s, ReadFetching(name, objectId, now), SeeFetching(name, objectId, ToRead(now)))
  {
    hide SeenIn;
  }

  /** A read up to the mark it is about to make. */
  lemma ReadLooks(cfg: Config, b: Backend, w: Shared, pid: Pid, caller: string, objectId: Id, now: Time)
    requires Inv(w) && pid in w.running && w.running[pid] == Start(cfg, Read(caller, objectId, now))
    requires Visible(cfg.hub, w.store, caller, objectId).Ok?
    ensures var o, me := w.store.messages[objectId], Addressing.LocalName(caller, cfg.hub).value;
      LeadsTo(cfg.hub, b, w, Thrice(pid) + [pid],
        w.(running := w.running[pid := Marking(o, ReadMark(objectId, me, now))]))
  {
    hide Descends, Distinct, KeepsIdentity, MadeOnce, Inv, LeadsTo, Looks, IsParty, ContextOf, Addressing.LocalName,
      CallOf, Resume, AnswerTo, After;
    var s := w.store;
    KeyedStore(w);
    var me, o := Addressing.LocalName(caller, cfg.hub).value, s.messages[objectId];
    ReaderLooks(cfg.hub, s, me, objectId, now);
    LookStep(cfg.hub, b, w, pid, SeeFetching(me, objectId, ToRead(now)));
    FetchLooks(cfg.hub, s, me, objectId, ToRead(now));
    ThenLook(cfg.hub, b, w, pid, [pid], SeeFetching(me, objectId, ToRead(now)), SeeMessage(me, objectId, ToRead(now)));
    MessageLooks(cfg.hub, s, me, objectId, ToRead(now));
    ThenLook(cfg.hub, b, w, pid, [pid] + [pid], SeeMessage(me, objectId, ToRead(now)), SeeContext(me, o, ToRead(now)));
    ContextLooks(cfg.hub, s, me, o, ToRead(now));
    ThenLook(cfg.hub, b, w, pid, [pid] + [pid] + [pid], SeeContext(me, o, ToRead(now)),
      Marking(o, ReadMark(objectId, me, now)));
    assert [pid] + [pid] + [pid] == Thrice(pid);
  }
}
