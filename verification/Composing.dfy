/** What messages look like, and who signs them, however the calls that compose them interleave. */
module Composing {
  import opened Outcomes
  import opened Ordering
  import opened Records
  import opened Rules
  import opened StorePort
  import opened Engine
  import opened Processes
  import opened Interleaving
  import Addressing
  import Naming
  import Runs

  /** A directory fetched earlier: all it knows are still actors. */
  ghost predicate Within(ctx: Context, actors: set<Name>)
  {
    ctx.actors <= actors && forall g | g in ctx.members :: ctx.members[g] <= actors
  }

  ghost predicate WellSigned(hub: string, o: Message, actors: set<Name>)
  {
    Runs.WellAddressed(o, actors) && Runs.ReadsBack(hub, o.sender)
  }

  /** What an operation that sends holds at each of its calls. */
  ghost predicate Sound(hub: string, actors: set<Name>, p: Process)
  {
    match p
    case SendFetching(name, _, _, _) => Runs.ReadsBack(hub, name)
    case SendContext(sender, _, _, _, _, _) => sender in actors && Runs.ReadsBack(hub, sender)
    case SendListing(sender, _, _, _, ctx, _, _) =>
      sender in actors && Runs.ReadsBack(hub, sender) && Within(ctx, actors)
    case SendStoring(o) => WellSigned(hub, o, actors)
    case _ => true
  }

  /** Every message, stored or about to be, is well addressed and signed with a name that reads back. */
  ghost predicate WellMade(hub: string, w: Shared)
  {
    && (forall id | id in w.store.messages :: WellSigned(hub, w.store.messages[id], w.store.actors.Keys))
    && forall pid | pid in w.running :: Sound(hub, w.store.actors.Keys, w.running[pid])
  }

  lemma StartSendIsSound(hub: string, d: Draft, id: Id, now: Time, actors: set<Name>)
    ensures Sound(hub, actors, StartSend(hub, d, id, now))
  {
    hide Addressing.LocalName;
    if Addressing.LocalName(d.caller, hub).Ok? { Addressing.LocalNameSettles(d.caller, hub); }
  }

  lemma StartIsSound(cfg: Config, r: Request, actors: set<Name>)
    ensures Sound(cfg.hub, actors, Start(cfg, r))
  {
    hide Addressing.LocalName, Naming.Validate, StartSend, Runs.ReadsBack;
    if r.Send? { StartSendIsSound(cfg.hub, r.draft, r.id, r.now, actors); }
  }

  /** Resolving against a directory reaches only those it knows. */
  lemma ResolveStaysWithin(names: set<Name>, ctx: Context, actors: set<Name>)
    requires Within(ctx, actors)
    ensures Resolve(names, ctx) <= actors
  {
  }

  lemma AddressedIsWell(d: Draft, sender: Name, to: seq<Name>, cc: seq<Name>, parent: Option<Id>, ctx: Context, id: Id,
                        now: Time, actors: set<Name>)
    requires Within(ctx, actors) && sender in actors
    ensures var o := Addressed(d, sender, to, cc, parent, ctx, id, now);
      Runs.WellAddressed(o, actors) && o.sender == sender
  {
    hide Resolve, Within;
    ResolveStaysWithin(Elements(to), ctx, actors);
    ResolveStaysWithin(Elements(cc), ctx, actors);
    var o := Addressed(d, sender, to, cc, parent, ctx, id, now);
    assert o.Audience() == Elements(o.to) + Elements(o.cc);
  }

  lemma DirectoryIsWithin(s: Store)
    requires s.WellKeyed()
    ensures Within(ContextOf(s.ActorSet()), s.actors.Keys)
  {
    forall a | a in s.ActorSet() ensures a.name in s.actors {}
  }

  lemma SentIsSound(hub: string, s: Store, p: Process, a: Answer)
    requires s.WellKeyed() && Ready(p) && Sound(hub, s.actors.Keys, p)
    requires a == AnswerTo(s, CallOf(p)) && (p.SendFetching? || p.SendContext? || p.SendListing?)
    ensures Sound(hub, s.actors.Keys, Resume(hub, p, a))
  {
    hide Runs.ReadsBack, Runs.WellAddressed, Addressed, LocalNames, Known, ContextOf, Listing, MayAttachTo, Within;
    DirectoryIsWithin(s);
    match p
    case SendFetching(_, _, _, _) =>
    case SendContext(sender, d, to, cc, id, now) =>
      AddressedIsWell(d, sender, to, cc, None, ContextOf(s.ActorSet()), id, now, s.actors.Keys);
    case SendListing(sender, d, to, cc, ctx, id, now) =>
      var parent := if MayAttachTo(Listing(s.messages), sender, d.inReplyTo, ctx) then d.inReplyTo else None;
      AddressedIsWell(d, sender, to, cc, parent, ctx, id, now, s.actors.Keys);
  }

  lemma OthersAreSound(hub: string, p: Process, a: Answer, actors: set<Name>)
    requires Ready(p) && !p.SendFetching? && !p.SendContext? && !p.SendListing?
    ensures Sound(hub, actors, Resume(hub, p, a))
  {
    hide Runs.ReadsBack, StartSend, IsParty, ContextOf, ReplyDraft, Unread, VisibleTurns, IdleIds, Within, WellSigned;
    if p.SeeContext? && p.purpose.ToReply? {
      var d := ReplyDraft(p.purpose.caller, p.message, p.purpose.body, p.purpose.subject);
      StartSendIsSound(hub, d, p.purpose.id, p.purpose.now, actors);
    }
  }

  lemma ResumeIsSound(hub: string, s: Store, p: Process)
    requires s.WellKeyed() && Ready(p) && Sound(hub, s.actors.Keys, p)
    ensures Sound(hub, s.actors.Keys, Resume(hub, p, AnswerTo(s, CallOf(p))))
  {
    hide Sound, Resume, AnswerTo, CallOf;
    if p.SendFetching? || p.SendContext? || p.SendListing? {
      SentIsSound(hub, s, p, AnswerTo(s, CallOf(p)));
    } else {
      OthersAreSound(hub, p, AnswerTo(s, CallOf(p)), s.actors.Keys);
    }
  }

  /** Actors are never removed, so nothing turns unsound. */
  lemma SoundStays(hub: string, p: Process, actors: set<Name>, more: set<Name>)
    requires Sound(hub, actors, p) && actors <= more
    ensures Sound(hub, more, p)
  {
    hide Runs.ReadsBack;
  }

  lemma StepKeepsWellMade(hub: string, b: Backend, w: Shared, pid: Pid)
    requires Inv(w) && MayStep(w, pid) && Fresh(hub, w, pid) && WellMade(hub, w)
    ensures WellMade(hub, StepOf(hub, b, w, pid))
  {
    hide Resume, AnswerTo, After, CallOf, Descends, Distinct, KeepsIdentity, MadeOnce, Sound, Runs.ReadsBack;
    var p, next := w.running[pid], StepOf(hub, b, w, pid);
    StepKeepsInv(hub, b, w, pid);
    ResumeIsSound(hub, w.store, p);
    forall q | Sound(hub, w.store.actors.Keys, q) ensures Sound(hub, next.store.actors.Keys, q) {
      SoundStays(hub, q, w.store.actors.Keys, next.store.actors.Keys);
    }
    forall id | id in next.store.messages
      ensures WellSigned(hub, next.store.messages[id], next.store.actors.Keys)
    {
      CallsStoreWhatWasMade(b, w.store, p, id);
      if p.SendStoring? { StoringIsSound(hub, w.store.actors.Keys, p); }
    }
  }

  lemma StoringIsSound(hub: string, actors: set<Name>, p: Process)
    requires p.SendStoring? && Sound(hub, actors, p)
    ensures WellSigned(hub, p.message, actors)
  {
  }

  lemma {:induction false} SchedulesKeepWellMade(hub: string, b: Backend, w: Shared, schedule: seq<Pid>)
    requires Inv(w) && Possible(hub, b, w, schedule) && WellMade(hub, w)
    ensures WellMade(hub, Outcome(hub, b, w, schedule))
    decreases |schedule|
  {
    hide StepOf, Descends, Distinct, KeepsIdentity, MadeOnce, Fresh, WellMade;
    if schedule != [] {
      StepKeepsInv(hub, b, w, schedule[0]);
      StepKeepsWellMade(hub, b, w, schedule[0]);
      SchedulesKeepWellMade(hub, b, StepOf(hub, b, w, schedule[0]), schedule[1..]);
    }
  }

  /**
   From an empty store, under any schedule: stored `to` and `cc` are sorted and disjoint and name only
   actors, never the sender, who is an actor whose name reads back.
   */
  lemma EveryScheduleComposesWell(cfg: Config, b: Backend, w: Shared, asked: map<Pid, Request>, schedule: seq<Pid>)
    requires Starts(cfg, w, asked) && Inv(w) && Possible(cfg.hub, b, w, schedule)
    ensures var s := Outcome(cfg.hub, b, w, schedule).store;
      forall id | id in s.messages :: WellSigned(cfg.hub, s.messages[id], s.actors.Keys)
  {
    hide Start, Sound, WellSigned, Descends, Distinct, KeepsIdentity, MadeOnce;
    forall pid | pid in w.running ensures Sound(cfg.hub, w.store.actors.Keys, w.running[pid]) {
      StartIsSound(cfg, asked[pid], w.store.actors.Keys);
    }
    SchedulesKeepWellMade(cfg.hub, b, w, schedule);
  }
}
