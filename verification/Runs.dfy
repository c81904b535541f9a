/** Runs of whole operations: what every reachable state keeps. */
module Runs {
  import opened Outcomes
  import opened Ordering
  import opened Records
  import opened Rules
  import opened StorePort
  import opened Engine
  import opened Threads
  import FunctionalGraph
  import Addressing
  import Naming

  /** A store, and every id that was ever issued. */
  datatype World = World(store: Store, used: set<Id>)

  function NewId(r: Request): Option<Id>
  {
    match r
    case Send(_, id, _) => Some(id)
    case Reply(_, _, _, _, id, _) => Some(id)
    case _ => None
  }

  function Step(cfg: Config, w: World, r: Request): World
    requires w.store.WellKeyed()
  {
    World(Leave(cfg, w.store, r), w.used + (if NewId(r).Some? then {NewId(r).value} else {}))
  }

  /**
   Message ids are unique identifiers, so a new one was never issued before. Requested names
   are validated; the names that bypass validation are never the broadcast word.
   */
  predicate Legal(w: World, r: Request)
  {
    && (NewId(r).Some? ==> NewId(r).value !in w.used)
    && (r.JoinIssued? ==> Naming.EVERYONE !in r.candidates)
    && (r.InstallResident? ==> r.name != Naming.EVERYONE)
    && (r.ClaimGroup? ==> r.name != Naming.EVERYONE)
  }

  // ------------------------------------------------------------ what one request does

  datatype Effect =
    | Nothing
    | Puts(actor: Actor)
    | Adds(message: Message)
    | MarksRead(object_: Id, reader: Name, at: Time)
    | Removes(ids: set<Id>)

  function Claim(s: Store, actor: Actor): Effect
  {
    if actor.name in s.actors then Nothing else Puts(actor)
  }

  function EffectOf(cfg: Config, s: Store, r: Request): Effect
  {
    match r
    case Join(requested, now) =>
      var joined := GrantName(cfg.fold, s, requested, now);
      if joined.Ok? then Puts(joined.value) else Nothing
    case JoinIssued(candidates, now) =>
      var joined := IssueName(s, candidates, now);
      if joined.Ok? then Puts(joined.value) else Nothing
    case InstallResident(name, profile, now) => Claim(s, NewActor(name, profile, now))
    case ClaimGroup(name, now) => Claim(s, GroupActor(name, now))
    case UpdateProfile(caller, profile, now) =>
      var updated := NewProfile(cfg.hub, s, caller, profile, now);
      if updated.Ok? then Puts(updated.value) else Nothing
    case Send(draft, id, now) =>
      var sent := Compose(cfg.hub, s, draft, id, now);
      if sent.Ok? then Adds(sent.value) else Nothing
    case Reply(caller, objectId, body, subject, id, now) =>
      var sent := ComposeReply(cfg.hub, s, caller, objectId, body, subject, id, now);
      if sent.Ok? then Adds(sent.value) else Nothing
    case Read(caller, objectId, now) =>
      if Visible(cfg.hub, s, caller, objectId).Ok?
      then MarksRead(objectId, RequireActor(cfg.hub, s, caller).value.name, now) else Nothing
    case Expire(cutoff) => Removes(Doomed(s, cutoff))
    case _ => Nothing
  }

  function ApplyEffect(s: Store, e: Effect): Store
  {
    match e
    case Nothing => s
    case Puts(actor) => s.(actors := s.actors[actor.name := actor])
    case Adds(o) => s.(messages := s.messages[o.id := o])
    case MarksRead(id, reader, at) => Marked(s, id, reader, at)
    case Removes(ids) => RemoveFrom(s, ids)
  }

  /** The first free candidate is issued; only when none is free does joining fail. */
  lemma {:induction false} FirstFreeIsIssued(s: Store, candidates: seq<Name>, now: Time)
    ensures var r := IssueName(s, candidates, now);
      && (r.Err? <==> forall c | c in candidates :: c in s.actors)
      && (r.Err? ==> r.error == NameUnavailable)
      && (r.Ok? ==>
            && r.value == Actor(r.value.name, Service, NO_PROFILE, now, now) && r.value.name !in s.actors
            && exists i :: 0 <= i < |candidates| && candidates[i] == r.value.name
                 && forall j | 0 <= j < i :: candidates[j] in s.actors)
  {
    if candidates != [] {
      if candidates[0] in s.actors {
        FirstFreeIsIssued(s, candidates[1..], now);
        assert forall c | c in candidates :: c == candidates[0] || c in candidates[1..];
        assert forall c | c in candidates[1..] :: c in candidates;
        var r := IssueName(s, candidates[1..], now);
        if r.Ok? {
          var i :| 0 <= i < |candidates[1..]| && candidates[1..][i] == r.value.name
            && forall j | 0 <= j < i :: candidates[1..][j] in s.actors;
          assert candidates[i + 1] == r.value.name;
          assert forall j | 0 < j < i + 1 :: candidates[j] == candidates[1..][j - 1];
        }
      } else {
        assert candidates[0] in candidates;
      }
    }
  }

  lemma IssuedIsFree(s: Store, candidates: seq<Name>, now: Time)
    requires IssueName(s, candidates, now).Ok?
    ensures IssueName(s, candidates, now).value.name in candidates
    ensures IssueName(s, candidates, now).value.name !in s.actors
  {
    FirstFreeIsIssued(s, candidates, now);
  }

  lemma LeaveIsEffect(cfg: Config, s: Store, r: Request)
    requires s.WellKeyed()
    ensures Leave(cfg, s, r) == ApplyEffect(s, EffectOf(cfg, s, r))
  {
    hide Compose, ComposeReply, Visible, RequireActor, NewProfile, GrantName, Doomed, RemoveFrom;
    if r.JoinIssued? && IssueName(s, r.candidates, r.now).Ok? { IssuedIsFree(s, r.candidates, r.now); }
    if r.Join? { GrantedIsFree(cfg.fold, s, r.requested, r.now); }
  }

  lemma GrantedIsFree(fold: string -> string, s: Store, requested: string, now: Time)
    ensures var joined := GrantName(fold, s, requested, now);
      joined.Ok? ==>
        joined.value.name !in s.actors && joined.value.name != Naming.EVERYONE && Addressing.Half(joined.value.name)
  {
    hide Naming.Normalize, Naming.MatchesValid, Addressing.Half;
    var name := Naming.Validate(fold, requested);
    if name.Ok? {
      assert Naming.EVERYONE in Naming.RESERVED_NAMES;
      Addressing.GrantedNamesAreHalves(fold, requested);
    }
  }

  // ------------------------------------------------------------ the audience of a message

  /** Resolution only ever reaches actors. */
  lemma ResolveReachesActors(names: set<Name>, s: Store)
    requires s.WellKeyed()
    ensures Resolve(names, ContextIn(s)) <= s.actors.Keys && ContextIn(s).actors == s.actors.Keys
  {
    forall a | a in s.ActorSet() ensures a.name in s.actors {}
    forall n | n in s.actors ensures n in ContextIn(s).actors { assert s.actors[n] in s.ActorSet(); }
  }

  /** How a stored message names its audience: sorted, split without overlap, no sender, only actors. */
  ghost predicate WellAddressed(o: Message, actors: set<Name>)
  {
    && IsSorted(o.to, Less) && IsSorted(o.cc, Less)
    && Elements(o.to) !! Elements(o.cc)
    && o.sender in actors && o.sender !in o.Audience() && o.Audience() <= actors
  }

  /**
   Both lists together are exactly the resolution of everything addressed, without the sender;
   whoever is reached by `to` is not repeated in `cc`.
   */
  lemma SendSplitsAudience(hub: string, s: Store, d: Draft, id: Id, now: Time)
    requires s.WellKeyed() && Compose(hub, s, d, id, now).Ok?
    ensures LocalNames(hub, d.to).Ok? && LocalNames(hub, d.cc).Ok?
    ensures var o := Compose(hub, s, d, id, now).value;
      && o.id == id && RequireActor(hub, s, d.caller).Ok? && o.sender == RequireActor(hub, s, d.caller).value.name
      && WellAddressed(o, s.actors.Keys)
      && o.Audience() ==
           Resolve(Elements(LocalNames(hub, d.to).value + LocalNames(hub, d.cc).value), ContextIn(s)) - {o.sender}
      && Elements(o.to) == Resolve(Elements(LocalNames(hub, d.to).value), ContextIn(s)) - {o.sender}
  {
    hide Addressing.LocalName, ContextIn, ResolveName;
    var o := Compose(hub, s, d, id, now).value;
    var to, cc := LocalNames(hub, d.to).value, LocalNames(hub, d.cc).value;
    assert Elements(to + cc) == Elements(to) + Elements(cc);
    ResolveJoins(Elements(to), Elements(cc), ContextIn(s));
    assert o.Audience() == Elements(o.to) + Elements(o.cc);
    ResolveReachesActors(Elements(to), s);
    ResolveReachesActors(Elements(cc), s);
  }

  /** The author and every address of a draft resolve on this mailbox. */
  predicate AddressesResolve(hub: string, s: Store, d: Draft)
  {
    RequireActor(hub, s, d.caller).Ok? && LocalNames(hub, d.to).Ok? && LocalNames(hub, d.cc).Ok?
  }

  /**
   A message is accepted exactly when its author and every address resolve here and every name
   addressed is an actor, a group or the broadcast word; an unknown name has its own refusal.
   */
  lemma SendAccepts(hub: string, s: Store, d: Draft, id: Id, now: Time)
    requires s.WellKeyed()
    ensures Compose(hub, s, d, id, now).Ok? <==>
      && AddressesResolve(hub, s, d)
      && forall n | n in LocalNames(hub, d.to).value + LocalNames(hub, d.cc).value ::
           n in s.actors || n in GroupNames(s.ActorSet()) || n == Naming.EVERYONE
    ensures AddressesResolve(hub, s, d) && Compose(hub, s, d, id, now).Err? ==>
      Compose(hub, s, d, id, now).error == UnknownRecipient
  {
    hide Addressing.LocalName, LocalNames, Attached, Addressed, RequireActor, GroupNames;
    ResolveReachesActors({}, s);
    if AddressesResolve(hub, s, d) {
      var all := LocalNames(hub, d.to).value + LocalNames(hub, d.cc).value;
      assert Elements(all) <= Known(ContextIn(s)) <==> forall n | n in all :: n in Known(ContextIn(s));
    }
  }

  /**
   A message is stored as written, at the time of sending, on the parent asked for if its
   author is party to that, and on none otherwise.
   */
  lemma SentAsWritten(hub: string, s: Store, d: Draft, id: Id, now: Time)
    requires s.WellKeyed() && Compose(hub, s, d, id, now).Ok?
    ensures LocalNames(hub, d.to).Ok? && LocalNames(hub, d.cc).Ok?
    ensures var o := Compose(hub, s, d, id, now).value;
      && o.content == d.body && o.summary == d.subject && o.published == now
      && (forall k | k in d.document :: k in o.document && o.document[k] == d.document[k])
      && o.document.Keys == d.document.Keys + {"audience"}
      && ("audience" !in d.document ==>
            o.document["audience"] == Listed(LocalNames(hub, d.to).value + LocalNames(hub, d.cc).value))
      && (o.inReplyTo == d.inReplyTo || o.inReplyTo == None)
      && (d.inReplyTo.Some? ==>
            (o.inReplyTo == d.inReplyTo <==>
              d.inReplyTo.value in s.messages && IsParty(s.messages[d.inReplyTo.value], o.sender, ContextIn(s))))
  {
    hide Addressing.LocalName, LocalNames, IsParty, Resolve, SortNames, RequireActor, ContextIn, Known;
  }

  // ------------------------------------------------------------ the invariant

  /** A name that, read as an address, stands for itself. */
  predicate ReadsBack(hub: string, name: Name)
  {
    Addressing.LocalName(name, hub) == Ok(name)
  }

  ghost predicate Inv(hub: string, w: World)
  {
    var s := w.store;
    && s.WellKeyed()
    && s.messages.Keys <= w.used
    && Naming.EVERYONE !in s.actors
    && NoDangling(s.messages) && FunctionalGraph.Acyclic(ParentGraph(s.messages))
    && (forall id | id in s.messages :: WellAddressed(s.messages[id], s.actors.Keys))
    && (forall id | id in s.messages :: ReadsBack(hub, s.messages[id].sender))
    && (forall k | k in s.marks :: k.0 in s.messages && k.1 in s.actors)
  }

  const START := World(EMPTY, {})

  lemma StartHolds(hub: string)
    ensures Inv(hub, START)
  {
  }

  lemma RequiredIsStored(hub: string, s: Store, text: string)
    requires s.WellKeyed()
    ensures var a := RequireActor(hub, s, text); a.Ok? ==> a.value.name in s.actors && s.actors[a.value.name] == a.value
  {
  }

  lemma AttachedIsStored(m: Messages, sender: Name, asked: Option<Id>, ctx: Context)
    ensures var p := Attached(m, sender, asked, ctx); p.Some? ==> p.value in m && IsParty(m[p.value], sender, ctx)
  {
  }

  /** What a sent message is, by whichever call it was sent. */
  ghost predicate Sent(hub: string, s: Store, o: Message)
  {
    && ReadsBack(hub, o.sender)
    && WellAddressed(o, s.actors.Keys)
    && (o.inReplyTo.Some? ==>
          o.inReplyTo.value in s.messages && IsParty(s.messages[o.inReplyTo.value], o.sender, ContextIn(s)))
  }

  lemma ComposedIsSent(hub: string, s: Store, d: Draft, id: Id, now: Time)
    requires s.WellKeyed() && Compose(hub, s, d, id, now).Ok?
    ensures Sent(hub, s, Compose(hub, s, d, id, now).value) && Compose(hub, s, d, id, now).value.id == id
  {
    hide IsParty, WellAddressed, Addressing.LocalName, LocalNames, Attached, Resolve, SortNames, ContextIn;
    SendSplitsAudience(hub, s, d, id, now);
    Addressing.LocalNameSettles(d.caller, hub);
    AttachedIsStored(s.messages, RequireActor(hub, s, d.caller).value.name, d.inReplyTo, ContextIn(s));
  }

  ghost predicate Proper(hub: string, w: World, e: Effect)
  {
    match e
    case Nothing => true
    case Puts(actor) =>
      actor.name != Naming.EVERYONE
      && (actor.name in w.store.actors ==>
            actor.kind == w.store.actors[actor.name].kind && actor.created == w.store.actors[actor.name].created)
    case Adds(o) => o.id !in w.used && Sent(hub, w.store, o)
    case MarksRead(id, reader, _) => id in w.store.messages && reader in w.store.actors
    case Removes(ids) => ids == {} || exists cutoff :: ids == Expired(w.store.messages, cutoff)
  }

  lemma EffectsAreProper(cfg: Config, w: World, r: Request)
    requires Inv(cfg.hub, w) && Legal(w, r)
    ensures Proper(cfg.hub, w, EffectOf(cfg, w.store, r))
    ensures EffectOf(cfg, w.store, r).Adds? ==>
      NewId(r).Some? && EffectOf(cfg, w.store, r).message.id == NewId(r).value
  {
    hide IsParty, Addressing.LocalName, Expired, NoDangling, ParentGraph, Sent, Compose, ReadsBack;
    var s := w.store;
    match r
    case Join(requested, now) => GrantedIsFree(cfg.fold, s, requested, now);
    case JoinIssued(candidates, now) =>
      if IssueName(s, candidates, now).Ok? { IssuedIsFree(s, candidates, now); }
    case UpdateProfile(caller, profile, now) => RequiredIsStored(cfg.hub, s, caller);
    case Send(draft, id, now) =>
      if Compose(cfg.hub, s, draft, id, now).Ok? { ComposedIsSent(cfg.hub, s, draft, id, now); }
    case Reply(caller, objectId, body, subject, id, now) =>
      var original := Visible(cfg.hub, s, caller, objectId);
      if original.Ok? {
        var d := ReplyDraft(caller, original.value, body, subject);
        if Compose(cfg.hub, s, d, id, now).Ok? { ComposedIsSent(cfg.hub, s, d, id, now); }
      }
    case Read(caller, objectId, now) => RequiredIsStored(cfg.hub, s, caller);
    case _ =>
  }

  lemma AddingKeepsInv(hub: string, w: World, o: Message)
    requires Inv(hub, w) && o.id !in w.used && Sent(hub, w.store, o)
    ensures Inv(hub, World(ApplyEffect(w.store, Adds(o)), w.used + {o.id}))
  {
    hide IsParty, WellAddressed, ParentGraph, ReadsBack;
    AddingKeepsThreads(w.store.messages, o);
  }

  lemma RemovingKeepsInv(hub: string, w: World, cutoff: Time)
    requires Inv(hub, w)
    ensures Inv(hub, World(RemoveFrom(w.store, Expired(w.store.messages, cutoff)), w.used))
  {
    hide WellAddressed, ParentGraph, Expired, ReadsBack;
    ExpiryKeepsThreads(w.store.messages, cutoff);
  }

  lemma PuttingKeepsInv(hub: string, w: World, actor: Actor)
    requires Inv(hub, w) && actor.name != Naming.EVERYONE
    ensures Inv(hub, World(ApplyEffect(w.store, Puts(actor)), w.used))
  {
    hide ParentGraph, ReadsBack;
  }

  /** Every request keeps the invariant. */
  lemma StepKeepsInv(cfg: Config, w: World, r: Request)
    requires Inv(cfg.hub, w) && Legal(w, r)
    ensures Inv(cfg.hub, Step(cfg, w, r))
  {
    hide Leave, EffectOf, Expired, WellAddressed, ParentGraph, Sent, ReadsBack;
    EffectsAreProper(cfg, w, r);
    LeaveIsEffect(cfg, w.store, r);
    RemoveNone(w.store);
    var used := Step(cfg, w, r).used;
    match EffectOf(cfg, w.store, r)
    case Nothing =>
    case Puts(actor) => PuttingKeepsInv(cfg.hub, w, actor);
    case Adds(o) => AddingKeepsInv(cfg.hub, w, o);
    case MarksRead(id, reader, at) =>
    case Removes(ids) =>
      if ids != {} {
        var cutoff :| ids == Expired(w.store.messages, cutoff);
        RemovingKeepsInv(cfg.hub, w, cutoff);
      }
  }

  // ------------------------------------------------------------ runs

  ghost predicate LegalRun(cfg: Config, w: World, rs: seq<Request>)
    requires Inv(cfg.hub, w)
    decreases |rs|
  {
    rs == [] || (Legal(w, rs[0]) && (StepKeepsInv(cfg, w, rs[0]); LegalRun(cfg, Step(cfg, w, rs[0]), rs[1..])))
  }

  ghost function End(cfg: Config, w: World, rs: seq<Request>): (e: World)
    requires Inv(cfg.hub, w) && LegalRun(cfg, w, rs)
    ensures Inv(cfg.hub, e)
    decreases |rs|
  {
    if rs == [] then w else
      StepKeepsInv(cfg, w, rs[0]);
      End(cfg, Step(cfg, w, rs[0]), rs[1..])
  }

  /** A stored message is never changed, and keeps its root for as long as it is stored. */
  lemma StepKeepsRoots(cfg: Config, w: World, r: Request)
    requires Inv(cfg.hub, w) && Legal(w, r)
    ensures var before, after := w.store.messages, Step(cfg, w, r).store.messages;
      forall id | id in before && id in after ::
        after[id] == before[id] && RootOf(after, id) == RootOf(before, id)
    ensures forall id | id in w.used && id in Step(cfg, w, r).store.messages :: id in w.store.messages
  {
    hide Leave, EffectOf, Expired, WellAddressed, ParentGraph, ReadsBack;
    EffectsAreProper(cfg, w, r);
    LeaveIsEffect(cfg, w.store, r);
    RemoveNone(w.store);
    match EffectOf(cfg, w.store, r)
    case Adds(o) => AddingKeepsThreads(w.store.messages, o);
    case Removes(ids) =>
      if ids != {} {
        var cutoff :| ids == Expired(w.store.messages, cutoff);
        ExpiryKeepsThreads(w.store.messages, cutoff);
      }
    case _ =>
  }

  lemma {:induction false} GoneStaysGone(cfg: Config, w: World, rs: seq<Request>, id: Id)
    requires Inv(cfg.hub, w) && LegalRun(cfg, w, rs) && id in w.used && id !in w.store.messages
    ensures id !in End(cfg, w, rs).store.messages
    decreases |rs|
  {
    hide Leave, ParentGraph, WellAddressed, ReadsBack;
    if rs != [] {
      StepKeepsInv(cfg, w, rs[0]);
      StepKeepsRoots(cfg, w, rs[0]);
      GoneStaysGone(cfg, Step(cfg, w, rs[0]), rs[1..], id);
    }
  }

  /**
   No decapitation. Whatever was sent, read, joined and expired in between, a message stored at
   both ends of a run is the same message under the same root, and its parent is stored too.
   */
  lemma {:induction false} NothingIsDecapitated(cfg: Config, w: World, rs: seq<Request>, id: Id)
    requires Inv(cfg.hub, w) && LegalRun(cfg, w, rs)
    requires id in w.store.messages && id in End(cfg, w, rs).store.messages
    ensures var before, after := w.store.messages, End(cfg, w, rs).store.messages;
      && after[id] == before[id] && RootOf(after, id) == RootOf(before, id)
      && (after[id].inReplyTo.Some? ==> after[id].inReplyTo.value in after)
      && RootOf(after, id) in after && after[RootOf(after, id)].inReplyTo.None?
    decreases |rs|
  {
    hide Leave, ParentGraph, WellAddressed, ReadsBack;
    if rs == [] {
      RootIsUnparented(w.store.messages, id);
    } else {
      StepKeepsInv(cfg, w, rs[0]);
      StepKeepsRoots(cfg, w, rs[0]);
      var next := Step(cfg, w, rs[0]);
      if id !in next.store.messages {
        GoneStaysGone(cfg, next, rs[1..], id);
      }
      NothingIsDecapitated(cfg, next, rs[1..], id);
    }
  }

  lemma RootIsUnparented(m: Messages, id: Id)
    requires NoDangling(m) && FunctionalGraph.Acyclic(ParentGraph(m)) && id in m
    ensures RootOf(m, id) in m && m[RootOf(m, id)].inReplyTo.None?
  {
    RootIsStored(m, id);
    FunctionalGraph.AcyclicRootIsAnEnd(ParentGraph(m), id);
  }
}
