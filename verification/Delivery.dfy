/** Who a stored message reaches, what is waiting for whom, and who can join a conversation. */
module Delivery {
  import opened Outcomes
  import opened Ordering
  import opened Records
  import opened Rules
  import opened StorePort
  import opened Engine
  import opened Threads
  import opened Runs
  import Addressing
  import Naming

  // ------------------------------------------------------------ snapshot

  /** The names stored in a message: actors, and never the broadcast word. */
  ghost predicate NamesActors(names: set<Name>, ctx: Context)
  {
    Naming.EVERYONE !in names && names <= ctx.actors
  }

  /** No group among the names has a member outside them, the sender aside. */
  ghost predicate GroupsStayInside(names: set<Name>, sender: Name, ctx: Context)
  {
    forall n | n in names && n in ctx.members :: ctx.members[n] <= names + {sender}
  }

  ghost predicate InGroupAmong(n: Name, names: set<Name>, ctx: Context)
  {
    exists k :: k in names && k in ctx.members && n in ctx.members[k]
  }

  /** Every name that is also a group is a member of some group among the names. */
  ghost predicate GroupsAreCovered(names: set<Name>, ctx: Context)
  {
    forall n | n in names && n in ctx.members :: InGroupAmong(n, names, ctx)
  }

  lemma NothingGained(names: set<Name>, sender: Name, ctx: Context)
    requires NamesActors(names, ctx)
    ensures Resolve(names, ctx) - {sender} <= names <==> GroupsStayInside(names, sender, ctx)
  {
    var r := Resolve(names, ctx);
    if r - {sender} <= names {
      forall n, x | n in names && n in ctx.members && x in ctx.members[n]
        ensures x in names + {sender}
      {
        assert x in ResolveName(n, ctx);
        assert x in r;
      }
    }
    if GroupsStayInside(names, sender, ctx) {
      forall x | x in r - {sender}
        ensures x in names
      {
        var k :| k in names && x in ResolveName(k, ctx);
      }
    }
  }

  lemma KeptMeansCovered(names: set<Name>, ctx: Context)
    requires NamesActors(names, ctx) && names <= Resolve(names, ctx)
    ensures GroupsAreCovered(names, ctx)
  {
    hide Resolve;
    forall n | n in names && n in ctx.members
      ensures InGroupAmong(n, names, ctx)
    {
      assert n in Resolve(names, ctx);
      var k :| k in names && n in ResolveName(k, ctx);
      assert k in ctx.members;
    }
  }

  lemma CoveredMeansKept(names: set<Name>, ctx: Context)
    requires NamesActors(names, ctx) && GroupsAreCovered(names, ctx)
    ensures names <= Resolve(names, ctx)
  {
    forall x | x in names
      ensures x in Resolve(names, ctx)
    {
      if x in ctx.members {
        assert InGroupAmong(x, names, ctx);
        var k :| k in names && k in ctx.members && x in ctx.members[k];
        assert x in ResolveName(k, ctx);
      } else {
        assert x in ResolveName(x, ctx);
      }
    }
  }

  /**
   Resolving the stored names again gives back the stored names exactly when no group among
   them has an outside member and every name among them that is a group is still somebody's
   member. In particular it does when none of them is a group name.
   */
  lemma ReachesItsNames(o: Message, ctx: Context)
    requires NamesActors(o.Audience(), ctx) && o.sender !in o.Audience()
    ensures Recipients(o, ctx) == o.Audience() <==>
      GroupsStayInside(o.Audience(), o.sender, ctx) && GroupsAreCovered(o.Audience(), ctx)
    ensures o.Audience() !! ctx.members.Keys ==> Recipients(o, ctx) == o.Audience()
  {
    hide Resolve, InGroupAmong;
    var names := o.Audience();
    NothingGained(names, o.sender, ctx);
    if names <= Resolve(names, ctx) { KeptMeansCovered(names, ctx); }
    if GroupsAreCovered(names, ctx) { CoveredMeansKept(names, ctx); }
  }

  /** Claiming a recipient's name as a group redirects mail already stored for it. */
  lemma GroupNameRedirects(o: Message, a: Actor, b: Actor, c: Actor)
    requires b.name != Naming.EVERYONE && a.name != b.name && a.name != c.name
    requires !a.kind.Group? && !c.kind.Group?
    requires a.profile.groups == [] && b.profile.groups == [] && c.profile.groups == [b.name]
    requires o.sender == a.name && o.to == [b.name] && o.cc == []
    ensures Recipients(o, ContextOf({a, b, c})) == {c.name}
  {
    var ctx := ContextOf({a, b, c});
    assert o.Audience() == {b.name};
    assert c.profile.groups[0] == b.name;
    assert b.name in GroupNames({a, b, c});
    assert ctx.members[b.name] == {c.name};
    ResolveOne(b.name, ctx);
  }

  /**
   The message still reaches the names stored in it. The condition is the one `ReachesItsNames`
   shows exact; it holds in particular when no stored recipient is a group name.
   */
  ghost predicate Steady(s: Store, id: Id)
  {
    id in s.messages ==>
      var o, ctx := s.messages[id], ContextIn(s);
      GroupsStayInside(o.Audience(), o.sender, ctx) && GroupsAreCovered(o.Audience(), ctx)
  }

  lemma SteadyReachesItsNames(hub: string, w: World, id: Id)
    requires Inv(hub, w) && id in w.store.messages
    ensures var o, ctx := w.store.messages[id], ContextIn(w.store);
      && (Steady(w.store, id) <==> Recipients(o, ctx) == o.Audience())
      && (o.Audience() !! ctx.members.Keys ==> Steady(w.store, id))
  {
    hide GroupsStayInside, GroupsAreCovered, Recipients, ContextOf;
    ResolveReachesActors({}, w.store);
    ReachesItsNames(w.store.messages[id], ContextIn(w.store));
  }

  lemma PartyByName(hub: string, w: World, id: Id, who: Name)
    requires Inv(hub, w) && Steady(w.store, id) && id in w.store.messages
    ensures var o := w.store.messages[id];
      IsParty(o, who, ContextIn(w.store)) <==> who == o.sender || who in o.Audience()
  {
    hide Steady, Recipients;
    SteadyReachesItsNames(hub, w, id);
  }

  /**
   Who a stored message reaches is settled when it is sent: whatever happens to it and around it,
   it reaches the same names at both ends of a run exactly when it is steady at the end too.
   */
  lemma SnapshotNotQuery(cfg: Config, w: World, rs: seq<Request>, id: Id)
    requires Inv(cfg.hub, w) && LegalRun(cfg, w, rs)
    requires id in w.store.messages && id in End(cfg, w, rs).store.messages && Steady(w.store, id)
    ensures var e := End(cfg, w, rs).store;
      && e.messages[id] == w.store.messages[id]
      && (Recipients(e.messages[id], ContextIn(e)) == Recipients(w.store.messages[id], ContextIn(w.store)) <==>
            Steady(e, id))
  {
    hide Steady, Recipients, ContextIn;
    NothingIsDecapitated(cfg, w, rs, id);
    SteadyReachesItsNames(cfg.hub, w, id);
    SteadyReachesItsNames(cfg.hub, End(cfg, w, rs), id);
  }

  // ------------------------------------------------------------ what is waiting

  ghost predicate IsWaiting(s: Store, me: Name, id: Id)
  {
    id in s.messages && (id, me) !in s.marks && DeliversTo(s.messages[id], me, ContextIn(s))
  }

  lemma UnreadIsWaiting(s: Store, me: Name)
    requires s.WellKeyed()
    ensures var list := Unread(Listing(s.messages), me, ReadBy(s, me), ContextIn(s));
      && IsSorted(list, Older)
      && forall o :: o in list <==> IsWaiting(s, me, o.id) && s.messages[o.id] == o
  {
    hide DeliversTo, IsSorted, ContextIn, Older;
    var ctx, already := ContextIn(s), ReadBy(s, me);
    FilterKeepsOrder(Listing(s.messages), (o: Message) => o.id !in already && DeliversTo(o, me, ctx), Older);
    forall o ensures o in Listing(s.messages) <==> o.id in s.messages && s.messages[o.id] == o {
      assert o in s.messages.Values <==> o.id in s.messages && s.messages[o.id] == o;
    }
  }

  /** `peek` lists exactly what is waiting, each message once, oldest first. */
  lemma PeekListsWaiting(hub: string, s: Store, caller: string)
    requires s.WellKeyed() && Waiting(hub, s, caller).Ok?
    ensures RequireActor(hub, s, caller).Ok?
    ensures var list, me := Waiting(hub, s, caller).value, RequireActor(hub, s, caller).value.name;
      && IsSorted(list, Older)
      && forall o :: o in list <==> IsWaiting(s, me, o.id) && s.messages[o.id] == o
  {
    hide IsSorted, IsWaiting, Unread, Listing, ReadBy, ContextIn, RequireActor;
    UnreadIsWaiting(s, RequireActor(hub, s, caller).value.name);
  }

  /** Consuming the message oneself. */
  ghost predicate Consumes(e: Effect, me: Name, id: Id)
  {
    e.MarksRead? && e.object_ == id && e.reader == me
  }

  ghost predicate Expires(e: Effect, id: Id)
  {
    e.Removes? && id in e.ids
  }

  /** Sending a message that names `me` among those it reached. */
  ghost predicate Delivers(e: Effect, me: Name, id: Id)
  {
    e.Adds? && e.message.id == id && me in e.message.Audience()
  }

  /** `me` is a stored recipient of the message and has not read it. */
  ghost predicate StillAddressed(s: Store, me: Name, id: Id)
  {
    id in s.messages && (id, me) !in s.marks && me in s.messages[id].Audience()
  }

  lemma EffectConserves(hub: string, w: World, e: Effect, me: Name, id: Id)
    requires Inv(hub, w) && Proper(hub, w, e)
    ensures StillAddressed(ApplyEffect(w.store, e), me, id) <==>
      Delivers(e, me, id) || (StillAddressed(w.store, me, id) && !Consumes(e, me, id) && !Expires(e, id))
  {
    hide ParentGraph, WellAddressed, Expired, Sent, ReadsBack, NoDangling, StillAddressed, Delivers, Consumes, Expires,
      ApplyEffect;
    UnmarkedEffectConserves(w.store, e, me, id);
  }

  lemma UnmarkedEffectConserves(s: Store, e: Effect, me: Name, id: Id)
    requires e.Adds? ==> e.message.id !in s.messages && (e.message.id, me) !in s.marks
    ensures StillAddressed(ApplyEffect(s, e), me, id) <==>
      Delivers(e, me, id) || (StillAddressed(s, me, id) && !Consumes(e, me, id) && !Expires(e, id))
  {
  }

  lemma WaitingByName(hub: string, w: World, me: Name, id: Id)
    requires Inv(hub, w) && Steady(w.store, id)
    ensures IsWaiting(w.store, me, id) <==> StillAddressed(w.store, me, id)
  {
    hide Steady, Recipients;
    if id in w.store.messages { SteadyReachesItsNames(hub, w, id); }
  }

  lemma StepConserves(cfg: Config, w: World, r: Request, me: Name, id: Id)
    requires Inv(cfg.hub, w) && Legal(w, r)
    ensures var e := EffectOf(cfg, w.store, r);
      StillAddressed(Step(cfg, w, r).store, me, id) <==>
        Delivers(e, me, id) || (StillAddressed(w.store, me, id) && !Consumes(e, me, id) && !Expires(e, id))
    ensures id in w.used ==> !Delivers(EffectOf(cfg, w.store, r), me, id)
  {
    hide Leave, EffectOf, StillAddressed, Consumes, Expires, ParentGraph, WellAddressed, ReadsBack;
    EffectsAreProper(cfg, w, r);
    LeaveIsEffect(cfg, w.store, r);
    EffectConserves(cfg.hub, w, EffectOf(cfg, w.store, r), me, id);
  }

  /**
   Conservation. A message waits for an actor after a step exactly if the step delivered it to
   that actor, or it was waiting and the step was neither that actor's own read nor the expiry
   of its conversation.
   */
  lemma MailIsConserved(cfg: Config, w: World, r: Request, me: Name, id: Id)
    requires Inv(cfg.hub, w) && Legal(w, r) && Steady(w.store, id) && Steady(Step(cfg, w, r).store, id)
    ensures var e := EffectOf(cfg, w.store, r);
      IsWaiting(Step(cfg, w, r).store, me, id) <==>
        Delivers(e, me, id) || (IsWaiting(w.store, me, id) && !Consumes(e, me, id) && !Expires(e, id))
  {
    hide Step, EffectOf, Steady, IsWaiting, StillAddressed, Consumes, Expires, Delivers, ParentGraph, WellAddressed,
      ReadsBack;
    StepKeepsInv(cfg, w, r);
    StepConserves(cfg, w, r, me, id);
    WaitingByName(cfg.hub, w, me, id);
    WaitingByName(cfg.hub, Step(cfg, w, r), me, id);
  }

  /** Nothing in the run is a read of `id` by `me`, or the expiry of its conversation. */
  ghost predicate LeftAlone(cfg: Config, w: World, rs: seq<Request>, me: Name, id: Id)
    requires Inv(cfg.hub, w) && LegalRun(cfg, w, rs)
    decreases |rs|
  {
    rs == [] ||
      (var e := EffectOf(cfg, w.store, rs[0]);
       StepKeepsInv(cfg, w, rs[0]);
       !Consumes(e, me, id) && !Expires(e, id) && LeftAlone(cfg, Step(cfg, w, rs[0]), rs[1..], me, id))
  }

  /** A sent message that has stopped waiting never waits again. */
  lemma {:induction false} DoneStaysDone(cfg: Config, w: World, rs: seq<Request>, me: Name, id: Id)
    requires Inv(cfg.hub, w) && LegalRun(cfg, w, rs) && id in w.used && !StillAddressed(w.store, me, id)
    ensures !StillAddressed(End(cfg, w, rs).store, me, id)
    decreases |rs|
  {
    hide Leave, EffectOf, StillAddressed, ParentGraph, WellAddressed, ReadsBack, Consumes, Expires, Delivers;
    if rs != [] {
      StepKeepsInv(cfg, w, rs[0]);
      StepConserves(cfg, w, rs[0], me, id);
      DoneStaysDone(cfg, Step(cfg, w, rs[0]), rs[1..], me, id);
    }
  }

  lemma {:induction false} AddressedWhileLeftAlone(cfg: Config, w: World, rs: seq<Request>, me: Name, id: Id)
    requires Inv(cfg.hub, w) && LegalRun(cfg, w, rs) && id in w.used && StillAddressed(w.store, me, id)
    ensures StillAddressed(End(cfg, w, rs).store, me, id) <==> LeftAlone(cfg, w, rs, me, id)
    decreases |rs|
  {
    hide Leave, EffectOf, StillAddressed, ParentGraph, WellAddressed, ReadsBack, Consumes, Expires, Delivers;
    if rs != [] {
      StepKeepsInv(cfg, w, rs[0]);
      StepConserves(cfg, w, rs[0], me, id);
      var next := Step(cfg, w, rs[0]);
      if StillAddressed(next.store, me, id) {
        AddressedWhileLeftAlone(cfg, next, rs[1..], me, id);
      } else {
        DoneStaysDone(cfg, next, rs[1..], me, id);
      }
    }
  }

  /**
   Mail is never lost: over any run a waiting message goes on waiting exactly until its reader
   reads it or its conversation expires. Nothing is asked of other mail, or of the states between.
   */
  lemma MailIsNeverLost(cfg: Config, w: World, rs: seq<Request>, me: Name, id: Id)
    requires Inv(cfg.hub, w) && LegalRun(cfg, w, rs) && IsWaiting(w.store, me, id)
    requires Steady(w.store, id) && Steady(End(cfg, w, rs).store, id)
    ensures IsWaiting(End(cfg, w, rs).store, me, id) <==> LeftAlone(cfg, w, rs, me, id)
  {
    hide Steady, StillAddressed, LeftAlone, DeliversTo;
    WaitingByName(cfg.hub, w, me, id);
    WaitingByName(cfg.hub, End(cfg, w, rs), me, id);
    AddressedWhileLeftAlone(cfg, w, rs, me, id);
  }

  /**
   A reply to a visible message joins its conversation and goes to whomever the sender's name
   stands for: to the sender alone when that name is not also a group's.
   */
  lemma ReplyAnswersItsSender(hub: string, w: World, caller: string, objectId: Id, body: string,
                              subject: Option<string>, id: Id, now: Time)
    requires Inv(hub, w) && Visible(hub, w.store, caller, objectId).Ok?
    ensures var original := w.store.messages[objectId];
      var me := RequireActor(hub, w.store, caller).value.name;
      var r := ComposeReply(hub, w.store, caller, objectId, body, subject, id, now);
      && r.Ok? && r.value.inReplyTo == Some(objectId) && r.value.sender == me
      && Elements(r.value.to) == ResolveName(original.sender, ContextIn(w.store)) - {me} && r.value.cc == []
      && (original.sender !in ContextIn(w.store).members && original.sender != me ==>
            Elements(r.value.to) == {original.sender})
  {
    hide Addressing.LocalName, IsParty, Inv, ContextIn, Compose, ResolveName, WellAddressed;
    var s, original := w.store, w.store.messages[objectId];
    KnownToInv(hub, w, objectId);
    var d := ReplyDraft(caller, original, body, subject);
    AnswerComposes(hub, s, d, original.sender, objectId, id, now);
    AddressedToOne(d, RequireActor(hub, s, caller).value.name, original.sender, objectId, ContextIn(s), id, now);
    if original.sender !in ContextIn(s).members { ResolveToOne(original.sender, s); }
  }

  lemma KnownToInv(hub: string, w: World, id: Id)
    requires Inv(hub, w) && id in w.store.messages
    ensures w.store.WellKeyed() && w.store.messages[id].id == id
    ensures ReadsBack(hub, w.store.messages[id].sender)
    ensures w.store.messages[id].sender in w.store.actors && w.store.messages[id].sender != Naming.EVERYONE
  {
  }

  /** A draft to one actor, answering a message its author is party to, is sent as drafted. */
  lemma AnswerComposes(hub: string, s: Store, d: Draft, name: Name, parent: Id, id: Id, now: Time)
    requires s.WellKeyed() && RequireActor(hub, s, d.caller).Ok? && name in s.actors
    requires d.to == [name] && d.cc == [] && Addressing.LocalName(name, hub) == Ok(name)
    requires d.inReplyTo == Some(parent) && parent in s.messages
    requires IsParty(s.messages[parent], RequireActor(hub, s, d.caller).value.name, ContextIn(s))
    ensures Compose(hub, s, d, id, now) ==
      Ok(Addressed(d, RequireActor(hub, s, d.caller).value.name, [name], [], Some(parent), ContextIn(s), id, now))
  {
    hide Addressing.LocalName, IsParty, RequireActor, Addressed, ContextIn;
    OneName(hub, name);
    ResolveReachesActors({}, s);
    assert Elements([name] + []) == {name};
  }

  lemma AddressedToOne(d: Draft, me: Name, name: Name, parent: Id, ctx: Context, id: Id, now: Time)
    ensures var o := Addressed(d, me, [name], [], Some(parent), ctx, id, now);
      Elements(o.to) == ResolveName(name, ctx) - {me} && o.cc == [] && o.sender == me && o.inReplyTo == Some(parent)
  {
    hide ResolveName;
    assert Elements([name]) == {name} && Elements<Name>([]) == {};
    ResolveOne(name, ctx);
    ResolveNone(ctx);
    EmptyElements(SortNames({}));
  }

  lemma ResolveNone(ctx: Context)
    ensures Resolve({}, ctx) == {}
  {
  }

  lemma ResolveToOne(name: Name, s: Store)
    requires s.WellKeyed() && name in s.actors && name != Naming.EVERYONE && name !in ContextIn(s).members
    ensures ResolveName(name, ContextIn(s)) == {name}
  {
    ResolveReachesActors({}, s);
  }

  lemma OneName(hub: string, name: Name)
    requires Addressing.LocalName(name, hub) == Ok(name)
    ensures LocalNames(hub, [name]) == Ok([name]) && LocalNames(hub, []) == Ok([])
  {
    hide Addressing.LocalName;
    assert LocalNames(hub, []) == Ok([]);
    assert [name][1..] == [] && [name] + [] == [name];
  }

  // ------------------------------------------------------------ intrusion

  /** What the request answers, if it posts a reply, is steady. */
  ghost predicate AnswersSteady(cfg: Config, s: Store, r: Request)
  {
    var e := EffectOf(cfg, s, r);
    e.Adds? && e.message.inReplyTo.Some? ==> Steady(s, e.message.inReplyTo.value)
  }

  /** Whatever is answered in the run is steady when it is answered. */
  ghost predicate AnswersSteadily(cfg: Config, w: World, rs: seq<Request>)
    requires Inv(cfg.hub, w) && LegalRun(cfg, w, rs)
    decreases |rs|
  {
    rs == [] ||
      (StepKeepsInv(cfg, w, rs[0]);
       AnswersSteady(cfg, w.store, rs[0]) && AnswersSteadily(cfg, Step(cfg, w, rs[0]), rs[1..]))
  }

  /** The author of every reply was reached by, or wrote, the message it answers. */
  ghost predicate RepliesFromParties(m: Messages)
  {
    forall id | id in m && m[id].inReplyTo.Some? && m[id].inReplyTo.value in m ::
      var parent := m[m[id].inReplyTo.value];
      m[id].sender == parent.sender || m[id].sender in parent.Audience()
  }

  lemma StepKeepsReplies(cfg: Config, w: World, r: Request)
    requires Inv(cfg.hub, w) && Legal(w, r) && AnswersSteady(cfg, w.store, r)
    requires RepliesFromParties(w.store.messages)
    ensures RepliesFromParties(Step(cfg, w, r).store.messages)
  {
    hide Leave, EffectOf, ParentGraph, Steady, IsParty, ReadsBack;
    EffectsAreProper(cfg, w, r);
    LeaveIsEffect(cfg, w.store, r);
    var e := EffectOf(cfg, w.store, r);
    if e.Adds? && e.message.inReplyTo.Some? {
      PartyByName(cfg.hub, w, e.message.inReplyTo.value, e.message.sender);
    }
  }

  /** In every state reached, replies come from parties only. */
  lemma {:induction false} EveryReplyIsFromAParty(cfg: Config, w: World, rs: seq<Request>)
    requires Inv(cfg.hub, w) && LegalRun(cfg, w, rs) && AnswersSteadily(cfg, w, rs)
    requires RepliesFromParties(w.store.messages)
    ensures RepliesFromParties(End(cfg, w, rs).store.messages)
    decreases |rs|
  {
    hide Leave, ParentGraph, WellAddressed, ReadsBack, AnswersSteady, RepliesFromParties;
    if rs != [] {
      StepKeepsInv(cfg, w, rs[0]);
      StepKeepsReplies(cfg, w, rs[0]);
      EveryReplyIsFromAParty(cfg, Step(cfg, w, rs[0]), rs[1..]);
    }
  }

  /** `who` neither sent nor received any turn of the thread. */
  ghost predicate IsStranger(s: Store, who: Name, root: Id)
  {
    forall id | id in Thread(s.messages, root) :: !IsParty(s.messages[id], who, ContextIn(s))
  }

  ghost predicate SteadyThread(s: Store, root: Id)
  {
    forall id | id in Thread(s.messages, root) :: Steady(s, id)
  }

  /** Somebody else posts a turn of the thread and names `who` in it. */
  ghost predicate Invites(m: Messages, e: Effect, who: Name, root: Id)
  {
    && e.Adds? && e.message.sender != who && who in e.message.Audience()
    && e.message.inReplyTo.Some? && RootOf(m, e.message.inReplyTo.value) == root
  }

  lemma StrangerStaysOut(cfg: Config, w: World, r: Request, who: Name, root: Id)
    requires Inv(cfg.hub, w) && Legal(w, r) && root in w.used
    requires SteadyThread(w.store, root) && SteadyThread(Step(cfg, w, r).store, root)
    requires IsStranger(w.store, who, root) && !Invites(w.store.messages, EffectOf(cfg, w.store, r), who, root)
    ensures IsStranger(Step(cfg, w, r).store, who, root)
  {
    hide Leave, EffectOf, Steady, IsParty, Expired, ParentGraph, WellAddressed, ReadsBack;
    var next, e := Step(cfg, w, r), EffectOf(cfg, w.store, r);
    StepKeepsInv(cfg, w, r);
    EffectsAreProper(cfg, w, r);
    LeaveIsEffect(cfg, w.store, r);
    StepKeepsRoots(cfg, w, r);
    forall id | id in Thread(next.store.messages, root)
      ensures !IsParty(next.store.messages[id], who, ContextIn(next.store))
    {
      PartyByName(cfg.hub, next, id, who);
      if id in w.store.messages {
        PartyByName(cfg.hub, w, id, who);
      } else {
        NewTurnIsFromAParty(cfg.hub, w, e.message, root);
      }
    }
  }

  /** A new turn of an old thread answers one of its turns, whose author or reader posted it. */
  lemma NewTurnIsFromAParty(hub: string, w: World, o: Message, root: Id)
    requires Inv(hub, w) && Proper(hub, w, Adds(o)) && root in w.used
    requires RootOf(w.store.messages[o.id := o], o.id) == root
    ensures o.inReplyTo.Some? && RootOf(w.store.messages, o.inReplyTo.value) == root
    ensures o.inReplyTo.value in Thread(w.store.messages, root)
    ensures IsParty(w.store.messages[o.inReplyTo.value], o.sender, ContextIn(w.store))
  {
    hide IsParty, WellAddressed, ParentGraph;
    AddingKeepsThreads(w.store.messages, o);
  }

  /** Throughout the run the thread is steady and nobody else brings `who` into it. */
  ghost predicate KeptOut(cfg: Config, w: World, rs: seq<Request>, who: Name, root: Id)
    requires Inv(cfg.hub, w) && LegalRun(cfg, w, rs)
    decreases |rs|
  {
    SteadyThread(w.store, root) &&
    (rs == [] ||
      (StepKeepsInv(cfg, w, rs[0]);
       !Invites(w.store.messages, EffectOf(cfg, w.store, rs[0]), who, root)
         && KeptOut(cfg, Step(cfg, w, rs[0]), rs[1..], who, root)))
  }

  lemma KeptOutIsSteady(cfg: Config, w: World, rs: seq<Request>, who: Name, root: Id)
    requires Inv(cfg.hub, w) && LegalRun(cfg, w, rs) && KeptOut(cfg, w, rs, who, root)
    ensures SteadyThread(w.store, root)
  {
  }

  /**
   However much everybody posts, in this conversation and elsewhere, and whatever joins, profile
   changes, reads and expiries come between: an actor who is party to no turn of a conversation,
   and whom nobody else brings into it, stays party to none, and so authors none.
   */
  lemma {:induction false} StrangersCannotIntrude(cfg: Config, w: World, rs: seq<Request>, who: Name, root: Id)
    requires Inv(cfg.hub, w) && LegalRun(cfg, w, rs) && KeptOut(cfg, w, rs, who, root)
    requires root in w.used && IsStranger(w.store, who, root)
    ensures var e := End(cfg, w, rs).store;
      IsStranger(e, who, root) && forall id | id in Thread(e.messages, root) :: e.messages[id].sender != who
    decreases |rs|
  {
    hide Leave, EffectOf, ParentGraph, WellAddressed, ReadsBack, SteadyThread, Thread, DeliversTo;
    if rs != [] {
      StepKeepsInv(cfg, w, rs[0]);
      var next := Step(cfg, w, rs[0]);
      KeptOutIsSteady(cfg, next, rs[1..], who, root);
      StrangerStaysOut(cfg, w, rs[0], who, root);
      StrangersCannotIntrude(cfg, next, rs[1..], who, root);
    }
  }
}
