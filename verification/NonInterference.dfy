/**
 What an actor can learn and do depends only on the mail it is party to. Two mailboxes that
 differ in other people's mail alone cannot be told apart by peeking, viewing, reading,
 sending and replying. Thread listings and expiry follow hidden turns; `HiddenTurns` says how far.
 */
module NonInterference {
  import opened Outcomes
  import opened Ordering
  import opened Records
  import opened Rules
  import opened StorePort
  import opened Engine
  import opened Runs
  import Addressing

  /** The stored messages that `me` sent or receives. */
  ghost function Mine(s: Store, me: Name): Messages
  {
    map id | id in s.messages && IsParty(s.messages[id], me, ContextIn(s)) :: s.messages[id]
  }

  /** The same actors, the same mail of `me`'s, and the same read marks of `me`'s on it. */
  ghost predicate LooksAlike(s: Store, t: Store, me: Name)
  {
    && s.actors == t.actors
    && Mine(s, me) == Mine(t, me)
    && forall id | id in Mine(s, me) :: (id, me) in s.marks <==> (id, me) in t.marks
  }

  /** `me`'s own peeking, viewing, reading, sending and replying. */
  predicate OwnRequest(cfg: Config, r: Request, me: Name)
  {
    match r
    case Peek(caller) => Addressing.LocalName(caller, cfg.hub) == Ok(me)
    case View(caller, _) => Addressing.LocalName(caller, cfg.hub) == Ok(me)
    case Read(caller, _, _) => Addressing.LocalName(caller, cfg.hub) == Ok(me)
    case Send(draft, _, _) => Addressing.LocalName(draft.caller, cfg.hub) == Ok(me)
    case Reply(caller, _, _, _, _, _) => Addressing.LocalName(caller, cfg.hub) == Ok(me)
    case _ => false
  }

  lemma SameActors(hub: string, s: Store, t: Store, text: string)
    requires s.actors == t.actors
    ensures RequireActor(hub, s, text) == RequireActor(hub, t, text)
    ensures ContextIn(s) == ContextIn(t)
  {
  }

  lemma SameVisible(hub: string, s: Store, t: Store, me: Name, caller: string, id: Id)
    requires s.WellKeyed() && LooksAlike(s, t, me) && Addressing.LocalName(caller, hub) == Ok(me)
    ensures Visible(hub, s, caller, id) == Visible(hub, t, caller, id)
  {
    hide IsParty, ContextIn, Addressing.LocalName;
    SameActors(hub, s, t, caller);
    assert id in Mine(s, me) <==> id in Mine(t, me);
    if id in Mine(s, me) { assert Mine(s, me)[id] == Mine(t, me)[id]; }
  }

  lemma SameComposed(hub: string, s: Store, t: Store, me: Name, d: Draft, id: Id, now: Time)
    requires s.WellKeyed() && LooksAlike(s, t, me) && Addressing.LocalName(d.caller, hub) == Ok(me)
    ensures Compose(hub, s, d, id, now) == Compose(hub, t, d, id, now)
  {
    hide IsParty, ContextIn, Addressing.LocalName, Addressed, LocalNames;
    SameActors(hub, s, t, d.caller);
    if d.inReplyTo.Some? {
      var p := d.inReplyTo.value;
      assert p in Mine(s, me) <==> p in Mine(t, me);
    }
  }

  /**
   Absent and forbidden are one answer: looking up a message that is not one's own is refused
   alike whether it exists or not, and naming it as a parent is the same as naming none.
   */
  lemma AbsentAndForbiddenAreOne(cfg: Config, s: Store, me: Name, caller: string, id: Id, r: Request, d: Draft,
                                 newId: Id, now: Time)
    requires s.WellKeyed() && me in s.actors && Addressing.LocalName(caller, cfg.hub) == Ok(me) && id !in Mine(s, me)
    requires (r.View? || r.Read? || r.Reply?) && r.caller == caller && r.objectId == id
    requires d.caller == caller && d.inReplyTo == Some(id)
    ensures Respond(cfg, s, r) == Refused(NoSuchMessage) && EffectOf(cfg, s, r) == Nothing
    ensures Compose(cfg.hub, s, d, newId, now) == Compose(cfg.hub, s, d.(inReplyTo := None), newId, now)
  {
    hide IsParty, ContextIn, Addressing.LocalName, LocalNames, Known, Resolve, SortNames;
    assert Visible(cfg.hub, s, caller, id) == Err(NoSuchMessage);
    assert Attached(s.messages, me, Some(id), ContextIn(s)) == None;
  }

  /** `me`'s unread mail. */
  ghost function Pending(s: Store, me: Name): set<Message>
  {
    set id | id in Mine(s, me) && (id, me) !in s.marks && DeliversTo(s.messages[id], me, ContextIn(s)) :: s.messages[id]
  }

  /** `peek` answers from what is one's own and unread. */
  lemma PeekIsOfMine(s: Store, me: Name)
    requires s.WellKeyed()
    ensures var mine := Pending(s, me);
      StrictTotalOn(mine, Older) &&
      Unread(Listing(s.messages), me, ReadBy(s, me), ContextIn(s)) == Sort(mine, Older)
  {
    hide DeliversTo, ContextIn, Older, StrictTotalOn, Sort, IsSorted;
    var ctx, already := ContextIn(s), ReadBy(s, me);
    var keep := (o: Message) => o.id !in already && DeliversTo(o, me, ctx);
    var mine := Pending(s, me);
    MessagesAreOrdered(s.messages);
    FilterOfSort(s.messages.Values, keep, Older);
    assert Kept(s.messages.Values, keep) == mine;
  }

  lemma SamePeek(hub: string, s: Store, t: Store, me: Name, caller: string)
    requires s.WellKeyed() && t.WellKeyed() && LooksAlike(s, t, me) && Addressing.LocalName(caller, hub) == Ok(me)
    ensures Waiting(hub, s, caller) == Waiting(hub, t, caller)
  {
    hide DeliversTo, ContextIn, Addressing.LocalName, Unread, Listing;
    SameActors(hub, s, t, caller);
    PeekIsOfMine(s, me);
    PeekIsOfMine(t, me);
    forall id | id in Mine(s, me) ensures s.messages[id] == t.messages[id] {
      assert Mine(s, me)[id] == Mine(t, me)[id];
    }
    assert Pending(s, me) == Pending(t, me);
  }

  lemma AddingLooksAlike(s: Store, t: Store, me: Name, o: Message)
    requires LooksAlike(s, t, me) && o.id !in s.messages && o.id !in t.messages && o.sender == me
    requires (o.id, me) !in s.marks && (o.id, me) !in t.marks
    ensures LooksAlike(ApplyEffect(s, Adds(o)), ApplyEffect(t, Adds(o)), me)
  {
    hide DeliversTo, ContextOf;
    MineGrows(s, me, o);
    MineGrows(t, me, o);
  }

  lemma MineGrows(s: Store, me: Name, o: Message)
    requires o.sender == me
    ensures Mine(s.(messages := s.messages[o.id := o]), me) == Mine(s, me)[o.id := o]
  {
    hide DeliversTo, ContextOf;
  }

  lemma MarkingLooksAlike(s: Store, t: Store, me: Name, id: Id, now: Time)
    requires LooksAlike(s, t, me)
    ensures LooksAlike(Marked(s, id, me, now), Marked(t, id, me, now), me)
  {
    hide IsParty, ContextOf;
    assert Mine(Marked(s, id, me, now), me) == Mine(s, me);
    assert Mine(Marked(t, id, me, now), me) == Mine(t, me);
  }

  lemma SameResponse(cfg: Config, s: Store, t: Store, r: Request, me: Name)
    requires s.WellKeyed() && t.WellKeyed() && LooksAlike(s, t, me) && OwnRequest(cfg, r, me)
    ensures Respond(cfg, s, r) == Respond(cfg, t, r) && EffectOf(cfg, s, r) == EffectOf(cfg, t, r)
    ensures EffectOf(cfg, s, r).Adds? ==> EffectOf(cfg, s, r).message.sender == me
    ensures EffectOf(cfg, s, r).MarksRead? ==> EffectOf(cfg, s, r).reader == me
    ensures EffectOf(cfg, s, r).Nothing? || EffectOf(cfg, s, r).Adds? || EffectOf(cfg, s, r).MarksRead?
  {
    hide Addressing.LocalName, LooksAlike, Compose, Visible, ReplyDraft, Waiting;
    match r
    case Peek(caller) => SamePeek(cfg.hub, s, t, me, caller);
    case View(caller, id) => SameVisible(cfg.hub, s, t, me, caller, id);
    case Read(caller, id, now) =>
      SameVisible(cfg.hub, s, t, me, caller, id);
      RequiredName(cfg.hub, s, t, me, caller);
      if Visible(cfg.hub, s, caller, id).Ok? { VisibleNeedsActor(cfg.hub, s, caller, id); }
    case Send(draft, id, now) =>
      SameComposed(cfg.hub, s, t, me, draft, id, now);
      ComposedByCaller(cfg.hub, s, me, draft, id, now);
    case Reply(caller, objectId, body, subject, id, now) =>
      SameVisible(cfg.hub, s, t, me, caller, objectId);
      var original := Visible(cfg.hub, s, caller, objectId);
      if original.Ok? {
        var d := ReplyDraft(caller, original.value, body, subject);
        assert d.caller == caller by { ReplyDraftCaller(caller, original.value, body, subject); }
        SameComposed(cfg.hub, s, t, me, d, id, now);
        ComposedByCaller(cfg.hub, s, me, d, id, now);
      }
  }

  lemma ReplyDraftCaller(caller: string, original: Message, body: string, subject: Option<string>)
    ensures ReplyDraft(caller, original, body, subject).caller == caller
  {
  }

  lemma VisibleNeedsActor(hub: string, s: Store, caller: string, id: Id)
    requires Visible(hub, s, caller, id).Ok?
    ensures RequireActor(hub, s, caller).Ok?
  {
  }

  lemma RequiredName(hub: string, s: Store, t: Store, me: Name, caller: string)
    requires s.WellKeyed() && LooksAlike(s, t, me) && Addressing.LocalName(caller, hub) == Ok(me)
    ensures RequireActor(hub, s, caller) == RequireActor(hub, t, caller)
    ensures RequireActor(hub, s, caller).Ok? ==> RequireActor(hub, s, caller).value.name == me
  {
    hide Mine, Addressing.LocalName, ContextOf;
  }

  lemma ComposedByCaller(hub: string, s: Store, me: Name, d: Draft, id: Id, now: Time)
    requires s.WellKeyed() && Addressing.LocalName(d.caller, hub) == Ok(me)
    ensures var sent := Compose(hub, s, d, id, now); sent.Ok? ==> sent.value.sender == me && sent.value.id == id
  {
    hide Addressing.LocalName, ContextIn, Attached, Resolve, SortNames, LocalNames, Known;
  }

  /** One request of `me`'s own: the same answer, and the mailboxes still look alike. */
  lemma StepCannotTell(cfg: Config, v: World, w: World, r: Request, me: Name)
    requires Inv(cfg.hub, v) && Inv(cfg.hub, w) && Legal(v, r) && Legal(w, r)
    requires LooksAlike(v.store, w.store, me) && OwnRequest(cfg, r, me)
    ensures Respond(cfg, v.store, r) == Respond(cfg, w.store, r)
    ensures LooksAlike(Step(cfg, v, r).store, Step(cfg, w, r).store, me)
  {
    hide Addressing.LocalName, LooksAlike, Leave, EffectOf, OwnRequest, WellAddressed, ReadsBack;
    SameResponse(cfg, v.store, w.store, r, me);
    LeaveIsEffect(cfg, v.store, r);
    LeaveIsEffect(cfg, w.store, r);
    EffectsAreProper(cfg, v, r);
    EffectsAreProper(cfg, w, r);
    match EffectOf(cfg, v.store, r)
    case Adds(o) => AddingLooksAlike(v.store, w.store, me, o);
    case MarksRead(id, reader, at) => MarkingLooksAlike(v.store, w.store, me, id, at);
    case _ =>
  }

  ghost function Responses(cfg: Config, w: World, rs: seq<Request>): seq<Response>
    requires Inv(cfg.hub, w) && LegalRun(cfg, w, rs)
    decreases |rs|
  {
    if rs == [] then [] else
      StepKeepsInv(cfg, w, rs[0]);
      [Respond(cfg, w.store, rs[0])] + Responses(cfg, Step(cfg, w, rs[0]), rs[1..])
  }

  /** However long `me` goes on, it gets the same answers from both. */
  lemma {:induction false} OthersMailIsInvisible(cfg: Config, v: World, w: World, rs: seq<Request>, me: Name)
    requires Inv(cfg.hub, v) && Inv(cfg.hub, w) && LegalRun(cfg, v, rs) && LegalRun(cfg, w, rs)
    requires LooksAlike(v.store, w.store, me) && forall r | r in rs :: OwnRequest(cfg, r, me)
    ensures Responses(cfg, v, rs) == Responses(cfg, w, rs)
    ensures LooksAlike(End(cfg, v, rs).store, End(cfg, w, rs).store, me)
    decreases |rs|
  {
    hide Leave, Respond, LooksAlike, OwnRequest, ParentGraph, WellAddressed, ReadsBack;
    if rs != [] {
      assert rs[0] in rs && forall r | r in rs[1..] :: r in rs;
      StepKeepsInv(cfg, v, rs[0]);
      StepKeepsInv(cfg, w, rs[0]);
      StepCannotTell(cfg, v, w, rs[0], me);
      OthersMailIsInvisible(cfg, Step(cfg, v, rs[0]), Step(cfg, w, rs[0]), rs[1..], me);
    }
  }

  // ------------------------------------------------------------ what others do meanwhile

  /** A step of others' that leaves the directory and `me`'s mail alone: mail to which `me` is no party, their marks. */
  ghost predicate Hidden(cfg: Config, s: Store, r: Request, me: Name)
  {
    match EffectOf(cfg, s, r)
    case Nothing => true
    case Adds(o) => !IsParty(o, me, ContextIn(s))
    case MarksRead(_, reader, _) => reader != me
    case _ => false
  }

  lemma HiddenChangesNothing(cfg: Config, w: World, r: Request, me: Name)
    requires Inv(cfg.hub, w) && Legal(w, r) && Hidden(cfg, w.store, r, me)
    ensures LooksAlike(w.store, Step(cfg, w, r).store, me)
  {
    hide Leave, EffectOf, IsParty, ContextOf, LooksAlike, WellAddressed, ReadsBack, ParentGraph;
    LeaveIsEffect(cfg, w.store, r);
    EffectsAreProper(cfg, w, r);
    HiddenEffectLooksAlike(w.store, EffectOf(cfg, w.store, r), me);
  }

  lemma HiddenEffectLooksAlike(s: Store, e: Effect, me: Name)
    requires match e
      case Nothing => true
      case Adds(o) => o.id !in s.messages && !IsParty(o, me, ContextIn(s))
      case MarksRead(_, reader, _) => reader != me
      case _ => false
    ensures LooksAlike(s, ApplyEffect(s, e), me)
  {
    hide IsParty, ContextOf;
    assert Mine(s, me) == Mine(ApplyEffect(s, e), me);
  }

  lemma LooksAlikeComposes(s: Store, t: Store, u: Store, me: Name)
    requires LooksAlike(s, t, me) && LooksAlike(t, u, me)
    ensures LooksAlike(s, u, me) && LooksAlike(u, s, me)
  {
    hide Mine;
  }

  /** In the run, everything that is not `me`'s own is hidden from it. */
  ghost predicate OthersHidden(cfg: Config, w: World, rs: seq<Request>, me: Name)
    requires Inv(cfg.hub, w) && LegalRun(cfg, w, rs)
    decreases |rs|
  {
    rs == [] ||
      (StepKeepsInv(cfg, w, rs[0]);
       (OwnRequest(cfg, rs[0], me) || Hidden(cfg, w.store, rs[0], me))
         && OthersHidden(cfg, Step(cfg, w, rs[0]), rs[1..], me))
  }

  /** `me`'s own requests in a run. */
  function OwnPart(cfg: Config, rs: seq<Request>, me: Name): seq<Request>
  {
    if rs == [] then [] else
      (if OwnRequest(cfg, rs[0], me) then [rs[0]] else []) + OwnPart(cfg, rs[1..], me)
  }

  /** The answers `me` gets in a run. */
  ghost function OwnAnswers(cfg: Config, w: World, rs: seq<Request>, me: Name): seq<Response>
    requires Inv(cfg.hub, w) && LegalRun(cfg, w, rs)
    decreases |rs|
  {
    if rs == [] then [] else
      StepKeepsInv(cfg, w, rs[0]);
      (if OwnRequest(cfg, rs[0], me) then [Respond(cfg, w.store, rs[0])] else [])
        + OwnAnswers(cfg, Step(cfg, w, rs[0]), rs[1..], me)
  }

  /**
   Non-interference of two runs: others may do different things in each, in any number and order,
   so long as it is hidden. If `me` asks the same of both, it gets the same answers from both.
   */
  lemma {:induction false} OthersDoingsAreInvisible(cfg: Config, v: World, w: World, rs: seq<Request>,
                                                    qs: seq<Request>, me: Name)
    requires Inv(cfg.hub, v) && Inv(cfg.hub, w) && LegalRun(cfg, v, rs) && LegalRun(cfg, w, qs)
    requires OthersHidden(cfg, v, rs, me) && OthersHidden(cfg, w, qs, me)
    requires LooksAlike(v.store, w.store, me) && OwnPart(cfg, rs, me) == OwnPart(cfg, qs, me)
    ensures OwnAnswers(cfg, v, rs, me) == OwnAnswers(cfg, w, qs, me)
    ensures LooksAlike(End(cfg, v, rs).store, End(cfg, w, qs).store, me)
    decreases |rs| + |qs|
  {
    hide Leave, Respond, LooksAlike, OwnRequest, Hidden, ParentGraph, WellAddressed, ReadsBack;
    if rs != [] && !OwnRequest(cfg, rs[0], me) {
      StepKeepsInv(cfg, v, rs[0]);
      var next := Step(cfg, v, rs[0]);
      HiddenChangesNothing(cfg, v, rs[0], me);
      LooksAlikeTurns(v.store, next.store, me);
      LooksAlikeComposes(next.store, v.store, w.store, me);
      OthersDoingsAreInvisible(cfg, next, w, rs[1..], qs, me);
    } else if qs != [] && !OwnRequest(cfg, qs[0], me) {
      StepKeepsInv(cfg, w, qs[0]);
      var next := Step(cfg, w, qs[0]);
      HiddenChangesNothing(cfg, w, qs[0], me);
      LooksAlikeComposes(v.store, w.store, next.store, me);
      OthersDoingsAreInvisible(cfg, v, next, rs, qs[1..], me);
    } else if rs != [] && qs != [] {
      assert OwnPart(cfg, rs, me)[0] == rs[0] && OwnPart(cfg, qs, me)[0] == qs[0];
      assert OwnPart(cfg, rs, me)[1..] == OwnPart(cfg, rs[1..], me);
      assert OwnPart(cfg, qs, me)[1..] == OwnPart(cfg, qs[1..], me);
      StepKeepsInv(cfg, v, rs[0]);
      StepKeepsInv(cfg, w, qs[0]);
      StepCannotTell(cfg, v, w, rs[0], me);
      OthersDoingsAreInvisible(cfg, Step(cfg, v, rs[0]), Step(cfg, w, qs[0]), rs[1..], qs[1..], me);
    }
  }

  lemma LooksAlikeTurns(s: Store, t: Store, me: Name)
    requires LooksAlike(s, t, me)
    ensures LooksAlike(t, s, me)
  {
    hide Mine;
  }
}
