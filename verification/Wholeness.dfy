/** An operation that runs without interruption does exactly what the engine says of it whole. */
module Wholeness {
  import opened Outcomes
  import opened Ordering
  import opened Records
  import opened Rules
  import opened StorePort
  import opened Engine
  import opened Processes
  import Addressing
  import Naming
  import Threads

  /** One call and its answer leave the same work to be driven. */
  lemma Steps(hub: string, b: Backend, s: Store, p: Process, s': Store, q: Process)
    requires s.WellKeyed() && Ready(p) && Advance(hub, b, s, p) == (s', q)
    ensures s'.WellKeyed() && (q.Finished? || Ready(q)) && Drive(hub, b, s, p) == Drive(hub, b, s', q)
  {
    hide After, Resume, CallOf, AnswerTo;
    ResumeProgresses(hub, p, AnswerTo(s, CallOf(p)));
    AfterKeepsKeys(b, s, CallOf(p));
  }

  lemma {:induction false} IssueWhole(hub: string, b: Backend, s: Store, candidates: seq<Name>, now: Time)
    requires s.WellKeyed() && candidates != []
    ensures var r := IssueName(s, candidates, now);
      Drive(hub, b, s, Issuing(candidates, now)) == (if r.Ok? then Claimed(s, r.value) else s, OfActor(r))
    decreases |candidates|
  {
    var p := Issuing(candidates, now);
    if candidates[0] !in s.actors {
      Steps(hub, b, s, p, Claimed(s, NewActor(candidates[0], NO_PROFILE, now)),
        Finished(Who(NewActor(candidates[0], NO_PROFILE, now))));
    } else if |candidates| == 1 {
      Steps(hub, b, s, p, s, Fail(NameUnavailable));
      IssueNone(s, now);
      assert candidates[1..] == [];
    } else {
      Steps(hub, b, s, p, s, Issuing(candidates[1..], now));
      IssueWhole(hub, b, s, candidates[1..], now);
    }
  }

  lemma StoringWhole(hub: string, b: Backend, s: Store, o: Message)
    requires s.WellKeyed()
    ensures Drive(hub, b, s, SendStoring(o)) == (s.(messages := s.messages[o.id := o]), Note(o))
  {
    var p := SendStoring(o);
    Steps(hub, b, s, p, s.(messages := s.messages[o.id := o]), Finished(Note(o)));
  }

  lemma SendListingWhole(hub: string, b: Backend, s: Store, sender: Name, d: Draft, to: seq<Name>, cc: seq<Name>,
                         ctx: Context, id: Id, now: Time)
    requires s.WellKeyed()
    ensures var o := Addressed(d, sender, to, cc, Attached(s.messages, sender, d.inReplyTo, ctx), ctx, id, now);
      Drive(hub, b, s, SendListing(sender, d, to, cc, ctx, id, now)) == Drive(hub, b, s, SendStoring(o))
  {
    hide SeenIn, Listing, MayAttachTo, Attached, Addressed;
    AttachRule(s.messages, sender, d.inReplyTo, ctx);
    Steps(hub, b, s, SendListing(sender, d, to, cc, ctx, id, now), s,
      SendStoring(Addressed(d, sender, to, cc, Attached(s.messages, sender, d.inReplyTo, ctx), ctx, id, now)));
  }

  lemma SendContextWhole(hub: string, b: Backend, s: Store, sender: Name, d: Draft, to: seq<Name>, cc: seq<Name>,
                         id: Id, now: Time)
    requires s.WellKeyed()
    ensures var ctx := ContextIn(s);
      var o := Addressed(d, sender, to, cc, Attached(s.messages, sender, d.inReplyTo, ctx), ctx, id, now);
      Drive(hub, b, s, SendContext(sender, d, to, cc, id, now)) ==
        if Elements(to + cc) <= Known(ctx) then (s.(messages := s.messages[o.id := o]), Note(o))
        else (s, Refused(UnknownRecipient))
  {
    hide SeenIn, ContextOf, Known, Attached, Addressed;
    var ctx := ContextIn(s);
    Steps(hub, b, s, SendContext(sender, d, to, cc, id, now), s, SendIn(sender, d, to, cc, id, now, ctx));
    SendListingWhole(hub, b, s, sender, d, to, cc, ctx, id, now);
    AttachNothing(s.messages, sender, ctx);
    StoringWhole(hub, b, s, Addressed(d, sender, to, cc, Attached(s.messages, sender, d.inReplyTo, ctx), ctx, id, now));
  }

  lemma SendFetchingWhole(hub: string, b: Backend, s: Store, name: Name, d: Draft, id: Id, now: Time)
    requires s.WellKeyed()
    ensures Drive(hub, b, s, SendFetching(name, d, id, now)) ==
      if name !in s.actors then (s, Refused(UnknownActor))
      else
        var q := SendAs(hub, s.actors[name].name, d, id, now);
        assert q.Finished? || Ready(q);
        Drive(hub, b, s, q)
  {
    hide SeenIn, LocalNames;
    Steps(hub, b, s, SendFetching(name, d, id, now), s,
      if name in s.actors then SendAs(hub, s.actors[name].name, d, id, now) else Fail(UnknownActor));
  }

  lemma SendWhole(hub: string, b: Backend, s: Store, d: Draft, id: Id, now: Time)
    requires s.WellKeyed()
    ensures var r := Compose(hub, s, d, id, now);
      var p := StartSend(hub, d, id, now);
      (p.Finished? || Ready(p)) && Drive(hub, b, s, p) == (Stored(s, r), OfMessage(r))
  {
    hide Addressing.LocalName, LocalNames, ContextOf, Addressed, Known, Attached, CallOf, Resume, After, AnswerTo;
    var p := StartSend(hub, d, id, now);
    if !p.Finished? {
      SendFetchingWhole(hub, b, s, p.name, d, id, now);
      if p.name in s.actors {
        var sender := s.actors[p.name].name;
        var q := SendAs(hub, sender, d, id, now);
        if !q.Finished? {
          SendContextWhole(hub, b, s, sender, d, q.to, q.cc, id, now);
        }
      }
    }
  }

  lemma AttachNothing(m: Messages, sender: Name, ctx: Context)
    ensures Attached(m, sender, None, ctx) == None
  {
  }

  lemma SeeContextWhole(hub: string, b: Backend, s: Store, me: Name, o: Message, purpose: Purpose)
    requires s.WellKeyed()
    ensures var q := SeenIn(hub, me, o, purpose, ContextIn(s));
      (q.Finished? || Ready(q)) && Drive(hub, b, s, SeeContext(me, o, purpose)) == Drive(hub, b, s, q)
  {
    hide IsParty, ContextOf, StartSend, ReplyDraft, SeenIn;
    Steps(hub, b, s, SeeContext(me, o, purpose), s, SeenIn(hub, me, o, purpose, ContextIn(s)));
  }

  lemma SeeMessageWhole(hub: string, b: Backend, s: Store, me: Name, objectId: Id, purpose: Purpose)
    requires s.WellKeyed()
    ensures Drive(hub, b, s, SeeMessage(me, objectId, purpose)) ==
      if objectId in s.messages then Drive(hub, b, s, SeeContext(me, s.messages[objectId], purpose))
      else (s, Refused(NoSuchMessage))
  {
    hide SeenIn;
    Steps(hub, b, s, SeeMessage(me, objectId, purpose), s,
      if objectId in s.messages then SeeContext(me, s.messages[objectId], purpose) else Fail(NoSuchMessage));
  }

  lemma SeeFetchingWhole(hub: string, b: Backend, s: Store, name: Name, objectId: Id, purpose: Purpose)
    requires s.WellKeyed()
    ensures Drive(hub, b, s, SeeFetching(name, objectId, purpose)) ==
      if name in s.actors then Drive(hub, b, s, SeeMessage(s.actors[name].name, objectId, purpose))
      else (s, Refused(UnknownActor))
  {
    hide SeenIn;
    Steps(hub, b, s, SeeFetching(name, objectId, purpose), s,
      if name in s.actors then SeeMessage(s.actors[name].name, objectId, purpose) else Fail(UnknownActor));
  }

  /** Looking a message up on someone's behalf, and going on with it. */
  lemma SeeWhole(hub: string, b: Backend, s: Store, caller: string, name: Name, objectId: Id, purpose: Purpose)
    requires s.WellKeyed() && Addressing.LocalName(caller, hub) == Ok(name)
    ensures var seen := Visible(hub, s, caller, objectId);
      var p := SeeFetching(name, objectId, purpose);
      if seen.Err? then Drive(hub, b, s, p) == (s, Refused(seen.error))
      else
        var q := SeenIn(hub, s.actors[name].name, seen.value, purpose, ContextIn(s));
        name in s.actors && (q.Finished? || Ready(q)) && Drive(hub, b, s, p) == Drive(hub, b, s, q)
  {
    hide Addressing.LocalName, IsParty, ContextOf, StartSend, ReplyDraft, CallOf, Resume, After, AnswerTo;
    SeeFetchingWhole(hub, b, s, name, objectId, purpose);
    if name in s.actors {
      var me := s.actors[name].name;
      SeeMessageWhole(hub, b, s, me, objectId, purpose);
      if objectId in s.messages {
        SeeContextWhole(hub, b, s, me, s.messages[objectId], purpose);
      }
    }
  }

  lemma ReadWhole(hub: string, b: Backend, s: Store, caller: string, name: Name, objectId: Id, now: Time)
    requires s.WellKeyed() && Addressing.LocalName(caller, hub) == Ok(name)
    ensures var seen := Visible(hub, s, caller, objectId);
      Drive(hub, b, s, ReadFetching(name, objectId, now)) ==
        (if seen.Ok? then Marked(s, objectId, RequireActor(hub, s, caller).value.name, now) else s, OfMessage(seen))
  {
    hide Addressing.LocalName, IsParty, ContextOf, StartSend, CallOf, Resume, After, AnswerTo;
    SeeWhole(hub, b, s, caller, name, objectId, ToRead(now));
    ReadFetchingWhole(hub, b, s, name, objectId, now);
    var seen := Visible(hub, s, caller, objectId);
    if seen.Ok? {
      MarkingWhole(hub, b, s, seen.value, s.actors[name].name, now);
    }
  }

  lemma ReadFetchingWhole(hub: string, b: Backend, s: Store, name: Name, objectId: Id, now: Time)
    requires s.WellKeyed()
    ensures Drive(hub, b, s, ReadFetching(name, objectId, now)) ==
      if name in s.actors then Drive(hub, b, s, SeeFetching(name, objectId, ToRead(now)))
      else (s, Refused(UnknownActor))
  {
    hide SeenIn;
    Steps(hub, b, s, ReadFetching(name, objectId, now), s,
      if name in s.actors then SeeFetching(name, objectId, ToRead(now)) else Fail(UnknownActor));
  }

  lemma MarkingWhole(hub: string, b: Backend, s: Store, o: Message, me: Name, now: Time)
    requires s.WellKeyed()
    ensures Drive(hub, b, s, Marking(o, ReadMark(o.id, me, now))) == (Marked(s, o.id, me, now), Note(o))
  {
    hide SeenIn;
    Steps(hub, b, s, Marking(o, ReadMark(o.id, me, now)), Marked(s, o.id, me, now), Finished(Note(o)));
  }

  lemma PeekWhole(hub: string, b: Backend, s: Store, caller: string, name: Name)
    requires s.WellKeyed() && Addressing.LocalName(caller, hub) == Ok(name)
    ensures Drive(hub, b, s, PeekFetching(name)) == (s, OfMessages(Waiting(hub, s, caller)))
  {
    hide Addressing.LocalName, Unread, ContextOf, Listing, CallOf, Resume, After, AnswerTo;
    PeekFetchingWhole(hub, b, s, name);
    if name in s.actors {
      var me, ctx := s.actors[name].name, ContextIn(s);
      PeekContextWhole(hub, b, s, me);
      PeekListingWhole(hub, b, s, me, ctx);
      PeekMarksWhole(hub, b, s, me, ctx);
    }
  }

  lemma PeekFetchingWhole(hub: string, b: Backend, s: Store, name: Name)
    requires s.WellKeyed()
    ensures Drive(hub, b, s, PeekFetching(name)) ==
      if name in s.actors then Drive(hub, b, s, PeekContext(s.actors[name].name)) else (s, Refused(UnknownActor))
  {
    hide SeenIn;
    Steps(hub, b, s, PeekFetching(name), s,
      if name in s.actors then PeekContext(s.actors[name].name) else Fail(UnknownActor));
  }

  lemma PeekContextWhole(hub: string, b: Backend, s: Store, me: Name)
    requires s.WellKeyed()
    ensures Drive(hub, b, s, PeekContext(me)) == Drive(hub, b, s, PeekListing(me, ContextIn(s)))
  {
    hide SeenIn, ContextOf;
    Steps(hub, b, s, PeekContext(me), s, PeekListing(me, ContextIn(s)));
  }

  lemma PeekListingWhole(hub: string, b: Backend, s: Store, me: Name, ctx: Context)
    requires s.WellKeyed()
    ensures Drive(hub, b, s, PeekListing(me, ctx)) == Drive(hub, b, s, PeekMarks(me, ctx, Listing(s.messages)))
  {
    hide SeenIn, Listing;
    Steps(hub, b, s, PeekListing(me, ctx), s, PeekMarks(me, ctx, Listing(s.messages)));
  }

  lemma PeekMarksWhole(hub: string, b: Backend, s: Store, me: Name, ctx: Context)
    requires s.WellKeyed()
    ensures Drive(hub, b, s, PeekMarks(me, ctx, Listing(s.messages))) ==
      (s, Notes(Unread(Listing(s.messages), me, ReadBy(s, me), ctx)))
  {
    hide SeenIn, Listing, Unread, MarksOf;
    ListedIds(s.messages);
    MarkedBy(s, me);
    Steps(hub, b, s, PeekMarks(me, ctx, Listing(s.messages)), s,
      Finished(Notes(Unread(Listing(s.messages), me, ReadBy(s, me), ctx))));
  }

  lemma ListedIds(m: Messages)
    requires Keyed(m)
    ensures (set o | o in Listing(m) :: o.id) == m.Keys
  {
    forall id | id in m ensures id in (set o | o in Listing(m) :: o.id) {
      assert m[id] in m.Values && m[id] in Listing(m);
    }
  }

  lemma MarkedBy(s: Store, me: Name)
    requires s.WellKeyed()
    ensures var found := MarksOf(s, s.messages.Keys);
      (set id | id in found && exists m: ReadMark | m in found[id] :: m.reader == me) == ReadBy(s, me)
  {
    var found := MarksOf(s, s.messages.Keys);
    forall id | id in s.messages
      ensures (exists m: ReadMark | m in found[id] :: m.reader == me) <==> (id, me) in s.marks
    {
      if (id, me) in s.marks { assert ReadMark(id, me, s.marks[(id, me)]) in found[id]; }
    }
  }

  lemma TurnsWhole(hub: string, b: Backend, s: Store, caller: string, name: Name, root: Id)
    requires s.WellKeyed() && Addressing.LocalName(caller, hub) == Ok(name)
    ensures Drive(hub, b, s, TurnsFetching(name, root)) == (s, OfMessages(TurnsOf(hub, s, caller, root)))
  {
    hide Addressing.LocalName, VisibleTurns, ContextOf, Listing, CallOf, Resume, After, AnswerTo;
    TurnsFetchingWhole(hub, b, s, name, root);
    if name in s.actors {
      TurnsContextWhole(hub, b, s, s.actors[name].name, root);
      TurnsListingWhole(hub, b, s, s.actors[name].name, root, ContextIn(s));
    }
  }

  lemma TurnsFetchingWhole(hub: string, b: Backend, s: Store, name: Name, root: Id)
    requires s.WellKeyed()
    ensures Drive(hub, b, s, TurnsFetching(name, root)) ==
      if name in s.actors then Drive(hub, b, s, TurnsContext(s.actors[name].name, root)) else (s, Refused(UnknownActor))
  {
    hide SeenIn;
    Steps(hub, b, s, TurnsFetching(name, root), s,
      if name in s.actors then TurnsContext(s.actors[name].name, root) else Fail(UnknownActor));
  }

  lemma TurnsContextWhole(hub: string, b: Backend, s: Store, me: Name, root: Id)
    requires s.WellKeyed()
    ensures Drive(hub, b, s, TurnsContext(me, root)) == Drive(hub, b, s, TurnsListing(me, root, ContextIn(s)))
  {
    hide SeenIn, ContextOf;
    Steps(hub, b, s, TurnsContext(me, root), s, TurnsListing(me, root, ContextIn(s)));
  }

  lemma TurnsListingWhole(hub: string, b: Backend, s: Store, me: Name, root: Id, ctx: Context)
    requires s.WellKeyed()
    ensures Drive(hub, b, s, TurnsListing(me, root, ctx)) ==
      (s, Notes(VisibleTurns(Listing(s.messages), root, me, ctx)))
  {
    hide SeenIn, Listing, VisibleTurns;
    Steps(hub, b, s, TurnsListing(me, root, ctx), s, Finished(Notes(VisibleTurns(Listing(s.messages), root, me, ctx))));
  }

  lemma ExpireWhole(hub: string, b: Backend, s: Store, cutoff: Time)
    requires s.WellKeyed()
    ensures var doomed := Threads.Expired(s.messages, cutoff);
      Drive(hub, b, s, ExpireListing(cutoff)) == (RemoveFrom(s, doomed), Count(|doomed|))
  {
    hide Threads.Expired, IdleIds, Listing, RemoveFrom, SeenIn;
    var p, doomed := ExpireListing(cutoff), Threads.Expired(s.messages, cutoff);
    Threads.ExpiredOfListing(s.messages, cutoff);
    RemoveNone(s);
    Steps(hub, b, s, p, s, if doomed == {} then Finished(Count(0)) else ExpireRemoving(doomed));
    if doomed != {} {
      RemovingWhole(hub, b, s, doomed, cutoff);
    }
  }

  lemma RemovingWhole(hub: string, b: Backend, s: Store, doomed: set<Id>, cutoff: Time)
    requires s.WellKeyed() && doomed == Threads.Expired(s.messages, cutoff)
    ensures Drive(hub, b, s, ExpireRemoving(doomed)) == (RemoveFrom(s, doomed), Count(|doomed|))
  {
    hide Threads.Expired, RemoveFrom, SeenIn;
    Threads.ExpiredIsStored(s.messages, cutoff);
    assert doomed * s.messages.Keys == doomed;
    Steps(hub, b, s, ExpireRemoving(doomed), RemoveFrom(s, doomed), Finished(Count(|doomed|)));
  }

  lemma ProfileWhole(hub: string, b: Backend, s: Store, caller: string, name: Name, profile: Profile, now: Time)
    requires s.WellKeyed() && Addressing.LocalName(caller, hub) == Ok(name)
    ensures var r := NewProfile(hub, s, caller, profile, now);
      Drive(hub, b, s, ProfileFetching(name, profile, now)) ==
        (if r.Ok? then s.(actors := s.actors[r.value.name := r.value]) else s, OfActor(r))
  {
    hide Addressing.LocalName;
    var p := ProfileFetching(name, profile, now);
    if name in s.actors {
      var q := ProfilePutting(s.actors[name].(profile := profile, lastSeen := now));
      Steps(hub, b, s, p, s, q);
    }
  }

  lemma InstallWhole(hub: string, b: Backend, s: Store, actor: Actor)
    requires s.WellKeyed()
    ensures Drive(hub, b, s, Installing(actor)) ==
      (Claimed(s, actor), Who(if actor.name in s.actors then s.actors[actor.name] else actor))
  {
    if actor.name in s.actors {
      Steps(hub, b, s, Installing(actor), s, InstallFetching(actor));
    }
  }

  /** Over either store, an operation run alone leaves and answers what it does taken whole. */
  lemma WholeIsAtomic(cfg: Config, b: Backend, s: Store, r: Request)
    requires s.WellKeyed()
    ensures var p := Start(cfg, r);
      && (p.Finished? || Ready(p))
      && Drive(cfg.hub, b, s, p) == (Leave(cfg, s, r), Respond(cfg, s, r))
  {
    hide Addressing.LocalName, Compose, Visible, Waiting, TurnsOf, NewProfile, Naming.Validate, IssueName,
      RemoveFrom, StartSend, ReplyDraft, Threads.Expired, IsParty, SeenIn, SendAs, SendIn, CallOf, Resume,
      After, AnswerTo;
    var hub := cfg.hub;
    match r
    case Join(requested, now) => JoinWhole(cfg, b, s, requested, now);
    case ClaimGroup(name, now) => GroupWhole(hub, b, s, GroupActor(name, now));
    case Whois(name) => WhoisWhole(hub, b, s, name);
    case Directory => DirectoryWhole(hub, b, s);
    case JoinIssued(candidates, now) =>
      if candidates != [] { IssueWhole(hub, b, s, candidates, now); } else { IssueNone(s, now); }
    case InstallResident(name, profile, now) => InstallWhole(hub, b, s, NewActor(name, profile, now));
    case UpdateProfile(caller, profile, now) =>
      var name := Addressing.LocalName(caller, hub);
      if name.Ok? {
        ProfileWhole(hub, b, s, caller, name.value, profile, now);
      } else {
        Unaddressed(hub, s, caller, profile, now);
      }
    case Send(draft, id, now) => SendWhole(hub, b, s, draft, id, now);
    case Reply(caller, objectId, body, subject, id, now) =>
      var name := Addressing.LocalName(caller, hub);
      if name.Ok? {
        ReplyWhole(hub, b, s, caller, name.value, objectId, body, subject, id, now);
      } else {
        Unseen(hub, s, caller, objectId);
      }
    case Peek(caller) =>
      var name := Addressing.LocalName(caller, hub);
      if name.Ok? { PeekWhole(hub, b, s, caller, name.value); } else { Unlisted(hub, s, caller, ""); }
    case View(caller, objectId) =>
      var name := Addressing.LocalName(caller, hub);
      if name.Ok? { ViewWhole(hub, b, s, caller, name.value, objectId); } else { Unseen(hub, s, caller, objectId); }
    case Read(caller, objectId, now) =>
      var name := Addressing.LocalName(caller, hub);
      if name.Ok? {
        ReadWhole(hub, b, s, caller, name.value, objectId, now);
      } else {
        Unseen(hub, s, caller, objectId);
      }
    case ReadThread(caller, root) =>
      var name := Addressing.LocalName(caller, hub);
      if name.Ok? { TurnsWhole(hub, b, s, caller, name.value, root); } else { Unlisted(hub, s, caller, root); }
    case Expire(cutoff) =>
      RemoveNone(s);
      if cutoff.Some? { ExpireWhole(hub, b, s, cutoff.value); }
  }

  lemma JoinWhole(cfg: Config, b: Backend, s: Store, requested: string, now: Time)
    requires s.WellKeyed()
    ensures var r := GrantName(cfg.fold, s, requested, now);
      var p := Start(cfg, Join(requested, now));
      (p.Finished? || Ready(p)) &&
      Drive(cfg.hub, b, s, p) == (if r.Ok? then Claimed(s, r.value) else s, OfActor(r))
  {
    hide Naming.Validate, SeenIn;
    var p := Start(cfg, Join(requested, now));
    if !p.Finished? {
      Steps(cfg.hub, b, s, p, Claimed(s, p.actor),
        if p.actor.name in s.actors then Fail(NameUnavailable) else Finished(Who(p.actor)));
    }
  }

  lemma GroupWhole(hub: string, b: Backend, s: Store, actor: Actor)
    requires s.WellKeyed()
    ensures Drive(hub, b, s, Grouping(actor)) ==
      (Claimed(s, actor), Found(if actor.name in s.actors then None else Some(actor)))
  {
    hide SeenIn;
    Steps(hub, b, s, Grouping(actor), Claimed(s, actor),
      Finished(Found(if actor.name in s.actors then None else Some(actor))));
  }

  lemma WhoisWhole(hub: string, b: Backend, s: Store, name: Name)
    requires s.WellKeyed()
    ensures Drive(hub, b, s, WhoisFetching(name)) == (s, Found(Lookup(s.actors, name)))
  {
    hide SeenIn;
    Steps(hub, b, s, WhoisFetching(name), s, Finished(Found(Lookup(s.actors, name))));
  }

  lemma DirectoryWhole(hub: string, b: Backend, s: Store)
    requires s.WellKeyed()
    ensures Drive(hub, b, s, DirectoryListing) == (s, People(s.ActorSet()))
  {
    hide SeenIn;
    Steps(hub, b, s, DirectoryListing, s, Finished(People(s.ActorSet())));
  }

  lemma ViewWhole(hub: string, b: Backend, s: Store, caller: string, name: Name, objectId: Id)
    requires s.WellKeyed() && Addressing.LocalName(caller, hub) == Ok(name)
    ensures Drive(hub, b, s, SeeFetching(name, objectId, ToView)) == (s, OfMessage(Visible(hub, s, caller, objectId)))
  {
    hide Addressing.LocalName, IsParty, ContextOf;
    SeeWhole(hub, b, s, caller, name, objectId, ToView);
  }

  lemma ReplyWhole(hub: string, b: Backend, s: Store, caller: string, name: Name, objectId: Id, body: string,
                   subject: Option<string>, id: Id, now: Time)
    requires s.WellKeyed() && Addressing.LocalName(caller, hub) == Ok(name)
    ensures var r := ComposeReply(hub, s, caller, objectId, body, subject, id, now);
      Drive(hub, b, s, SeeFetching(name, objectId, ToReply(caller, body, subject, id, now))) ==
        (Stored(s, r), OfMessage(r))
  {
    hide Addressing.LocalName, IsParty, ContextOf, Compose, ReplyDraft, StartSend;
    SeeWhole(hub, b, s, caller, name, objectId, ToReply(caller, body, subject, id, now));
    var seen := Visible(hub, s, caller, objectId);
    if seen.Ok? {
      SendWhole(hub, b, s, ReplyDraft(caller, seen.value, body, subject), id, now);
    }
  }

  lemma IssueNone(s: Store, now: Time)
    ensures IssueName(s, [], now) == Err(NameUnavailable)
  {
  }

  lemma Unaddressed(hub: string, s: Store, caller: string, profile: Profile, now: Time)
    requires Addressing.LocalName(caller, hub).Err?
    ensures NewProfile(hub, s, caller, profile, now) == Err(Addressing.LocalName(caller, hub).error)
  {
  }

  lemma Unseen(hub: string, s: Store, caller: string, objectId: Id)
    requires Addressing.LocalName(caller, hub).Err?
    ensures Visible(hub, s, caller, objectId) == Err(Addressing.LocalName(caller, hub).error)
  {
  }

  lemma Unlisted(hub: string, s: Store, caller: string, root: Id)
    requires s.WellKeyed() && Addressing.LocalName(caller, hub).Err?
    ensures Waiting(hub, s, caller) == Err(Addressing.LocalName(caller, hub).error)
    ensures TurnsOf(hub, s, caller, root) == Err(Addressing.LocalName(caller, hub).error)
  {
  }
}
