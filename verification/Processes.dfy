/**
 The same operations cut at every call to the store. Between two of its calls an operation
 holds only what it has already fetched; any other operation may run there.
 */
module Processes {
  import opened Outcomes
  import opened Ordering
  import opened Records
  import opened Rules
  import opened StorePort
  import opened Engine
  import Addressing
  import Naming

  /** Why a message is being looked up. */
  datatype Purpose =
    | ToView
    | ToRead(now: Time)
    | ToReply(caller: string, body: string, subject: Option<string>, id: Id, now: Time)

  /** An operation waiting for one answer from the store, or finished. */
  datatype Process =
    | Finished(response: Response)
    | Joining(actor: Actor)
    | Issuing(candidates: seq<Name>, now: Time)
    | Installing(actor: Actor)
    | InstallFetching(actor: Actor)
    | Grouping(actor: Actor)
    | ProfileFetching(name: Name, profile: Profile, now: Time)
    | ProfilePutting(actor: Actor)
    | WhoisFetching(name: Name)
    | DirectoryListing
    | SendFetching(name: Name, draft: Draft, id: Id, now: Time)
    | SendContext(sender: Name, draft: Draft, to: seq<Name>, cc: seq<Name>, id: Id, now: Time)
    | SendListing(sender: Name, draft: Draft, to: seq<Name>, cc: seq<Name>, ctx: Context, id: Id, now: Time)
    | SendStoring(message: Message)
    | ReadFetching(name: Name, objectId: Id, now: Time)
    | SeeFetching(name: Name, objectId: Id, purpose: Purpose)
    | SeeMessage(me: Name, objectId: Id, purpose: Purpose)
    | SeeContext(me: Name, message: Message, purpose: Purpose)
    | Marking(message: Message, mark: ReadMark)
    | PeekFetching(name: Name)
    | PeekContext(me: Name)
    | PeekListing(me: Name, ctx: Context)
    | PeekMarks(me: Name, ctx: Context, objects: seq<Message>)
    | TurnsFetching(name: Name, root: Id)
    | TurnsContext(me: Name, root: Id)
    | TurnsListing(me: Name, root: Id, ctx: Context)
    | ExpireListing(cutoff: Time)
    | ExpireRemoving(ids: set<Id>)

  function Fail(e: Error): Process
  {
    Finished(Refused(e))
  }

  function StartSend(hub: string, d: Draft, id: Id, now: Time): Process
  {
    match Addressing.LocalName(d.caller, hub)
    case Err(e) => Fail(e)
    case Ok(name) => SendFetching(name, d, id, now)
  }

  /** An operation up to its first call. */
  function Start(cfg: Config, r: Request): Process
  {
    match r
    case Join(requested, now) =>
      (match Naming.Validate(cfg.fold, requested)
       case Err(e) => Fail(e)
       case Ok(name) => Joining(NewActor(name, NO_PROFILE, now)))
    case JoinIssued(candidates, now) =>
      if candidates == [] then Fail(NameUnavailable) else Issuing(candidates, now)
    case InstallResident(name, profile, now) => Installing(NewActor(name, profile, now))
    case ClaimGroup(name, now) => Grouping(GroupActor(name, now))
    case UpdateProfile(caller, profile, now) =>
      (match Addressing.LocalName(caller, cfg.hub)
       case Err(e) => Fail(e)
       case Ok(name) => ProfileFetching(name, profile, now))
    case Whois(name) => WhoisFetching(name)
    case Directory => DirectoryListing
    case Send(draft, id, now) => StartSend(cfg.hub, draft, id, now)
    case Reply(caller, objectId, body, subject, id, now) =>
      (match Addressing.LocalName(caller, cfg.hub)
       case Err(e) => Fail(e)
       case Ok(name) => SeeFetching(name, objectId, ToReply(caller, body, subject, id, now)))
    case Peek(caller) =>
      (match Addressing.LocalName(caller, cfg.hub)
       case Err(e) => Fail(e)
       case Ok(name) => PeekFetching(name))
    case View(caller, objectId) =>
      (match Addressing.LocalName(caller, cfg.hub)
       case Err(e) => Fail(e)
       case Ok(name) => SeeFetching(name, objectId, ToView))
    case Read(caller, objectId, now) =>
      (match Addressing.LocalName(caller, cfg.hub)
       case Err(e) => Fail(e)
       case Ok(name) => ReadFetching(name, objectId, now))
    case ReadThread(caller, root) =>
      (match Addressing.LocalName(caller, cfg.hub)
       case Err(e) => Fail(e)
       case Ok(name) => TurnsFetching(name, root))
    case Expire(cutoff) => if cutoff.Some? then ExpireListing(cutoff.value) else Finished(Count(0))
  }

  /** The call an unfinished operation is waiting on. */
  function CallOf(p: Process): Call
    requires !p.Finished? && (p.Issuing? ==> p.candidates != [])
  {
    match p
    case Joining(actor) => ClaimName(actor)
    case Issuing(candidates, now) => ClaimName(NewActor(candidates[0], NO_PROFILE, now))
    case Installing(actor) => ClaimName(actor)
    case InstallFetching(actor) => GetActor(actor.name)
    case Grouping(actor) => ClaimName(actor)
    case ProfileFetching(name, _, _) => GetActor(name)
    case ProfilePutting(actor) => PutActor(actor)
    case WhoisFetching(name) => GetActor(name)
    case DirectoryListing => Actors
    case SendFetching(name, _, _, _) => GetActor(name)
    case SendContext(_, _, _, _, _, _) => Actors
    case SendListing(_, _, _, _, _, _, _) => ListMessages
    case SendStoring(o) => AddMessage(o)
    case ReadFetching(name, _, _) => GetActor(name)
    case SeeFetching(name, _, _) => GetActor(name)
    case SeeMessage(_, objectId, _) => GetMessage(objectId)
    case SeeContext(_, _, _) => Actors
    case Marking(_, mark) => MarkRead(mark)
    case PeekFetching(name) => GetActor(name)
    case PeekContext(_) => Actors
    case PeekListing(_, _) => ListMessages
    case PeekMarks(_, _, objects) => ReadsOf(set o | o in objects :: o.id)
    case TurnsFetching(name, _) => GetActor(name)
    case TurnsContext(_, _) => Actors
    case TurnsListing(_, _, _) => ListMessages
    case ExpireListing(_) => ListMessages
    case ExpireRemoving(ids) => RemoveMessages(ids)
  }

  /** `send` once the sender is known: addresses are read before anything else is fetched. */
  function SendAs(hub: string, sender: Name, d: Draft, id: Id, now: Time): Process
  {
    match LocalNames(hub, d.to)
    case Err(e) => Fail(e)
    case Ok(to) =>
      match LocalNames(hub, d.cc)
      case Err(e) => Fail(e)
      case Ok(cc) => SendContext(sender, d, to, cc, id, now)
  }

  function SendIn(sender: Name, d: Draft, to: seq<Name>, cc: seq<Name>, id: Id, now: Time, ctx: Context): Process
  {
    if !(Elements(to + cc) <= Known(ctx)) then Fail(UnknownRecipient)
    else if d.inReplyTo.Some? then SendListing(sender, d, to, cc, ctx, id, now)
    else SendStoring(Addressed(d, sender, to, cc, None, ctx, id, now))
  }

  function SeenIn(hub: string, me: Name, o: Message, purpose: Purpose, ctx: Context): Process
  {
    if !IsParty(o, me, ctx) then Fail(NoSuchMessage)
    else
      match purpose
      case ToView => Finished(Note(o))
      case ToRead(now) => Marking(o, ReadMark(o.id, me, now))
      case ToReply(caller, body, subject, id, now) => StartSend(hub, ReplyDraft(caller, o, body, subject), id, now)
  }

  /** What an operation does with an answer, up to its next call. */
  ghost function Resume(hub: string, p: Process, a: Answer): Process
    requires !p.Finished? && (p.Issuing? ==> p.candidates != [])
  {
    match (p, a)
    case (Joining(actor), Flag(yes)) => if yes then Finished(Who(actor)) else Fail(NameUnavailable)
    case (Issuing(candidates, now), Flag(yes)) =>
      if yes then Finished(Who(NewActor(candidates[0], NO_PROFILE, now)))
      else if |candidates| == 1 then Fail(NameUnavailable)
      else Issuing(candidates[1..], now)
    case (Installing(actor), Flag(yes)) => if yes then Finished(Who(actor)) else InstallFetching(actor)
    case (InstallFetching(actor), OneActor(found)) => Finished(Who(if found.Some? then found.value else actor))
    case (Grouping(actor), Flag(yes)) => Finished(Found(if yes then Some(actor) else None))
    case (ProfileFetching(_, profile, now), OneActor(found)) =>
      if found.None? then Fail(UnknownActor)
      else ProfilePutting(found.value.(profile := profile, lastSeen := now))
    case (ProfilePutting(actor), Done) => Finished(Who(actor))
    case (WhoisFetching(_), OneActor(found)) => Finished(Found(found))
    case (DirectoryListing, AllActors(actors)) => Finished(People(actors))
    case (SendFetching(_, d, id, now), OneActor(found)) =>
      if found.None? then Fail(UnknownActor) else SendAs(hub, found.value.name, d, id, now)
    case (SendContext(sender, d, to, cc, id, now), AllActors(actors)) =>
      SendIn(sender, d, to, cc, id, now, ContextOf(actors))
    case (SendListing(sender, d, to, cc, ctx, id, now), AllMessages(objects)) =>
      var parent := if MayAttachTo(objects, sender, d.inReplyTo, ctx) then d.inReplyTo else None;
      SendStoring(Addressed(d, sender, to, cc, parent, ctx, id, now))
    case (SendStoring(o), Done) => Finished(Note(o))
    case (ReadFetching(name, objectId, now), OneActor(found)) =>
      if found.None? then Fail(UnknownActor) else SeeFetching(name, objectId, ToRead(now))
    case (SeeFetching(_, objectId, purpose), OneActor(found)) =>
      if found.None? then Fail(UnknownActor) else SeeMessage(found.value.name, objectId, purpose)
    case (SeeMessage(me, _, purpose), OneMessage(found)) =>
      if found.None? then Fail(NoSuchMessage) else SeeContext(me, found.value, purpose)
    case (SeeContext(me, o, purpose), AllActors(actors)) => SeenIn(hub, me, o, purpose, ContextOf(actors))
    case (Marking(o, _), Flag(_)) => Finished(Note(o))
    case (PeekFetching(_), OneActor(found)) =>
      if found.None? then Fail(UnknownActor) else PeekContext(found.value.name)
    case (PeekContext(me), AllActors(actors)) => PeekListing(me, ContextOf(actors))
    case (PeekListing(me, ctx), AllMessages(objects)) => PeekMarks(me, ctx, objects)
    case (PeekMarks(me, ctx, objects), Marks(found)) =>
      var already := set id | id in found && exists m: ReadMark | m in found[id] :: m.reader == me;
      Finished(Notes(Unread(objects, me, already, ctx)))
    case (TurnsFetching(_, root), OneActor(found)) =>
      if found.None? then Fail(UnknownActor) else TurnsContext(found.value.name, root)
    case (TurnsContext(me, root), AllActors(actors)) => TurnsListing(me, root, ContextOf(actors))
    case (TurnsListing(me, root, ctx), AllMessages(objects)) => Finished(Notes(VisibleTurns(objects, root, me, ctx)))
    case (ExpireListing(cutoff), AllMessages(objects)) =>
      var doomed := IdleIds(objects, cutoff);
      if doomed == {} then Finished(Count(0)) else ExpireRemoving(doomed)
    case (ExpireRemoving(_), Removed(n)) => Finished(Count(n))
    case (_, _) => Fail(NoSuchMessage)  // the port answers each call in kind
  }

  ghost predicate Ready(p: Process)
  {
    !p.Finished? && (p.Issuing? ==> p.candidates != [])
  }

  /** One store call and what follows it. */
  ghost function Advance(hub: string, b: Backend, s: Store, p: Process): (Store, Process)
    requires s.WellKeyed() && Ready(p)
  {
    (After(b, s, CallOf(p)), Resume(hub, p, AnswerTo(s, CallOf(p))))
  }

  // ------------------------------------------------------------ run alone, an operation is whole

  /** How many calls an operation can still make. */
  function CallsLeft(p: Process): nat
  {
    match p
    case Finished(_) => 0
    case Joining(_) => 1
    case Issuing(candidates, _) => |candidates|
    case Installing(_) => 2
    case InstallFetching(_) => 1
    case Grouping(_) => 1
    case ProfileFetching(_, _, _) => 2
    case ProfilePutting(_) => 1
    case WhoisFetching(_) => 1
    case DirectoryListing => 1
    case SendFetching(_, _, _, _) => 4
    case SendContext(_, _, _, _, _, _) => 3
    case SendListing(_, _, _, _, _, _, _) => 2
    case SendStoring(_) => 1
    case ReadFetching(_, _, _) => 8
    case SeeFetching(_, _, _) => 7
    case SeeMessage(_, _, _) => 6
    case SeeContext(_, _, _) => 5
    case Marking(_, _) => 1
    case PeekFetching(_) => 4
    case PeekContext(_) => 3
    case PeekListing(_, _) => 2
    case PeekMarks(_, _, _) => 1
    case TurnsFetching(_, _) => 3
    case TurnsContext(_, _) => 2
    case TurnsListing(_, _, _) => 1
    case ExpireListing(_) => 2
    case ExpireRemoving(_) => 1
  }

  /** Whatever the store answers, an operation goes on with fewer calls left. */
  lemma ResumeProgresses(hub: string, p: Process, a: Answer)
    requires Ready(p)
    ensures CallsLeft(Resume(hub, p, a)) < CallsLeft(p)
    ensures Resume(hub, p, a).Finished? || Ready(Resume(hub, p, a))
  {
    hide IsParty, Addressing.LocalName, LocalNames, Unread, VisibleTurns, IdleIds, Known, Addressed, ReplyDraft;
  }

  /** The store and the response of an operation that nothing interrupts. */
  ghost function Drive(hub: string, b: Backend, s: Store, p: Process): (Store, Response)
    requires s.WellKeyed() && (p.Finished? || Ready(p))
    decreases CallsLeft(p)
  {
    if p.Finished? then (s, p.response)
    else
      ResumeProgresses(hub, p, AnswerTo(s, CallOf(p)));
      AfterKeepsKeys(b, s, CallOf(p));
      Drive(hub, b, Advance(hub, b, s, p).0, Advance(hub, b, s, p).1)
  }
}
