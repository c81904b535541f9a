/** The mailbox's operations, each taken whole: what it answers, and the store it leaves. */
module Engine {
  import opened Outcomes
  import opened Ordering
  import opened Records
  import opened Rules
  import opened StorePort
  import Addressing
  import Naming
  import Text
  import Threads

  // ------------------------------------------------------------ who is acting

  function ContextIn(s: Store): Context
  {
    ContextOf(s.ActorSet())
  }

  function RequireActor(hub: string, s: Store, text: string): Result<Actor>
  {
    var name :- Addressing.LocalName(text, hub);
    if name in s.actors then Ok(s.actors[name]) else Err(UnknownActor)
  }

  // ------------------------------------------------------------ identity

  function NewActor(name: Name, profile: Profile, now: Time): Actor
  {
    Actor(name, Service, profile, now, now)
  }

  const NO_PROFILE := Profile([], "")

  function Claimed(s: Store, actor: Actor): Store
  {
    if actor.name in s.actors then s else s.(actors := s.actors[actor.name := actor])
  }

  /** `join` with a requested name. */
  function GrantName(fold: string -> string, s: Store, requested: string, now: Time): Result<Actor>
  {
    var name :- Naming.Validate(fold, requested);
    if name in s.actors then Err(NameUnavailable) else Ok(NewActor(name, NO_PROFILE, now))
  }

  /** `join` without one: the first free name among those generated. */
  function IssueName(s: Store, candidates: seq<Name>, now: Time): Result<Actor>
  {
    if candidates == [] then Err(NameUnavailable)
    else if candidates[0] !in s.actors then Ok(NewActor(candidates[0], NO_PROFILE, now))
    else IssueName(s, candidates[1..], now)
  }

  function Resident(s: Store, name: Name, profile: Profile, now: Time): Actor
  {
    if name in s.actors then s.actors[name] else NewActor(name, profile, now)
  }

  function NewProfile(hub: string, s: Store, caller: string, profile: Profile, now: Time): Result<Actor>
  {
    var actor :- RequireActor(hub, s, caller);
    Ok(actor.(profile := profile, lastSeen := now))
  }

  // ------------------------------------------------------------ sending

  datatype Draft = Draft(
    caller: string,
    to: seq<string>,
    cc: seq<string>,
    body: string,
    subject: Option<string>,
    inReplyTo: Option<Id>,
    document: Document)

  /** Each address as a local name, or the first one's error. */
  function LocalNames(hub: string, texts: seq<string>): (r: Result<seq<Name>>)
    ensures r.Ok? ==> |r.value| == |texts|
  {
    if texts == [] then Ok([]) else
      var first :- Addressing.LocalName(texts[0], hub);
      var rest :- LocalNames(hub, texts[1..]);
      Ok([first] + rest)
  }

  function Known(ctx: Context): set<Name>
  {
    ctx.actors + ctx.members.Keys + {Naming.EVERYONE}
  }

  /** The parent asked for, or none if the sender may not attach to it. */
  function Attached(m: Messages, sender: Name, asked: Option<Id>, ctx: Context): Option<Id>
  {
    if asked.Some? && asked.value in m && IsParty(m[asked.value], sender, ctx) then asked else None
  }

  /** What the attachment rule decides on a store's listing. */
  lemma AttachRule(m: Messages, sender: Name, asked: Option<Id>, ctx: Context)
    requires Keyed(m)
    ensures (if MayAttachTo(Listing(m), sender, asked, ctx) then asked else None) == Attached(m, sender, asked, ctx)
  {
    hide IsParty, Listing;
    if asked.Some? { Threads.ListingFirst(m, asked.value); }
  }

  /** What was typed is kept beside what was received, unless that names an `audience` of its own. */
  function Annotated(document: Document, typed: seq<Name>): Document
  {
    map["audience" := Listed(typed)] + document
  }

  function Addressed(d: Draft, sender: Name, to: seq<Name>, cc: seq<Name>, parent: Option<Id>,
                     ctx: Context, id: Id, now: Time): Message
  {
    var reached := Resolve(Elements(to), ctx) - {sender};
    var also := Resolve(Elements(cc), ctx) - {sender} - reached;
    Message(id, sender, SortNames(reached), SortNames(also), parent, d.subject, d.body, now,
      Annotated(d.document, to + cc))
  }

  /** The message that `send` stores, or why it refuses. */
  function Compose(hub: string, s: Store, d: Draft, id: Id, now: Time): Result<Message>
  {
    var sender :- RequireActor(hub, s, d.caller);
    var to :- LocalNames(hub, d.to);
    var cc :- LocalNames(hub, d.cc);
    var ctx := ContextIn(s);
    if Elements(to + cc) <= Known(ctx) then
      Ok(Addressed(d, sender.name, to, cc, Attached(s.messages, sender.name, d.inReplyTo, ctx), ctx, id, now))
    else Err(UnknownRecipient)
  }

  function ReplySubject(subject: Option<string>): Option<string>
  {
    if subject.None? then None
    else if |subject.value| >= 3 && Text.Lower(subject.value[..3]) == "re:" then subject
    else Some("Re: " + subject.value)
  }

  /** A reply's subject starts with `Re:` and replying again does not add another. */
  lemma ReplySubjectSettles(subject: Option<string>)
    ensures ReplySubject(ReplySubject(subject)) == ReplySubject(subject)
    ensures ReplySubject(subject) == subject || (subject.Some? && ReplySubject(subject) == Some("Re: " + subject.value))
    ensures var r := ReplySubject(subject); r.Some? ==> |r.value| >= 3 && Text.Lower(r.value[..3]) == "re:"
  {
    if subject.Some? {
      var r := "Re: " + subject.value;
      assert r[..3] == "Re:" && Text.Lower("Re:") == "re:";
    }
  }

  /** An empty subject counts as none given. */
  function ReplyDraft(caller: string, original: Message, body: string, subject: Option<string>): Draft
  {
    var given := if subject.Some? && subject.value != "" then subject else ReplySubject(original.summary);
    Draft(caller, [original.sender], [], body, given, Some(original.id), map[])
  }

  function ComposeReply(hub: string, s: Store, caller: string, objectId: Id, body: string,
                        subject: Option<string>, id: Id, now: Time): Result<Message>
  {
    var original :- Visible(hub, s, caller, objectId);
    Compose(hub, s, ReplyDraft(caller, original, body, subject), id, now)
  }

  // ------------------------------------------------------------ receiving

  function Visible(hub: string, s: Store, caller: string, objectId: Id): Result<Message>
  {
    var me :- RequireActor(hub, s, caller);
    if objectId in s.messages && IsParty(s.messages[objectId], me.name, ContextIn(s))
    then Ok(s.messages[objectId]) else Err(NoSuchMessage)
  }

  /** The stored messages that `reader` has consumed. */
  function ReadBy(s: Store, reader: Name): set<Id>
  {
    set id | id in s.messages && (id, reader) in s.marks
  }

  function Waiting(hub: string, s: Store, caller: string): Result<seq<Message>>
    requires s.WellKeyed()
  {
    var me :- RequireActor(hub, s, caller);
    Ok(Unread(Listing(s.messages), me.name, ReadBy(s, me.name), ContextIn(s)))
  }

  function TurnsOf(hub: string, s: Store, caller: string, root: Id): Result<seq<Message>>
    requires s.WellKeyed()
  {
    var me :- RequireActor(hub, s, caller);
    Ok(VisibleTurns(Listing(s.messages), root, me.name, ContextIn(s)))
  }

  // ------------------------------------------------------------ requests

  datatype Request =
    | Join(requested: string, now: Time)
    | JoinIssued(candidates: seq<Name>, now: Time)
    | InstallResident(name: Name, profile: Profile, now: Time)
    | ClaimGroup(name: Name, now: Time)
    | UpdateProfile(caller: string, profile: Profile, now: Time)
    | Whois(name: Name)
    | Directory
    | Send(draft: Draft, id: Id, now: Time)
    | Reply(caller: string, objectId: Id, body: string, subject: Option<string>, id: Id, now: Time)
    | Peek(caller: string)
    | View(caller: string, objectId: Id)
    | Read(caller: string, objectId: Id, now: Time)
    | ReadThread(caller: string, root: Id)
    | Expire(cutoff: Option<Time>)

  datatype Response =
    | Refused(error: Error)
    | Who(actor: Actor)
    | Found(found: Option<Actor>)
    | People(actors: set<Actor>)
    | Note(message: Message)
    | Notes(messages: seq<Message>)
    | Count(n: nat)

  /** What the deployment fixes: the hub's own name and the Unicode folding of names. */
  datatype Config = Config(hub: string, fold: string -> string)

  function OfActor(r: Result<Actor>): Response
  {
    match r case Ok(a) => Who(a) case Err(e) => Refused(e)
  }

  function OfMessage(r: Result<Message>): Response
  {
    match r case Ok(o) => Note(o) case Err(e) => Refused(e)
  }

  function OfMessages(r: Result<seq<Message>>): Response
  {
    match r case Ok(o) => Notes(o) case Err(e) => Refused(e)
  }

  function Respond(cfg: Config, s: Store, r: Request): Response
    requires s.WellKeyed()
  {
    match r
    case Join(requested, now) => OfActor(GrantName(cfg.fold, s, requested, now))
    case JoinIssued(candidates, now) => OfActor(IssueName(s, candidates, now))
    case InstallResident(name, profile, now) => Who(Resident(s, name, profile, now))
    case ClaimGroup(name, now) => Found(if name in s.actors then None else Some(GroupActor(name, now)))
    case UpdateProfile(caller, profile, now) => OfActor(NewProfile(cfg.hub, s, caller, profile, now))
    case Whois(name) => Found(Lookup(s.actors, name))
    case Directory => People(s.ActorSet())
    case Send(draft, id, now) => OfMessage(Compose(cfg.hub, s, draft, id, now))
    case Reply(caller, objectId, body, subject, id, now) =>
      OfMessage(ComposeReply(cfg.hub, s, caller, objectId, body, subject, id, now))
    case Peek(caller) => OfMessages(Waiting(cfg.hub, s, caller))
    case View(caller, objectId) => OfMessage(Visible(cfg.hub, s, caller, objectId))
    case Read(caller, objectId, now) => OfMessage(Visible(cfg.hub, s, caller, objectId))
    case ReadThread(caller, root) => OfMessages(TurnsOf(cfg.hub, s, caller, root))
    case Expire(cutoff) => Count(|Doomed(s, cutoff)|)
  }

  function GroupActor(name: Name, now: Time): Actor
  {
    Actor(name, Group, NO_PROFILE, now, now)
  }

  /** `None` when retention is disabled. */
  function Doomed(s: Store, cutoff: Option<Time>): set<Id>
  {
    if cutoff.Some? then Threads.Expired(s.messages, cutoff.value) else {}
  }

  function Stored(s: Store, r: Result<Message>): Store
  {
    if r.Ok? then s.(messages := s.messages[r.value.id := r.value]) else s
  }

  function Marked(s: Store, objectId: Id, reader: Name, now: Time): Store
  {
    if (objectId, reader) in s.marks then s else s.(marks := s.marks[(objectId, reader) := now])
  }

  function Leave(cfg: Config, s: Store, r: Request): Store
    requires s.WellKeyed()
  {
    match r
    case Join(requested, now) =>
      var joined := GrantName(cfg.fold, s, requested, now);
      if joined.Ok? then Claimed(s, joined.value) else s
    case JoinIssued(candidates, now) =>
      var joined := IssueName(s, candidates, now);
      if joined.Ok? then Claimed(s, joined.value) else s
    case InstallResident(name, profile, now) => Claimed(s, NewActor(name, profile, now))
    case ClaimGroup(name, now) => Claimed(s, GroupActor(name, now))
    case UpdateProfile(caller, profile, now) =>
      var updated := NewProfile(cfg.hub, s, caller, profile, now);
      if updated.Ok? then s.(actors := s.actors[updated.value.name := updated.value]) else s
    case Send(draft, id, now) => Stored(s, Compose(cfg.hub, s, draft, id, now))
    case Reply(caller, objectId, body, subject, id, now) =>
      Stored(s, ComposeReply(cfg.hub, s, caller, objectId, body, subject, id, now))
    case Read(caller, objectId, now) =>
      var seen := Visible(cfg.hub, s, caller, objectId);
      if seen.Ok? then Marked(s, objectId, RequireActor(cfg.hub, s, caller).value.name, now) else s
    case Expire(cutoff) => RemoveFrom(s, Doomed(s, cutoff))
    case _ => s
  }
}
