/** The application layer: fetch, decide, persist. Each method does what the engine says it does. */
module Mailboxes {
  import opened Outcomes
  import opened Ordering
  import opened Records
  import opened Rules
  import opened StorePort
  import opened InMemory
  import opened Engine
  import Addressing
  import Naming
  import Threads

  class Mailbox {
    const store: InMemoryStore
    const hub: string
    const fold: string -> string

    constructor (store: InMemoryStore, hub: string, fold: string -> string)
      ensures this.store == store && this.hub == hub && this.fold == fold
    {
      this.store, this.hub, this.fold := store, hub, fold;
    }

    /** Who exists and which groups they are in. */
    method FetchContext() returns (ctx: Context)
      requires store.Valid()
      ensures ctx == ContextIn(store.View())
    {
      var actors := store.Actors();
      var members := GroupMemberships(actors);
      ctx := Context(set a | a in actors :: a.name, members);
      assert (set a | a in actors :: a.name) == (set a | a in Elements(actors) :: a.name);
    }

    method FetchActor(text: string) returns (r: Result<Actor>)
      requires store.Valid()
      ensures r == RequireActor(hub, store.View(), text)
    {
      hide Addressing.LocalName, InMemory.Flatten, InMemoryStore.DirectoryValid, Keyed, FiledByReader;
      var resolved := Addressing.LocalName(text, hub);
      if resolved.Err? {
        return Err(resolved.error);
      }
      var actor := store.GetActor(resolved.value);
      return if actor.None? then Err(UnknownActor) else Ok(actor.value);
    }

    method Join(requested: string, now: Time) returns (r: Result<Actor>)
      requires store.Valid()
      modifies store
      ensures store.Valid()
      ensures r == GrantName(fold, old(store.View()), requested, now)
      ensures store.View() == if r.Ok? then Claimed(old(store.View()), r.value) else old(store.View())
    {
      var name := Naming.Validate(fold, requested);
      if name.Err? {
        return Err(name.error);
      }
      var actor := NewActor(name.value, NO_PROFILE, now);
      var claimed := store.ClaimName(actor);
      return if claimed then Ok(actor) else Err(NameUnavailable);
    }

    /** Names are issued from those the generator proposes, first free one first. */
    method JoinIssued(candidates: seq<Name>, now: Time) returns (r: Result<Actor>)
      requires store.Valid()
      modifies store
      ensures store.Valid()
      ensures r == IssueName(old(store.View()), candidates, now)
      ensures store.View() == if r.Ok? then Claimed(old(store.View()), r.value) else old(store.View())
    {
      ghost var before := store.View();
      for i := 0 to |candidates|
        invariant store.Valid() && store.View() == before
        invariant IssueName(before, candidates, now) == IssueName(before, candidates[i..], now)
      {
        assert candidates[i..][1..] == candidates[i + 1..];
        var actor := NewActor(candidates[i], NO_PROFILE, now);
        var claimed := store.ClaimName(actor);
        if claimed {
          return Ok(actor);
        }
      }
      return Err(NameUnavailable);
    }

    method InstallResident(name: Name, profile: Profile, now: Time) returns (actor: Actor)
      requires store.Valid()
      modifies store
      ensures store.Valid()
      ensures actor == Resident(old(store.View()), name, profile, now)
      ensures store.View() == Claimed(old(store.View()), NewActor(name, profile, now))
    {
      actor := NewActor(name, profile, now);
      var claimed := store.ClaimName(actor);
      if claimed {
        return;
      }
      var existing := store.GetActor(name);
      return if existing.Some? then existing.value else actor;
    }

    method UpdateProfile(caller: string, profile: Profile, now: Time) returns (r: Result<Actor>)
      requires store.Valid()
      modifies store
      ensures store.Valid()
      ensures r == NewProfile(hub, old(store.View()), caller, profile, now)
      ensures store.View() == if r.Ok?
        then old(store.View()).(actors := old(store.View()).actors[r.value.name := r.value])
        else old(store.View())
    {
      hide IsParty, ContextOf, Addressing.LocalName, Flatten;
      var actor :- FetchActor(caller);
      var updated := Actor(actor.name, actor.kind, profile, actor.created, now);
      store.PutActor(updated);
      return Ok(updated);
    }

    /** Send a message. A parent the caller may not attach to is dropped in silence. */
    method Send(draft: Draft, id: Id, now: Time) returns (r: Result<Message>)
      requires store.Valid()
      modifies store
      ensures store.Valid()
      ensures r == Compose(hub, old(store.View()), draft, id, now)
      ensures store.View() == Stored(old(store.View()), r)
    {
      hide IsParty, ContextOf, Addressing.LocalName, InMemory.Flatten, Resolve, SortNames, Listing, MayAttachTo,
        LocalNames, InMemoryStore.DirectoryValid, FiledByReader, Keyed;
      var actor :- FetchActor(draft.caller);
      var sender := actor.name;
      var recipients :- LocalNames(hub, draft.to);
      var copies :- LocalNames(hub, draft.cc);
      var ctx := FetchContext();
      if exists name | name in recipients + copies :: name !in Known(ctx) {
        return Err(UnknownRecipient);
      }
      var parent := draft.inReplyTo;
      if parent.Some? {
        var objects := store.Objects();
        AttachRule(store.View().messages, sender, parent, ctx);
        if !MayAttachTo(objects, sender, parent, ctx) {
          parent := None;
        }
      }
      var addressed := ResolveAudience(recipients, ctx);
      var copied := ResolveAudience(copies, ctx);
      var reached := addressed - {sender};
      var also := copied - {sender} - reached;
      var o := Message(id, sender, SortNames(reached), SortNames(also), parent, draft.subject, draft.body, now,
        map["audience" := Listed(recipients + copies)] + draft.document);
      store.AddObject(o);
      return Ok(o);
    }

    method VisibleObject(caller: string, objectId: Id) returns (r: Result<Message>)
      requires store.Valid()
      ensures r == Visible(hub, store.View(), caller, objectId)
    {
      hide IsParty, ContextOf, Addressing.LocalName, Flatten;
      var me :- FetchActor(caller);
      var o := store.GetObject(objectId);
      if o.None? {
        return Err(NoSuchMessage);
      }
      var ctx := FetchContext();
      return if IsParty(o.value, me.name, ctx) then Ok(o.value) else Err(NoSuchMessage);
    }

    method Reply(caller: string, objectId: Id, body: string, subject: Option<string>, id: Id, now: Time)
      returns (r: Result<Message>)
      requires store.Valid()
      modifies store
      ensures store.Valid()
      ensures r == ComposeReply(hub, old(store.View()), caller, objectId, body, subject, id, now)
      ensures store.View() == Stored(old(store.View()), r)
    {
      hide IsParty, ContextOf, Addressing.LocalName, Flatten;
      var original :- VisibleObject(caller, objectId);
      r := Send(ReplyDraft(caller, original, body, subject), id, now);
    }

    /** What is waiting, without consuming any of it. */
    method Peek(caller: string) returns (r: Result<seq<Message>>)
      requires store.Valid()
      ensures r == Waiting(hub, store.View(), caller)
    {
      hide IsParty, ContextOf, Addressing.LocalName, Flatten, Listing, DeliversTo, Unread, ReadBy, MarksOf,
        InMemoryStore.DirectoryValid, FiledByReader, Keyed;
      var me :- FetchActor(caller);
      var ctx := FetchContext();
      var objects := store.Objects();
      var ids := seq(|objects|, i requires 0 <= i < |objects| => objects[i].id);
      var marks := store.ReadsOf(ids);
      var already := set id | id in marks && exists m: ReadMark | m in marks[id] :: m.reader == me.name;
      assert already == ReadBy(store.View(), me.name) by {
        ReadIds(store.View(), objects, ids, marks, me.name);
      }
      return Ok(Unread(objects, me.name, already, ctx));
    }

    /** The only call that acknowledges mail, for this reader only. */
    method Read(caller: string, objectId: Id, now: Time) returns (r: Result<Message>)
      requires store.Valid()
      modifies store
      ensures store.Valid()
      ensures r == Visible(hub, old(store.View()), caller, objectId)
      ensures r.Ok? ==> RequireActor(hub, old(store.View()), caller).Ok?
      ensures store.View() == if r.Ok?
        then Marked(old(store.View()), objectId, RequireActor(hub, old(store.View()), caller).value.name, now)
        else old(store.View())
    {
      hide IsParty, ContextOf, Addressing.LocalName, Flatten;
      var me :- FetchActor(caller);
      var o :- VisibleObject(caller, objectId);
      var first := store.MarkRead(ReadMark(o.id, me.name, now));
      return Ok(o);
    }

    method Thread(caller: string, root: Id) returns (r: Result<seq<Message>>)
      requires store.Valid()
      ensures r == TurnsOf(hub, store.View(), caller, root)
    {
      hide IsParty, ContextOf, Addressing.LocalName, Flatten, Listing, VisibleTurns;
      var me :- FetchActor(caller);
      var ctx := FetchContext();
      var objects := store.Objects();
      return Ok(VisibleTurns(objects, root, me.name, ctx));
    }

    /** Remove conversations that have gone quiet; `None` when retention is disabled. */
    method Expire(cutoff: Option<Time>) returns (removed: nat)
      requires store.Valid()
      modifies store
      ensures store.Valid()
      ensures removed == |Doomed(old(store.View()), cutoff)|
      ensures store.View() == RemoveFrom(old(store.View()), Doomed(old(store.View()), cutoff))
    {
      hide Flatten, Threads.Expired, IdleIds, Listing, RemoveFrom;
      if cutoff.None? {
        RemoveNone(store.View());
        return 0;
      }
      var objects := store.Objects();
      var doomed := ExpiredObjectIds(objects, cutoff.value);
      Threads.ExpiredOfListing(store.View().messages, cutoff.value);
      if doomed == {} {
        RemoveNone(store.View());
        return 0;
      }
      Threads.ExpiredIsStored(store.View().messages, cutoff.value);
      assert doomed * store.View().messages.Keys == doomed;
      removed := store.RemoveObjects(SortNames(doomed));
    }
  }

  /** The consumed ids found through the read table are those of the stored messages read. */
  lemma ReadIds(s: Store, objects: seq<Message>, ids: seq<Id>, marks: map<Id, set<ReadMark>>, reader: Name)
    requires s.WellKeyed() && objects == Listing(s.messages)
    requires |ids| == |objects| && forall i | 0 <= i < |ids| :: ids[i] == objects[i].id
    requires marks == MarksOf(s, Elements(ids))
    ensures (set id | id in marks && exists m: ReadMark | m in marks[id] :: m.reader == reader) == ReadBy(s, reader)
  {
    forall id
      ensures id in ids <==> id in s.messages
    {
      if id in s.messages {
        assert s.messages[id] in objects;
        var i :| 0 <= i < |objects| && objects[i] == s.messages[id];
        assert ids[i] == id;
      }
      if id in ids {
        var i :| 0 <= i < |ids| && ids[i] == id;
        assert objects[i] in objects;
      }
    }
    forall id | id in s.messages
      ensures (exists m | m in marks[id] :: m.reader == reader) <==> (id, reader) in s.marks
    {
      if (id, reader) in s.marks { assert ReadMark(id, reader, s.marks[(id, reader)]) in marks[id]; }
    }
  }
}
