/**
 What each request answers and leaves, said of the actors, messages and marks themselves. Nothing
 here is stated through the functions that compute it.
 */
module Promises {
  import opened Outcomes
  import opened Ordering
  import opened Records
  import opened Rules
  import opened StorePort
  import opened Engine
  import opened Runs
  import opened Audiences
  import Addressing
  import Delivery
  import Naming
  import Text
  import Threads
  import Timestamps

  /** The request is answered with `answer` and leaves the store as `after`. */
  ghost predicate Does(cfg: Config, w: World, r: Request, answer: Response, after: Store)
    requires w.store.WellKeyed()
  {
    Respond(cfg, w.store, r) == answer && Step(cfg, w, r).store == after
  }

  ghost predicate IsRefused(cfg: Config, w: World, r: Request, e: Error)
    requires w.store.WellKeyed()
  {
    Does(cfg, w, r, Refused(e), w.store)
  }

  // ------------------------------------------------------------ joining

  /**
   A join with a name succeeds exactly if the normal form is not empty, reserved, too long or taken,
   and then stores a plain actor under it and changes nothing else.
   */
  lemma JoinMeans(cfg: Config, w: World, requested: string, now: Time)
    requires w.store.WellKeyed()
    ensures var n, s, r := Naming.Normalize(cfg.fold, requested), w.store, Join(requested, now);
      if n != "" && n !in {"local", "all", "any", "public", "me", "everyone", "admin", "host"} && |n| <= 64
         && n !in s.actors
      then
        var a := Actor(n, Service, Profile([], ""), now, now);
        Does(cfg, w, r, Who(a), s.(actors := s.actors[n := a]))
      else IsRefused(cfg, w, r, NameUnavailable)
  {
    hide Naming.Normalize, Naming.MatchesValid;
    var n := Naming.Normalize(cfg.fold, requested);
    Naming.ValidateGrants(cfg.fold, requested, n);
  }

  /** A join without a name stores a plain actor under the first free candidate, or fails if all are taken. */
  lemma IssuedJoinMeans(cfg: Config, w: World, candidates: seq<Name>, now: Time)
    requires w.store.WellKeyed()
    ensures var s, r := w.store, JoinIssued(candidates, now);
      if forall c | c in candidates :: c in s.actors then IsRefused(cfg, w, r, NameUnavailable)
      else
        exists i :: 0 <= i < |candidates| && candidates[i] !in s.actors
          && (forall j | 0 <= j < i :: candidates[j] in s.actors)
          && var a := Actor(candidates[i], Service, Profile([], ""), now, now);
             Does(cfg, w, r, Who(a), s.(actors := s.actors[candidates[i] := a]))
  {
    FirstFreeIsIssued(w.store, candidates, now);
  }

  /** A resident who is there is left alone; one who is not is created with the profile given. */
  lemma InstallMeans(cfg: Config, w: World, name: Name, profile: Profile, now: Time)
    requires w.store.WellKeyed()
    ensures var s, r := w.store, InstallResident(name, profile, now);
      if name in s.actors then Does(cfg, w, r, Who(s.actors[name]), s)
      else
        var a := Actor(name, Service, profile, now, now);
        Does(cfg, w, r, Who(a), s.(actors := s.actors[name := a]))
  {
  }

  lemma ClaimGroupMeans(cfg: Config, w: World, name: Name, now: Time)
    requires w.store.WellKeyed()
    ensures var s, r := w.store, ClaimGroup(name, now);
      if name in s.actors then Does(cfg, w, r, Found(None), s)
      else
        var a := Actor(name, Group, Profile([], ""), now, now);
        Does(cfg, w, r, Found(Some(a)), s.(actors := s.actors[name := a]))
  {
  }

  // ------------------------------------------------------------ identity

  /**
   A profile change stores the profile given, and with it which groups the caller is in; it renews
   the last-seen time and leaves name, type, creation time and everybody else alone.
   */
  lemma UpdateProfileMeans(cfg: Config, w: World, caller: string, profile: Profile, now: Time)
    requires w.store.WellKeyed()
    ensures var s, r := w.store, UpdateProfile(caller, profile, now);
      match Addressing.LocalName(caller, cfg.hub)
      case Err(e) => IsRefused(cfg, w, r, e)
      case Ok(n) =>
        if n !in s.actors then IsRefused(cfg, w, r, UnknownActor)
        else
          var a := Actor(n, s.actors[n].kind, profile, s.actors[n].created, now);
          Does(cfg, w, r, Who(a), s.(actors := s.actors[n := a]))
  {
    hide Addressing.LocalName;
  }

  /** Afterwards the caller belongs to exactly the groups listed, and everybody else to those they did. */
  lemma UpdateProfileRegroups(cfg: Config, w: World, caller: string, profile: Profile, now: Time, g: Name, who: Name)
    requires w.store.WellKeyed()
    requires Addressing.LocalName(caller, cfg.hub).Ok? && Addressing.LocalName(caller, cfg.hub).value in w.store.actors
    ensures var after := Step(cfg, w, UpdateProfile(caller, profile, now)).store;
      (g in ContextIn(after).members && who in ContextIn(after).members[g]) <==>
        if who == Addressing.LocalName(caller, cfg.hub).value then g in profile.groups
        else who in w.store.actors && g in w.store.actors[who].profile.groups
  {
    hide Addressing.LocalName, ContextIn, Leave;
    UpdateProfileMeans(cfg, w, caller, profile, now);
    MembersAreThoseListing(Step(cfg, w, UpdateProfile(caller, profile, now)).store, g, who);
  }

  /** Looking up finds the stored actor; the directory is all of them; neither changes anything. */
  lemma LookupsMean(cfg: Config, w: World, name: Name)
    requires w.store.WellKeyed()
    ensures Does(cfg, w, Whois(name),
      Found(if name in w.store.actors then Some(w.store.actors[name]) else None), w.store)
    ensures Respond(cfg, w.store, Directory).People? && Step(cfg, w, Directory).store == w.store
    ensures forall a :: a in Respond(cfg, w.store, Directory).actors <==>
      a.name in w.store.actors && w.store.actors[a.name] == a
  {
    ActorsByName(w.store);
  }

  // ------------------------------------------------------------ sending

  ghost predicate Ascending(names: seq<Name>)
  {
    forall i, j | 0 <= i < j < |names| :: Less(names[i], names[j])
  }

  /** The parent asked for is stored and its author is party to it. */
  ghost predicate MayAnswer(s: Store, me: Name, parent: Option<Id>)
  {
    parent.Some? && parent.value in s.messages
      && (me == s.messages[parent.value].sender || Receives(s, s.messages[parent.value], me))
  }

  /** What was typed, as names, unless an `audience` was received; and everything received. */
  ghost predicate Documents(hub: string, d: Draft, document: Document)
  {
    && document.Keys == d.document.Keys + {"audience"}
    && (forall k | k in d.document :: document[k] == d.document[k])
    && ("audience" !in d.document ==>
          exists names :: document["audience"] == Listed(names) && |names| == |d.to + d.cc|
            && forall i | 0 <= i < |names| :: Addressing.LocalName((d.to + d.cc)[i], hub) == Ok(names[i]))
  }

  /** The message that a draft becomes: to whom, on what, saying what, when. */
  ghost predicate Carries(hub: string, s: Store, me: Name, d: Draft, id: Id, now: Time, o: Message)
  {
    && o.id == id && o.sender == me && o.content == d.body && o.summary == d.subject && o.published == now
    && Ascending(o.to) && Ascending(o.cc)
    && (forall x :: x in o.to <==> x != me && AddressedBy(hub, s, d.to, x))
    && (forall x :: x in o.cc <==> x != me && AddressedBy(hub, s, d.cc, x) && !AddressedBy(hub, s, d.to, x))
    && o.inReplyTo == (if MayAnswer(s, me, d.inReplyTo) then d.inReplyTo else None)
    && Documents(hub, d, o.document)
  }

  /** Some address reads as a name nobody here holds, no group has and is not `everyone`. */
  ghost predicate HasUnknown(hub: string, s: Store, texts: seq<string>)
  {
    exists i :: 0 <= i < |texts| && Addressing.LocalName(texts[i], hub).Ok?
                && !IsKnown(s, Addressing.LocalName(texts[i], hub).value)
  }

  /**
   A send is refused for its author, then for the first address that is not local, then for a name
   that is not known, in that order, and changes nothing; otherwise the message it answers is stored.
   */
  lemma SendMeans(cfg: Config, w: World, d: Draft, id: Id, now: Time)
    requires w.store.WellKeyed()
    ensures var s, r := w.store, Send(d, id, now);
      match Addressing.LocalName(d.caller, cfg.hub)
      case Err(e) => IsRefused(cfg, w, r, e)
      case Ok(me) =>
        if me !in s.actors then IsRefused(cfg, w, r, UnknownActor)
        else if exists e :: FirstRefused(cfg.hub, d.to + d.cc, e)
        then exists e :: FirstRefused(cfg.hub, d.to + d.cc, e) && IsRefused(cfg, w, r, e)
        else if HasUnknown(cfg.hub, s, d.to + d.cc) then IsRefused(cfg, w, r, UnknownRecipient)
        else
          && Respond(cfg, s, r).Note?
          && var o := Respond(cfg, s, r).message;
             Carries(cfg.hub, s, me, d, id, now, o) && Step(cfg, w, r).store == s.(messages := s.messages[id := o])
  {
    hide Addressing.LocalName, Compose, AddressedBy, Carries, FirstRefused, HasUnknown;
    ComposeMeans(cfg.hub, w.store, d, id, now);
    if Compose(cfg.hub, w.store, d, id, now).Ok? { CarriedId(cfg.hub, w.store, d, id, now); }
  }

  lemma CarriedId(hub: string, s: Store, d: Draft, id: Id, now: Time)
    requires s.WellKeyed() && Compose(hub, s, d, id, now).Ok?
    ensures Compose(hub, s, d, id, now).value.id == id
  {
    hide Addressing.LocalName, LocalNames, Attached, Resolve, SortNames, RequireActor, ContextIn, Known;
  }

  /** The same of the message that would be stored. */
  lemma ComposeMeans(hub: string, s: Store, d: Draft, id: Id, now: Time)
    requires s.WellKeyed()
    ensures var r := Compose(hub, s, d, id, now);
      match Addressing.LocalName(d.caller, hub)
      case Err(e) => r == Err(e)
      case Ok(me) =>
        if me !in s.actors then r == Err(UnknownActor)
        else if exists e :: FirstRefused(hub, d.to + d.cc, e)
        then exists e :: FirstRefused(hub, d.to + d.cc, e) && r == Err(e)
        else if HasUnknown(hub, s, d.to + d.cc) then r == Err(UnknownRecipient)
        else r.Ok? && Carries(hub, s, me, d, id, now, r.value)
  {
    hide Addressing.LocalName, LocalNames, Addressed, Attached, ContextIn, Known, Carries, FirstRefused, HasUnknown;
    if Addressing.LocalName(d.caller, hub).Ok? && Addressing.LocalName(d.caller, hub).value in s.actors {
      AddressesAreRead(hub, d);
      if LocalNames(hub, d.to).Ok? && LocalNames(hub, d.cc).Ok? {
        UnknownIsFound(hub, s, d);
        AddressedCarries(hub, s, Addressing.LocalName(d.caller, hub).value, d, id, now);
      }
    }
  }

  lemma RefusedBefore(hub: string, a: seq<string>, b: seq<string>, e: Error)
    requires FirstRefused(hub, a, e)
    ensures FirstRefused(hub, a + b, e)
  {
    hide Addressing.LocalName;
    var i :| 0 <= i < |a| && Addressing.LocalName(a[i], hub) == Err(e)
      && forall j | 0 <= j < i :: Addressing.LocalName(a[j], hub).Ok?;
    var all := a + b;
    assert Addressing.LocalName(all[i], hub) == Err(e);
    assert forall j | 0 <= j < i :: all[j] == a[j];
  }

  lemma RefusedAfter(hub: string, a: seq<string>, b: seq<string>, e: Error)
    requires FirstRefused(hub, b, e) && forall j | 0 <= j < |a| :: Addressing.LocalName(a[j], hub).Ok?
    ensures FirstRefused(hub, a + b, e)
  {
    hide Addressing.LocalName;
    var i :| 0 <= i < |b| && Addressing.LocalName(b[i], hub) == Err(e)
      && forall j | 0 <= j < i :: Addressing.LocalName(b[j], hub).Ok?;
    var all := a + b;
    assert all[|a| + i] == b[i];
    forall j | 0 <= j < |a| + i
      ensures Addressing.LocalName(all[j], hub).Ok?
    {
      assert all[j] == if j < |a| then a[j] else b[j - |a|];
    }
  }

  /** `to` is read before `cc`, and either stops at its first refusal. */
  lemma AddressesAreRead(hub: string, d: Draft)
    ensures LocalNames(hub, d.to).Err? ==> FirstRefused(hub, d.to + d.cc, LocalNames(hub, d.to).error)
    ensures LocalNames(hub, d.to).Ok? && LocalNames(hub, d.cc).Err? ==>
      FirstRefused(hub, d.to + d.cc, LocalNames(hub, d.cc).error)
    ensures LocalNames(hub, d.to).Ok? && LocalNames(hub, d.cc).Ok? ==> !exists e :: FirstRefused(hub, d.to + d.cc, e)
  {
    hide Addressing.LocalName, LocalNames;
    LocalNamesMean(hub, d.to);
    LocalNamesMean(hub, d.cc);
    if LocalNames(hub, d.to).Err? {
      hide FirstRefused;
      RefusedBefore(hub, d.to, d.cc, LocalNames(hub, d.to).error);
    } else if LocalNames(hub, d.cc).Err? {
      hide FirstRefused;
      RefusedAfter(hub, d.to, d.cc, LocalNames(hub, d.cc).error);
    } else {
      NamesInOrder(hub, d);
    }
  }

  /** The names read, one after another, are those of the addresses one after another. */
  lemma NamesInOrder(hub: string, d: Draft)
    requires LocalNames(hub, d.to).Ok? && LocalNames(hub, d.cc).Ok?
    ensures var names, all := LocalNames(hub, d.to).value + LocalNames(hub, d.cc).value, d.to + d.cc;
      |names| == |all| && forall i | 0 <= i < |names| :: Addressing.LocalName(all[i], hub) == Ok(names[i])
  {
    hide Addressing.LocalName, LocalNames;
    LocalNamesMean(hub, d.to);
    LocalNamesMean(hub, d.cc);
  }

  lemma UnknownIsFound(hub: string, s: Store, d: Draft)
    requires s.WellKeyed() && LocalNames(hub, d.to).Ok? && LocalNames(hub, d.cc).Ok?
    ensures Elements(LocalNames(hub, d.to).value + LocalNames(hub, d.cc).value) <= Known(ContextIn(s)) <==>
      !HasUnknown(hub, s, d.to + d.cc)
  {
    hide Addressing.LocalName, LocalNames, ContextIn, Known, IsKnown;
    NamesInOrder(hub, d);
    var names, all := LocalNames(hub, d.to).value + LocalNames(hub, d.cc).value, d.to + d.cc;
    forall word ensures word in Known(ContextIn(s)) <==> IsKnown(s, word) { KnownMeans(s, word); }
    if HasUnknown(hub, s, all) {
      var i :| 0 <= i < |all| && Addressing.LocalName(all[i], hub).Ok?
        && !IsKnown(s, Addressing.LocalName(all[i], hub).value);
      assert names[i] in Elements(names);
    }
    if n :| n in Elements(names) && n !in Known(ContextIn(s)) {
      var i :| 0 <= i < |names| && names[i] == n;
      assert Addressing.LocalName(all[i], hub) == Ok(n);
    }
  }

  lemma AttachedMeans(s: Store, me: Name, asked: Option<Id>)
    requires s.WellKeyed()
    ensures Attached(s.messages, me, asked, ContextIn(s)) == if MayAnswer(s, me, asked) then asked else None
  {
    hide ContextIn, IsParty, Receives;
    if asked.Some? && asked.value in s.messages { PartiesAreThoseMeant(s, s.messages[asked.value], me); }
  }

  lemma AddressedCarries(hub: string, s: Store, me: Name, d: Draft, id: Id, now: Time)
    requires s.WellKeyed() && LocalNames(hub, d.to).Ok? && LocalNames(hub, d.cc).Ok?
    ensures Carries(hub, s, me, d, id, now,
      Addressed(d, me, LocalNames(hub, d.to).value, LocalNames(hub, d.cc).value,
        Attached(s.messages, me, d.inReplyTo, ContextIn(s)), ContextIn(s), id, now))
  {
    hide Addressing.LocalName, LocalNames, Attached, ContextIn, Resolve, AddressedBy, MayAnswer;
    var to, cc := LocalNames(hub, d.to).value, LocalNames(hub, d.cc).value;
    var o := Addressed(d, me, to, cc, Attached(s.messages, me, d.inReplyTo, ContextIn(s)), ContextIn(s), id, now);
    AttachedMeans(s, me, d.inReplyTo);
    forall x
      ensures x in Resolve(Elements(to), ContextIn(s)) <==> AddressedBy(hub, s, d.to, x)
      ensures x in Resolve(Elements(cc), ContextIn(s)) <==> AddressedBy(hub, s, d.cc, x)
    {
      AddressesReach(hub, s, d.to, x);
      AddressesReach(hub, s, d.cc, x);
    }
    assert forall x :: x in o.to <==> x in Elements(o.to);
    assert forall x :: x in o.cc <==> x in Elements(o.cc);
    NamesInOrder(hub, d);
    TypedIsKept(hub, d, to + cc);
  }

  lemma TypedIsKept(hub: string, d: Draft, names: seq<Name>)
    requires |names| == |d.to + d.cc|
    requires forall i | 0 <= i < |names| :: Addressing.LocalName((d.to + d.cc)[i], hub) == Ok(names[i])
    ensures Documents(hub, d, Annotated(d.document, names))
  {
    hide Addressing.LocalName;
  }

  /** Addressing `everyone` by `to` or `cc` reaches every actor but the author. */
  lemma BroadcastReachesAll(cfg: Config, w: World, d: Draft, id: Id, now: Time, i: nat)
    requires w.store.WellKeyed() && Respond(cfg, w.store, Send(d, id, now)).Note?
    requires i < |d.to + d.cc| && Addressing.LocalName((d.to + d.cc)[i], cfg.hub) == Ok("everyone")
    ensures var o := Respond(cfg, w.store, Send(d, id, now)).message;
      (set x | x in o.to) + (set x | x in o.cc) == w.store.actors.Keys - {o.sender}
  {
    hide Addressing.LocalName, Compose, FirstRefused, HasUnknown, IsGroupName, Leave, Respond, Documents, MayAnswer;
    SendMeans(cfg, w, d, id, now);
    var s, all, o := w.store, d.to + d.cc, Respond(cfg, w.store, Send(d, id, now)).message;
    forall x | x in s.actors ensures AddressedBy(cfg.hub, s, d.to, x) || AddressedBy(cfg.hub, s, d.cc, x) {
      assert StandsFor(s, "everyone", x);
      if i < |d.to| { assert all[i] == d.to[i]; } else { assert all[i] == d.cc[i - |d.to|]; }
    }
  }

  // ------------------------------------------------------------ replying

  predicate StartsWithRe(t: string)
  {
    |t| >= 3 && (t[0] == 'r' || t[0] == 'R') && (t[1] == 'e' || t[1] == 'E') && t[2] == ':'
  }

  /** A subject given counts unless it is empty; the original's is prefixed unless it is already. */
  ghost predicate AnswersUnder(given: Option<string>, original: Option<string>, summary: Option<string>)
  {
    if given.Some? && given.value != "" then summary == given
    else if original.None? then summary == None
    else if StartsWithRe(original.value) then summary == original
    else summary == Some("Re: " + original.value)
  }

  lemma SubjectMeans(given: Option<string>, original: Message, caller: string, body: string)
    ensures AnswersUnder(given, original.summary, ReplyDraft(caller, original, body, given).subject)
  {
    if original.summary.Some? {
      var t := original.summary.value;
      if |t| >= 3 {
        assert "re:"[0] == 'r' && "re:"[1] == 'e' && "re:"[2] == ':';
        assert Text.Lower(t[..3]) == "re:" <==> forall i | 0 <= i < 3 :: Text.LowerChar(t[i]) == "re:"[i];
      }
    }
  }

  /** Finding a message for a caller: refused for who asks, then alike for what is absent and what is not theirs. */
  lemma VisibleMeans(hub: string, s: Store, caller: string, objectId: Id)
    requires s.WellKeyed()
    ensures var r := Visible(hub, s, caller, objectId);
      match Addressing.LocalName(caller, hub)
      case Err(e) => r == Err(e)
      case Ok(me) =>
        if me !in s.actors then r == Err(UnknownActor)
        else if MayAnswer(s, me, Some(objectId)) then r == Ok(s.messages[objectId])
        else r == Err(NoSuchMessage)
  {
    hide Addressing.LocalName, ContextIn, IsParty, Receives;
    if Addressing.LocalName(caller, hub).Ok? && objectId in s.messages {
      PartiesAreThoseMeant(s, s.messages[objectId], Addressing.LocalName(caller, hub).value);
    }
  }

  /** A reply: what it says, under which subject, on what, and to whom its parent's author's name stands for. */
  ghost predicate Answers(s: Store, me: Name, r: Request, o: Message)
    requires r.Reply? && r.objectId in s.messages
  {
    var original := s.messages[r.objectId];
    && o.id == r.id && o.sender == me && o.content == r.body && o.published == r.now
    && o.inReplyTo == Some(r.objectId) && AnswersUnder(r.subject, original.summary, o.summary)
    && Ascending(o.to) && (forall x :: x in o.to <==> x != me && StandsFor(s, original.sender, x)) && o.cc == []
    && o.document == map["audience" := Listed([original.sender])]
  }

  lemma ReplyMeans(cfg: Config, w: World, r: Request)
    requires Inv(cfg.hub, w) && r.Reply?
    ensures var s := w.store;
      match Addressing.LocalName(r.caller, cfg.hub)
      case Err(e) => IsRefused(cfg, w, r, e)
      case Ok(me) =>
        if me !in s.actors then IsRefused(cfg, w, r, UnknownActor)
        else if !MayAnswer(s, me, Some(r.objectId)) then IsRefused(cfg, w, r, NoSuchMessage)
        else
          && Respond(cfg, s, r).Note?
          && var o := Respond(cfg, s, r).message;
             Answers(s, me, r, o) && Step(cfg, w, r).store == s.(messages := s.messages[r.id := o])
  {
    hide Addressing.LocalName, Compose, Visible, ReplyDraft, MayAnswer, Answers, ParentGraph, WellAddressed, ReadsBack;
    VisibleMeans(cfg.hub, w.store, r.caller, r.objectId);
    if Visible(cfg.hub, w.store, r.caller, r.objectId).Ok? {
      ReplyAnswers(cfg.hub, w, r);
    }
  }

  lemma ReplyAnswers(hub: string, w: World, r: Request)
    requires Inv(hub, w) && r.Reply? && Visible(hub, w.store, r.caller, r.objectId).Ok?
    ensures Addressing.LocalName(r.caller, hub).Ok? && r.objectId in w.store.messages
    ensures var sent := ComposeReply(hub, w.store, r.caller, r.objectId, r.body, r.subject, r.id, r.now);
      sent.Ok? && sent.value.id == r.id
        && Answers(w.store, Addressing.LocalName(r.caller, hub).value, r, sent.value)
  {
    hide Addressing.LocalName, Compose, MayAnswer, Receives, StandsFor, ParentGraph, WellAddressed, Documents,
      AddressedBy, FirstRefused, HasUnknown, AnswersUnder;
    var s := w.store;
    VisibleMeans(hub, s, r.caller, r.objectId);
    var me, original := Addressing.LocalName(r.caller, hub).value, s.messages[r.objectId];
    Delivery.KnownToInv(hub, w, r.objectId);
    var d := ReplyDraft(r.caller, original, r.body, r.subject);
    SubjectMeans(r.subject, original, r.caller, r.body);
    assert d.to + d.cc == [original.sender];
    OneAddress(hub, s, original.sender);
    ComposeMeans(hub, s, d, r.id, r.now);
    assert Compose(hub, s, d, r.id, r.now).Ok?;
    var o := Compose(hub, s, d, r.id, r.now).value;
    assert Carries(hub, s, me, d, r.id, r.now, o);
    NoAddress(hub, s);
    assert forall x :: x !in o.cc;
    EmptyElements(o.cc);
    OneTyped(hub, d, original.sender, o.document);
  }

  /** A single address that reads back stands for what its name stands for, and is in order. */
  lemma OneAddress(hub: string, s: Store, name: Name)
    requires s.WellKeyed() && ReadsBack(hub, name) && name in s.actors
    ensures !exists e :: FirstRefused(hub, [name], e)
    ensures !HasUnknown(hub, s, [name])
    ensures forall x :: AddressedBy(hub, s, [name], x) <==> StandsFor(s, name, x)
  {
    hide Addressing.LocalName, StandsFor;
    assert Addressing.LocalName([name][0], hub) == Ok(name);
  }

  lemma NoAddress(hub: string, s: Store)
    ensures forall x :: !AddressedBy(hub, s, [], x)
  {
  }

  lemma OneTyped(hub: string, d: Draft, name: Name, document: Document)
    requires Documents(hub, d, document) && d.document == map[] && d.to + d.cc == [name] && ReadsBack(hub, name)
    ensures document == map["audience" := Listed([name])]
  {
    hide Addressing.LocalName;
    var names :| document["audience"] == Listed(names) && |names| == 1
      && forall i | 0 <= i < |names| :: Addressing.LocalName((d.to + d.cc)[i], hub) == Ok(names[i]);
    assert Addressing.LocalName((d.to + d.cc)[0], hub) == Ok(names[0]);
    assert names == [name];
  }

  // ------------------------------------------------------------ what is listed

  /** By time of sending; of two sent at one time the smaller id first. */
  ghost predicate OldestFirst(list: seq<Message>)
  {
    forall i, j | 0 <= i < j < |list| ::
      && !Less(list[j].published, list[i].published)
      && (list[i].published == list[j].published ==> Less(list[i].id, list[j].id))
  }

  lemma SortedIsOldestFirst(list: seq<Message>)
    requires IsSorted(list, Older)
    ensures OldestFirst(list)
  {
    forall i, j | 0 <= i < j < |list|
      ensures !Less(list[j].published, list[i].published)
      ensures list[i].published == list[j].published ==> Less(list[i].id, list[j].id)
    {
      assert Older(list[i], list[j]);
      LessIsAsymmetric(list[i].published, list[j].published);
      LessIsTotal(list[i].published, list[j].published);
      LessIsTotal(list[i].published, list[i].published);
    }
  }

  /** Where messages carry the strings of their instants, no later entry was sent before an earlier one. */
  lemma OldestFirstByInstant(list: seq<Message>, times: map<Id, Timestamps.Instant>)
    requires OldestFirst(list)
    requires forall o | o in list :: o.id in times && times[o.id].Valid() && o.published == Timestamps.Iso(times[o.id])
    ensures forall i, j | 0 <= i < j < |list| :: !times[list[j].id].IsBefore(times[list[i].id])
  {
    hide Timestamps.Iso, Less;
    forall i, j | 0 <= i < j < |list|
      ensures !times[list[j].id].IsBefore(times[list[i].id])
    {
      assert list[i] in list && list[j] in list;
      Timestamps.StringOrderIsTimeOrder(times[list[j].id], times[list[i].id]);
    }
  }

  /** A store's listing holds every message once, oldest first. */
  lemma ListingMeans(m: Messages)
    requires Keyed(m)
    ensures OldestFirst(Listing(m)) && forall o :: o in Listing(m) <==> o.id in m && m[o.id] == o
  {
    hide Older;
    SortedIsOldestFirst(Listing(m));
    forall o ensures o in m.Values <==> o.id in m && m[o.id] == o {
      if o in m.Values { var id :| id in m && m[id] == o; }
    }
  }

  /** `peek` lists, oldest first, what the caller receives and has not read. */
  lemma PeekMeans(cfg: Config, w: World, caller: string)
    requires w.store.WellKeyed()
    ensures var s, r := w.store, Peek(caller);
      match Addressing.LocalName(caller, cfg.hub)
      case Err(e) => IsRefused(cfg, w, r, e)
      case Ok(me) =>
        if me !in s.actors then IsRefused(cfg, w, r, UnknownActor)
        else
          && Step(cfg, w, r).store == s && Respond(cfg, s, r).Notes?
          && var list := Respond(cfg, s, r).messages;
             OldestFirst(list) && forall o :: o in list <==>
               o.id in s.messages && s.messages[o.id] == o && (o.id, me) !in s.marks && Receives(s, o, me)
  {
    hide Addressing.LocalName, Receives, IsSorted, Older, DeliversTo, Unread, Listing, ReadBy, ContextIn, OldestFirst;
    var s := w.store;
    if Addressing.LocalName(caller, cfg.hub).Ok? && Addressing.LocalName(caller, cfg.hub).value in s.actors {
      var me := s.actors[Addressing.LocalName(caller, cfg.hub).value].name;
      Delivery.UnreadIsWaiting(s, me);
      SortedIsOldestFirst(Waiting(cfg.hub, s, caller).value);
      forall o ensures DeliversTo(o, me, ContextIn(s)) <==> Receives(s, o, me) { PartiesAreThoseMeant(s, o, me); }
    }
  }

  /** A thread listing holds, oldest first, the turns with that root that the caller wrote or receives. */
  lemma ReadThreadMeans(cfg: Config, w: World, caller: string, root: Id)
    requires w.store.WellKeyed()
    ensures var s, r := w.store, ReadThread(caller, root);
      match Addressing.LocalName(caller, cfg.hub)
      case Err(e) => IsRefused(cfg, w, r, e)
      case Ok(me) =>
        if me !in s.actors then IsRefused(cfg, w, r, UnknownActor)
        else
          && Step(cfg, w, r).store == s && Respond(cfg, s, r).Notes?
          && var list := Respond(cfg, s, r).messages;
             OldestFirst(list) && forall o :: o in list <==>
               o.id in s.messages && s.messages[o.id] == o && RootOf(s.messages, o.id) == root
               && (me == o.sender || Receives(s, o, me))
  {
    hide Addressing.LocalName, Receives, IsSorted, Older, IsParty, VisibleTurns, Listing, ContextIn, OldestFirst,
      RootOf;
    var s := w.store;
    if Addressing.LocalName(caller, cfg.hub).Ok? && Addressing.LocalName(caller, cfg.hub).value in s.actors {
      var me := s.actors[Addressing.LocalName(caller, cfg.hub).value].name;
      Threads.ViewersSeeTheirTurns(s.messages, root, me, ContextIn(s));
      SortedIsOldestFirst(VisibleTurns(Listing(s.messages), root, me, ContextIn(s)));
      forall o ensures IsParty(o, me, ContextIn(s)) <==> me == o.sender || Receives(s, o, me) {
        PartiesAreThoseMeant(s, o, me);
      }
    }
  }

  // ------------------------------------------------------------ viewing, reading, expiring

  /** Its author and receivers get a message as stored; a read also marks it, the first time only. */
  lemma SeeingMeans(cfg: Config, w: World, caller: string, objectId: Id, now: Time)
    requires w.store.WellKeyed()
    ensures var s, view, read := w.store, View(caller, objectId), Read(caller, objectId, now);
      match Addressing.LocalName(caller, cfg.hub)
      case Err(e) => IsRefused(cfg, w, view, e) && IsRefused(cfg, w, read, e)
      case Ok(me) =>
        if me !in s.actors then IsRefused(cfg, w, view, UnknownActor) && IsRefused(cfg, w, read, UnknownActor)
        else if !MayAnswer(s, me, Some(objectId)) then
          IsRefused(cfg, w, view, NoSuchMessage) && IsRefused(cfg, w, read, NoSuchMessage)
        else
          && Does(cfg, w, view, Note(s.messages[objectId]), s)
          && Does(cfg, w, read, Note(s.messages[objectId]),
               if (objectId, me) in s.marks then s else s.(marks := s.marks[(objectId, me) := now]))
  {
    hide Addressing.LocalName, Visible, MayAnswer;
    VisibleMeans(cfg.hub, w.store, caller, objectId);
  }

  /** The turns of the message's thread were all sent before the cutoff. */
  ghost predicate HasGoneQuiet(m: Messages, id: Id, cutoff: Time)
  {
    id in m && forall j | j in m && RootOf(m, j) == RootOf(m, id) :: Less(m[j].published, cutoff)
  }

  /** Expiry removes the messages of quiet threads with their marks, counts them, and touches nothing else. */
  lemma ExpireMeans(cfg: Config, w: World, cutoff: Option<Time>)
    requires w.store.WellKeyed()
    ensures var s, r := w.store, Expire(cutoff);
      if cutoff.None? then Does(cfg, w, r, Count(0), s)
      else
        var after := Step(cfg, w, r).store;
        && Respond(cfg, s, r) == Count(|s.messages| - |after.messages|)
        && after.actors == s.actors
        && (forall id :: id in after.messages <==> id in s.messages && !HasGoneQuiet(s.messages, id, cutoff.value))
        && (forall id | id in after.messages :: after.messages[id] == s.messages[id])
        && (forall k :: k in after.marks <==> k in s.marks && !HasGoneQuiet(s.messages, k.0, cutoff.value))
        && (forall k | k in after.marks :: after.marks[k] == s.marks[k])
  {
    hide RootOf, Less;
    RemoveNone(w.store);
    if cutoff.Some? {
      var m, gone := w.store.messages, Threads.Expired(w.store.messages, cutoff.value);
      Threads.ExpiredIsStored(m, cutoff.value);
      forall id ensures id in gone <==> HasGoneQuiet(m, id, cutoff.value) {}
      assert (m - gone).Keys == m.Keys - gone;
      assert |m| == |m.Keys| && |m - gone| == |(m - gone).Keys|;
    }
  }
}
