/**
 Whom a name stands for and who is party to a message, said of the stored actors and their profiles
 alone. The rules compute it through a context of names and memberships; here that is proved right.
 */
module Audiences {
  import opened Outcomes
  import opened Ordering
  import opened Records
  import opened Rules
  import opened StorePort
  import opened Engine
  import Addressing

  /** Some profile lists it as a group, or it is the name of an actor that is a group. */
  ghost predicate IsGroupName(s: Store, g: Name)
  {
    exists n :: n in s.actors && (g in s.actors[n].profile.groups || (s.actors[n].kind.Group? && n == g))
  }

  /** `everyone` stands for every actor, a group name for whoever lists it, any other for itself. */
  ghost predicate StandsFor(s: Store, word: Name, who: Name)
  {
    && who in s.actors
    && (word == "everyone"
        || (if IsGroupName(s, word) then word in s.actors[who].profile.groups else who == word))
  }

  /** A name that a message may be sent to. */
  ghost predicate IsKnown(s: Store, word: Name)
  {
    word == "everyone" || IsGroupName(s, word) || word in s.actors
  }

  /** The names in a message stand for this actor, who did not write it. */
  ghost predicate Receives(s: Store, o: Message, who: Name)
  {
    who != o.sender && exists word :: (word in o.to || word in o.cc) && StandsFor(s, word, who)
  }

  lemma ActorsByName(s: Store)
    requires s.WellKeyed()
    ensures forall a :: a in s.ActorSet() <==> a.name in s.actors && s.actors[a.name] == a
    ensures ContextIn(s).actors == s.actors.Keys
  {
    forall a ensures a in s.ActorSet() <==> a.name in s.actors && s.actors[a.name] == a {
      if a in s.ActorSet() { var n :| n in s.actors && s.actors[n] == a; }
    }
    forall n | n in s.actors ensures n in ContextIn(s).actors { assert s.actors[n] in s.ActorSet(); }
  }

  lemma GroupsAreListed(s: Store, g: Name)
    requires s.WellKeyed()
    ensures g in ContextIn(s).members <==> IsGroupName(s, g)
  {
    ActorsByName(s);
    var actors := s.ActorSet();
    if g in GroupNames(actors) {
      var a :| a in actors && ((a.kind.Group? && a.name == g) || g in a.profile.groups);
      assert s.actors[a.name] == a;
    }
    if IsGroupName(s, g) {
      var n :| n in s.actors && (g in s.actors[n].profile.groups || (s.actors[n].kind.Group? && n == g));
      assert s.actors[n] in actors && s.actors[n].name == n;
    }
  }

  /** A group's members are exactly the actors whose profiles list it. */
  lemma MembersAreThoseListing(s: Store, g: Name, who: Name)
    requires s.WellKeyed()
    ensures (g in ContextIn(s).members && who in ContextIn(s).members[g]) <==>
      who in s.actors && g in s.actors[who].profile.groups
  {
    ActorsByName(s);
    GroupsAreListed(s, g);
    var actors := s.ActorSet();
    if g in ContextIn(s).members && who in ContextIn(s).members[g] {
      var a :| a in actors && g in a.profile.groups && a.name == who;
      assert s.actors[a.name] == a;
    }
    if who in s.actors && g in s.actors[who].profile.groups {
      assert IsGroupName(s, g);
      assert s.actors[who] in actors && s.actors[who].name == who;
    }
  }

  lemma ResolvesToThoseMeant(s: Store, word: Name, who: Name)
    requires s.WellKeyed()
    ensures who in ResolveName(word, ContextIn(s)) <==> StandsFor(s, word, who)
  {
    hide ContextIn, IsGroupName;
    ActorsByName(s);
    GroupsAreListed(s, word);
    MembersAreThoseListing(s, word, who);
  }

  lemma ResolveMeans(s: Store, names: set<Name>, who: Name)
    requires s.WellKeyed()
    ensures who in Resolve(names, ContextIn(s)) <==> exists word :: word in names && StandsFor(s, word, who)
  {
    hide ContextIn, ResolveName, StandsFor, Resolve;
    forall word ensures who in ResolveName(word, ContextIn(s)) <==> StandsFor(s, word, who) {
      ResolvesToThoseMeant(s, word, who);
    }
  }

  /** Mail is delivered to whoever receives it, and its author and receivers are its parties. */
  lemma PartiesAreThoseMeant(s: Store, o: Message, who: Name)
    requires s.WellKeyed()
    ensures DeliversTo(o, who, ContextIn(s)) <==> Receives(s, o, who)
    ensures IsParty(o, who, ContextIn(s)) <==> who == o.sender || Receives(s, o, who)
  {
    hide ContextIn, StandsFor, Resolve;
    ResolveMeans(s, o.Audience(), who);
    assert forall word :: word in o.Audience() <==> word in o.to || word in o.cc;
  }

  lemma KnownMeans(s: Store, word: Name)
    requires s.WellKeyed()
    ensures word in Known(ContextIn(s)) <==> IsKnown(s, word)
  {
    hide ContextIn, IsGroupName;
    ActorsByName(s);
    GroupsAreListed(s, word);
  }

  // ------------------------------------------------------------ addresses

  /** The first of the texts that is no local address, and why. */
  ghost predicate FirstRefused(hub: string, texts: seq<string>, e: Error)
  {
    exists i :: 0 <= i < |texts| && Addressing.LocalName(texts[i], hub) == Err(e)
                && forall j | 0 <= j < i :: Addressing.LocalName(texts[j], hub).Ok?
  }

  /** Each address is read in place; the first that cannot be decides the error. */
  lemma {:induction false} LocalNamesMean(hub: string, texts: seq<string>)
    ensures match LocalNames(hub, texts)
      case Ok(names) =>
        |names| == |texts| && forall i | 0 <= i < |texts| :: Addressing.LocalName(texts[i], hub) == Ok(names[i])
      case Err(e) => FirstRefused(hub, texts, e)
  {
    hide Addressing.LocalName;
    if texts != [] {
      LocalNamesMean(hub, texts[1..]);
      var first, rest := Addressing.LocalName(texts[0], hub), LocalNames(hub, texts[1..]);
      if first.Ok? && rest.Err? {
        var i :| 0 <= i < |texts[1..]| && Addressing.LocalName(texts[1..][i], hub) == Err(rest.error)
          && forall j | 0 <= j < i :: Addressing.LocalName(texts[1..][j], hub).Ok?;
        assert texts[i + 1] == texts[1..][i];
        forall j | 0 <= j < i + 1 ensures Addressing.LocalName(texts[j], hub).Ok? {
          if j > 0 { assert texts[j] == texts[1..][j - 1]; }
        }
      } else if first.Err? {
        assert Addressing.LocalName(texts[0], hub) == Err(first.error);
      }
    }
  }

  /** One of the texts reads as a name that stands for this actor. */
  ghost predicate AddressedBy(hub: string, s: Store, texts: seq<string>, who: Name)
  {
    exists i :: 0 <= i < |texts| && Addressing.LocalName(texts[i], hub).Ok?
                && StandsFor(s, Addressing.LocalName(texts[i], hub).value, who)
  }

  lemma AddressesReach(hub: string, s: Store, texts: seq<string>, who: Name)
    requires s.WellKeyed() && LocalNames(hub, texts).Ok?
    ensures who in Resolve(Elements(LocalNames(hub, texts).value), ContextIn(s)) <==> AddressedBy(hub, s, texts, who)
  {
    hide ContextIn, StandsFor, Resolve, Addressing.LocalName, LocalNames;
    LocalNamesMean(hub, texts);
    var names := LocalNames(hub, texts).value;
    ResolveMeans(s, Elements(names), who);
    if AddressedBy(hub, s, texts, who) {
      var i :| 0 <= i < |texts| && Addressing.LocalName(texts[i], hub).Ok?
        && StandsFor(s, Addressing.LocalName(texts[i], hub).value, who);
      assert names[i] in Elements(names);
    }
    if word :| word in Elements(names) && StandsFor(s, word, who) {
      var i :| 0 <= i < |names| && names[i] == word;
    }
  }
}
