/** The messaging rules: membership, delivery, visibility, attachment, threading, expiry. */
module Rules {
  import opened Outcomes
  import opened Ordering
  import opened Records
  import FunctionalGraph
  import Naming

  // ------------------------------------------------------------ membership

  /** Who exists, and which groups they are in. */
  datatype Context = Context(actors: set<Name>, members: map<Name, set<Name>>)

  /** A name is a group if a Group actor holds it or some profile lists it. */
  function GroupNames(actors: set<Actor>): set<Name>
  {
    (set a | a in actors && a.kind.Group? :: a.name) + (set a, g | a in actors && g in a.profile.groups :: g)
  }

  function Memberships(actors: set<Actor>): map<Name, set<Name>>
  {
    map g | g in GroupNames(actors) :: set a | a in actors && g in a.profile.groups :: a.name
  }

  function ContextOf(actors: set<Actor>): Context
  {
    Context(set a | a in actors :: a.name, Memberships(actors))
  }

  /** `members.setdefault(group, set())`. */
  function SetDefault(members: map<Name, set<Name>>, group: Name): map<Name, set<Name>>
  {
    if group in members then members else members[group := {}]
  }

  /** `after` is `before` with `name` enrolled in each of `groups`. */
  ghost predicate Enrolled(
    before: map<Name, set<Name>>, after: map<Name, set<Name>>, name: Name, groups: set<Name>)
  {
    && after.Keys == before.Keys + groups
    && forall g | g in after ::
         after[g] == ((if g in before then before[g] else {}) + (if g in groups then {name} else {}))
  }

  /** The inner loop of `group_memberships`: enrol one actor in every group it lists. */
  method Enrol(start: map<Name, set<Name>>, name: Name, groups: seq<Name>) returns (members: map<Name, set<Name>>)
    ensures Enrolled(start, members, name, Elements(groups))
  {
    members := start;
    for j := 0 to |groups|
      invariant Enrolled(start, members, name, Elements(groups[..j]))
    {
      var group := groups[j];
      members := SetDefault(members, group);
      members := members[group := members[group] + {name}];
      ElementsGrow(groups, j);
    }
    assert groups[..|groups|] == groups;
  }

  method GroupMemberships(actors: seq<Actor>) returns (members: map<Name, set<Name>>)
    ensures members == Memberships(Elements(actors))
  {
    members := map[];
    for i := 0 to |actors|
      invariant members == Memberships(Elements(actors[..i]))
    {
      var actor := actors[i];
      var named := if actor.kind.Group? then SetDefault(members, actor.name) else members;
      members := Enrol(named, actor.name, actor.profile.groups);
      ElementsGrow(actors, i);
      AddActor(Elements(actors[..i]), actor, named, members);
    }
    assert actors[..|actors|] == actors;
  }

  lemma AddActor(
    actors: set<Actor>, actor: Actor, named: map<Name, set<Name>>, members: map<Name, set<Name>>)
    requires named == if actor.kind.Group? then SetDefault(Memberships(actors), actor.name) else Memberships(actors)
    requires Enrolled(named, members, actor.name, Elements(actor.profile.groups))
    ensures members == Memberships(actors + {actor})
  {
    hide GroupNames;
    AddActorNames(actors, actor);
    var after := Memberships(actors + {actor});
    assert members.Keys == after.Keys;
    forall g | g in after
      ensures members[g] == after[g]
    {
      AddActorTo(actors, actor, g);
    }
  }

  lemma AddActorNames(actors: set<Actor>, actor: Actor)
    ensures GroupNames(actors + {actor}) ==
      GroupNames(actors) + (if actor.kind.Group? then {actor.name} else {}) + Elements(actor.profile.groups)
  {
    var all := actors + {actor};
    var split := GroupNames(actors) + (if actor.kind.Group? then {actor.name} else {}) + Elements(actor.profile.groups);
    forall g | g in GroupNames(all) ensures g in split {}
    forall g | g in split ensures g in GroupNames(all) {}
  }

  lemma AddActorTo(actors: set<Actor>, actor: Actor, g: Name)
    requires g in GroupNames(actors + {actor})
    ensures Memberships(actors + {actor})[g] ==
      ((if g in GroupNames(actors) then Memberships(actors)[g] else {})
        + (if g in actor.profile.groups then {actor.name} else {}))
  {
    forall n | n in Memberships(actors + {actor})[g]
      ensures (g in GroupNames(actors) && n in Memberships(actors)[g])
        || (g in actor.profile.groups && n == actor.name)
    {
      var a :| a in actors + {actor} && g in a.profile.groups && a.name == n;
      if a in actors { assert g in GroupNames(actors); }
    }
    if g in GroupNames(actors) {
      forall n | n in Memberships(actors)[g] ensures n in Memberships(actors + {actor})[g] {
        var a :| a in actors && g in a.profile.groups && a.name == n;
        assert a in actors + {actor};
      }
    }
  }

  // ------------------------------------------------------------ delivery

  /** The actors one addressed name stands for: groups are looked up before actors. */
  function ResolveName(name: Name, ctx: Context): set<Name>
  {
    if name == Naming.EVERYONE then ctx.actors
    else if name in ctx.members then ctx.members[name]
    else if name in ctx.actors then {name}
    else {}
  }

  function Resolve(names: set<Name>, ctx: Context): (r: set<Name>)
    ensures forall x :: x in r <==> exists n :: n in names && x in ResolveName(n, ctx)
  {
    set n, x | n in names && x in ResolveName(n, ctx) :: x
  }

  method ResolveAudience(names: seq<Name>, ctx: Context) returns (resolved: set<Name>)
    ensures resolved == Resolve(Elements(names), ctx)
  {
    resolved := {};
    assert Elements(names[..0]) == {} && Resolve({}, ctx) == {};
    hide Resolve, Elements;
    for i := 0 to |names|
      invariant resolved == Resolve(Elements(names[..i]), ctx)
    {
      var name := names[i];
      if name == Naming.EVERYONE {
        resolved := resolved + ctx.actors;
      } else if name in ctx.members {
        resolved := resolved + ctx.members[name];
      } else if name in ctx.actors {
        resolved := resolved + {name};
      }
      ElementsGrow(names, i);
      ResolveJoins(Elements(names[..i]), {name}, ctx);
      ResolveOne(name, ctx);
    }
    assert names[..|names|] == names;
  }

  lemma ResolveOne(name: Name, ctx: Context)
    ensures Resolve({name}, ctx) == ResolveName(name, ctx)
  {
  }

  /** Resolution distributes over joining two lists of names. */
  lemma ResolveJoins(a: set<Name>, b: set<Name>, ctx: Context)
    ensures Resolve(a + b, ctx) == Resolve(a, ctx) + Resolve(b, ctx)
  {
  }

  /** Everyone addressed, except the sender. */
  function Recipients(o: Message, ctx: Context): set<Name>
  {
    Resolve(o.Audience(), ctx) - {o.sender}
  }

  predicate DeliversTo(o: Message, reader: Name, ctx: Context)
  {
    reader in Recipients(o, ctx)
  }

  predicate IsParty(o: Message, actor: Name, ctx: Context)
  {
    o.sender == actor || DeliversTo(o, actor, ctx)
  }

  function Unread(objects: seq<Message>, reader: Name, already: set<Id>, ctx: Context): seq<Message>
  {
    Filter(objects, (o: Message) => o.id !in already && DeliversTo(o, reader, ctx))
  }

  // ------------------------------------------------------------ threading

  /** `{obj.id: obj for obj in objects}`: of several with one id, the last. */
  function ById(objects: seq<Message>): (m: Messages)
    ensures Keyed(m)
    ensures forall id :: id in m <==> exists o :: o in objects && o.id == id
    ensures forall id | id in m :: m[id] in objects
  {
    if objects == [] then map[] else
      var last := objects[|objects| - 1];
      var rest := objects[..|objects| - 1];
      assert forall o :: o in objects <==> o == last || o in rest;
      ById(rest)[last.id := last]
  }

  /** Parent pointers that lead to a stored message. */
  function ParentGraph(m: Messages): FunctionalGraph.Graph
  {
    map id | id in m && m[id].inReplyTo.Some? && m[id].inReplyTo.value in m :: m[id].inReplyTo.value
  }

  function RootOf(m: Messages, id: Id): Id
  {
    FunctionalGraph.Root(ParentGraph(m), id)
  }

  method ThreadRoot(objects: seq<Message>, objectId: Id) returns (root: Id)
    ensures root == RootOf(ById(objects), objectId)
  {
    var byId := ById(objects);
    ghost var g := ParentGraph(byId);
    var seen: set<Id> := {};
    var current := objectId;
    while current !in seen
      invariant seen <= g.Keys
      invariant FunctionalGraph.Walk(g, current, seen) == RootOf(byId, objectId)
      decreases g.Keys - seen
    {
      if current !in byId || byId[current].inReplyTo.None? || byId[current].inReplyTo.value !in byId {
        return current;
      }
      seen := seen + {current};
      current := byId[current].inReplyTo.value;
    }
    return current;
  }

  /** Every message in the conversation rooted at `root`, oldest first. */
  function ThreadMembers(objects: seq<Message>, root: Id): seq<Message>
  {
    Filter(objects, (o: Message) => RootOf(ById(objects), o.id) == root)
  }

  /** The turns of a thread that `viewer` is party to. */
  function VisibleTurns(objects: seq<Message>, root: Id, viewer: Name, ctx: Context): seq<Message>
  {
    Filter(ThreadMembers(objects, root), (o: Message) => IsParty(o, viewer, ctx))
  }

  function First(objects: seq<Message>, id: Id): (o: Option<Message>)
    ensures o.Some? ==> o.value in objects && o.value.id == id
    ensures o.None? ==> forall x | x in objects :: x.id != id
  {
    if objects == [] then None
    else if objects[0].id == id then Some(objects[0])
    else
      assert forall x :: x in objects <==> x == objects[0] || x in objects[1..];
      First(objects[1..], id)
  }

  predicate MayAttachTo(objects: seq<Message>, sender: Name, parentId: Option<Id>, ctx: Context)
  {
    parentId.Some? ==>
      var parent := First(objects, parentId.value);
      parent.Some? && IsParty(parent.value, sender, ctx)
  }

  // ------------------------------------------------------------ expiry

  /** Every listed turn of the thread is older than the cutoff. */
  ghost predicate IsIdle(objects: set<Message>, g: FunctionalGraph.Graph, root: Id, cutoff: Time)
  {
    forall o | o in objects :: FunctionalGraph.Root(g, o.id) == root ==> Less(o.published, cutoff)
  }

  /** `latest` holds, per root met so far, a time below exactly those cutoffs all its turns are below. */
  ghost predicate IsLatest(latest: map<Id, Time>, objects: set<Message>, g: FunctionalGraph.Graph, cutoff: Time)
  {
    && (forall o | o in objects :: FunctionalGraph.Root(g, o.id) in latest)
    && (forall root | root in latest ::
         (exists o :: o in objects && FunctionalGraph.Root(g, o.id) == root)
         && (Less(latest[root], cutoff) <==> IsIdle(objects, g, root, cutoff)))
  }

  /** The first loop of `expired_object_ids`. */
  method LatestByRoot(objects: seq<Message>, ghost cutoff: Time) returns (latest: map<Id, Time>)
    ensures IsLatest(latest, Elements(objects), ParentGraph(ById(objects)), cutoff)
  {
    ghost var g := ParentGraph(ById(objects));
    latest := map[];
    for i := 0 to |objects|
      invariant IsLatest(latest, Elements(objects[..i]), g, cutoff)
    {
      var o := objects[i];
      var root := ThreadRoot(objects, o.id);
      FoldLatest(latest, Elements(objects[..i]), o, g, cutoff);
      latest := latest[root := Max(if root in latest then latest[root] else "", o.published)];
      ElementsGrow(objects, i);
    }
    assert objects[..|objects|] == objects;
  }

  /** The ids of the listed messages of every thread that is idle. */
  ghost function IdleIds(objects: seq<Message>, cutoff: Time): set<Id>
  {
    var g := ParentGraph(ById(objects));
    set o | o in objects && IsIdle(Elements(objects), g, FunctionalGraph.Root(g, o.id), cutoff) :: o.id
  }

  method ExpiredObjectIds(objects: seq<Message>, cutoff: Time) returns (doomed: set<Id>)
    ensures doomed == IdleIds(objects, cutoff)
  {
    if objects == [] {
      return {};
    }
    ghost var g := ParentGraph(ById(objects));
    var latest := LatestByRoot(objects, cutoff);
    var dead := set root | root in latest && Less(latest[root], cutoff);
    DeadIsIdle(latest, Elements(objects), g, cutoff);
    doomed := IdsUnder(objects, dead);
    assert forall o :: o in objects <==> o in Elements(objects);
  }

  function IdsRootedIn(objects: set<Message>, g: FunctionalGraph.Graph, roots: set<Id>): set<Id>
  {
    set o | o in objects && FunctionalGraph.Root(g, o.id) in roots :: o.id
  }

  /** The second loop of `expired_object_ids`: the ids whose root is in `roots`. */
  method IdsUnder(objects: seq<Message>, roots: set<Id>) returns (ids: set<Id>)
    ensures ids == IdsRootedIn(Elements(objects), ParentGraph(ById(objects)), roots)
  {
    ghost var g := ParentGraph(ById(objects));
    ids := {};
    assert Elements(objects[..0]) == {} && IdsRootedIn({}, g, roots) == {};
    hide IdsRootedIn, Elements, ParentGraph, ById;
    for i := 0 to |objects|
      invariant ids == IdsRootedIn(Elements(objects[..i]), g, roots)
    {
      var root := ThreadRoot(objects, objects[i].id);
      ElementsGrow(objects, i);
      IdsGrow(Elements(objects[..i]), objects[i], g, roots);
      if root in roots {
        ids := ids + {objects[i].id};
      }
    }
    assert objects[..|objects|] == objects;
  }

  lemma IdsGrow(objects: set<Message>, o: Message, g: FunctionalGraph.Graph, roots: set<Id>)
    ensures IdsRootedIn(objects + {o}, g, roots) ==
      IdsRootedIn(objects, g, roots) + if FunctionalGraph.Root(g, o.id) in roots then {o.id} else {}
  {
    hide FunctionalGraph.Root;
  }

  lemma DeadIsIdle(latest: map<Id, Time>, objects: set<Message>, g: FunctionalGraph.Graph, cutoff: Time)
    requires IsLatest(latest, objects, g, cutoff)
    ensures forall o | o in objects ::
      FunctionalGraph.Root(g, o.id) in (set root | root in latest && Less(latest[root], cutoff)) <==>
      IsIdle(objects, g, FunctionalGraph.Root(g, o.id), cutoff)
  {
  }

  lemma FoldLatest(latest: map<Id, Time>, objects: set<Message>, o: Message, g: FunctionalGraph.Graph, cutoff: Time)
    requires IsLatest(latest, objects, g, cutoff)
    ensures var root := FunctionalGraph.Root(g, o.id);
      IsLatest(latest[root := Max(if root in latest then latest[root] else "", o.published)],
        objects + {o}, g, cutoff)
  {
    hide Less, Max, FunctionalGraph.Root;
    var root := FunctionalGraph.Root(g, o.id);
    MaxIsBelow(if root in latest then latest[root] else "", o.published, cutoff);
    IdleGrows(objects, o, g, root, cutoff);
    assert root !in latest ==> IsIdle(objects, g, root, cutoff);
    assert root !in latest && Less(o.published, cutoff) ==> Less("", cutoff) by {
      NothingBelowEmpty(o.published, cutoff);
    }
    forall r | r in latest && r != root
      ensures IsIdle(objects + {o}, g, r, cutoff) <==> IsIdle(objects, g, r, cutoff)
    {
      IdleGrows(objects, o, g, r, cutoff);
    }
    assert o in objects + {o};
  }

  lemma NothingBelowEmpty(a: string, b: string)
    ensures Less(a, b) ==> Less("", b)
  {
  }

  lemma IdleGrows(objects: set<Message>, o: Message, g: FunctionalGraph.Graph, root: Id, cutoff: Time)
    ensures IsIdle(objects + {o}, g, root, cutoff) <==>
      IsIdle(objects, g, root, cutoff) && (FunctionalGraph.Root(g, o.id) == root ==> Less(o.published, cutoff))
  {
    hide Less, FunctionalGraph.Root;
  }
}
