/** The storage port: what each atomic call does to the stored records and answers. */
module StorePort {
  import opened Outcomes
  import opened Records

  datatype Store = Store(actors: map<Name, Actor>, messages: Messages, marks: map<(Id, Name), Time>)
  {
    /** Records are filed under their own keys. */
    ghost predicate WellKeyed()
    {
      (forall n | n in actors :: actors[n].name == n) && Keyed(messages)
    }

    function ActorSet(): set<Actor>
    {
      actors.Values
    }
  }

  const EMPTY := Store(map[], map[], map[])

  /** The port's operations. Each is one step that nothing else can interrupt. */
  datatype Call =
    | ClaimName(actor: Actor)
    | GetActor(name: Name)
    | PutActor(actor: Actor)
    | Actors
    | AddMessage(message: Message)
    | GetMessage(id: Id)
    | ListMessages
    | RemoveMessages(ids: set<Id>)
    | MarkRead(mark: ReadMark)
    | ReadsOf(ids: set<Id>)

  datatype Answer =
    | Done
    | Flag(yes: bool)
    | OneActor(actor: Option<Actor>)
    | AllActors(actors: set<Actor>)
    | OneMessage(message: Option<Message>)
    | AllMessages(messages: seq<Message>)
    | Removed(count: nat)
    | Marks(found: map<Id, set<ReadMark>>)

  datatype Backend = InMemory | Sqlite

  function Lookup<K, V>(m: map<K, V>, k: K): Option<V>
  {
    if k in m then Some(m[k]) else None
  }

  function RemoveFrom(s: Store, ids: set<Id>): Store
  {
    s.(messages := s.messages - ids,
       marks := map k | k in s.marks && k.0 !in ids :: s.marks[k])
  }

  lemma RemoveNone(s: Store)
    ensures RemoveFrom(s, {}) == s
  {
  }

  function MarksOf(s: Store, ids: set<Id>): map<Id, set<ReadMark>>
  {
    map id | id in ids :: set k | k in s.marks && k.0 == id :: ReadMark(k.0, k.1, s.marks[k])
  }

  /**
   The row an overwrite leaves. Both backends overwrite type, profile and last-seen; only the
   dictionary also takes the new `created` when the actor was there already.
   */
  function Overwritten(b: Backend, s: Store, actor: Actor): Actor
  {
    if b.Sqlite? && actor.name in s.actors then actor.(created := s.actors[actor.name].created) else actor
  }

  function After(b: Backend, s: Store, c: Call): Store
  {
    match c
    case ClaimName(actor) => if actor.name in s.actors then s else s.(actors := s.actors[actor.name := actor])
    case PutActor(actor) => s.(actors := s.actors[actor.name := Overwritten(b, s, actor)])
    case AddMessage(o) => s.(messages := s.messages[o.id := o])
    case RemoveMessages(ids) => RemoveFrom(s, ids)
    case MarkRead(mark) =>
      if (mark.object_, mark.reader) in s.marks then s
      else s.(marks := s.marks[(mark.object_, mark.reader) := mark.at])
    case _ => s
  }

  function AnswerTo(s: Store, c: Call): Answer
    requires s.WellKeyed()
  {
    match c
    case ClaimName(actor) => Flag(actor.name !in s.actors)
    case GetActor(name) => OneActor(Lookup(s.actors, name))
    case PutActor(_) => Done
    case Actors => AllActors(s.ActorSet())
    case AddMessage(_) => Done
    case GetMessage(id) => OneMessage(Lookup(s.messages, id))
    case ListMessages => AllMessages(Listing(s.messages))
    case RemoveMessages(ids) => Removed(|ids * s.messages.Keys|)
    case MarkRead(mark) => Flag((mark.object_, mark.reader) !in s.marks)
    case ReadsOf(ids) => Marks(MarksOf(s, ids))
  }

  lemma AfterKeepsKeys(b: Backend, s: Store, c: Call)
    requires s.WellKeyed()
    ensures After(b, s, c).WellKeyed()
  {
  }

  /** Overwriting an actor: the dictionary takes all of it, the table all but the creation time it has. */
  lemma OverwriteMeans(s: Store, actor: Actor)
    ensures After(InMemory, s, PutActor(actor)) == s.(actors := s.actors[actor.name := actor])
    ensures actor.name !in s.actors ==> After(Sqlite, s, PutActor(actor)) == After(InMemory, s, PutActor(actor))
    ensures actor.name in s.actors ==>
      var row := Actor(actor.name, actor.kind, actor.profile, s.actors[actor.name].created, actor.lastSeen);
      After(Sqlite, s, PutActor(actor)) == s.(actors := s.actors[actor.name := row])
  {
  }

  lemma CountTaken(m: Messages, ids: set<Id>)
    ensures |ids * m.Keys| == |m| - |m - ids|
  {
    var stay := m.Keys - ids;
    assert (m - ids).Keys == stay && m.Keys == stay + ids * m.Keys;
    assert |m.Keys| == |stay| + |ids * m.Keys|;
    assert |m - ids| == |(m - ids).Keys|;
  }

  /** A removal answers how many messages it took; ids that are not stored do not count. */
  lemma RemovalMeans(b: Backend, s: Store, ids: set<Id>)
    requires s.WellKeyed()
    ensures var t := After(b, s, RemoveMessages(ids));
      && AnswerTo(s, RemoveMessages(ids)) == Removed(|s.messages| - |t.messages|)
      && t.actors == s.actors
      && (forall id :: id in t.messages <==> id in s.messages && id !in ids)
      && (forall id | id in t.messages :: t.messages[id] == s.messages[id])
      && (forall k :: k in t.marks <==> k in s.marks && k.0 !in ids)
      && (forall k | k in t.marks :: t.marks[k] == s.marks[k])
  {
    CountTaken(s.messages, ids);
  }

  /** Asking for the marks of messages gives, for each, who read it and when. */
  lemma ReadsOfMean(s: Store, ids: set<Id>)
    requires s.WellKeyed()
    ensures var found := AnswerTo(s, ReadsOf(ids)).found;
      && AnswerTo(s, ReadsOf(ids)).Marks? && found.Keys == ids
      && forall id, m: ReadMark | id in ids ::
           m in found[id] <==> m.object_ == id && (id, m.reader) in s.marks && s.marks[(id, m.reader)] == m.at
  {
    forall id, m: ReadMark | id in ids && m.object_ == id
                              && (id, m.reader) in s.marks && s.marks[(id, m.reader)] == m.at
      ensures m in MarksOf(s, ids)[id]
    {
      var k := (id, m.reader);
      assert k in s.marks && m == ReadMark(k.0, k.1, s.marks[k]);
    }
  }
}
