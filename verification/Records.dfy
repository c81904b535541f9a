/** What the store persists: plain values. */
module Records {
  import opened Outcomes
  import opened Ordering

  type Name = string
  type Id = string
  type Time = string

  datatype ActorType = Service | Group | Person

  /** The mutable half of identity. Only the groups an actor claims are read by the rules. */
  datatype Profile = Profile(groups: seq<Name>, rest: string)

  datatype Actor = Actor(name: Name, kind: ActorType, profile: Profile, created: Time, lastSeen: Time)

  /** A property of a message as it was received: a list of names, or anything else, uninterpreted. */
  datatype Property = Listed(names: seq<Name>) | Other(text: string)

  type Document = map<string, Property>

  datatype Message = Message(
    id: Id,
    sender: Name,
    to: seq<Name>,
    cc: seq<Name>,
    inReplyTo: Option<Id>,
    summary: Option<string>,
    content: string,
    published: Time,
    document: Document)
  {
    /** Everyone this message names, however it names them. */
    function Audience(): set<Name>
    {
      (set n | n in to) + (set n | n in cc)
    }
  }

  datatype ReadMark = ReadMark(object_: Id, reader: Name, at: Time)

  type Messages = map<Id, Message>

  ghost predicate Keyed(m: Messages)
  {
    forall id | id in m :: m[id].id == id
  }

  /** Listings are ordered by `(published, id)`. */
  predicate Older(a: Message, b: Message)
  {
    Less(a.published, b.published) || (a.published == b.published && Less(a.id, b.id))
  }

  lemma MessagesAreOrdered(m: Messages)
    requires Keyed(m)
    ensures StrictTotalOn(m.Values, Older)
  {
    forall x, y | x in m.Values && y in m.Values
      ensures ((Older(x, y) || Older(y, x)) <==> x != y) && !(Older(x, y) && Older(y, x))
    {
      LessIsTotal(x.published, y.published);
      LessIsTotal(x.id, y.id);
      LessIsAsymmetric(x.published, y.published);
      LessIsAsymmetric(x.id, y.id);
      LessIsTotal(x.published, x.published);
    }
    forall x, y, z | x in m.Values && y in m.Values && z in m.Values && Older(x, y) && Older(y, z)
      ensures Older(x, z)
    {
      OlderIsTransitive(x, y, z);
    }
  }

  lemma OlderIsTransitive(x: Message, y: Message, z: Message)
    requires Older(x, y) && Older(y, z)
    ensures Older(x, z)
  {
    if Less(x.published, y.published) && Less(y.published, z.published) {
      LessIsTransitive(x.published, y.published, z.published);
    }
    LessIsTotal(x.published, x.published);
    if x.published == y.published == z.published {
      LessIsTransitive(x.id, y.id, z.id);
    }
  }

  /** Every stored message, oldest first. */
  function Listing(m: Messages): (r: seq<Message>)
    requires Keyed(m)
    ensures IsSorted(r, Older)
    ensures forall x :: x in r <==> x in m.Values
  {
    MessagesAreOrdered(m);
    var r := Sort(m.Values, Older);
    assert forall x :: x in r <==> x in Elements(r);
    r
  }
}
