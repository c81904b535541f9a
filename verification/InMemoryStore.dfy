/** The reference store: three dictionaries. */
module InMemory {
  import opened Outcomes
  import opened Ordering
  import opened Records
  import opened StorePort

  type MarkTable = map<Id, map<Name, ReadMark>>

  /** The nested read table as one keyed by message and reader. */
  function Flatten(t: MarkTable): map<(Id, Name), Time>
  {
    map k | k in Pairs(t) :: t[k.0][k.1].at
  }

  function Pairs(t: MarkTable): (s: set<(Id, Name)>)
    ensures forall k: (Id, Name) :: k in s <==> k.0 in t && k.1 in t[k.0]
  {
    set id, r | id in t && r in t[id] :: (id, r)
  }

  ghost predicate FiledByReader(t: MarkTable)
  {
    forall id | id in t :: forall r | r in t[id] :: t[id][r].object_ == id && t[id][r].reader == r
  }

  /** `t.setdefault(object_id, {})` with the reader's entry set. */
  function WithMark(t: MarkTable, mark: ReadMark): MarkTable
  {
    var readers := if mark.object_ in t then t[mark.object_] else map[];
    t[mark.object_ := readers[mark.reader := mark]]
  }

  lemma FlattenMarked(t: MarkTable, mark: ReadMark)
    ensures FiledByReader(t) ==> FiledByReader(WithMark(t, mark))
    ensures Flatten(WithMark(t, mark)) == Flatten(t)[(mark.object_, mark.reader) := mark.at]
  {
    var after := WithMark(t, mark);
    assert Pairs(after) == Pairs(t) + {(mark.object_, mark.reader)};
    forall k | k in Pairs(t) && k != (mark.object_, mark.reader)
      ensures after[k.0][k.1] == t[k.0][k.1]
    {
    }
  }

  lemma FlattenRemoved(t: MarkTable, ids: set<Id>)
    ensures Flatten(t - ids) == map k | k in Flatten(t) && k.0 !in ids :: Flatten(t)[k]
  {
    var left, right := Flatten(t - ids), map k | k in Flatten(t) && k.0 !in ids :: Flatten(t)[k];
    forall k: (Id, Name) ensures k in left <==> k in right {}
    forall k | k in left ensures left[k] == right[k] {}
  }

  lemma FlattenReaders(t: MarkTable, id: Id)
    requires FiledByReader(t)
    ensures (if id in t then t[id].Values else {}) ==
      set k | k in Flatten(t) && k.0 == id :: ReadMark(k.0, k.1, Flatten(t)[k])
  {
    var flat := set k | k in Flatten(t) && k.0 == id :: ReadMark(k.0, k.1, Flatten(t)[k]);
    if id in t {
      forall r | r in t[id].Values ensures r in flat {
        var n :| n in t[id] && t[id][n] == r;
        assert (id, n) in Flatten(t);
      }
    }
  }

  lemma MinusOneMore<K, V>(m: map<K, V>, gone: set<K>, k: K)
    ensures m - gone - {k} == m - (gone + {k})
  {
  }

  lemma CountOneMore(popped: set<Id>, id: Id, stored: set<Id>)
    ensures |(popped + {id}) * stored| == |popped * stored| + (if id in stored && id !in popped then 1 else 0)
  {
    assert (popped + {id}) * stored == popped * stored + (if id in stored && id !in popped then {id} else {});
  }

  /** The entries of `popped` have left both dictionaries, `gone` of them messages. */
  ghost predicate Popped(
    stored: Messages, table: MarkTable, popped: set<Id>, objects: Messages, marks: MarkTable, gone: nat)
  {
    objects == stored - popped && marks == table - popped && gone == |popped * stored.Keys|
  }

  lemma PopNone(stored: Messages, table: MarkTable, ids: seq<Id>)
    ensures Popped(stored, table, Elements(ids[..0]), stored, table, 0)
  {
    assert Elements(ids[..0]) == {} && {} * stored.Keys == {};
  }

  lemma PopOne(
    stored: Messages, table: MarkTable, popped: set<Id>, objects: Messages, marks: MarkTable, gone: nat, id: Id)
    requires Popped(stored, table, popped, objects, marks, gone)
    ensures Popped(stored, table, popped + {id}, objects - {id}, marks - {id},
              if id in objects then gone + 1 else gone)
  {
    MinusOneMore(stored, popped, id);
    MinusOneMore(table, popped, id);
    CountOneMore(popped, id, stored.Keys);
  }

  /** The loop of `remove_objects`: pop each id from both dictionaries. */
  method PopAll(stored: Messages, table: MarkTable, ids: seq<Id>)
    returns (objects: Messages, marks: MarkTable, gone: nat)
    ensures Popped(stored, table, Elements(ids), objects, marks, gone)
  {
    objects, marks, gone := stored, table, 0;
    hide Popped, Elements;
    PopNone(stored, table, ids);
    for i := 0 to |ids|
      invariant Popped(stored, table, Elements(ids[..i]), objects, marks, gone)
    {
      var id := ids[i];
      PopOne(stored, table, Elements(ids[..i]), objects, marks, gone, id);
      ElementsGrow(ids, i);
      gone := if id in objects then gone + 1 else gone;
      objects := objects - {id};
      marks := marks - {id};
    }
    assert ids[..|ids|] == ids;
  }

  lemma FiledWithout(t: MarkTable, m: Messages, ids: set<Id>)
    ensures FiledByReader(t) ==> FiledByReader(t - ids)
    ensures Keyed(m) ==> Keyed(m - ids)
  {
  }

  lemma FlattenHas(t: MarkTable, id: Id, reader: Name)
    ensures (id, reader) in Flatten(t) <==> id in t && reader in t[id]
  {
    assert (id, reader) in Flatten(t) <==> (id, reader) in Pairs(t);
  }

  lemma ViewWithout(s: Store, t: MarkTable, ids: set<Id>)
    requires s.marks == Flatten(t)
    ensures RemoveFrom(s, ids) == Store(s.actors, s.messages - ids, Flatten(t - ids))
  {
    hide Flatten;
    FlattenRemoved(t, ids);
  }

  /** Popping from the dictionaries is the port's removal. */
  lemma PoppedIsRemoved(
    s: Store, m: Messages, t: MarkTable, ids: set<Id>, left: Messages, unread: MarkTable, gone: nat)
    requires s.WellKeyed() && s.messages == m && s.marks == Flatten(t) && FiledByReader(t)
    requires Popped(m, t, ids, left, unread, gone)
    ensures Keyed(left) && FiledByReader(unread)
    ensures Store(s.actors, left, Flatten(unread)) == After(StorePort.InMemory, s, RemoveMessages(ids))
    ensures Removed(gone) == AnswerTo(s, RemoveMessages(ids))
  {
    hide Flatten, FiledByReader, Keyed, RemoveFrom;
    FiledWithout(t, m, ids);
    ViewWithout(s, t, ids);
  }

  class InMemoryStore {
    var actors: map<Name, Actor>
    /** A dictionary lists its entries in the order their keys were first inserted. */
    var joined: seq<Name>
    var objects: Messages
    var marks: MarkTable

    ghost predicate DirectoryValid()
      reads this`actors, this`joined
    {
      && (forall n | n in actors :: actors[n].name == n)
      && Elements(joined) == actors.Keys
      && (forall i, j | 0 <= i < j < |joined| :: joined[i] != joined[j])
    }

    ghost predicate Valid()
      reads this
    {
      DirectoryValid() && Keyed(objects) && FiledByReader(marks)
    }

    ghost function View(): (s: Store)
      reads this
      ensures Valid() ==> s.WellKeyed()
    {
      Store(actors, objects, Flatten(marks))
    }

    constructor ()
      ensures Valid() && View() == EMPTY
    {
      actors, joined, objects, marks := map[], [], map[], map[];
      new;
      assert Flatten(marks) == map[];
    }

    method ClaimName(actor: Actor) returns (claimed: bool)
      requires Valid()
      modifies this
      ensures Valid()
      ensures View() == After(StorePort.InMemory, old(View()), Call.ClaimName(actor))
      ensures Flag(claimed) == AnswerTo(old(View()), Call.ClaimName(actor))
    {
      if actor.name in actors {
        return false;
      }
      joined := joined + [actor.name];
      actors := actors[actor.name := actor];
      return true;
    }

    method GetActor(name: Name) returns (actor: Option<Actor>)
      requires Valid()
      ensures OneActor(actor) == AnswerTo(View(), Call.GetActor(name))
    {
      return Lookup(actors, name);
    }

    method PutActor(actor: Actor)
      requires Valid()
      modifies this
      ensures Valid()
      ensures View() == After(StorePort.InMemory, old(View()), Call.PutActor(actor))
    {
      if actor.name !in actors {
        joined := joined + [actor.name];
      }
      actors := actors[actor.name := actor];
    }

    /** Every actor once, in the order they joined. */
    method Actors() returns (all: seq<Actor>)
      requires Valid()
      ensures |all| == |joined| && forall i | 0 <= i < |all| :: joined[i] in actors && all[i] == actors[joined[i]]
      ensures AllActors(Elements(all)) == AnswerTo(View(), Call.Actors)
    {
      hide Flatten, FiledByReader, Keyed, Listing, MarksOf;
      assert forall n | n in joined :: n in Elements(joined);
      all := seq(|joined|, i requires 0 <= i < |joined| reads this requires joined[i] in actors => actors[joined[i]]);
      forall a ensures a in Elements(all) <==> a in View().ActorSet() {
        if a in actors.Values {
          var n :| n in actors && actors[n] == a;
          assert n in Elements(joined);
          var i :| 0 <= i < |joined| && joined[i] == n;
          assert all[i] == a;
        }
        if a in all {
          var i :| 0 <= i < |all| && all[i] == a;
          assert joined[i] in actors;
        }
      }
    }

    method AddObject(o: Message)
      requires Valid()
      modifies this`objects
      ensures Valid()
      ensures View() == After(StorePort.InMemory, old(View()), AddMessage(o))
    {
      objects := objects[o.id := o];
    }

    method GetObject(id: Id) returns (o: Option<Message>)
      requires Valid()
      ensures OneMessage(o) == AnswerTo(View(), GetMessage(id))
    {
      return Lookup(objects, id);
    }

    /** Every stored message, oldest first. */
    method Objects() returns (all: seq<Message>)
      requires Valid()
      ensures AllMessages(all) == AnswerTo(View(), ListMessages)
    {
      return Listing(objects);
    }

    method RemoveObjects(ids: seq<Id>) returns (gone: nat)
      requires Valid()
      modifies this`objects, this`marks
      ensures Valid()
      ensures View() == After(StorePort.InMemory, old(View()), RemoveMessages(Elements(ids)))
      ensures Removed(gone) == AnswerTo(old(View()), RemoveMessages(Elements(ids)))
    {
      hide Flatten, FiledByReader, Keyed, DirectoryValid, Elements, After, AnswerTo, Popped;
      var left, unread, popped := PopAll(objects, marks, ids);
      PoppedIsRemoved(View(), objects, marks, Elements(ids), left, unread, popped);
      objects, marks := left, unread;
      return popped;
    }

    method MarkRead(mark: ReadMark) returns (first: bool)
      requires Valid()
      modifies this`marks
      ensures Valid()
      ensures View() == After(StorePort.InMemory, old(View()), Call.MarkRead(mark))
      ensures Flag(first) == AnswerTo(old(View()), Call.MarkRead(mark))
    {
      hide Flatten, FiledByReader, WithMark, Listing, MarksOf, Keyed, DirectoryValid;
      FlattenHas(marks, mark.object_, mark.reader);
      var readers := if mark.object_ in marks then marks[mark.object_] else map[];
      FlattenMarked(marks, mark);
      if mark.reader in readers {
        return false;
      }
      marks := WithMark(marks, mark);
      return true;
    }

    method ReadsOf(ids: seq<Id>) returns (found: map<Id, set<ReadMark>>)
      requires Valid()
      ensures Marks(found) == AnswerTo(View(), Call.ReadsOf(Elements(ids)))
    {
      found := map id | id in ids :: if id in marks then marks[id].Values else {};
      forall id | id in ids
        ensures found[id] == MarksOf(View(), Elements(ids))[id]
      {
        FlattenReaders(marks, id);
      }
    }
  }
}
