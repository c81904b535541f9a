/** The SQLite store: three keyed tables. A table is the set of its rows. */
module SqliteTables {
  import opened Outcomes
  import opened Ordering
  import opened Records
  import opened StorePort

  /** `ORDER BY name`. */
  predicate NamedBefore(a: Actor, b: Actor)
  {
    Less(a.name, b.name)
  }

  lemma RowsAreOrdered(rows: set<Actor>)
    requires NameIsKey(rows)
    ensures StrictTotalOn(rows, NamedBefore)
  {
    forall x, y | x in rows && y in rows
      ensures ((NamedBefore(x, y) || NamedBefore(y, x)) <==> x != y) && !(NamedBefore(x, y) && NamedBefore(y, x))
    {
      LessIsTotal(x.name, y.name);
      LessIsAsymmetric(x.name, y.name);
    }
    forall x, y, z | x in rows && y in rows && z in rows && NamedBefore(x, y) && NamedBefore(y, z)
      ensures NamedBefore(x, z)
    {
      LessIsTransitive(x.name, y.name, z.name);
    }
  }

  /** Counting rows by a key that is unique among them counts the keys. */
  lemma {:induction false} CountByKey(rows: set<Message>, ids: set<Id>)
    requires forall a, b | a in rows && b in rows :: a.id == b.id ==> a == b
    requires ids == set o | o in rows :: o.id
    ensures |rows| == |ids|
  {
    if rows != {} {
      var o :| o in rows;
      assert ids - {o.id} == set x | x in rows - {o} :: x.id;
      CountByKey(rows - {o}, ids - {o.id});
    }
  }

  // ------------------------------------------------------------ tables as maps

  ghost predicate NameIsKey(rows: set<Actor>)
  {
    forall a, b | a in rows && b in rows :: a.name == b.name ==> a == b
  }

  ghost predicate IdIsKey(rows: set<Message>)
  {
    forall a, b | a in rows && b in rows :: a.id == b.id ==> a == b
  }

  ghost predicate ObjectAndReaderAreKey(rows: set<ReadMark>)
  {
    forall a, b | a in rows && b in rows :: a.object_ == b.object_ && a.reader == b.reader ==> a == b
  }

  function ByName(rows: set<Actor>): map<Name, Actor>
    requires NameIsKey(rows)
  {
    map a | a in rows :: a.name := a
  }

  function ByRowId(rows: set<Message>): Messages
    requires IdIsKey(rows)
  {
    map o | o in rows :: o.id := o
  }

  function ByReader(rows: set<ReadMark>): map<(Id, Name), Time>
    requires ObjectAndReaderAreKey(rows)
  {
    map r | r in rows :: (r.object_, r.reader) := r.at
  }

  /** Replacing whatever row holds a key, if any, is updating the map there. */
  lemma ReplaceActor(rows: set<Actor>, row: Actor)
    requires NameIsKey(rows)
    ensures var rest := (set a | a in rows && a.name != row.name) + {row};
      NameIsKey(rest) && ByName(rest) == ByName(rows)[row.name := row]
  {
  }

  lemma ReplaceMessage(rows: set<Message>, row: Message)
    requires IdIsKey(rows)
    ensures var rest := (set o | o in rows && o.id != row.id) + {row};
      IdIsKey(rest) && ByRowId(rest) == ByRowId(rows)[row.id := row]
  {
    var rest := (set o | o in rows && o.id != row.id) + {row};
    assert IdIsKey(rest);
    var left, right := ByRowId(rest), ByRowId(rows)[row.id := row];
    forall id ensures id in left <==> id in right {
      if id in right && id != row.id { assert ByRowId(rows)[id] in rest; }
    }
    forall id | id in left ensures left[id] == right[id] {}
  }

  lemma InsertMark(rows: set<ReadMark>, row: ReadMark)
    requires ObjectAndReaderAreKey(rows) && (row.object_, row.reader) !in ByReader(rows)
    ensures ObjectAndReaderAreKey(rows + {row})
    ensures ByReader(rows + {row}) == ByReader(rows)[(row.object_, row.reader) := row.at]
  {
    forall r | r in rows ensures !(r.object_ == row.object_ && r.reader == row.reader) {
      assert (r.object_, r.reader) in ByReader(rows);
    }
  }

  lemma DeleteMarks(rows: set<ReadMark>, ids: set<Id>)
    requires ObjectAndReaderAreKey(rows)
    ensures ObjectAndReaderAreKey(set r | r in rows && r.object_ !in ids)
    ensures ByReader(set r | r in rows && r.object_ !in ids) ==
      map k | k in ByReader(rows) && k.0 !in ids :: ByReader(rows)[k]
  {
    var kept := set r | r in rows && r.object_ !in ids;
    var left, right := ByReader(kept), map k | k in ByReader(rows) && k.0 !in ids :: ByReader(rows)[k];
    forall k: (Id, Name) ensures k in left <==> k in right {}
    forall k | k in left ensures left[k] == right[k] {}
  }

  lemma DeleteMessages(rows: set<Message>, ids: set<Id>)
    requires IdIsKey(rows)
    ensures var doomed := set o | o in rows && o.id in ids;
      IdIsKey(rows - doomed) && ByRowId(rows - doomed) == ByRowId(rows) - ids && |doomed| == |ids * ByRowId(rows).Keys|
  {
    var doomed := set o | o in rows && o.id in ids;
    var rest, left := ByRowId(rows - doomed), ByRowId(rows) - ids;
    forall id ensures id in rest <==> id in left {}
    forall id | id in rest ensures rest[id] == left[id] {}
    CountDoomed(rows, ids);
  }

  lemma CountDoomed(rows: set<Message>, ids: set<Id>)
    requires IdIsKey(rows)
    ensures |set o | o in rows && o.id in ids| == |ids * ByRowId(rows).Keys|
  {
    var doomed := set o | o in rows && o.id in ids;
    assert (set o | o in doomed :: o.id) == ids * ByRowId(rows).Keys;
    CountByKey(doomed, ids * ByRowId(rows).Keys);
  }

  lemma RemoveNoRows(s: Store, ids: seq<Id>)
    requires ids == []
    ensures RemoveFrom(s, Elements(ids)) == s && |Elements(ids) * s.messages.Keys| == 0
  {
    assert Elements(ids) == {} && Elements(ids) * s.messages.Keys == {};
  }

  /** Deleting the rows with the given ids from both tables. */
  lemma RowsWithout(s: Store, objects: set<Message>, marks: set<ReadMark>, ids: set<Id>)
    requires IdIsKey(objects) && ObjectAndReaderAreKey(marks)
    requires s.messages == ByRowId(objects) && s.marks == ByReader(marks)
    ensures var doomed, kept := set o | o in objects && o.id in ids, set r | r in marks && r.object_ !in ids;
      && IdIsKey(objects - doomed) && ObjectAndReaderAreKey(kept)
      && RemoveFrom(s, ids) == Store(s.actors, ByRowId(objects - doomed), ByReader(kept))
      && |doomed| == |ids * s.messages.Keys|
  {
    hide ByRowId, ByReader, IdIsKey, ObjectAndReaderAreKey;
    DeleteMarks(marks, ids);
    DeleteMessages(objects, ids);
  }

  lemma RowsAreValues(rows: set<Actor>)
    requires NameIsKey(rows)
    ensures ByName(rows).Values == rows
  {
    assert forall a | a in rows :: a.name in ByName(rows) && ByName(rows)[a.name] == a;
  }

  /** The ordered select is the port's listing. */
  lemma RowsAreListed(rows: set<Message>)
    requires IdIsKey(rows)
    ensures Keyed(ByRowId(rows)) && StrictTotalOn(rows, Older) && Listing(ByRowId(rows)) == Sort(rows, Older)
  {
    hide Older, StrictTotalOn;
    var m := ByRowId(rows);
    assert forall o | o in rows :: o.id in m && m[o.id] == o;
    assert m.Values == rows;
    MessagesAreOrdered(m);
  }

  lemma SortedByName(all: seq<Actor>)
    requires IsSorted(all, NamedBefore)
    ensures forall i, j | 0 <= i < j < |all| :: Less(all[i].name, all[j].name)
  {
    forall i, j | 0 <= i < j < |all| ensures Less(all[i].name, all[j].name) { assert NamedBefore(all[i], all[j]); }
  }

  class SqliteStore {
    var actors: set<Actor>
    var objects: set<Message>
    var marks: set<ReadMark>

    /** The primary keys. */
    ghost predicate Valid()
      reads this
    {
      NameIsKey(actors) && IdIsKey(objects) && ObjectAndReaderAreKey(marks)
    }

    ghost function View(): Store
      requires Valid()
      reads this
      ensures View().WellKeyed()
    {
      Store(ByName(actors), ByRowId(objects), ByReader(marks))
    }

    constructor ()
      ensures Valid() && View() == EMPTY
    {
      actors, objects, marks := {}, {}, {};
    }

    /** `INSERT OR IGNORE` against the primary key. */
    method ClaimName(actor: Actor) returns (claimed: bool)
      requires Valid()
      modifies this`actors
      ensures Valid()
      ensures View() == After(Sqlite, old(View()), Call.ClaimName(actor))
      ensures Flag(claimed) == AnswerTo(old(View()), Call.ClaimName(actor))
    {
      claimed := forall a | a in actors :: a.name != actor.name;
      if claimed {
        ReplaceActor(actors, actor);
        assert actors == set a | a in actors && a.name != actor.name;
        actors := actors + {actor};
      }
    }

    method GetActor(name: Name) returns (actor: Option<Actor>)
      requires Valid()
      ensures OneActor(actor) == AnswerTo(View(), Call.GetActor(name))
    {
      if a :| a in actors && a.name == name {
        return Some(a);
      }
      return None;
    }

    /** `ON CONFLICT(name) DO UPDATE SET` everything but the name and `created`. */
    method PutActor(actor: Actor)
      requires Valid()
      modifies this`actors
      ensures Valid()
      ensures View() == After(Sqlite, old(View()), Call.PutActor(actor))
    {
      hide ByRowId, ByReader, IdIsKey, ObjectAndReaderAreKey, Listing, MarksOf;
      var row := actor;
      if a :| a in actors && a.name == actor.name {
        row := a.(kind := actor.kind, profile := actor.profile, lastSeen := actor.lastSeen);
        assert ByName(actors)[actor.name] == a;
      }
      ReplaceActor(actors, row);
      actors := (set a | a in actors && a.name != row.name) + {row};
    }

    method Actors() returns (all: seq<Actor>)
      requires Valid()
      ensures forall i, j | 0 <= i < j < |all| :: Less(all[i].name, all[j].name)
      ensures IsSorted(all, NamedBefore) && AllActors(Elements(all)) == AnswerTo(View(), Call.Actors)
    {
      hide ByName, NameIsKey, NamedBefore, Listing, MarksOf;
      RowsAreOrdered(actors);
      RowsAreValues(actors);
      all := Sort(actors, NamedBefore);
      SortedByName(all);
    }

    /** `INSERT OR REPLACE`. */
    method AddObject(o: Message)
      requires Valid()
      modifies this`objects
      ensures Valid()
      ensures View() == After(Sqlite, old(View()), AddMessage(o))
    {
      ReplaceMessage(objects, o);
      objects := (set x | x in objects && x.id != o.id) + {o};
    }

    method GetObject(id: Id) returns (o: Option<Message>)
      requires Valid()
      ensures OneMessage(o) == AnswerTo(View(), GetMessage(id))
    {
      if x :| x in objects && x.id == id {
        return Some(x);
      }
      return None;
    }

    method Objects() returns (all: seq<Message>)
      requires Valid()
      ensures AllMessages(all) == AnswerTo(View(), ListMessages)
    {
      hide ByName, ByReader, ByRowId, NameIsKey, IdIsKey, ObjectAndReaderAreKey, Listing, Keyed, Older, StrictTotalOn;
      RowsAreListed(objects);
      all := Sort(objects, Older);
    }

    method RemoveObjects(ids: seq<Id>) returns (gone: nat)
      requires Valid()
      modifies this`objects, this`marks
      ensures Valid()
      ensures View() == After(Sqlite, old(View()), RemoveMessages(Elements(ids)))
      ensures Removed(gone) == AnswerTo(old(View()), RemoveMessages(Elements(ids)))
    {
      hide ByName, ByRowId, ByReader, NameIsKey, IdIsKey, ObjectAndReaderAreKey, Listing, Elements, RemoveFrom;
      if ids == [] {
        RemoveNoRows(View(), ids);
        return 0;
      }
      RowsWithout(View(), objects, marks, Elements(ids));
      marks := set r | r in marks && r.object_ !in Elements(ids);
      var doomed := set o | o in objects && o.id in Elements(ids);
      objects := objects - doomed;
      return |doomed|;
    }

    /** `INSERT OR IGNORE` against the composite key. */
    method MarkRead(mark: ReadMark) returns (first: bool)
      requires Valid()
      modifies this`marks
      ensures Valid()
      ensures View() == After(Sqlite, old(View()), Call.MarkRead(mark))
      ensures Flag(first) == AnswerTo(old(View()), Call.MarkRead(mark))
    {
      hide ByName, ByRowId, NameIsKey, IdIsKey, Listing, MarksOf;
      first := forall r | r in marks :: !(r.object_ == mark.object_ && r.reader == mark.reader);
      if first {
        InsertMark(marks, mark);
        marks := marks + {mark};
      }
    }

    method ReadsOf(ids: seq<Id>) returns (found: map<Id, set<ReadMark>>)
      requires Valid()
      ensures Marks(found) == AnswerTo(View(), Call.ReadsOf(Elements(ids)))
    {
      found := map id | id in ids :: set r | r in marks && r.object_ == id;
      ghost var expected := MarksOf(View(), Elements(ids));
      forall id | id in ids
        ensures found[id] == expected[id]
      {
        forall r | r in found[id] ensures r in expected[id] {
          assert (r.object_, r.reader) in View().marks;
        }
      }
    }
  }
}
