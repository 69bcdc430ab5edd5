/** SearchableMixin: the commit hooks that mirror a session's changes into the
    full-text index, `reindex`, and `search`, which re-imposes the index's rank
    order on the rows fetched from the primary store.

    The index itself is external; it is modelled as a map from (index name, id)
    to the document last sent for that key, plus the log of calls made to it.
    Ranking is the index's business: `Search` receives the ranked ids and the
    total the index answered. */
module Search {
  import opened Common

  /** The values of an entity's `__searchable__` fields, as sent to the index. */
  type Doc = seq<string>

  /** A persistent object as the session sees it: its table (`__tablename__`,
      also the index name), primary key, whether its class mixes in
      SearchableMixin, and the document `add_to_index` would send. */
  datatype Obj = Obj(table: string, id: int, searchable: bool, doc: Doc)

  type Key = (string, int)

  function KeyOf(o: Obj): Key { (o.table, o.id) }

  datatype IndexCall = AddDoc(key: Key, doc: Doc) | RemoveDoc(key: Key)

  /** `session._changes` as `before_commit` records it. */
  datatype Changes = Changes(add: seq<Obj>, update: seq<Obj>, delete: seq<Obj>)

  // ---------------------------------------------------------------------------
  // Specification of the commit hooks

  /** The calls one `add`/`update` loop of `after_commit` makes over `objs`. */
  function AddCalls(objs: seq<Obj>): seq<IndexCall>
  {
    if objs == [] then []
    else
      var last := objs[|objs| - 1];
      AddCalls(objs[..|objs| - 1]) + (if last.searchable then [AddDoc(KeyOf(last), last.doc)] else [])
  }

  /** The calls the `delete` loop of `after_commit` makes over `objs`. */
  function RemoveCalls(objs: seq<Obj>): seq<IndexCall>
  {
    if objs == [] then []
    else
      var last := objs[|objs| - 1];
      RemoveCalls(objs[..|objs| - 1]) + (if last.searchable then [RemoveDoc(KeyOf(last))] else [])
  }

  /** Everything `after_commit` sends to the index for one snapshot. */
  function MirrorCalls(ch: Changes): seq<IndexCall>
  {
    AddCalls(ch.add) + AddCalls(ch.update) + RemoveCalls(ch.delete)
  }

  /** The searchable objects of `objs`, in order: an independent description
      of which objects the hooks must mirror. */
  function Searchables(objs: seq<Obj>): (r: seq<Obj>)
    ensures forall o :: o in r <==> o in objs && o.searchable
    ensures |r| <= |objs|
  {
    if objs == [] then []
    else
      var last := objs[|objs| - 1];
      Searchables(objs[..|objs| - 1]) + (if last.searchable then [last] else [])
  }

  /** One `add_to_index` per searchable object, in order, carrying that
      object's key and document; non-searchable objects produce nothing. */
  lemma {:induction false} AddCallsExact(objs: seq<Obj>)
    ensures |AddCalls(objs)| == |Searchables(objs)|
    ensures forall i :: 0 <= i < |AddCalls(objs)| ==>
      AddCalls(objs)[i] == AddDoc(KeyOf(Searchables(objs)[i]), Searchables(objs)[i].doc)
  {
    if objs != [] {
      AddCallsExact(objs[..|objs| - 1]);
    }
  }

  /** One `remove_from_index` per searchable object, in order. */
  lemma {:induction false} RemoveCallsExact(objs: seq<Obj>)
    ensures |RemoveCalls(objs)| == |Searchables(objs)|
    ensures forall i :: 0 <= i < |RemoveCalls(objs)| ==>
      RemoveCalls(objs)[i] == RemoveDoc(KeyOf(Searchables(objs)[i]))
  {
    if objs != [] {
      RemoveCallsExact(objs[..|objs| - 1]);
    }
  }

  /** A snapshot yields an add for every captured new or dirty searchable
      object, a remove for every captured deleted one, and no other call. */
  lemma MirrorCallsExact(ch: Changes)
    ensures forall o :: (o in ch.add || o in ch.update) && o.searchable ==>
      AddDoc(KeyOf(o), o.doc) in MirrorCalls(ch)
    ensures forall o :: o in ch.delete && o.searchable ==> RemoveDoc(KeyOf(o)) in MirrorCalls(ch)
    ensures |MirrorCalls(ch)| ==
      |Searchables(ch.add)| + |Searchables(ch.update)| + |Searchables(ch.delete)|
    ensures forall c :: c in MirrorCalls(ch) && c.AddDoc? ==>
      exists o :: (o in Searchables(ch.add) || o in Searchables(ch.update)) && c == AddDoc(KeyOf(o), o.doc)
    ensures forall c :: c in MirrorCalls(ch) && c.RemoveDoc? ==>
      exists o :: o in Searchables(ch.delete) && c == RemoveDoc(KeyOf(o))
  {
    AddCallsExact(ch.add);
    AddCallsExact(ch.update);
    RemoveCallsExact(ch.delete);
    var a, u, d := AddCalls(ch.add), AddCalls(ch.update), RemoveCalls(ch.delete);
    var sa, su, sd := Searchables(ch.add), Searchables(ch.update), Searchables(ch.delete);
    forall o | (o in ch.add || o in ch.update) && o.searchable
      ensures AddDoc(KeyOf(o), o.doc) in MirrorCalls(ch)
    {
      if o in ch.add {
        var i :| 0 <= i < |sa| && sa[i] == o;
        assert a[i] == AddDoc(KeyOf(o), o.doc);
      } else {
        var i :| 0 <= i < |su| && su[i] == o;
        assert u[i] == AddDoc(KeyOf(o), o.doc);
      }
    }
    forall o | o in ch.delete && o.searchable
      ensures RemoveDoc(KeyOf(o)) in MirrorCalls(ch)
    {
      var i :| 0 <= i < |sd| && sd[i] == o;
      assert d[i] == RemoveDoc(KeyOf(o));
    }
    forall c | c in MirrorCalls(ch)
      ensures c.AddDoc? ==> exists o :: (o in sa || o in su) && c == AddDoc(KeyOf(o), o.doc)
      ensures c.RemoveDoc? ==> exists o :: o in sd && c == RemoveDoc(KeyOf(o))
    {
      if c in a {
        var i :| 0 <= i < |a| && a[i] == c;
        assert sa[i] in sa;
      } else if c in u {
        var i :| 0 <= i < |u| && u[i] == c;
        assert su[i] in su;
      } else {
        assert c in d;
        var i :| 0 <= i < |d| && d[i] == c;
        assert sd[i] in sd;
      }
    }
  }

  // ---------------------------------------------------------------------------
  // Effect of index calls on the index contents

  function Step(docs: map<Key, Doc>, c: IndexCall): map<Key, Doc>
  {
    match c
    case AddDoc(k, d) => docs[k := d]
    case RemoveDoc(k) => docs - {k}
  }

  /** The index contents after `calls`, starting from `docs`. */
  function Apply(docs: map<Key, Doc>, calls: seq<IndexCall>): map<Key, Doc>
  {
    if calls == [] then docs
    else Step(Apply(docs, calls[..|calls| - 1]), calls[|calls| - 1])
  }

  lemma {:induction false} ApplyConcat(docs: map<Key, Doc>, a: seq<IndexCall>, b: seq<IndexCall>)
    ensures Apply(docs, a + b) == Apply(Apply(docs, a), b)
  {
    if b == [] {
      assert a + b == a;
    } else {
      assert (a + b)[..|a + b| - 1] == a + b[..|b| - 1];
      ApplyConcat(docs, a, b[..|b| - 1]);
    }
  }

  lemma {:induction false} AddCallsConcat(a: seq<Obj>, b: seq<Obj>)
    ensures AddCalls(a + b) == AddCalls(a) + AddCalls(b)
  {
    if b == [] {
      assert a + b == a;
    } else {
      assert (a + b)[..|a + b| - 1] == a + b[..|b| - 1];
      AddCallsConcat(a, b[..|b| - 1]);
    }
  }

  /** The keys of the searchable objects of `objs`. */
  function SearchableKeys(objs: seq<Obj>): set<Key>
  {
    if objs == [] then {}
    else
      var last := objs[|objs| - 1];
      SearchableKeys(objs[..|objs| - 1]) + (if last.searchable then {KeyOf(last)} else {})
  }

  lemma {:induction false} SearchableKeysMembers(objs: seq<Obj>)
    ensures forall o :: o in objs && o.searchable ==> KeyOf(o) in SearchableKeys(objs)
    ensures forall k :: k in SearchableKeys(objs) ==> exists o :: o in objs && o.searchable && KeyOf(o) == k
  {
    if objs != [] {
      var init, last := objs[..|objs| - 1], objs[|objs| - 1];
      SearchableKeysMembers(init);
      assert objs == init + [last];
      forall k | k in SearchableKeys(objs)
        ensures exists o :: o in objs && o.searchable && KeyOf(o) == k
      {
        if k in SearchableKeys(init) {
          var o :| o in init && o.searchable && KeyOf(o) == k;
          assert o in objs;
        } else {
          assert last in objs;
        }
      }
    }
  }

  lemma ApplySnoc(docs: map<Key, Doc>, calls: seq<IndexCall>, c: IndexCall)
    ensures Apply(docs, calls + [c]) == Step(Apply(docs, calls), c)
  {
    assert (calls + [c])[..|calls|] == calls;
  }

  /** The document of the last searchable object of `objs` with key `k`. */
  function LastDoc(objs: seq<Obj>, k: Key): Option<Doc>
  {
    if objs == [] then None
    else
      var last := objs[|objs| - 1];
      if last.searchable && KeyOf(last) == k then Some(last.doc)
      else LastDoc(objs[..|objs| - 1], k)
  }

  /** After the add calls for `objs`, the index holds every key it held before
      and every searchable object's key; a key the objects mention holds the
      document of the last of them, any other key is untouched. */
  lemma {:induction false} LastDocPresent(objs: seq<Obj>)
    ensures forall k :: LastDoc(objs, k).Some? <==> k in SearchableKeys(objs)
  {
    if objs != [] {
      LastDocPresent(objs[..|objs| - 1]);
    }
  }

  lemma {:induction false} ApplyAddCalls(docs: map<Key, Doc>, objs: seq<Obj>)
    ensures forall k :: LastDoc(objs, k).Some? <==> k in SearchableKeys(objs)
    ensures Apply(docs, AddCalls(objs)).Keys == docs.Keys + SearchableKeys(objs)
    ensures forall k :: k in Apply(docs, AddCalls(objs)) ==>
      Apply(docs, AddCalls(objs))[k] == (if LastDoc(objs, k).Some? then LastDoc(objs, k).value else docs[k])
  {
    LastDocPresent(objs);
    if objs != [] {
      var init, last := objs[..|objs| - 1], objs[|objs| - 1];
      ApplyAddCalls(docs, init);
      var before := Apply(docs, AddCalls(init));
      if last.searchable {
        ApplySnoc(docs, AddCalls(init), AddDoc(KeyOf(last), last.doc));
        assert Apply(docs, AddCalls(objs)) == before[KeyOf(last) := last.doc];
      } else {
        assert AddCalls(objs) == AddCalls(init);
      }
    }
  }

  /** The remove calls for `objs` take exactly the searchable objects' keys out. */
  lemma {:induction false} ApplyRemoveCalls(docs: map<Key, Doc>, objs: seq<Obj>)
    ensures Apply(docs, RemoveCalls(objs)) == docs - SearchableKeys(objs)
  {
    if objs != [] {
      var init, last := objs[..|objs| - 1], objs[|objs| - 1];
      ApplyRemoveCalls(docs, init);
      if last.searchable {
        ApplySnoc(docs, RemoveCalls(init), RemoveDoc(KeyOf(last)));
        assert SearchableKeys(objs) == SearchableKeys(init) + {KeyOf(last)};
        assert (docs - SearchableKeys(init)) - {KeyOf(last)} == docs - SearchableKeys(objs);
      } else {
        assert RemoveCalls(objs) == RemoveCalls(init);
        assert SearchableKeys(objs) == SearchableKeys(init);
      }
    }
  }

  /** What one commit does to the index: the keys of captured new and dirty
      searchable objects are present with their latest document, unless a
      captured deleted searchable object has the same key, which is absent;
      every other key is as it was. */
  lemma CommitMirrorsChanges(docs: map<Key, Doc>, ch: Changes)
    ensures forall k :: LastDoc(ch.add + ch.update, k).Some? <==> k in SearchableKeys(ch.add + ch.update)
    ensures Apply(docs, MirrorCalls(ch)).Keys ==
      (docs.Keys + SearchableKeys(ch.add + ch.update)) - SearchableKeys(ch.delete)
    ensures forall k :: k in Apply(docs, MirrorCalls(ch)) ==>
      Apply(docs, MirrorCalls(ch))[k] ==
        (if LastDoc(ch.add + ch.update, k).Some? then LastDoc(ch.add + ch.update, k).value else docs[k])
  {
    AddCallsConcat(ch.add, ch.update);
    var adds := AddCalls(ch.add + ch.update);
    ApplyConcat(docs, adds, RemoveCalls(ch.delete));
    ApplyAddCalls(docs, ch.add + ch.update);
    ApplyRemoveCalls(Apply(docs, adds), ch.delete);
  }

  /** The commit hooks' effect stated object by object: a captured deleted
      searchable object is gone from the index; a captured new or dirty
      searchable object is in it unless a deleted one shares its key; keys no
      captured searchable object has keep their document. */
  lemma IndexAfterCommit(docs: map<Key, Doc>, ch: Changes)
    ensures forall o :: o in ch.delete && o.searchable ==> KeyOf(o) !in Apply(docs, MirrorCalls(ch))
    ensures forall o ::
      ((o in ch.add || o in ch.update) && o.searchable &&
       (forall d :: d in ch.delete && d.searchable ==> KeyOf(d) != KeyOf(o))) ==>
        KeyOf(o) in Apply(docs, MirrorCalls(ch))
    ensures forall k :: k !in SearchableKeys(ch.add + ch.update + ch.delete) ==>
      (k in Apply(docs, MirrorCalls(ch)) <==> k in docs) &&
      (k in docs ==> Apply(docs, MirrorCalls(ch))[k] == docs[k])
  {
    CommitMirrorsChanges(docs, ch);
    var au := ch.add + ch.update;
    SearchableKeysMembers(au);
    SearchableKeysMembers(ch.delete);
    SearchableKeysMembers(au + ch.delete);
    forall o | (o in ch.add || o in ch.update) && o.searchable &&
      (forall d :: d in ch.delete && d.searchable ==> KeyOf(d) != KeyOf(o))
      ensures KeyOf(o) in Apply(docs, MirrorCalls(ch))
    {
      assert o in au;
      assert KeyOf(o) !in SearchableKeys(ch.delete);
    }
    forall k | k !in SearchableKeys(au + ch.delete)
      ensures k !in SearchableKeys(au) && k !in SearchableKeys(ch.delete)
    {
    }
    LastDocPresent(au);
  }

  // ---------------------------------------------------------------------------
  // The index and the session

  /** The external document index. */
  class Index {
    var docs: map<Key, Doc>
    var calls: seq<IndexCall>

    constructor ()
      ensures docs == map[] && calls == []
    {
      docs := map[];
      calls := [];
    }

    /** `add_to_index(index, model)`: stores the model's document under its id. */
    method Add(index: string, o: Obj)
      modifies this
      ensures calls == old(calls) + [AddDoc((index, o.id), o.doc)]
      ensures docs == old(docs)[(index, o.id) := o.doc]
    {
      calls := calls + [AddDoc((index, o.id), o.doc)];
      docs := docs[(index, o.id) := o.doc];
    }

    /** `remove_from_index(index, model)`: drops the document with the model's id. */
    method Remove(index: string, o: Obj)
      modifies this
      ensures calls == old(calls) + [RemoveDoc((index, o.id))]
      ensures docs == old(docs) - {(index, o.id)}
    {
      calls := calls + [RemoveDoc((index, o.id))];
      docs := docs - {(index, o.id)};
    }
  }

  /** The database session: the objects pending in the current transaction and
      the `_changes` snapshot the hooks hand from before to after the commit. */
  class Session {
    var pendingNew: seq<Obj>
    var dirty: seq<Obj>
    var deleted: seq<Obj>
    var changes: Option<Changes>

    constructor ()
      ensures pendingNew == [] && dirty == [] && deleted == [] && changes == None
    {
      pendingNew, dirty, deleted := [], [], [];
      changes := None;
    }

    /** `db.session.add(o)` for an object not yet persisted. */
    method Add(o: Obj)
      modifies this`pendingNew
      ensures pendingNew == old(pendingNew) + [o]
    {
      pendingNew := pendingNew + [o];
    }

    /** An attribute of the persistent object `o` was assigned. */
    method MarkDirty(o: Obj)
      modifies this`dirty
      ensures dirty == old(dirty) + [o]
    {
      dirty := dirty + [o];
    }

    /** `db.session.delete(o)`. */
    method Delete(o: Obj)
      modifies this`deleted
      ensures deleted == old(deleted) + [o]
    {
      deleted := deleted + [o];
    }

    /** `before_commit`: snapshots the new, dirty and deleted objects. */
    method BeforeCommit()
      modifies this`changes
      ensures changes == Some(Changes(pendingNew, dirty, deleted))
    {
      changes := Some(Changes(pendingNew, dirty, deleted));
    }

    /** `after_commit`: mirrors the snapshot into the index, then clears it. */
    method AfterCommit(ix: Index)
      requires changes.Some?
      modifies this`changes, ix
      ensures changes == None
      ensures ix.calls == old(ix.calls) + MirrorCalls(old(changes.value))
      ensures ix.docs == Apply(old(ix.docs), MirrorCalls(old(changes.value)))
    {
      var ch := changes.value;
      ghost var calls0, docs0 := ix.calls, ix.docs;
      ghost var a, u, d := AddCalls(ch.add), AddCalls(ch.update), RemoveCalls(ch.delete);
      MirrorAdds(ix, ch.add);
      MirrorAdds(ix, ch.update);
      MirrorRemoves(ix, ch.delete);
      assert ix.calls == calls0 + (a + u + d);
      ApplyConcat(docs0, a, u);
      ApplyConcat(docs0, a + u, d);
      assert ix.docs == Apply(docs0, a + u + d);
      changes := None;
    }

    /** `db.session.commit()` with both hooks attached: snapshot, flush (the
        pending lists empty), then mirror. */
    method Commit(ix: Index)
      modifies this, ix
      ensures pendingNew == [] && dirty == [] && deleted == [] && changes == None
      ensures ix.calls == old(ix.calls) + MirrorCalls(Changes(old(pendingNew), old(dirty), old(deleted)))
      ensures ix.docs == Apply(old(ix.docs), MirrorCalls(Changes(old(pendingNew), old(dirty), old(deleted))))
    {
      BeforeCommit();
      pendingNew, dirty, deleted := [], [], [];
      AfterCommit(ix);
    }
  }

  /** One more object handled by an `add`/`update` loop. */
  lemma AddCallsPrefix(objs: seq<Obj>, i: nat)
    requires i < |objs|
    ensures objs[i].searchable ==> AddCalls(objs[..i + 1]) == AddCalls(objs[..i]) + [AddDoc(KeyOf(objs[i]), objs[i].doc)]
    ensures !objs[i].searchable ==> AddCalls(objs[..i + 1]) == AddCalls(objs[..i])
  {
    assert objs[..i + 1][..i] == objs[..i];
  }

  /** One more object handled by the `delete` loop. */
  lemma RemoveCallsPrefix(objs: seq<Obj>, i: nat)
    requires i < |objs|
    ensures objs[i].searchable ==> RemoveCalls(objs[..i + 1]) == RemoveCalls(objs[..i]) + [RemoveDoc(KeyOf(objs[i]))]
    ensures !objs[i].searchable ==> RemoveCalls(objs[..i + 1]) == RemoveCalls(objs[..i])
  {
    assert objs[..i + 1][..i] == objs[..i];
  }

  /** One `add`/`update` loop of `after_commit`: `add_to_index` for each
      searchable object of `objs`. */
  method MirrorAdds(ix: Index, objs: seq<Obj>)
    modifies ix
    ensures ix.calls == old(ix.calls) + AddCalls(objs)
    ensures ix.docs == Apply(old(ix.docs), AddCalls(objs))
  {
    ghost var calls0, docs0 := ix.calls, ix.docs;
    var i := 0;
    while i < |objs|
      invariant 0 <= i <= |objs|
      invariant ix.calls == calls0 + AddCalls(objs[..i])
      invariant ix.docs == Apply(docs0, AddCalls(objs[..i]))
    {
      var obj := objs[i];
      ghost var before := AddCalls(objs[..i]);
      AddCallsPrefix(objs, i);
      if obj.searchable {
        ix.Add(obj.table, obj);
        ApplySnoc(docs0, before, AddDoc(KeyOf(obj), obj.doc));
      }
      i := i + 1;
    }
    assert objs[..i] == objs;
  }

  /** The `delete` loop of `after_commit`: `remove_from_index` for each
      searchable object of `objs`. */
  method MirrorRemoves(ix: Index, objs: seq<Obj>)
    modifies ix
    ensures ix.calls == old(ix.calls) + RemoveCalls(objs)
    ensures ix.docs == Apply(old(ix.docs), RemoveCalls(objs))
  {
    ghost var calls0, docs0 := ix.calls, ix.docs;
    var i := 0;
    while i < |objs|
      invariant 0 <= i <= |objs|
      invariant ix.calls == calls0 + RemoveCalls(objs[..i])
      invariant ix.docs == Apply(docs0, RemoveCalls(objs[..i]))
    {
      var obj := objs[i];
      ghost var before := RemoveCalls(objs[..i]);
      RemoveCallsPrefix(objs, i);
      if obj.searchable {
        ix.Remove(obj.table, obj);
        ApplySnoc(docs0, before, RemoveDoc(KeyOf(obj)));
      }
      i := i + 1;
    }
    assert objs[..i] == objs;
  }

  /** `reindex`: one `add_to_index` per row of the class, in query order. */
  method Reindex(ix: Index, table: string, rows: seq<Obj>)
    requires forall o :: o in rows ==> o.table == table && o.searchable
    modifies ix
    ensures ix.calls == old(ix.calls) + AddCalls(rows)
    ensures ix.docs == Apply(old(ix.docs), AddCalls(rows))
  {
    ghost var calls0, docs0 := ix.calls, ix.docs;
    var i := 0;
    while i < |rows|
      invariant 0 <= i <= |rows|
      invariant ix.calls == calls0 + AddCalls(rows[..i])
      invariant ix.docs == Apply(docs0, AddCalls(rows[..i]))
    {
      var row := rows[i];
      ghost var before := AddCalls(rows[..i]);
      AddCallsPrefix(rows, i);
      assert row in rows;
      assert row.searchable && KeyOf(row) == (table, row.id);
      ix.Add(table, row);
      assert ix.calls == calls0 + (before + [AddDoc(KeyOf(row), row.doc)]);
      ApplySnoc(docs0, before, AddDoc(KeyOf(row), row.doc));
      i := i + 1;
    }
    assert rows[..i] == rows;
  }

  /** Reindexing issues exactly one add per record, for that record, and no
      remove. */
  lemma ReindexAddsEachRow(table: string, rows: seq<Obj>)
    requires forall o :: o in rows ==> o.table == table && o.searchable
    ensures |AddCalls(rows)| == |rows|
    ensures forall i :: 0 <= i < |rows| ==> AddCalls(rows)[i] == AddDoc((table, rows[i].id), rows[i].doc)
  {
    SearchablesOfSearchable(rows);
    AddCallsExact(rows);
  }

  lemma {:induction false} SearchablesOfSearchable(objs: seq<Obj>)
    requires forall o :: o in objs ==> o.searchable
    ensures Searchables(objs) == objs
  {
    if objs != [] {
      var init, last := objs[..|objs| - 1], objs[|objs| - 1];
      assert objs == init + [last];
      assert last in objs;
      SearchablesOfSearchable(init);
      assert Searchables(objs) == init + [last];
    }
  }

  /** Reindexing twice leaves the index as reindexing once. */
  lemma ReindexIdempotent(docs: map<Key, Doc>, rows: seq<Obj>)
    ensures Apply(Apply(docs, AddCalls(rows)), AddCalls(rows)) == Apply(docs, AddCalls(rows))
  {
    var once := Apply(docs, AddCalls(rows));
    ApplyAddCalls(docs, rows);
    ApplyAddCalls(once, rows);
  }

  // ---------------------------------------------------------------------------
  // Ranked search

  /** Position of the first occurrence of `id` in `ids`. */
  function Rank(ids: seq<int>, id: int): (r: nat)
    requires id in ids
    ensures r < |ids| && ids[r] == id && id !in ids[..r]
  {
    if ids[0] == id then 0
    else
      var r := Rank(ids[1..], id);
      assert ids[..1 + r] == [ids[0]] + ids[1..][..r];
      1 + r
  }

  /** A position holding `id` with no earlier `id` is its rank. */
  lemma RankUnique(ids: seq<int>, id: int, k: nat)
    requires k < |ids| && ids[k] == id && id !in ids[..k]
    ensures Rank(ids, id) == k
  {
  }

  /** The WHEN list `search` builds for its CASE expression, looked up as SQL
      does: the first matching WHEN wins, no match gives NULL. */
  function CaseValue(when: seq<(int, nat)>, id: int): Option<nat>
  {
    if when == [] then None
    else if when[0].0 == id then Some(when[0].1)
    else CaseValue(when[1..], id)
  }

  lemma {:induction false} CaseValueOfPositions(ids: seq<int>, when: seq<(int, nat)>, offset: nat, id: int)
    requires |when| == |ids|
    requires forall j :: 0 <= j < |ids| ==> when[j] == (ids[j], j + offset)
    ensures id in ids ==> CaseValue(when, id) == Some(Rank(ids, id) + offset)
    ensures id !in ids ==> CaseValue(when, id) == None
  {
    if ids != [] {
      CaseValueOfPositions(ids[1..], when[1..], offset + 1, id);
    }
  }

  /** The loop that pairs every returned id with its position. The CASE
      expression built from it sends each id to its rank. */
  method RankCases(ids: seq<int>) returns (when: seq<(int, nat)>)
    ensures |when| == |ids|
    ensures forall id :: id in ids ==> CaseValue(when, id) == Some(Rank(ids, id))
    ensures forall id :: id !in ids ==> CaseValue(when, id) == None
  {
    when := [];
    var i := 0;
    while i < |ids|
      invariant 0 <= i <= |ids|
      invariant |when| == i
      invariant forall j :: 0 <= j < i ==> when[j] == (ids[j], j)
    {
      when := when + [(ids[i], i)];
      i := i + 1;
    }
    forall id | true
      ensures id in ids ==> CaseValue(when, id) == Some(Rank(ids, id))
      ensures id !in ids ==> CaseValue(when, id) == None
    {
      CaseValueOfPositions(ids, when, 0, id);
    }
  }

  /** The ids the filtered query returns, ordered by their CASE value: the
      first occurrence of each returned id that the store holds. */
  function KeptIds(ids: seq<int>, present: set<int>): seq<int>
  {
    if ids == [] then []
    else
      var init, last := ids[..|ids| - 1], ids[|ids| - 1];
      KeptIds(init, present) + (if last in present && last !in init then [last] else [])
  }

  /** The filtered query keeps exactly the returned ids the store holds, each
      once, in strictly increasing rank. */
  lemma KeptIdsInRankOrder(ids: seq<int>, present: set<int>)
    ensures forall id :: id in KeptIds(ids, present) <==> id in ids && id in present
    ensures forall i, j :: 0 <= i < j < |KeptIds(ids, present)| ==>
      Rank(ids, KeptIds(ids, present)[i]) < Rank(ids, KeptIds(ids, present)[j])
    ensures |KeptIds(ids, present)| <= |ids|
  {
    KeptIdsMembers(ids, present);
    KeptIdsOrdered(ids, present);
  }

  lemma {:induction false} KeptIdsMembers(ids: seq<int>, present: set<int>)
    ensures forall id :: id in KeptIds(ids, present) <==> id in ids && id in present
    ensures |KeptIds(ids, present)| <= |ids|
  {
    if ids != [] {
      var init, last := ids[..|ids| - 1], ids[|ids| - 1];
      KeptIdsMembers(init, present);
      assert ids == init + [last];
    }
  }

  lemma {:induction false} KeptIdsOrdered(ids: seq<int>, present: set<int>)
    ensures forall i :: 0 <= i < |KeptIds(ids, present)| ==> KeptIds(ids, present)[i] in ids
    ensures forall i, j :: 0 <= i < j < |KeptIds(ids, present)| ==>
      Rank(ids, KeptIds(ids, present)[i]) < Rank(ids, KeptIds(ids, present)[j])
  {
    if ids != [] {
      var init, last := ids[..|ids| - 1], ids[|ids| - 1];
      KeptIdsOrdered(init, present);
      KeptIdsMembers(init, present);
      KeptIdsMembers(ids, present);
      var k0 := KeptIds(init, present);
      RankOfPrefix(ids);
      InRankOrderOfPrefix(ids, init, k0);
      if last in present && last !in init {
        assert KeptIds(ids, present) == k0 + [last];
        RankUnique(ids, last, |ids| - 1);
        AppendHigherRank(ids, k0, last);
      } else {
        assert KeptIds(ids, present) == k0;
      }
    }
  }

  /** Ids of `init` (`ids` without its last element) in rank order there are
      in rank order in `ids` too, each ranked below the last position. */
  lemma InRankOrderOfPrefix(ids: seq<int>, init: seq<int>, k0: seq<int>)
    requires ids != [] && init == ids[..|ids| - 1]
    requires forall x :: x in k0 ==> x in init
    requires forall i, j :: 0 <= i < j < |k0| ==> Rank(init, k0[i]) < Rank(init, k0[j])
    requires forall id :: id in init ==> Rank(ids, id) == Rank(init, id)
    ensures forall i :: 0 <= i < |k0| ==> k0[i] in ids && Rank(ids, k0[i]) < |ids| - 1
    ensures forall i, j :: 0 <= i < j < |k0| ==> Rank(ids, k0[i]) < Rank(ids, k0[j])
  {
    forall i | 0 <= i < |k0|
      ensures k0[i] in ids && Rank(ids, k0[i]) < |ids| - 1
    {
      var x := k0[i];
      assert x in k0;
      assert ids == init + [ids[|ids| - 1]];
    }
  }

  /** Appending an id ranked after every id of a rank-ordered list keeps it
      in rank order. */
  lemma AppendHigherRank(ids: seq<int>, k0: seq<int>, last: int)
    requires last in ids
    requires forall i :: 0 <= i < |k0| ==> k0[i] in ids && Rank(ids, k0[i]) < Rank(ids, last)
    requires forall i, j :: 0 <= i < j < |k0| ==> Rank(ids, k0[i]) < Rank(ids, k0[j])
    ensures var k := k0 + [last];
      forall i, j :: 0 <= i < j < |k| ==> Rank(ids, k[i]) < Rank(ids, k[j])
  {
    var k := k0 + [last];
    forall i, j | 0 <= i < j < |k|
      ensures Rank(ids, k[i]) < Rank(ids, k[j])
    {
      assert k[i] == k0[i];
      if j < |k0| {
        assert k[j] == k0[j];
      } else {
        assert k[j] == last;
      }
    }
  }

  /** Every id of `s` was returned by the index, and `s` lists them in
      strictly increasing rank. */
  ghost predicate InRankOrder(s: seq<int>, ids: seq<int>)
  {
    && (forall i :: 0 <= i < |s| ==> s[i] in ids)
    && (forall i, j :: 0 <= i < j < |s| ==> Rank(ids, s[i]) < Rank(ids, s[j]))
  }

  /** One step of an order-keeping filter: what it kept of `s` without its
      last id, followed by that id or not, is in rank order when `s` is. */
  lemma FilterStepInRankOrder(ids: seq<int>, s: seq<int>, k0: seq<int>, keepLast: bool)
    requires s != [] && InRankOrder(s, ids) && InRankOrder(k0, ids)
    requires forall x :: x in k0 ==> x in s[..|s| - 1]
    ensures InRankOrder(k0 + (if keepLast then [s[|s| - 1]] else []), ids)
  {
    var last := s[|s| - 1];
    if keepLast {
      forall i | 0 <= i < |k0|
        ensures k0[i] in ids && Rank(ids, k0[i]) < Rank(ids, last)
      {
        assert k0[i] in k0;
        var k :| 0 <= k < |s| - 1 && s[k] == k0[i];
      }
      AppendHigherRank(ids, k0, last);
      assert k0 + (if keepLast then [last] else []) == k0 + [last];
    } else {
      assert k0 + (if keepLast then [last] else []) == k0;
    }
  }

  /** Dropping the last id leaves the rank of every other id as it was. */
  lemma RankOfPrefix(ids: seq<int>)
    requires ids != []
    ensures forall id :: id in ids[..|ids| - 1] ==> Rank(ids, id) == Rank(ids[..|ids| - 1], id)
  {
    var init := ids[..|ids| - 1];
    forall id | id in init
      ensures Rank(ids, id) == Rank(init, id)
    {
      var r := Rank(init, id);
      assert ids[..r] == init[..r];
      RankUnique(ids, id, r);
    }
  }

  /** What `search` returns: the ids of the rows in output order, the rows,
      and the total. */
  datatype Hits<R> = Hits(ids: seq<int>, rows: seq<R>, total: int)

  /** `search(expression, page, per_page)` given the index's answer
      (`ids`, `total`) and the store's rows by id. No ids or a zero total
      yields nothing and 0 without touching the store; otherwise the rows the
      store holds for those ids, in the index's rank order, with the index's
      total unchanged even when ids were dropped. */
  function Search<R>(ids: seq<int>, total: int, store: map<int, R>): (r: Hits<R>)
    ensures (|ids| == 0 || total == 0) ==> r == Hits([], [], 0)
    ensures (|ids| > 0 && total != 0) ==> r.total == total
    ensures forall id :: id in r.ids <==> |ids| > 0 && total != 0 && id in ids && id in store
    ensures forall i, j :: 0 <= i < j < |r.ids| ==> Rank(ids, r.ids[i]) < Rank(ids, r.ids[j])
    ensures |r.rows| == |r.ids| <= |ids|
    ensures forall i :: 0 <= i < |r.rows| ==> r.ids[i] in store && r.rows[i] == store[r.ids[i]]
  {
    if |ids| == 0 || total == 0 then Hits([], [], 0)
    else
      KeptIdsInRankOrder(ids, store.Keys);
      var kept := KeptIds(ids, store.Keys);
      assert forall i :: 0 <= i < |kept| ==> kept[i] in store by {
        forall i | 0 <= i < |kept| ensures kept[i] in store {
          assert kept[i] in kept;
        }
      }
      Hits(kept, seq(|kept|, i requires 0 <= i < |kept| => store[kept[i]]), total)
  }

  /** Any two id lists holding the same ids in strictly increasing rank are
      equal: the rank order fixes the output order completely. */
  lemma {:induction false} RankOrderDetermines(ids: seq<int>, a: seq<int>, b: seq<int>)
    requires forall x :: x in a ==> x in ids
    requires forall x :: x in a ==> x in b
    requires forall x :: x in b ==> x in a
    requires forall i, j :: 0 <= i < j < |a| ==> Rank(ids, a[i]) < Rank(ids, a[j])
    requires forall i, j :: 0 <= i < j < |b| ==> Rank(ids, b[i]) < Rank(ids, b[j])
    ensures a == b
    decreases |a|
  {
    SameMembersEmpty(a, b);
    if a != [] {
      HeadsAgree(ids, a, b);
      forall x | x in a[1..] ensures x in b[1..] {
        TailMember(ids, a, b, x);
      }
      forall x | x in b[1..] ensures x in a[1..] {
        TailMember(ids, b, a, x);
      }
      RankOrderDetermines(ids, a[1..], b[1..]);
      assert a == [a[0]] + a[1..] && b == [b[0]] + b[1..];
    }
  }

  lemma SameMembersEmpty(a: seq<int>, b: seq<int>)
    requires forall x :: x in a ==> x in b
    requires forall x :: x in b ==> x in a
    ensures a == [] <==> b == []
  {
    if a != [] {
      var x := a[0];
      assert x in a && x in b;
    }
    if b != [] {
      var x := b[0];
      assert x in b && x in a;
    }
  }

  lemma HeadsAgree(ids: seq<int>, a: seq<int>, b: seq<int>)
    requires a != [] && b != []
    requires forall x :: x in a ==> x in ids
    requires forall x :: x in a ==> x in b
    requires forall x :: x in b ==> x in a
    requires forall i, j :: 0 <= i < j < |a| ==> Rank(ids, a[i]) < Rank(ids, a[j])
    requires forall i, j :: 0 <= i < j < |b| ==> Rank(ids, b[i]) < Rank(ids, b[j])
    ensures a[0] == b[0]
  {
    assert a[0] in a && b[0] in b;
    var j :| 0 <= j < |b| && b[j] == a[0];
    var i :| 0 <= i < |a| && a[i] == b[0];
  }

  lemma TailMember(ids: seq<int>, a: seq<int>, b: seq<int>, x: int)
    requires a != [] && b != [] && a[0] == b[0]
    requires forall y :: y in a ==> y in ids
    requires forall y :: y in a ==> y in b
    requires forall y :: y in b ==> y in a
    requires forall i, j :: 0 <= i < j < |a| ==> Rank(ids, a[i]) < Rank(ids, a[j])
    requires x in a[1..]
    ensures x in b[1..]
  {
    var i :| 1 <= i < |a| && a[i] == x;
    assert Rank(ids, a[0]) < Rank(ids, a[i]);
    assert x in a;
    var j :| 0 <= j < |b| && b[j] == x;
    assert j != 0;
  }
}
