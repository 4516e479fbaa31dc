/**
 * The SQLite item repository as an in-memory store: the TypedBaseItems,
 * ChildrenIds and People tables, the disposed flag and the write lock. Every
 * write runs in a transaction on a pending copy of its tables that is committed
 * only when the whole statement loop succeeds; a cancellation or an engine fault
 * rolls back, which leaves the tables as they were. Cancellation points and
 * engine faults are nondeterministic choices.
 */
module Repository {
  import opened Wrappers
  import opened Items
  import Schema
  import Binding
  import Tables
  import Seqs
  import Rows
  import Children
  import People
  import Query
  import ItemQueries

  /** The exceptions the repository raises. */
  datatype Error =
    | ArgumentNull(parameter: string)
    | ObjectDisposed
    | OperationCanceled
    | EngineFailure

  /** QueryResult<T>: one page of results and the count of all matches. */
  datatype QueryResult<T> = QueryResult(items: seq<T>, totalRecordCount: int)

  /** The two fields Dispose touches. */
  datatype LockState = LockState(disposed: bool, writeLocked: bool)

  /**
   * Dispose as written: it marks the store disposed, then waits on the write
   * lock (a semaphore of one slot) and never releases it. `None` is a wait
   * that never returns.
   */
  function DisposeAsWritten(s: LockState): (after: Option<LockState>)
    ensures after.None? <==> s.writeLocked
    ensures after.Some? ==> after.value.disposed && after.value.writeLocked
  {
    if s.writeLocked then None else Some(LockState(true, true))
  }

  /** A second Dispose of the same store waits forever on the lock the first one kept. */
  lemma DisposeTwiceBlocks()
    ensures DisposeAsWritten(LockState(false, false)).Some?
    ensures DisposeAsWritten(DisposeAsWritten(LockState(false, false)).value).None?
  {
  }

  /**
   * Dispose as intended: an already disposed store is left as it is; otherwise
   * the store is marked disposed and the lock is taken for good, so no write can
   * start afterwards.
   */
  function DisposeOnce(s: LockState): (after: LockState)
    ensures after.disposed && (s.writeLocked ==> after.writeLocked)
    ensures !s.disposed ==> after.writeLocked
  {
    if s.disposed then s else LockState(true, true)
  }

  /** Disposing twice is disposing once, and from a quiescent store Dispose always returns. */
  lemma DisposeOnceIdempotent(s: LockState)
    requires s.writeLocked == s.disposed
    ensures DisposeOnce(DisposeOnce(s)) == DisposeOnce(s)
    ensures DisposeOnce(s).disposed && DisposeOnce(s).writeLocked
    ensures !s.disposed ==> DisposeAsWritten(s) == Some(DisposeOnce(s))
  {
  }

  /** Deleting an id with no row, no child edges and no person rows changes nothing. */
  lemma DeleteAbsentChangesNothing(items: map<Guid, Row>, edges: set<Children.Edge>,
                                   people: seq<People.PersonRow>, id: Guid)
    requires id !in items && Children.ChildrenOf(edges, id) == {} && People.RowsOf(people, id) == []
    ensures items - {id} == items
    ensures Children.WithoutParent(edges, id) == edges
    ensures Seqs.Filter(people, People.NotOwned(id)) == people
  {
    forall e | e in edges ensures e.0 != id {
      Children.ChildrenOfMeaning(edges, id, e.1);
    }
    forall i | 0 <= i < |people| ensures People.NotOwned(id)(people[i]) {
      Seqs.FilterMembers(people, People.Owned(id), people[i]);
    }
    Seqs.FilterAllOrNone(people, People.NotOwned(id));
  }

  /** The engine's storage order of a table: every key once. */
  ghost predicate ScansTable(scan: seq<Guid>, table: map<Guid, Row>) {
    Seqs.Distinct(scan) && forall g :: g in scan <==> g in table
  }

  /** A reader loop that adds each column value of the result set to a list, in result order. */
  method ReadAll<T>(rows: seq<T>) returns (list: seq<T>)
    ensures list == rows
  {
    list := [];
    var i := 0;
    while i < |rows|
      invariant 0 <= i <= |rows|
      invariant list == rows[..i]
    {
      list := list + [rows[i]];
      i := i + 1;
    }
  }

  /** GetPeople's reader loop: each result row read by GetPerson, in result order. */
  method ReadPeople(rows: seq<People.PersonRow>) returns (list: seq<People.PersonInfo>)
    ensures |list| == |rows|
    ensures forall j | 0 <= j < |rows| :: list[j] == People.GetPerson(rows[j])
  {
    list := [];
    var i := 0;
    while i < |rows|
      invariant 0 <= i <= |rows|
      invariant |list| == i
      invariant forall j | 0 <= j < i :: list[j] == People.GetPerson(rows[j])
    {
      list := list + [People.GetPerson(rows[i])];
      i := i + 1;
    }
  }

  /**
   * UpdatePeople's insert loop: one `_savePersonCommand` per person, in list
   * order with its index as ListOrder, appended to the rows `kept` after the
   * delete; an unnamed person or an engine fault stops it with `ok` false.
   */
  method InsertPeople(kept: seq<People.PersonRow>, itemId: Guid, list: seq<People.PersonInfo>)
    returns (pending: seq<People.PersonRow>, ok: bool)
    ensures ok ==> People.AllNamed(list) && pending == kept + People.InsertedRows(itemId, list)
    ensures !People.AllNamed(list) ==> !ok
  {
    pending := kept;
    ok := true;
    var listIndex := 0;
    while listIndex < |list|
      invariant 0 <= listIndex <= |list|
      invariant People.AllNamed(list[..listIndex])
      invariant pending == kept + People.InsertedRows(itemId, list[..listIndex])
    {
      var person := list[listIndex];
      var fault: bool :| true;
      if person.name.None? || fault {
        ok := false;
        return;
      }
      ghost var named := list[..listIndex + 1];
      assert named[..listIndex] == list[..listIndex];
      assert People.AllNamed(named);
      pending := pending + [People.PersonRowOf(itemId, person, listIndex)];
      listIndex := listIndex + 1;
    }
    assert list[..listIndex] == list;
  }

  class Store {
    const codec: Codec
    var columns: seq<Schema.Column>
    var items: map<Guid, Row>
    var children: set<Children.Edge>
    var people: seq<People.PersonRow>
    var disposed: bool
    var writeLocked: bool

    /**
     * Between calls: every stored row is keyed by its guid and readable, the
     * table has every column the save statement writes, and the write lock is
     * held exactly when the store is disposed: a disposal takes it for good.
     */
    ghost predicate Valid()
      reads this
    {
      && Rows.WellFormedTable(items)
      && (forall c | c in Schema.SaveColumns :: c in columns)
      && writeLocked == disposed
    }

    /** The constructor followed by Initialize on a library file with the given contents. */
    constructor Open(codec: Codec, existing: seq<Schema.Column>, items: map<Guid, Row>,
                     children: set<Children.Edge>, people: seq<People.PersonRow>)
      requires Schema.IsEarlierLayout(existing) && Rows.WellFormedTable(items)
      ensures Valid()
      ensures this.codec == codec && this.items == items && this.children == children && this.people == people
      ensures existing <= columns
      ensures forall c | c in columns :: c in existing || c in Schema.TableColumns || c in Schema.AddedColumns
      ensures !disposed && !writeLocked
    {
      var upgraded := Schema.Initialize(existing);
      this.codec := codec;
      columns := upgraded;
      this.items := items;
      this.children := children;
      this.people := people;
      disposed := false;
      writeLocked := false;
    }

    function CheckDisposed(): (r: Outcome<Error>)
      reads this
      ensures r.Fail? <==> disposed
      ensures r.Fail? ==> r.error == ObjectDisposed
    {
      if disposed then Fail(ObjectDisposed) else Pass
    }

    /**
     * SaveItems: one `replace into TypedBaseItems` per item of the batch, in
     * batch order and in one transaction. A committed batch leaves, for each id,
     * the row of the last item with that id; a failed one leaves the table as it
     * was. The lock is released on every path that took it.
     */
    method SaveItems(batch: Option<seq<Item>>) returns (r: Outcome<Error>)
      requires Valid()
      modifies this
      ensures Valid()
      ensures children == old(children) && people == old(people) && columns == old(columns)
      ensures disposed == old(disposed) && writeLocked == old(writeLocked)
      ensures batch.None? ==> r == Fail(ArgumentNull("items"))
      ensures batch.Some? && old(disposed) ==> r == Fail(OperationCanceled) || r == Fail(ObjectDisposed)
      ensures r.Pass? ==> batch.Some? && items == Tables.ReplaceAll(old(items), Rows.Saved(codec, batch.value))
      ensures r.Fail? ==> items == old(items)
    {
      if batch.None? {
        return Fail(ArgumentNull("items"));
      }
      var cancelled: bool :| true;
      if cancelled {
        return Fail(OperationCanceled);
      }
      r := CheckDisposed();
      if r.Fail? {
        return;
      }
      var waitCancelled: bool :| true;
      if waitCancelled {
        return Fail(OperationCanceled);
      }
      writeLocked := true;
      var list := batch.value;
      var pending := items;
      var i := 0;
      while i < |list|
        invariant 0 <= i <= |list|
        invariant r == Pass
        invariant pending == Tables.ReplaceAll(items, Rows.Saved(codec, list[..i]))
        modifies {}
      {
        var stop: bool :| true;
        if stop {
          r := Fail(OperationCanceled);
          break;
        }
        var values := Binding.Bind(codec, list[i]);
        var fault: bool :| true;
        if fault {
          r := Fail(EngineFailure);
          break;
        }
        Rows.WrittenBind(codec, list[i]);
        Rows.SavedSnoc(codec, list, i);
        Tables.ReplaceAllSnoc(items, Rows.Saved(codec, list[..i]), (list[i].id, Rows.RowOf(codec, list[i])));
        pending := pending[list[i].id := Binding.Written(values)];
        i := i + 1;
      }
      if r.Pass? {
        assert list[..i] == list;
        Rows.SavedWellFormed(codec, items, list);
        items := pending;
      }
      writeLocked := false;
    }

    /** SaveItem: a batch of one. */
    method SaveItem(item: Option<Item>) returns (r: Outcome<Error>)
      requires Valid()
      modifies this
      ensures Valid()
      ensures children == old(children) && people == old(people) && columns == old(columns)
      ensures disposed == old(disposed) && writeLocked == old(writeLocked)
      ensures item.None? ==> r == Fail(ArgumentNull("item"))
      ensures item.Some? && old(disposed) ==> r == Fail(OperationCanceled) || r == Fail(ObjectDisposed)
      ensures r.Pass? ==> item.Some? && items == old(items)[item.value.id := Rows.RowOf(codec, item.value)]
      ensures r.Fail? ==> items == old(items)
    {
      if item.None? {
        return Fail(ArgumentNull("item"));
      }
      var x := item.value;
      ghost var before := items;
      r := SaveItems(Some([x]));
      if r.Pass? {
        assert Rows.Saved(codec, [x]) == [] + [(x.id, Rows.RowOf(codec, x))];
        Tables.ReplaceAllSnoc(before, [], (x.id, Rows.RowOf(codec, x)));
      }
    }

    /** RetrieveItem: the row with this guid, hydrated; null when there is none or it does not hydrate. */
    method RetrieveItem(id: Guid) returns (r: Result<Option<Item>, Error>)
      requires Valid()
      ensures id == EmptyGuid ==> r == Failure(ArgumentNull("id"))
      ensures id != EmptyGuid && disposed ==> r == Failure(ObjectDisposed)
      ensures id != EmptyGuid && !disposed ==> r.Success? && r.value == Rows.Lookup(codec, items, id)
      ensures r.Success? && r.value.Some? ==> id in items
      ensures id != EmptyGuid && !disposed ==> forall x | id in items && items[id] == Rows.RowOf(codec, x) ::
        RoundTrips(codec, x) ==> r == Success(Some(x))
    {
      if id == EmptyGuid {
        return Failure(ArgumentNull("id"));
      }
      if disposed {
        return Failure(ObjectDisposed);
      }
      r := Success(Rows.Lookup(codec, items, id));
      forall x | id in items && items[id] == Rows.RowOf(codec, x) && RoundTrips(codec, x) ensures r == Success(Some(x)) {
        Rows.SaveThenGetItem(codec, x);
      }
    }

    /**
     * DeleteItem: in one transaction, the edges whose parent is `id`, the
     * person rows of `id` and the item row itself.
     */
    method DeleteItem(id: Guid) returns (r: Outcome<Error>)
      requires Valid()
      modifies this
      ensures Valid()
      ensures columns == old(columns) && disposed == old(disposed) && writeLocked == old(writeLocked)
      ensures id == EmptyGuid ==> r == Fail(ArgumentNull("id"))
      ensures id != EmptyGuid && old(disposed) ==> r == Fail(ObjectDisposed)
      ensures r.Pass? ==>
        && items == old(items) - {id}
        && children == Children.WithoutParent(old(children), id)
        && people == Seqs.Filter(old(people), People.NotOwned(id))
      ensures r.Fail? ==> items == old(items) && children == old(children) && people == old(people)
    {
      if id == EmptyGuid {
        return Fail(ArgumentNull("id"));
      }
      r := CheckDisposed();
      if r.Fail? {
        return;
      }
      var waitCancelled: bool :| true;
      if waitCancelled {
        return Fail(OperationCanceled);
      }
      writeLocked := true;
      var pendingChildren := Children.WithoutParent(children, id);
      var pendingPeople := Seqs.Filter(people, People.NotOwned(id));
      var pendingItems := items - {id};
      var fault: bool :| true;
      if fault {
        r := Fail(EngineFailure);
      } else {
        items, children, people := pendingItems, pendingChildren, pendingPeople;
      }
      writeLocked := false;
    }

    /**
     * SaveChildren: in one transaction, delete the parent's edges, then write an
     * edge to each listed child; the pair key makes a repeated child one edge.
     */
    method SaveChildren(parentId: Guid, childIds: Option<seq<Guid>>) returns (r: Outcome<Error>)
      requires Valid()
      modifies this
      ensures Valid()
      ensures items == old(items) && people == old(people) && columns == old(columns)
      ensures disposed == old(disposed) && writeLocked == old(writeLocked)
      ensures parentId == EmptyGuid ==> r == Fail(ArgumentNull("parentId"))
      ensures parentId != EmptyGuid && childIds.None? ==> r == Fail(ArgumentNull("children"))
      ensures parentId != EmptyGuid && childIds.Some? && old(disposed) ==> r == Fail(ObjectDisposed)
      ensures r.Pass? ==> childIds.Some? && children == Children.ReplaceChildren(old(children), parentId, childIds.value)
      ensures r.Fail? ==> children == old(children)
    {
      if parentId == EmptyGuid {
        return Fail(ArgumentNull("parentId"));
      }
      if childIds.None? {
        return Fail(ArgumentNull("children"));
      }
      r := CheckDisposed();
      if r.Fail? {
        return;
      }
      var waitCancelled: bool :| true;
      if waitCancelled {
        return Fail(OperationCanceled);
      }
      writeLocked := true;
      var list := childIds.value;
      var pending := Children.WithoutParent(children, parentId);
      var i := 0;
      while i < |list|
        invariant 0 <= i <= |list|
        invariant r == Pass
        invariant pending == Children.WithoutParent(children, parentId) + Children.ChildEdges(parentId, list[..i])
        modifies {}
      {
        var stop: bool :| true;
        if stop {
          r := Fail(OperationCanceled);
          break;
        }
        var fault: bool :| true;
        if fault {
          r := Fail(EngineFailure);
          break;
        }
        Children.ChildEdgesSnoc(parentId, list, i);
        pending := pending + {(parentId, list[i])};
        i := i + 1;
      }
      if r.Pass? {
        assert list[..i] == list;
        children := pending;
      }
      writeLocked := false;
    }

    /**
     * UpdatePeople: in one transaction, delete the item's person rows, then
     * insert one row per person in list order with ListOrder 0, 1, 2, ...
     * The cancellation token is None, so it is never cancelled; a person without
     * a name breaks the NOT NULL constraint on Name and rolls back.
     */
    method UpdatePeople(itemId: Guid, newPeople: Option<seq<People.PersonInfo>>) returns (r: Outcome<Error>)
      requires Valid()
      modifies this
      ensures Valid()
      ensures items == old(items) && children == old(children) && columns == old(columns)
      ensures disposed == old(disposed) && writeLocked == old(writeLocked)
      ensures itemId == EmptyGuid ==> r == Fail(ArgumentNull("itemId"))
      ensures itemId != EmptyGuid && newPeople.None? ==> r == Fail(ArgumentNull("people"))
      ensures itemId != EmptyGuid && newPeople.Some? && old(disposed) ==> r == Fail(ObjectDisposed)
      ensures r != Fail(OperationCanceled)
      ensures newPeople.Some? && !People.AllNamed(newPeople.value) ==> r.Fail?
      ensures r.Pass? ==>
        && newPeople.Some? && People.AllNamed(newPeople.value)
        && people == People.ReplacePeople(old(people), itemId, newPeople.value)
      ensures r.Fail? ==> people == old(people)
    {
      if itemId == EmptyGuid {
        return Fail(ArgumentNull("itemId"));
      }
      if newPeople.None? {
        return Fail(ArgumentNull("people"));
      }
      r := CheckDisposed();
      if r.Fail? {
        return;
      }
      writeLocked := true;
      var pending, ok := InsertPeople(Seqs.Filter(people, People.NotOwned(itemId)), itemId, newPeople.value);
      if ok {
        people := pending;
      } else {
        r := Fail(EngineFailure);
      }
      writeLocked := false;
    }

    /** The readers' loop over a result set: hydrate each row and skip the ones that give null. */
    method ReadItems(ids: seq<Guid>) returns (list: seq<Item>)
      requires Valid()
      ensures list == Rows.HydrateAll(codec, items, ids)
    {
      list := [];
      var i := 0;
      while i < |ids|
        invariant 0 <= i <= |ids|
        invariant list == Rows.HydrateAll(codec, items, ids[..i])
      {
        Rows.HydrateAllSnoc(codec, items, ids, i);
        var item := Rows.Lookup(codec, items, ids[i]);
        if item.Some? {
          list := list + [item.value];
        }
        i := i + 1;
      }
      assert ids[..i] == ids;
    }

    /** GetChildren: the child ids of the parent's edges, each once, in the engine's order. */
    method GetChildren(parentId: Guid) returns (r: Result<seq<Guid>, Error>)
      requires Valid()
      ensures parentId == EmptyGuid ==> r == Failure(ArgumentNull("parentId"))
      ensures parentId != EmptyGuid && disposed ==> r == Failure(ObjectDisposed)
      ensures parentId != EmptyGuid && !disposed ==> r.Success?
      ensures r.Success? ==> Seqs.Distinct(r.value) && forall c :: c in r.value <==> (parentId, c) in children
    {
      if parentId == EmptyGuid {
        return Failure(ArgumentNull("parentId"));
      }
      if disposed {
        return Failure(ObjectDisposed);
      }
      var all := Children.ChildrenOf(children, parentId);
      var remaining := all;
      var list: seq<Guid> := [];
      while remaining != {}
        invariant remaining <= all
        invariant Seqs.Distinct(list)
        invariant forall c :: c in list <==> c in all && c !in remaining
        decreases |remaining|
      {
        var c :| c in remaining;
        list := list + [c];
        remaining := remaining - {c};
      }
      forall c ensures c in list <==> (parentId, c) in children {
        Children.ChildrenOfMeaning(children, parentId, c);
      }
      r := Success(list);
    }

    /** GetChildrenItems: the hydrated rows, in storage order, whose guid is a child of the parent. */
    method GetChildrenItems(parentId: Guid, scan: seq<Guid>) returns (r: Result<seq<Item>, Error>)
      requires Valid() && ScansTable(scan, items)
      ensures parentId == EmptyGuid ==> r == Failure(ArgumentNull("parentId"))
      ensures parentId != EmptyGuid && disposed ==> r == Failure(ObjectDisposed)
      ensures parentId != EmptyGuid && !disposed ==>
        r == Success(Rows.HydrateAll(codec, items, Seqs.Filter(scan, Children.IsChildOf(children, parentId))))
      ensures r.Success? ==> forall x ::
        x in r.value <==> exists g | g in items && (parentId, g) in children :: Rows.Lookup(codec, items, g) == Some(x)
    {
      if parentId == EmptyGuid {
        return Failure(ArgumentNull("parentId"));
      }
      if disposed {
        return Failure(ObjectDisposed);
      }
      var isChild := Children.IsChildOf(children, parentId);
      var list := ReadItems(Seqs.Filter(scan, isChild));
      forall x ensures x in list <==> exists g | g in items && (parentId, g) in children :: Rows.Lookup(codec, items, g) == Some(x) {
        Rows.HydrateScanMembers(codec, items, scan, isChild, x);
      }
      r := Success(list);
    }

    /** GetItemsOfType: the hydrated rows, in storage order, whose type column is the type's full name. */
    method GetItemsOfType(typeName: Option<string>, scan: seq<Guid>) returns (r: Result<seq<Item>, Error>)
      requires Valid() && ScansTable(scan, items)
      ensures typeName.None? ==> r == Failure(ArgumentNull("type"))
      ensures typeName.Some? && disposed ==> r == Failure(ObjectDisposed)
      ensures typeName.Some? && !disposed ==>
        r == Success(Rows.HydrateAll(codec, items, Seqs.Filter(scan, Rows.OfType(items, typeName.value))))
      ensures r.Success? ==> forall x ::
        x in r.value <==> exists g | g in items && Get(items[g], Schema.TypeName) == Text(typeName.value) ::
          Rows.Lookup(codec, items, g) == Some(x)
    {
      if typeName.None? {
        return Failure(ArgumentNull("type"));
      }
      if disposed {
        return Failure(ObjectDisposed);
      }
      var ofType := Rows.OfType(items, typeName.value);
      var list := ReadItems(Seqs.Filter(scan, ofType));
      forall x ensures x in list <==> exists g | g in items && Get(items[g], Schema.TypeName) == Text(typeName.value) ::
        Rows.Lookup(codec, items, g) == Some(x)
      {
        Rows.HydrateScanMembers(codec, items, scan, ofType, x);
      }
      r := Success(list);
    }

    /** The database the item queries run against, with the engine's row order for each ORDER BY. */
    function Database(scan: seq<Query.OrderTerm> -> seq<Guid>): (db: Query.Db)
      reads this
      ensures db.items == items && db.people == people && db.scan == scan
    {
      Query.Db(items, people, scan)
    }

    /**
     * GetItems: the page statement (where-clause with paging, ORDER BY, LIMIT)
     * hydrated through the reader loop, and a count under the where-clause
     * without paging.
     */
    method GetItems(query: Option<ItemQueries.ItemsQuery>, now: DateTime, scan: seq<Query.OrderTerm> -> seq<Guid>)
      returns (r: Result<QueryResult<Item>, Error>)
      requires Valid() && Query.ValidScan(Database(scan))
      ensures query.None? ==> r == Failure(ArgumentNull("query"))
      ensures query.Some? && disposed ==> r == Failure(ObjectDisposed)
      ensures query.Some? && !disposed ==> r.Success?
      ensures r.Success? ==> (query.Some?
        && r.value.items == Rows.HydrateAll(codec, items, ItemQueries.PageIds(query.value, now, Database(scan)))
        && r.value.totalRecordCount == ItemQueries.TotalRecordCount(query.value, now, Database(scan))
        && r.value.totalRecordCount == |ItemQueries.Admitted(query.value, now, Database(scan))|)
    {
      if query.None? {
        return Failure(ArgumentNull("query"));
      }
      if disposed {
        return Failure(ObjectDisposed);
      }
      var q := query.value;
      var db := Database(scan);
      var whereWithoutPaging := ItemQueries.GetWhereClauses(q, now, false);
      var whereClauses := ItemQueries.GetWhereClauses(q, now, true);
      var ids := ItemQueries.ApplyLimit(Query.Select(whereClauses, db, ItemQueries.OrderTerms(q)), q.limit);
      var list := ReadItems(ids);
      var count := Query.Count(whereWithoutPaging, db);
      ItemQueries.TotalRecordCountMeaning(q, now, db, []);
      r := Success(QueryResult(list, count));
    }

    /** GetItemIds: the page's guids and the count of all matches. */
    method GetItemIds(query: Option<ItemQueries.ItemsQuery>, now: DateTime, scan: seq<Query.OrderTerm> -> seq<Guid>)
      returns (r: Result<QueryResult<Guid>, Error>)
      requires Valid() && Query.ValidScan(Database(scan))
      ensures query.None? ==> r == Failure(ArgumentNull("query"))
      ensures query.Some? && disposed ==> r == Failure(ObjectDisposed)
      ensures query.Some? && !disposed ==> r.Success?
      ensures r.Success? ==> (query.Some?
        && r.value.items == ItemQueries.PageIds(query.value, now, Database(scan))
        && Seqs.Distinct(r.value.items)
        && (forall g | g in r.value.items :: g in items && ItemQueries.Admits(query.value.filters, now, Database(scan), g))
        && r.value.totalRecordCount == |ItemQueries.Admitted(query.value, now, Database(scan))|)
    {
      if query.None? {
        return Failure(ArgumentNull("query"));
      }
      if disposed {
        return Failure(ObjectDisposed);
      }
      var q := query.value;
      var db := Database(scan);
      var whereWithoutPaging := ItemQueries.GetWhereClauses(q, now, false);
      var whereClauses := ItemQueries.GetWhereClauses(q, now, true);
      var ids := ItemQueries.ApplyLimit(Query.Select(whereClauses, db, ItemQueries.OrderTerms(q)), q.limit);
      var count := Query.Count(whereWithoutPaging, db);
      ItemQueries.PageMembers(q, now, db);
      ItemQueries.TotalRecordCountMeaning(q, now, db, []);
      var list := ReadAll(ids);
      r := Success(QueryResult(list, count));
    }

    /** GetItemIdsList: the page's guids, without a count. */
    method GetItemIdsList(query: Option<ItemQueries.ItemsQuery>, now: DateTime, scan: seq<Query.OrderTerm> -> seq<Guid>)
      returns (r: Result<seq<Guid>, Error>)
      requires Valid() && Query.ValidScan(Database(scan))
      ensures query.None? ==> r == Failure(ArgumentNull("query"))
      ensures query.Some? && disposed ==> r == Failure(ObjectDisposed)
      ensures query.Some? && !disposed ==> r.Success?
      ensures r.Success? ==> (query.Some?
        && r.value == ItemQueries.PageIds(query.value, now, Database(scan))
        && r.value == ItemQueries.ApplyLimit(
             Seqs.Drop(Query.Select(ItemQueries.FilterClauses(query.value.filters, now), Database(scan),
                                    ItemQueries.OrderTerms(query.value)),
                       ItemQueries.StartOffset(query.value)),
             query.value.limit))
    {
      if query.None? {
        return Failure(ArgumentNull("query"));
      }
      if disposed {
        return Failure(ObjectDisposed);
      }
      var q := query.value;
      var db := Database(scan);
      var whereClauses := ItemQueries.GetWhereClauses(q, now, true);
      var ids := ItemQueries.ApplyLimit(Query.Select(whereClauses, db, ItemQueries.OrderTerms(q)), q.limit);
      ItemQueries.PageIsSlice(q, now, db);
      var list := ReadAll(ids);
      r := Success(list);
    }

    /** GetPeople: the matching person rows in ListOrder, each read by GetPerson. */
    method GetPeople(query: Option<People.PeopleQuery>) returns (r: Result<seq<People.PersonInfo>, Error>)
      requires Valid()
      ensures query.None? ==> r == Failure(ArgumentNull("query"))
      ensures query.Some? && disposed ==> r == Failure(ObjectDisposed)
      ensures query.Some? && !disposed ==> r == Success(People.GetPeople(query.value, people))
    {
      if query.None? {
        return Failure(ArgumentNull("query"));
      }
      if disposed {
        return Failure(ObjectDisposed);
      }
      var rows := People.PeopleResult(query.value, people);
      var list := ReadPeople(rows);
      People.GetPeopleRows(query.value, people);
      assert list == People.GetPeople(query.value, people);
      r := Success(list);
    }

    /** GetPeopleNames: the distinct names of the matching person rows, in ListOrder of first occurrence. */
    method GetPeopleNames(query: Option<People.PeopleQuery>) returns (r: Result<seq<string>, Error>)
      requires Valid()
      ensures query.None? ==> r == Failure(ArgumentNull("query"))
      ensures query.Some? && disposed ==> r == Failure(ObjectDisposed)
      ensures query.Some? && !disposed ==> r == Success(People.GetPeopleNames(query.value, people))
      ensures r.Success? ==> Seqs.Distinct(r.value)
    {
      if query.None? {
        return Failure(ArgumentNull("query"));
      }
      if disposed {
        return Failure(ObjectDisposed);
      }
      var names := ReadAll(People.GetPeopleNames(query.value, people));
      r := Success(names);
    }

    /** Dispose: mark the store disposed and keep the write lock, once. */
    method Dispose()
      requires Valid()
      modifies this
      ensures Valid()
      ensures items == old(items) && children == old(children) && people == old(people) && columns == old(columns)
      ensures LockState(disposed, writeLocked) == DisposeOnce(LockState(old(disposed), old(writeLocked)))
    {
      if !disposed {
        disposed := true;
        writeLocked := true;
      }
    }
  }
}
