/**
 * The People table: the rows UpdatePeople writes for an item (delete, then one
 * insert per person numbered by list position), the people query compiler and
 * its meaning, and the two readers (people ordered by ListOrder, distinct names).
 */
module People {
  import opened Wrappers
  import opened Items
  import Seqs

  /** A People row; Name is NOT NULL, ListOrder is the position in the saved list. */
  datatype PersonRow = PersonRow(
    itemId: Guid,
    name: string,
    role: Option<string>,
    personType: Option<string>,
    sortOrder: Option<int>,
    listOrder: int)

  /** A PersonInfo, as UpdatePeople receives it and GetPeople returns it. */
  datatype PersonInfo = PersonInfo(
    itemId: Guid,
    name: Option<string>,
    role: Option<string>,
    personType: Option<string>,
    sortOrder: Option<int>)

  /** Hydration of one People row (the private GetPerson reader). */
  function GetPerson(row: PersonRow): (person: PersonInfo)
    ensures person.name == Some(row.name)
  {
    PersonInfo(row.itemId, Some(row.name), row.role, row.personType, row.sortOrder)
  }

  predicate AllNamed(people: seq<PersonInfo>) {
    forall i | 0 <= i < |people| :: people[i].name.Some?
  }

  /** The row `_savePersonCommand` inserts for `person` of item `itemId` at position `listIndex`. */
  function PersonRowOf(itemId: Guid, person: PersonInfo, listIndex: int): (row: PersonRow)
    requires person.name.Some?
    ensures row.itemId == itemId && row.listOrder == listIndex
    ensures GetPerson(row) == person.(itemId := itemId)
  {
    PersonRow(itemId, person.name.value, person.role, person.personType, person.sortOrder, listIndex)
  }

  /** The rows the insert loop writes, in list order, each numbered by its position. */
  function InsertedRows(itemId: Guid, people: seq<PersonInfo>): (rows: seq<PersonRow>)
    requires AllNamed(people)
    ensures |rows| == |people|
    ensures forall i | 0 <= i < |rows| :: rows[i] == PersonRowOf(itemId, people[i], i)
    decreases |people|
  {
    if |people| == 0 then []
    else
      var last := |people| - 1;
      InsertedRows(itemId, people[..last]) + [PersonRowOf(itemId, people[last], last)]
  }

  function Owned(itemId: Guid): PersonRow -> bool {
    (row: PersonRow) => row.itemId == itemId
  }

  function NotOwned(itemId: Guid): PersonRow -> bool {
    (row: PersonRow) => row.itemId != itemId
  }

  /** The rows of item `itemId`, in storage order. */
  function RowsOf(rows: seq<PersonRow>, itemId: Guid): seq<PersonRow> {
    Seqs.Filter(rows, Owned(itemId))
  }

  /** `delete from People where ItemId=@Id`, then the inserts. */
  function ReplacePeople(rows: seq<PersonRow>, itemId: Guid, people: seq<PersonInfo>): seq<PersonRow>
    requires AllNamed(people)
  {
    Seqs.Filter(rows, NotOwned(itemId)) + InsertedRows(itemId, people)
  }

  /** After the replace, the item's rows are exactly the inserted ones. */
  lemma ReplacePeopleOwnRows(rows: seq<PersonRow>, itemId: Guid, people: seq<PersonInfo>)
    requires AllNamed(people)
    ensures RowsOf(ReplacePeople(rows, itemId, people), itemId) == InsertedRows(itemId, people)
  {
    var kept := Seqs.Filter(rows, NotOwned(itemId));
    var inserted := InsertedRows(itemId, people);
    assert Seqs.Filter(kept, Owned(itemId)) == [] by {
      forall i | 0 <= i < |kept|
        ensures !Owned(itemId)(kept[i])
      {
        Seqs.FilterMembers(rows, NotOwned(itemId), kept[i]);
      }
      Seqs.FilterAllOrNone(kept, Owned(itemId));
    }
    assert Seqs.Filter(inserted, Owned(itemId)) == inserted by {
      Seqs.FilterAllOrNone(inserted, Owned(itemId));
    }
    Seqs.FilterAppend(kept, inserted, Owned(itemId));
  }

  /** The replace leaves every other item's rows, and their order, untouched. */
  lemma ReplacePeopleOtherRows(rows: seq<PersonRow>, itemId: Guid, people: seq<PersonInfo>, other: Guid)
    requires AllNamed(people)
    requires other != itemId
    ensures RowsOf(ReplacePeople(rows, itemId, people), other) == RowsOf(rows, other)
  {
    var kept := Seqs.Filter(rows, NotOwned(itemId));
    var inserted := InsertedRows(itemId, people);
    assert Seqs.Filter(kept, Owned(other)) == RowsOf(rows, other) by {
      Seqs.FilterOfFilter(rows, NotOwned(itemId), Owned(other));
    }
    assert Seqs.Filter(inserted, Owned(other)) == [] by {
      Seqs.FilterAllOrNone(inserted, Owned(other));
    }
    Seqs.FilterAppend(kept, inserted, Owned(other));
  }

  // ---- order by ListOrder ----

  predicate SortedByListOrder(rows: seq<PersonRow>) {
    forall i, j | 0 <= i < j < |rows| :: rows[i].listOrder <= rows[j].listOrder
  }

  function HasListOrder(k: int): PersonRow -> bool {
    (row: PersonRow) => row.listOrder == k
  }

  /** Places `row` after every row of `sorted` whose ListOrder is not larger. */
  function InsertByListOrder(row: PersonRow, sorted: seq<PersonRow>): seq<PersonRow>
    decreases |sorted|
  {
    if |sorted| == 0 then [row]
    else if row.listOrder < sorted[0].listOrder then [row] + sorted
    else [sorted[0]] + InsertByListOrder(row, sorted[1..])
  }

  /** Inserting adds exactly the one row. */
  lemma {:induction false} InsertPermutes(row: PersonRow, sorted: seq<PersonRow>)
    ensures multiset(InsertByListOrder(row, sorted)) == multiset(sorted) + multiset{row}
    decreases |sorted|
  {
    if |sorted| > 0 && row.listOrder >= sorted[0].listOrder {
      InsertPermutes(row, sorted[1..]);
      assert sorted == [sorted[0]] + sorted[1..];
    }
  }

  lemma {:induction false} InsertKeepsSorted(row: PersonRow, sorted: seq<PersonRow>)
    requires SortedByListOrder(sorted)
    ensures SortedByListOrder(InsertByListOrder(row, sorted))
    decreases |sorted|
  {
    if |sorted| > 0 && row.listOrder >= sorted[0].listOrder {
      var rest := sorted[1..];
      assert SortedByListOrder(rest);
      InsertKeepsSorted(row, rest);
      var tail := InsertByListOrder(row, rest);
      forall j | 0 <= j < |tail| ensures sorted[0].listOrder <= tail[j].listOrder {
        InsertPermutes(row, rest);
        assert tail[j] in multiset(tail);
        assert tail[j] == row || tail[j] in rest;
      }
      ConsSorted(sorted[0], tail);
    }
  }

  /** A row no larger than every row of a sorted sequence can go in front of it. */
  lemma ConsSorted(x: PersonRow, sorted: seq<PersonRow>)
    requires SortedByListOrder(sorted)
    requires forall j | 0 <= j < |sorted| :: x.listOrder <= sorted[j].listOrder
    ensures SortedByListOrder([x] + sorted)
  {
    var r := [x] + sorted;
    forall i, j | 0 <= i < j < |r| ensures r[i].listOrder <= r[j].listOrder {
      assert r[j] == sorted[j - 1];
      if i > 0 {
        assert r[i] == sorted[i - 1];
      }
    }
  }

  /**
   * `order by ListOrder`. The engine's order among rows with equal ListOrder is
   * not specified; the model keeps storage order (a stable sort).
   */
  function OrderByListOrder(rows: seq<PersonRow>): seq<PersonRow>
    decreases |rows|
  {
    if |rows| == 0 then []
    else
      var last := |rows| - 1;
      InsertByListOrder(rows[last], OrderByListOrder(rows[..last]))
  }

  /** The sort is a permutation: it neither loses nor invents a row. */
  lemma {:induction false} OrderByListOrderPermutes(rows: seq<PersonRow>)
    ensures multiset(OrderByListOrder(rows)) == multiset(rows)
    decreases |rows|
  {
    if |rows| > 0 {
      var last := |rows| - 1;
      OrderByListOrderPermutes(rows[..last]);
      InsertPermutes(rows[last], OrderByListOrder(rows[..last]));
      assert rows == rows[..last] + [rows[last]];
    }
  }

  /** The sort's result is in ListOrder order. */
  lemma {:induction false} OrderByListOrderSorted(rows: seq<PersonRow>)
    ensures SortedByListOrder(OrderByListOrder(rows))
    decreases |rows|
  {
    if |rows| > 0 {
      var last := |rows| - 1;
      OrderByListOrderSorted(rows[..last]);
      InsertKeepsSorted(rows[last], OrderByListOrder(rows[..last]));
    }
  }

  lemma {:induction false} InsertKeepsTies(row: PersonRow, sorted: seq<PersonRow>, k: int)
    requires SortedByListOrder(sorted)
    ensures Seqs.Filter(InsertByListOrder(row, sorted), HasListOrder(k))
         == Seqs.Filter(sorted, HasListOrder(k)) + (if row.listOrder == k then [row] else [])
    decreases |sorted|
  {
    var p := HasListOrder(k);
    if |sorted| == 0 {
    } else if row.listOrder < sorted[0].listOrder {
      if row.listOrder == k {
        forall i | 0 <= i < |sorted| ensures !p(sorted[i]) {
          assert i == 0 || sorted[0].listOrder <= sorted[i].listOrder;
        }
        Seqs.FilterAllOrNone(sorted, p);
      }
      assert ([row] + sorted)[1..] == sorted;
    } else {
      var rest := sorted[1..];
      assert SortedByListOrder(rest);
      InsertKeepsTies(row, rest, k);
      var tail := InsertByListOrder(row, rest);
      assert ([sorted[0]] + tail)[1..] == tail;
      assert Seqs.Filter(sorted, p) == (if p(sorted[0]) then [sorted[0]] else []) + Seqs.Filter(rest, p);
    }
  }

  /** The sort is stable: rows with the same ListOrder keep their storage order. */
  lemma {:induction false} OrderByListOrderIsStable(rows: seq<PersonRow>, k: int)
    ensures Seqs.Filter(OrderByListOrder(rows), HasListOrder(k)) == Seqs.Filter(rows, HasListOrder(k))
    decreases |rows|
  {
    if |rows| > 0 {
      var p := HasListOrder(k);
      var last := |rows| - 1;
      var init, x := rows[..last], rows[last];
      var sortedInit := OrderByListOrder(init);
      OrderByListOrderSorted(init);
      assert OrderByListOrder(rows) == InsertByListOrder(x, sortedInit);
      assert Seqs.Filter(InsertByListOrder(x, sortedInit), p) == Seqs.Filter(init, p) + (if p(x) then [x] else []) by {
        InsertKeepsTies(x, sortedInit, k);
        OrderByListOrderIsStable(init, k);
      }
      assert Seqs.Filter(rows, p) == Seqs.Filter(init, p) + (if p(x) then [x] else []) by {
        assert rows == init + [x];
        Seqs.FilterSnoc(init, x, p);
      }
    }
  }

  lemma {:induction false} InsertAtEnd(row: PersonRow, sorted: seq<PersonRow>)
    requires forall i | 0 <= i < |sorted| :: sorted[i].listOrder <= row.listOrder
    ensures InsertByListOrder(row, sorted) == sorted + [row]
    decreases |sorted|
  {
    if |sorted| > 0 {
      InsertAtEnd(row, sorted[1..]);
      assert sorted == [sorted[0]] + sorted[1..];
    }
  }

  /** Rows already in ListOrder order come back as they are. */
  lemma {:induction false} OrderByListOrderOfSorted(rows: seq<PersonRow>)
    requires SortedByListOrder(rows)
    ensures OrderByListOrder(rows) == rows
    decreases |rows|
  {
    if |rows| > 0 {
      var last := |rows| - 1;
      var init, x := rows[..last], rows[last];
      assert OrderByListOrder(rows) == InsertByListOrder(x, OrderByListOrder(init));
      SortedInit(rows);
      OrderByListOrderOfSorted(init);
      InsertAtEnd(x, init);
      assert init + [x] == rows;
    }
  }

  /** Dropping the last row of a sorted sequence leaves it sorted, and that row is not smaller than any before it. */
  lemma SortedInit(rows: seq<PersonRow>)
    requires SortedByListOrder(rows) && |rows| > 0
    ensures SortedByListOrder(rows[..|rows| - 1])
    ensures forall i | 0 <= i < |rows| - 1 :: rows[i].listOrder <= rows[|rows| - 1].listOrder
  {
    var init := rows[..|rows| - 1];
    forall i, j | 0 <= i < j < |init| ensures init[i].listOrder <= init[j].listOrder {
      assert init[i] == rows[i] && init[j] == rows[j];
    }
  }

  // ---- GetPeopleWhereClauses ----

  /** An InternalPeopleQuery; `Guid.Empty` and empty lists mean "no restriction". */
  datatype PeopleQuery = PeopleQuery(
    itemId: Guid,
    appearsInItemId: Guid,
    personTypes: seq<string>,
    excludePersonTypes: seq<string>,
    maxListOrder: Option<int>,
    nameContains: Option<string>)

  /** One condition of the people where-clause. A null PersonType satisfies none of the type tests. */
  datatype PersonClause =
    | ItemIs(itemId: Guid)
    | NameAppearsIn(itemId: Guid)
    | TypeIs(personType: string)
    | TypeIn(personTypes: seq<string>)
    | TypeIsNot(personType: string)
    | TypeNotIn(personTypes: seq<string>)
    | ListOrderAtMost(maxListOrder: int)
    | NameLike(fragment: string)

  predicate PersonEval(c: PersonClause, table: seq<PersonRow>, row: PersonRow) {
    match c
    case ItemIs(id) => row.itemId == id
    case NameAppearsIn(id) => exists j | 0 <= j < |table| :: table[j].itemId == id && table[j].name == row.name
    case TypeIs(t) => row.personType == Some(t)
    case TypeIn(ts) => row.personType.Some? && row.personType.value in ts
    case TypeIsNot(t) => row.personType.Some? && row.personType.value != t
    case TypeNotIn(ts) => row.personType.Some? && row.personType.value !in ts
    case ListOrderAtMost(n) => row.listOrder <= n
    case NameLike(f) => Contains(row.name, f)
  }

  /** The clauses joined with AND. */
  predicate PersonHolds(cs: seq<PersonClause>, table: seq<PersonRow>, row: PersonRow) {
    forall i | 0 <= i < |cs| :: PersonEval(cs[i], table, row)
  }

  function When<T>(condition: bool, clause: T): seq<T> {
    if condition then [clause] else []
  }

  function PeopleWhereClauses(q: PeopleQuery): (cs: seq<PersonClause>)
    ensures |cs| <= 6
  {
    ItemClause(q) + AppearsInClause(q) + PersonTypeClause(q) + ExcludePersonTypeClause(q)
    + MaxListOrderClause(q) + NameContainsClause(q)
  }

  function ItemClause(q: PeopleQuery): (cs: seq<PersonClause>)
    ensures |cs| <= 1
  {
    When(q.itemId != EmptyGuid, ItemIs(q.itemId))
  }

  function AppearsInClause(q: PeopleQuery): (cs: seq<PersonClause>)
    ensures |cs| <= 1
  {
    When(q.appearsInItemId != EmptyGuid, NameAppearsIn(q.appearsInItemId))
  }

  function PersonTypeClause(q: PeopleQuery): (cs: seq<PersonClause>)
    ensures |cs| <= 1
  {
    if |q.personTypes| == 1 then [TypeIs(q.personTypes[0])]
    else When(|q.personTypes| > 1, TypeIn(q.personTypes))
  }

  function ExcludePersonTypeClause(q: PeopleQuery): (cs: seq<PersonClause>)
    ensures |cs| <= 1
  {
    if |q.excludePersonTypes| == 1 then [TypeIsNot(q.excludePersonTypes[0])]
    else When(|q.excludePersonTypes| > 1, TypeNotIn(q.excludePersonTypes))
  }

  function MaxListOrderClause(q: PeopleQuery): (cs: seq<PersonClause>)
    ensures |cs| <= 1
  {
    When(q.maxListOrder.Some?, ListOrderAtMost(q.maxListOrder.GetOr(0)))
  }

  function NameContainsClause(q: PeopleQuery): (cs: seq<PersonClause>)
    ensures |cs| <= 1
  {
    When(!IsNullOrWhiteSpace(q.nameContains), NameLike(q.nameContains.GetOr("")))
  }

  ghost predicate AdmitsItem(q: PeopleQuery, row: PersonRow) {
    q.itemId != EmptyGuid ==> row.itemId == q.itemId
  }

  ghost predicate AdmitsAppearsIn(q: PeopleQuery, table: seq<PersonRow>, row: PersonRow) {
    q.appearsInItemId != EmptyGuid ==>
      exists other | other in table :: other.itemId == q.appearsInItemId && other.name == row.name
  }

  ghost predicate AdmitsPersonType(q: PeopleQuery, row: PersonRow) {
    |q.personTypes| > 0 ==> row.personType.Some? && row.personType.value in q.personTypes
  }

  ghost predicate AdmitsExcludePersonType(q: PeopleQuery, row: PersonRow) {
    |q.excludePersonTypes| > 0 ==> row.personType.Some? && row.personType.value !in q.excludePersonTypes
  }

  ghost predicate AdmitsMaxListOrder(q: PeopleQuery, row: PersonRow) {
    q.maxListOrder.Some? ==> row.listOrder <= q.maxListOrder.value
  }

  ghost predicate AdmitsNameContains(q: PeopleQuery, row: PersonRow) {
    !IsNullOrWhiteSpace(q.nameContains) ==> Contains(row.name, q.nameContains.value)
  }

  /** What an InternalPeopleQuery asks for, stated field by field. */
  ghost predicate PersonAdmits(q: PeopleQuery, table: seq<PersonRow>, row: PersonRow) {
    && AdmitsItem(q, row)
    && AdmitsAppearsIn(q, table, row)
    && AdmitsPersonType(q, row)
    && AdmitsExcludePersonType(q, row)
    && AdmitsMaxListOrder(q, row)
    && AdmitsNameContains(q, row)
  }

  lemma PersonHoldsAppend(a: seq<PersonClause>, b: seq<PersonClause>, table: seq<PersonRow>, row: PersonRow)
    ensures PersonHolds(a + b, table, row) <==> PersonHolds(a, table, row) && PersonHolds(b, table, row)
  {
    if PersonHolds(a, table, row) && PersonHolds(b, table, row) {
      forall i | 0 <= i < |a + b| ensures PersonEval((a + b)[i], table, row) {
        if i >= |a| {
          assert (a + b)[i] == b[i - |a|];
        }
      }
    }
    if PersonHolds(a + b, table, row) {
      forall i | 0 <= i < |a| ensures PersonEval(a[i], table, row) {
        assert (a + b)[i] == a[i];
      }
      forall i | 0 <= i < |b| ensures PersonEval(b[i], table, row) {
        assert (a + b)[|a| + i] == b[i];
      }
    }
  }

  lemma PersonHoldsSingle(c: PersonClause, table: seq<PersonRow>, row: PersonRow)
    ensures PersonHolds([c], table, row) <==> PersonEval(c, table, row)
    ensures PersonHolds([], table, row)
  {
    assert [c][0] == c;
  }

  lemma AppearsInMeaning(q: PeopleQuery, table: seq<PersonRow>, row: PersonRow)
    ensures PersonHolds(AppearsInClause(q), table, row) <==> AdmitsAppearsIn(q, table, row)
  {
    var id := q.appearsInItemId;
    PersonHoldsSingle(NameAppearsIn(id), table, row);
    if exists other | other in table :: other.itemId == id && other.name == row.name {
      var other :| other in table && other.itemId == id && other.name == row.name;
      var j :| 0 <= j < |table| && table[j] == other;
    }
  }

  lemma TypeClausesMeaning(q: PeopleQuery, table: seq<PersonRow>, row: PersonRow)
    ensures PersonHolds(PersonTypeClause(q), table, row) <==> AdmitsPersonType(q, row)
    ensures PersonHolds(ExcludePersonTypeClause(q), table, row) <==> AdmitsExcludePersonType(q, row)
  {
    if |q.personTypes| == 1 {
      PersonHoldsSingle(TypeIs(q.personTypes[0]), table, row);
      assert q.personTypes == [q.personTypes[0]];
    } else {
      PersonHoldsSingle(TypeIn(q.personTypes), table, row);
    }
    if |q.excludePersonTypes| == 1 {
      PersonHoldsSingle(TypeIsNot(q.excludePersonTypes[0]), table, row);
      assert q.excludePersonTypes == [q.excludePersonTypes[0]];
    } else {
      PersonHoldsSingle(TypeNotIn(q.excludePersonTypes), table, row);
    }
  }

  lemma OtherClausesMeaning(q: PeopleQuery, table: seq<PersonRow>, row: PersonRow)
    ensures PersonHolds(ItemClause(q), table, row) <==> AdmitsItem(q, row)
    ensures PersonHolds(MaxListOrderClause(q), table, row) <==> AdmitsMaxListOrder(q, row)
    ensures PersonHolds(NameContainsClause(q), table, row) <==> AdmitsNameContains(q, row)
  {
    PersonHoldsSingle(ItemIs(q.itemId), table, row);
    PersonHoldsSingle(ListOrderAtMost(q.maxListOrder.GetOr(0)), table, row);
    PersonHoldsSingle(NameLike(q.nameContains.GetOr("")), table, row);
  }

  /** The compiled where-clause selects exactly the rows the query asks for. */
  lemma PeopleWhereClausesMeaning(q: PeopleQuery, table: seq<PersonRow>, row: PersonRow)
    ensures PersonHolds(PeopleWhereClauses(q), table, row) <==> PersonAdmits(q, table, row)
  {
    var c1, c2, c3 := ItemClause(q), AppearsInClause(q), PersonTypeClause(q);
    var c4, c5, c6 := ExcludePersonTypeClause(q), MaxListOrderClause(q), NameContainsClause(q);
    PersonHoldsAppend(c1, c2, table, row);
    PersonHoldsAppend(c1 + c2, c3, table, row);
    PersonHoldsAppend(c1 + c2 + c3, c4, table, row);
    PersonHoldsAppend(c1 + c2 + c3 + c4, c5, table, row);
    PersonHoldsAppend(c1 + c2 + c3 + c4 + c5, c6, table, row);
    AppearsInMeaning(q, table, row);
    TypeClausesMeaning(q, table, row);
    OtherClausesMeaning(q, table, row);
  }

  // ---- the readers ----

  function Matches(cs: seq<PersonClause>, table: seq<PersonRow>): PersonRow -> bool {
    row => PersonHolds(cs, table, row)
  }

  /** The result set of `select ... from People where <clauses> order by ListOrder`. */
  function PeopleResult(q: PeopleQuery, table: seq<PersonRow>): seq<PersonRow> {
    OrderByListOrder(Seqs.Filter(table, Matches(PeopleWhereClauses(q), table)))
  }

  /** GetPeople: each result row hydrated by GetPerson. */
  function GetPeople(q: PeopleQuery, table: seq<PersonRow>): (people: seq<PersonInfo>)
    ensures |people| == |PeopleResult(q, table)|
  {
    var rows := PeopleResult(q, table);
    seq(|rows|, i requires 0 <= i < |rows| => GetPerson(rows[i]))
  }

  /** GetPeople reads the result rows one by one, in order. */
  lemma GetPeopleRows(q: PeopleQuery, table: seq<PersonRow>)
    ensures |GetPeople(q, table)| == |PeopleResult(q, table)|
    ensures forall i | 0 <= i < |GetPeople(q, table)| :: GetPeople(q, table)[i] == GetPerson(PeopleResult(q, table)[i])
  {
  }

  /** GetPeople returns the rows the query admits, each once per stored copy, in ListOrder order. */
  lemma GetPeopleAdmitted(q: PeopleQuery, table: seq<PersonRow>, row: PersonRow)
    ensures multiset(PeopleResult(q, table))[row]
         == if PersonAdmits(q, table, row) then multiset(table)[row] else 0
    ensures SortedByListOrder(PeopleResult(q, table))
  {
    OrderByListOrderSorted(Seqs.Filter(table, Matches(PeopleWhereClauses(q), table)));
    OrderByListOrderPermutes(Seqs.Filter(table, Matches(PeopleWhereClauses(q), table)));
    PeopleWhereClausesMeaning(q, table, row);
    FilterCount(table, Matches(PeopleWhereClauses(q), table), row);
  }

  lemma {:induction false} FilterCount(s: seq<PersonRow>, p: PersonRow -> bool, x: PersonRow)
    ensures multiset(Seqs.Filter(s, p))[x] == if p(x) then multiset(s)[x] else 0
    decreases |s|
  {
    if |s| > 0 {
      FilterCount(s[1..], p, x);
      assert s == [s[0]] + s[1..];
    }
  }

  /** The names of `rows` with later repeats removed, in order of first appearance. */
  function DistinctNames(rows: seq<PersonRow>): (names: seq<string>)
    ensures Seqs.Distinct(names)
    ensures forall n :: n in names <==> exists i | 0 <= i < |rows| :: rows[i].name == n
    decreases |rows|
  {
    if |rows| == 0 then []
    else
      var last := |rows| - 1;
      var init := DistinctNames(rows[..last]);
      assert forall i | 0 <= i < last :: rows[..last][i] == rows[i];
      if rows[last].name in init then init else init + [rows[last].name]
  }

  /**
   * GetPeopleNames: `select Distinct Name from People where ... order by ListOrder`.
   * Which row's ListOrder places a repeated name is not specified by the engine;
   * the model places each name at its first row in ListOrder order.
   */
  function GetPeopleNames(q: PeopleQuery, table: seq<PersonRow>): (names: seq<string>)
    ensures Seqs.Distinct(names)
  {
    DistinctNames(PeopleResult(q, table))
  }

  /** A name is returned exactly when some stored row with that name satisfies the query. */
  lemma GetPeopleNamesMembers(q: PeopleQuery, table: seq<PersonRow>, name: string)
    ensures name in GetPeopleNames(q, table)
        <==> exists row | row in table :: row.name == name && PersonAdmits(q, table, row)
  {
    var result := PeopleResult(q, table);
    if name in GetPeopleNames(q, table) {
      var i :| 0 <= i < |result| && result[i].name == name;
      var row := result[i];
      GetPeopleAdmitted(q, table, row);
      assert multiset(result)[row] > 0;
    }
    if exists row | row in table :: row.name == name && PersonAdmits(q, table, row) {
      var row :| row in table && row.name == name && PersonAdmits(q, table, row);
      GetPeopleAdmitted(q, table, row);
      assert row in multiset(result);
      var i :| 0 <= i < |result| && result[i] == row;
    }
  }

  /** The query for one item's people selects exactly the rows UpdatePeople inserted for it, in list order. */
  lemma OwnerQueryResult(rows: seq<PersonRow>, itemId: Guid, people: seq<PersonInfo>)
    requires itemId != EmptyGuid && AllNamed(people)
    ensures PeopleResult(PeopleQuery(itemId, EmptyGuid, [], [], None, None), ReplacePeople(rows, itemId, people))
         == InsertedRows(itemId, people)
  {
    var q := PeopleQuery(itemId, EmptyGuid, [], [], None, None);
    var table := ReplacePeople(rows, itemId, people);
    var inserted := InsertedRows(itemId, people);
    assert PeopleWhereClauses(q) == [ItemIs(itemId)];
    forall i | 0 <= i < |table|
      ensures Matches(PeopleWhereClauses(q), table)(table[i]) == Owned(itemId)(table[i])
    {
      assert Matches([ItemIs(itemId)], table)(table[i]) == PersonHolds([ItemIs(itemId)], table, table[i]);
      assert [ItemIs(itemId)][0] == ItemIs(itemId);
    }
    Seqs.FilterCongruent(table, Matches(PeopleWhereClauses(q), table), Owned(itemId));
    ReplacePeopleOwnRows(rows, itemId, people);
    assert SortedByListOrder(inserted);
    OrderByListOrderOfSorted(inserted);
  }

  /** UpdatePeople then GetPeople for the item returns the saved list, stamped with the item id. */
  lemma UpdateThenGetPeople(rows: seq<PersonRow>, itemId: Guid, people: seq<PersonInfo>)
    requires itemId != EmptyGuid && AllNamed(people)
    ensures GetPeople(PeopleQuery(itemId, EmptyGuid, [], [], None, None), ReplacePeople(rows, itemId, people))
         == seq(|people|, i requires 0 <= i < |people| => people[i].(itemId := itemId))
  {
    var q := PeopleQuery(itemId, EmptyGuid, [], [], None, None);
    var table := ReplacePeople(rows, itemId, people);
    OwnerQueryResult(rows, itemId, people);
    GetPeopleRows(q, table);
  }
}
