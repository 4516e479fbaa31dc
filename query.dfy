/**
 * What the engine does with a compiled where-clause over TypedBaseItems: the
 * clause language the query compiler emits, its truth value for one row under
 * SQL's null rules, the ordered scan a select performs, and the count.
 */
module Query {
  import opened Items
  import Schema
  import Seqs
  import People

  datatype Op = Eq | Ne | Lt | Le | Gt | Ge

  /** One term of an ORDER BY list: the field name and its direction. */
  datatype OrderTerm = OrderTerm(field: string, descending: bool)

  /**
   * The engine's view of the library file: the item rows, the People rows, and
   * the order in which a select under a given ORDER BY list visits the item keys.
   */
  datatype Db = Db(
    items: map<Guid, Row>,
    people: seq<People.PersonRow>,
    scan: seq<OrderTerm> -> seq<Guid>)

  /** Every ordered scan visits each stored row exactly once. */
  ghost predicate ValidScan(db: Db) {
    forall orderBy: seq<OrderTerm> ::
      && Seqs.Distinct(db.scan(orderBy))
      && forall g :: g in db.scan(orderBy) <==> g in db.items
  }

  /**
   * One condition of the where-clause. A comparison, list test or LIKE on a
   * null column is not true; `ParentMissing` is `ParentId NOT IN (select guid
   * from TypedBaseItems)`; `NotAmongFirst` is the paging anti-join
   * `guid NOT IN (select guid ... where <inner> <orderBy> LIMIT count)`.
   */
  datatype Clause =
    | Compare(column: Schema.Column, op: Op, operand: Value)
    | IsNull(column: Schema.Column)
    | NotNull(column: Schema.Column)
    | InList(column: Schema.Column, values: seq<Value>)
    | NotInList(column: Schema.Column, values: seq<Value>)
    | Like(column: Schema.Column, fragment: string)
    | Both(left: Clause, right: Clause)
    | Either(left: Clause, right: Clause)
    | AnyOf(alternatives: seq<Clause>)
    | HasPerson(name: string)
    | ParentMissing
    | NotAmongFirst(count: nat, inner: seq<Clause>, orderBy: seq<OrderTerm>)

  /** Ordering is defined between two integers or two instants. */
  predicate Ordered(a: Value, b: Value) {
    (a.Int? && b.Int?) || (a.Date? && b.Date?)
  }

  function Magnitude(v: Value): int
    requires v.Int? || v.Date?
  {
    if v.Int? then v.number else v.ticks
  }

  /** `a <op> b` is true: both sides are non-null, and ordered when the operator orders. */
  predicate Satisfies(a: Value, op: Op, b: Value) {
    && !a.Null? && !b.Null?
    && match op
       case Eq => a == b
       case Ne => a != b
       case Lt => Ordered(a, b) && Magnitude(a) < Magnitude(b)
       case Le => Ordered(a, b) && Magnitude(a) <= Magnitude(b)
       case Gt => Ordered(a, b) && Magnitude(a) > Magnitude(b)
       case Ge => Ordered(a, b) && Magnitude(a) >= Magnitude(b)
  }

  /** The row stored under `g`; a key without a row reads as all-null. */
  function RowAt(db: Db, g: Guid): Row {
    if g in db.items then db.items[g] else map[]
  }

  /** The clause is true for the row with key `g`. */
  predicate Eval(c: Clause, db: Db, g: Guid)
    decreases c, 2
  {
    var row := RowAt(db, g);
    match c
    case Compare(column, op, operand) => Satisfies(Get(row, column), op, operand)
    case IsNull(column) => Get(row, column).Null?
    case NotNull(column) => !Get(row, column).Null?
    case InList(column, values) => !Get(row, column).Null? && Get(row, column) in values
    case NotInList(column, values) => !Get(row, column).Null? && Get(row, column) !in values
    case Like(column, fragment) => Get(row, column).Text? && Contains(Get(row, column).text, fragment)
    case Both(left, right) => Eval(left, db, g) && Eval(right, db, g)
    case Either(left, right) => Eval(left, db, g) || Eval(right, db, g)
    case AnyOf(alternatives) => exists i | 0 <= i < |alternatives| :: Eval(alternatives[i], db, g)
    case HasPerson(name) =>
      exists j | 0 <= j < |db.people| :: db.people[j].itemId == g && db.people[j].name == name
    case ParentMissing =>
      Get(row, Schema.ParentId).GuidValue? && Get(row, Schema.ParentId).guid !in db.items
    case NotAmongFirst(count, inner, orderBy) => g !in Seqs.Take(Select(inner, db, orderBy), count)
  }

  /** The clauses joined with AND. */
  predicate Holds(cs: seq<Clause>, db: Db, g: Guid)
    decreases cs, 0
  {
    forall i | 0 <= i < |cs| :: Eval(cs[i], db, g)
  }

  /** `select guid from TypedBaseItems where <cs> <orderBy>`: the keys in scan order whose rows satisfy `cs`. */
  function Select(cs: seq<Clause>, db: Db, orderBy: seq<OrderTerm>): seq<Guid>
    decreases cs, 1
  {
    Seqs.Filter(db.scan(orderBy), g => Holds(cs, db, g))
  }

  /** `select count (guid) from TypedBaseItems where <cs>`. */
  function Count(cs: seq<Clause>, db: Db): nat {
    |Matching(cs, db)|
  }

  /** The keys of the stored rows that satisfy `cs`. */
  function Matching(cs: seq<Clause>, db: Db): set<Guid> {
    set g | g in db.items && Holds(cs, db, g)
  }

  lemma HoldsAppend(a: seq<Clause>, b: seq<Clause>, db: Db, g: Guid)
    ensures Holds(a + b, db, g) <==> Holds(a, db, g) && Holds(b, db, g)
  {
    if Holds(a, db, g) && Holds(b, db, g) {
      forall i | 0 <= i < |a + b| ensures Eval((a + b)[i], db, g) {
        if i >= |a| {
          assert (a + b)[i] == b[i - |a|];
        }
      }
    }
    if Holds(a + b, db, g) {
      forall i | 0 <= i < |a| ensures Eval(a[i], db, g) {
        assert (a + b)[i] == a[i];
      }
      forall i | 0 <= i < |b| ensures Eval(b[i], db, g) {
        assert (a + b)[|a| + i] == b[i];
      }
    }
  }

  lemma HoldsSingle(c: Clause, db: Db, g: Guid)
    ensures Holds([c], db, g) <==> Eval(c, db, g)
    ensures Holds([], db, g)
  {
    assert [c][0] == c;
  }

  lemma EvalAnyOf(alternatives: seq<Clause>, db: Db, g: Guid)
    ensures Eval(AnyOf(alternatives), db, g) <==> exists i | 0 <= i < |alternatives| :: Eval(alternatives[i], db, g)
  {
  }

  lemma EvalLike(column: Schema.Column, fragment: string, db: Db, g: Guid)
    ensures Eval(Like(column, fragment), db, g) <==>
      (Get(RowAt(db, g), column).Text? && Contains(Get(RowAt(db, g), column).text, fragment))
  {
  }

  /** A select returns each matching stored row once, and nothing else. */
  lemma SelectMembers(cs: seq<Clause>, db: Db, orderBy: seq<OrderTerm>)
    requires ValidScan(db)
    ensures Seqs.Distinct(Select(cs, db, orderBy))
    ensures forall g :: g in Select(cs, db, orderBy) <==> g in db.items && Holds(cs, db, g)
  {
    var s := db.scan(orderBy);
    var p := g => Holds(cs, db, g);
    Seqs.FilterDistinct(s, p);
    forall g ensures g in Select(cs, db, orderBy) <==> g in db.items && Holds(cs, db, g) {
      Seqs.FilterMembers(s, p, g);
    }
  }

  /** The count equals the number of rows a select returns, whatever the ORDER BY. */
  lemma CountIsSelectLength(cs: seq<Clause>, db: Db, orderBy: seq<OrderTerm>)
    requires ValidScan(db)
    ensures Count(cs, db) == |Select(cs, db, orderBy)|
  {
    var selected := Select(cs, db, orderBy);
    SelectMembers(cs, db, orderBy);
    Seqs.DistinctCardinality(selected);
    assert Seqs.Elements(selected) == Matching(cs, db);
  }

  /**
   * Paging by anti-join: with `NotAmongFirst(k, cs, orderBy)` added, the select
   * under the same ORDER BY is the unpaged select with its first k rows dropped.
   */
  lemma AntiJoinPage(cs: seq<Clause>, db: Db, orderBy: seq<OrderTerm>, k: nat)
    requires ValidScan(db)
    ensures Select(cs + [NotAmongFirst(k, cs, orderBy)], db, orderBy)
         == Seqs.Drop(Select(cs, db, orderBy), k)
  {
    var s := db.scan(orderBy);
    var paged := cs + [NotAmongFirst(k, cs, orderBy)];
    var p := g => Holds(cs, db, g);
    var q := g => Holds(paged, db, g);
    forall i | 0 <= i < |s|
      ensures q(s[i]) == (p(s[i]) && s[i] !in Seqs.Take(Seqs.Filter(s, p), k))
    {
      HoldsAppend(cs, [NotAmongFirst(k, cs, orderBy)], db, s[i]);
      HoldsSingle(NotAmongFirst(k, cs, orderBy), db, s[i]);
    }
    Seqs.AntiJoinIsDrop(s, p, q, k);
  }
}
