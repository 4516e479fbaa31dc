/**
 * The query compiler for InternalItemsQuery: one where-clause section per
 * filter, the paging anti-join, the ORDER BY list, and what the compiled query
 * selects, pages and counts.
 */
module ItemQueries {
  import opened Wrappers
  import opened Items
  import Schema
  import Seqs
  import TypeMap
  import opened Query

  datatype SortOrder = Ascending | Descending

  /** The filters of an InternalItemsQuery; an unset filter is None or an empty list. */
  datatype Filters = Filters(
    isCurrentSchema: Option<bool>,
    isMovie: Option<bool>,
    isKids: Option<bool>,
    isSports: Option<bool>,
    includeItemTypes: seq<string>,
    excludeItemTypes: seq<string>,
    channelIds: seq<string>,
    minEndDate: Option<DateTime>,
    maxEndDate: Option<DateTime>,
    minStartDate: Option<DateTime>,
    maxStartDate: Option<DateTime>,
    isAiring: Option<bool>,
    person: Option<string>,
    nameContains: Option<string>,
    genres: seq<string>,
    maxParentalRating: Option<int>,
    hasParentalRating: Option<bool>,
    hasDeadParentId: Option<bool>)

  /** An InternalItemsQuery: its filters, its paging, and its sort (a null SortBy is None). */
  datatype ItemsQuery = ItemsQuery(
    filters: Filters,
    startIndex: Option<int>,
    limit: Option<int>,
    sortBy: Option<seq<string>>,
    sortOrder: SortOrder)

  function When(condition: bool, c: Clause): seq<Clause> {
    if condition then [c] else []
  }

  /** The literal values of an `in (...)` list. */
  function Texts(values: seq<string>): (r: seq<Value>)
    ensures |r| == |values|
    ensures forall i | 0 <= i < |r| :: r[i] == Text(values[i])
  {
    seq(|values|, i requires 0 <= i < |values| => Text(values[i]))
  }

  lemma TextsMembers(values: seq<string>, v: Value)
    ensures v in Texts(values) <==> exists t | t in values :: v == Text(t)
  {
    var r := Texts(values);
    if v in r {
      var i :| 0 <= i < |r| && r[i] == v;
      assert values[i] in values;
    }
    if exists t | t in values :: v == Text(t) {
      var t :| t in values && v == Text(t);
      var i :| 0 <= i < |values| && values[i] == t;
      assert r[i] == v;
    }
  }

  // ---- the sections of GetWhereClauses, in the order they are added ----

  function SchemaClause(q: Filters): seq<Clause> {
    var version := Int(Schema.LatestSchemaVersion);
    match q.isCurrentSchema
    case None => []
    case Some(current) =>
      if current then [Both(NotNull(Schema.SchemaVersion), Compare(Schema.SchemaVersion, Eq, version))]
      else [Either(IsNull(Schema.SchemaVersion), Compare(Schema.SchemaVersion, Ne, version))]
  }

  function FlagClauses(q: Filters): seq<Clause> {
    When(q.isMovie.Some?, Compare(Schema.IsMovie, Eq, Bool(q.isMovie.GetOr(false))))
    + When(q.isKids.Some?, Compare(Schema.IsKids, Eq, Bool(q.isKids.GetOr(false))))
    + When(q.isSports.Some?, Compare(Schema.IsSports, Eq, Bool(q.isSports.GetOr(false))))
  }

  function IncludeTypeClause(q: Filters): seq<Clause> {
    var included := TypeMap.ExpandTypes(q.includeItemTypes);
    if |included| == 1 then [Compare(Schema.TypeName, Eq, Text(included[0]))]
    else When(|included| > 1, InList(Schema.TypeName, Texts(included)))
  }

  function ExcludeTypeClause(q: Filters): seq<Clause> {
    var excluded := TypeMap.ExpandTypes(q.excludeItemTypes);
    if |excluded| == 1 then [Compare(Schema.TypeName, Ne, Text(excluded[0]))]
    else When(|excluded| > 1, NotInList(Schema.TypeName, Texts(excluded)))
  }

  function ChannelClause(q: Filters): seq<Clause> {
    if |q.channelIds| == 1 then [Compare(Schema.ChannelId, Eq, Text(q.channelIds[0]))]
    else When(|q.channelIds| > 1, InList(Schema.ChannelId, Texts(q.channelIds)))
  }

  function DateClauses(q: Filters): seq<Clause> {
    DateRangeClauses(Schema.EndDate, q.minEndDate, q.maxEndDate)
    + DateRangeClauses(Schema.StartDate, q.minStartDate, q.maxStartDate)
  }

  function DateRangeClauses(column: Schema.Column, min: Option<DateTime>, max: Option<DateTime>): seq<Clause> {
    When(min.Some?, Compare(column, Ge, Date(min.GetOr(0))))
    + When(max.Some?, Compare(column, Le, Date(max.GetOr(0))))
  }

  /** IsAiring against the instant `now` (DateTime.UtcNow). */
  function AiringClauses(q: Filters, now: DateTime): seq<Clause> {
    match q.isAiring
    case None => []
    case Some(airing) =>
      if airing then [Compare(Schema.StartDate, Le, Date(now)), Compare(Schema.EndDate, Ge, Date(now))]
      else [Either(Compare(Schema.StartDate, Gt, Date(now)), Compare(Schema.EndDate, Lt, Date(now)))]
  }

  function PersonClause(q: Filters): seq<Clause> {
    When(!IsNullOrWhiteSpace(q.person), HasPerson(q.person.GetOr("")))
  }

  function NameClause(q: Filters): seq<Clause> {
    When(!IsNullOrWhiteSpace(q.nameContains), Like(Schema.Name, q.nameContains.GetOr("")))
  }

  /** `Genres like @Genres<index>`, one alternative per requested genre. */
  function GenreAlternatives(genres: seq<string>): (cs: seq<Clause>)
    ensures |cs| == |genres|
    ensures forall i | 0 <= i < |cs| :: cs[i] == Like(Schema.Genres, genres[i])
    decreases |genres|
  {
    if |genres| == 0 then []
    else
      var last := |genres| - 1;
      GenreAlternatives(genres[..last]) + [Like(Schema.Genres, genres[last])]
  }

  function GenreClause(q: Filters): seq<Clause> {
    When(|q.genres| > 0, AnyOf(GenreAlternatives(q.genres)))
  }

  function RatingClauses(q: Filters): seq<Clause> {
    When(q.maxParentalRating.Some?,
         Either(IsNull(Schema.ParentalRatingValue),
                Compare(Schema.ParentalRatingValue, Le, Int(q.maxParentalRating.GetOr(0)))))
    + match q.hasParentalRating
      case None => []
      case Some(rated) => if rated then [NotNull(Schema.ParentalRatingValue)] else [IsNull(Schema.ParentalRatingValue)]
  }

  function DeadParentClause(q: Filters): seq<Clause> {
    When(q.hasDeadParentId == Some(true), Both(NotNull(Schema.ParentId), ParentMissing))
  }

  /** The where-clause without paging. */
  function FilterClauses(q: Filters, now: DateTime): seq<Clause> {
    SchemaClause(q) + FlagClauses(q) + IncludeTypeClause(q) + ExcludeTypeClause(q)
    + ChannelClause(q) + DateClauses(q) + AiringClauses(q, now) + PersonClause(q)
    + NameClause(q) + GenreClause(q) + RatingClauses(q) + DeadParentClause(q)
  }

  /** The number of leading rows paging skips: StartIndex when it is positive, else none. */
  function StartOffset(q: ItemsQuery): nat {
    if q.startIndex.Some? && q.startIndex.value > 0 then q.startIndex.value else 0
  }

  /** GetWhereClauses(query, cmd, addPaging), as a list of clauses. */
  function WhereClauses(q: ItemsQuery, now: DateTime, addPaging: bool): seq<Clause> {
    var filters := FilterClauses(q.filters, now);
    if addPaging && StartOffset(q) > 0 then filters + [NotAmongFirst(StartOffset(q), filters, OrderTerms(q))]
    else filters
  }

  // ---- GetOrderByText and MapOrderByField ----

  function MapOrderByField(name: string): string {
    name
  }

  /**
   * The ORDER BY list of GetOrderByText: none for a null or empty SortBy,
   * otherwise each field in turn, all in the query's one direction.
   */
  function OrderTerms(q: ItemsQuery): (terms: seq<OrderTerm>)
    ensures q.sortBy.None? || |q.sortBy.value| == 0 <==> terms == []
    ensures q.sortBy.Some? ==> |terms| == |q.sortBy.value|
    ensures forall i | 0 <= i < |terms| ::
      terms[i].field == q.sortBy.value[i] && terms[i].descending == (q.sortOrder == Descending)
  {
    match q.sortBy
    case None => []
    case Some(fields) =>
      seq(|fields|, i requires 0 <= i < |fields| => OrderTerm(MapOrderByField(fields[i]), q.sortOrder == Descending))
  }

  /** The ORDER BY text itself: empty, or " ORDER BY " and one "field DIR" per term. */
  function OrderByText(q: ItemsQuery): (text: string)
    ensures text == "" <==> OrderTerms(q) == []
  {
    var terms := OrderTerms(q);
    if |terms| == 0 then ""
    else " ORDER BY " + Join(",", seq(|terms|, i requires 0 <= i < |terms| =>
      terms[i].field + (if terms[i].descending then " DESC" else " ASC")))
  }

  // ---- GetWhereClauses, as the method builds it ----

  /** The genre loop: one `Genres like @Genres<index>` per genre, the index counting up from 0. */
  method BuildGenreAlternatives(genres: seq<string>) returns (alternatives: seq<Clause>)
    ensures alternatives == GenreAlternatives(genres)
  {
    alternatives := [];
    var index := 0;
    while index < |genres|
      invariant 0 <= index <= |genres|
      invariant alternatives == GenreAlternatives(genres[..index])
    {
      alternatives := alternatives + [Like(Schema.Genres, genres[index])];
      assert genres[..index + 1][..index] == genres[..index];
      index := index + 1;
    }
    assert genres[..index] == genres;
  }

  /** Appends the sections one by one, in GetWhereClauses' order. */
  method GetWhereClauses(q: ItemsQuery, now: DateTime, addPaging: bool) returns (whereClauses: seq<Clause>)
    ensures whereClauses == WhereClauses(q, now, addPaging)
  {
    var f := q.filters;
    whereClauses := SchemaClause(f) + FlagClauses(f) + IncludeTypeClause(f) + ExcludeTypeClause(f)
      + ChannelClause(f) + DateClauses(f) + AiringClauses(f, now) + PersonClause(f) + NameClause(f);
    ghost var beforeGenres := whereClauses;
    if |f.genres| > 0 {
      var genres := BuildGenreAlternatives(f.genres);
      whereClauses := whereClauses + [AnyOf(genres)];
    } else {
      assert whereClauses == beforeGenres + [];
    }
    assert whereClauses == beforeGenres + GenreClause(f);
    whereClauses := whereClauses + RatingClauses(f) + DeadParentClause(f);
    assert whereClauses == FilterClauses(f, now);
    if addPaging {
      if q.startIndex.Some? && q.startIndex.value > 0 {
        whereClauses := whereClauses + [NotAmongFirst(q.startIndex.value, whereClauses, OrderTerms(q))];
      }
    }
  }

  // ---- what a query asks for, filter by filter ----

  ghost predicate AdmitsSchema(q: Filters, row: Row) {
    q.isCurrentSchema.Some? ==>
      ((Get(row, Schema.SchemaVersion) == Int(Schema.LatestSchemaVersion)) == q.isCurrentSchema.value)
  }

  ghost predicate AdmitsFlags(q: Filters, row: Row) {
    && (q.isMovie.Some? ==> Get(row, Schema.IsMovie) == Bool(q.isMovie.value))
    && (q.isKids.Some? ==> Get(row, Schema.IsKids) == Bool(q.isKids.value))
    && (q.isSports.Some? ==> Get(row, Schema.IsSports) == Bool(q.isSports.value))
  }

  /** The row's tag is one of the expanded included names. */
  ghost predicate AdmitsIncludeTypes(q: Filters, row: Row) {
    var included := TypeMap.ExpandTypes(q.includeItemTypes);
    |included| > 0 ==> exists t | t in included :: Get(row, Schema.TypeName) == Text(t)
  }

  /** The row has a tag and it is none of the expanded excluded names. */
  ghost predicate AdmitsExcludeTypes(q: Filters, row: Row) {
    var excluded := TypeMap.ExpandTypes(q.excludeItemTypes);
    |excluded| > 0 ==>
      !Get(row, Schema.TypeName).Null? && forall t | t in excluded :: Get(row, Schema.TypeName) != Text(t)
  }

  ghost predicate AdmitsChannel(q: Filters, row: Row) {
    |q.channelIds| > 0 ==> exists c | c in q.channelIds :: Get(row, Schema.ChannelId) == Text(c)
  }

  ghost predicate DateAtLeast(row: Row, column: Schema.Column, bound: DateTime) {
    Get(row, column).Date? && Get(row, column).ticks >= bound
  }

  ghost predicate DateAtMost(row: Row, column: Schema.Column, bound: DateTime) {
    Get(row, column).Date? && Get(row, column).ticks <= bound
  }

  ghost predicate AdmitsDates(q: Filters, row: Row) {
    && (q.minEndDate.Some? ==> DateAtLeast(row, Schema.EndDate, q.minEndDate.value))
    && (q.maxEndDate.Some? ==> DateAtMost(row, Schema.EndDate, q.maxEndDate.value))
    && (q.minStartDate.Some? ==> DateAtLeast(row, Schema.StartDate, q.minStartDate.value))
    && (q.maxStartDate.Some? ==> DateAtMost(row, Schema.StartDate, q.maxStartDate.value))
  }

  /** Airing: started by `now` and not yet ended; not airing: starts later or ended earlier. */
  ghost predicate AdmitsAiring(q: Filters, now: DateTime, row: Row) {
    && (q.isAiring == Some(true) ==> DateAtMost(row, Schema.StartDate, now) && DateAtLeast(row, Schema.EndDate, now))
    && (q.isAiring == Some(false) ==>
          (Get(row, Schema.StartDate).Date? && Get(row, Schema.StartDate).ticks > now)
          || (Get(row, Schema.EndDate).Date? && Get(row, Schema.EndDate).ticks < now))
  }

  ghost predicate AdmitsPerson(q: Filters, db: Db, g: Guid) {
    !IsNullOrWhiteSpace(q.person) ==>
      exists p | p in db.people :: p.itemId == g && p.name == q.person.value
  }

  ghost predicate AdmitsName(q: Filters, row: Row) {
    !IsNullOrWhiteSpace(q.nameContains) ==>
      Get(row, Schema.Name).Text? && Contains(Get(row, Schema.Name).text, q.nameContains.value)
  }

  /** The stored genre list contains at least one requested genre. */
  ghost predicate AdmitsGenres(q: Filters, row: Row) {
    |q.genres| > 0 ==>
      Get(row, Schema.Genres).Text? && exists genre | genre in q.genres :: Contains(Get(row, Schema.Genres).text, genre)
  }

  /** An unrated row passes a rating ceiling; HasParentalRating tests for a rating. */
  ghost predicate AdmitsRating(q: Filters, row: Row) {
    var rating := Get(row, Schema.ParentalRatingValue);
    && (q.maxParentalRating.Some? ==> rating.Null? || (rating.Int? && rating.number <= q.maxParentalRating.value))
    && (q.hasParentalRating.Some? ==> (!rating.Null? == q.hasParentalRating.value))
  }

  /** A dead parent: the row names a parent that no stored row has. */
  ghost predicate AdmitsDeadParent(q: Filters, db: Db, row: Row) {
    q.hasDeadParentId == Some(true) ==>
      Get(row, Schema.ParentId).GuidValue? && Get(row, Schema.ParentId).guid !in db.items
  }

  /** What the query asks of the row with key `g`. */
  ghost predicate Admits(q: Filters, now: DateTime, db: Db, g: Guid) {
    var row := RowAt(db, g);
    && AdmitsSchema(q, row) && AdmitsFlags(q, row)
    && AdmitsIncludeTypes(q, row) && AdmitsExcludeTypes(q, row)
    && AdmitsChannel(q, row) && AdmitsDates(q, row) && AdmitsAiring(q, now, row)
    && AdmitsPerson(q, db, g) && AdmitsName(q, row) && AdmitsGenres(q, row)
    && AdmitsRating(q, row) && AdmitsDeadParent(q, db, row)
  }

  // ---- each section means its filter ----

  lemma SchemaMeaning(q: Filters, db: Db, g: Guid)
    ensures Holds(SchemaClause(q), db, g) <==> AdmitsSchema(q, RowAt(db, g))
  {
    var version := Int(Schema.LatestSchemaVersion);
    HoldsSingle(Both(NotNull(Schema.SchemaVersion), Compare(Schema.SchemaVersion, Eq, version)), db, g);
    HoldsSingle(Either(IsNull(Schema.SchemaVersion), Compare(Schema.SchemaVersion, Ne, version)), db, g);
  }

  lemma FlagsMeaning(q: Filters, db: Db, g: Guid)
    ensures Holds(FlagClauses(q), db, g) <==> AdmitsFlags(q, RowAt(db, g))
  {
    var movie := When(q.isMovie.Some?, Compare(Schema.IsMovie, Eq, Bool(q.isMovie.GetOr(false))));
    var kids := When(q.isKids.Some?, Compare(Schema.IsKids, Eq, Bool(q.isKids.GetOr(false))));
    var sports := When(q.isSports.Some?, Compare(Schema.IsSports, Eq, Bool(q.isSports.GetOr(false))));
    HoldsAppend(movie, kids, db, g);
    HoldsAppend(movie + kids, sports, db, g);
    HoldsSingle(Compare(Schema.IsMovie, Eq, Bool(q.isMovie.GetOr(false))), db, g);
    HoldsSingle(Compare(Schema.IsKids, Eq, Bool(q.isKids.GetOr(false))), db, g);
    HoldsSingle(Compare(Schema.IsSports, Eq, Bool(q.isSports.GetOr(false))), db, g);
  }

  /** One name compares by equality, several by `in`; either way the tag must be one of them. */
  lemma OneOfMeaning(column: Schema.Column, names: seq<string>, db: Db, g: Guid)
    ensures
      var cs := if |names| == 1 then [Compare(column, Eq, Text(names[0]))]
                else When(|names| > 1, InList(column, Texts(names)));
      Holds(cs, db, g) <==> (|names| > 0 ==> exists t | t in names :: Get(RowAt(db, g), column) == Text(t))
  {
    var v := Get(RowAt(db, g), column);
    if |names| == 1 {
      HoldsSingle(Compare(column, Eq, Text(names[0])), db, g);
      assert names == [names[0]];
    } else {
      HoldsSingle(InList(column, Texts(names)), db, g);
      TextsMembers(names, v);
    }
  }

  lemma TypesMeaning(q: Filters, db: Db, g: Guid)
    ensures Holds(IncludeTypeClause(q), db, g) <==> AdmitsIncludeTypes(q, RowAt(db, g))
    ensures Holds(ExcludeTypeClause(q), db, g) <==> AdmitsExcludeTypes(q, RowAt(db, g))
  {
    OneOfMeaning(Schema.TypeName, TypeMap.ExpandTypes(q.includeItemTypes), db, g);
    var excluded := TypeMap.ExpandTypes(q.excludeItemTypes);
    var v := Get(RowAt(db, g), Schema.TypeName);
    if |excluded| == 1 {
      HoldsSingle(Compare(Schema.TypeName, Ne, Text(excluded[0])), db, g);
      assert excluded == [excluded[0]];
    } else {
      HoldsSingle(NotInList(Schema.TypeName, Texts(excluded)), db, g);
      TextsMembers(excluded, v);
    }
  }

  lemma ChannelMeaning(q: Filters, db: Db, g: Guid)
    ensures Holds(ChannelClause(q), db, g) <==> AdmitsChannel(q, RowAt(db, g))
  {
    OneOfMeaning(Schema.ChannelId, q.channelIds, db, g);
  }

  lemma DateRangeMeaning(column: Schema.Column, min: Option<DateTime>, max: Option<DateTime>, db: Db, g: Guid)
    ensures Holds(DateRangeClauses(column, min, max), db, g)
        <==> ((min.Some? ==> DateAtLeast(RowAt(db, g), column, min.value))
              && (max.Some? ==> DateAtMost(RowAt(db, g), column, max.value)))
  {
    var low := Compare(column, Ge, Date(min.GetOr(0)));
    var high := Compare(column, Le, Date(max.GetOr(0)));
    HoldsAppend(When(min.Some?, low), When(max.Some?, high), db, g);
    HoldsSingle(low, db, g);
    HoldsSingle(high, db, g);
  }

  lemma DatesMeaning(q: Filters, db: Db, g: Guid)
    ensures Holds(DateClauses(q), db, g) <==> AdmitsDates(q, RowAt(db, g))
  {
    HoldsAppend(DateRangeClauses(Schema.EndDate, q.minEndDate, q.maxEndDate),
                DateRangeClauses(Schema.StartDate, q.minStartDate, q.maxStartDate), db, g);
    DateRangeMeaning(Schema.EndDate, q.minEndDate, q.maxEndDate, db, g);
    DateRangeMeaning(Schema.StartDate, q.minStartDate, q.maxStartDate, db, g);
  }

  lemma AiringMeaning(q: Filters, now: DateTime, db: Db, g: Guid)
    ensures Holds(AiringClauses(q, now), db, g) <==> AdmitsAiring(q, now, RowAt(db, g))
  {
    var started := Compare(Schema.StartDate, Le, Date(now));
    var notEnded := Compare(Schema.EndDate, Ge, Date(now));
    HoldsAppend([started], [notEnded], db, g);
    assert [started, notEnded] == [started] + [notEnded];
    HoldsSingle(started, db, g);
    HoldsSingle(notEnded, db, g);
    HoldsSingle(Either(Compare(Schema.StartDate, Gt, Date(now)), Compare(Schema.EndDate, Lt, Date(now))), db, g);
  }

  lemma PersonMeaning(q: Filters, db: Db, g: Guid)
    ensures Holds(PersonClause(q), db, g) <==> AdmitsPerson(q, db, g)
  {
    var name := q.person.GetOr("");
    HoldsSingle(HasPerson(name), db, g);
    if exists p | p in db.people :: p.itemId == g && p.name == name {
      var p :| p in db.people && p.itemId == g && p.name == name;
      var j :| 0 <= j < |db.people| && db.people[j] == p;
    }
  }

  lemma NameMeaning(q: Filters, db: Db, g: Guid)
    ensures Holds(NameClause(q), db, g) <==> AdmitsName(q, RowAt(db, g))
  {
    HoldsSingle(Like(Schema.Name, q.nameContains.GetOr("")), db, g);
  }

  lemma GenresMeaning(q: Filters, db: Db, g: Guid)
    ensures Holds(GenreClause(q), db, g) <==> AdmitsGenres(q, RowAt(db, g))
  {
    var alternatives := GenreAlternatives(q.genres);
    HoldsSingle(AnyOf(alternatives), db, g);
    if |q.genres| > 0 {
      AlternativesMeaning(q.genres, db, g);
    }
  }

  /** One of the genre alternatives holds exactly when the stored genres contain one of the genres. */
  lemma AlternativesMeaning(genres: seq<string>, db: Db, g: Guid)
    ensures Eval(AnyOf(GenreAlternatives(genres)), db, g) <==>
      (Get(RowAt(db, g), Schema.Genres).Text?
       && exists genre | genre in genres :: Contains(Get(RowAt(db, g), Schema.Genres).text, genre))
  {
    var alternatives := GenreAlternatives(genres);
    var stored := Get(RowAt(db, g), Schema.Genres);
    EvalAnyOf(alternatives, db, g);
    forall i | 0 <= i < |alternatives|
      ensures Eval(alternatives[i], db, g) <==> stored.Text? && Contains(stored.text, genres[i])
    {
      EvalLike(Schema.Genres, genres[i], db, g);
    }
    if stored.Text? && exists genre | genre in genres :: Contains(stored.text, genre) {
      var genre :| genre in genres && Contains(stored.text, genre);
      var i :| 0 <= i < |genres| && genres[i] == genre;
      assert Eval(alternatives[i], db, g);
    }
  }

  lemma RatingMeaning(q: Filters, db: Db, g: Guid)
    ensures Holds(RatingClauses(q), db, g) <==> AdmitsRating(q, RowAt(db, g))
  {
    var ceiling := Either(IsNull(Schema.ParentalRatingValue),
                          Compare(Schema.ParentalRatingValue, Le, Int(q.maxParentalRating.GetOr(0))));
    var presence := match q.hasParentalRating
      case None => []
      case Some(rated) => if rated then [NotNull(Schema.ParentalRatingValue)] else [IsNull(Schema.ParentalRatingValue)];
    HoldsAppend(When(q.maxParentalRating.Some?, ceiling), presence, db, g);
    HoldsSingle(ceiling, db, g);
    HoldsSingle(NotNull(Schema.ParentalRatingValue), db, g);
    HoldsSingle(IsNull(Schema.ParentalRatingValue), db, g);
  }

  lemma DeadParentMeaning(q: Filters, db: Db, g: Guid)
    ensures Holds(DeadParentClause(q), db, g) <==> AdmitsDeadParent(q, db, RowAt(db, g))
  {
    HoldsSingle(Both(NotNull(Schema.ParentId), ParentMissing), db, g);
  }

  /** The where-clause without paging is true of a row exactly when the query admits it. */
  lemma FilterClausesMeaning(q: Filters, now: DateTime, db: Db, g: Guid)
    ensures Holds(FilterClauses(q, now), db, g) <==> Admits(q, now, db, g)
  {
    var s1 := SchemaClause(q) + FlagClauses(q);
    var s2 := s1 + IncludeTypeClause(q);
    var s3 := s2 + ExcludeTypeClause(q);
    var s4 := s3 + ChannelClause(q);
    var s5 := s4 + DateClauses(q);
    var s6 := s5 + AiringClauses(q, now);
    var s7 := s6 + PersonClause(q);
    var s8 := s7 + NameClause(q);
    var s9 := s8 + GenreClause(q);
    var s10 := s9 + RatingClauses(q);
    HoldsAppend(SchemaClause(q), FlagClauses(q), db, g);
    HoldsAppend(s1, IncludeTypeClause(q), db, g);
    HoldsAppend(s2, ExcludeTypeClause(q), db, g);
    HoldsAppend(s3, ChannelClause(q), db, g);
    HoldsAppend(s4, DateClauses(q), db, g);
    HoldsAppend(s5, AiringClauses(q, now), db, g);
    HoldsAppend(s6, PersonClause(q), db, g);
    HoldsAppend(s7, NameClause(q), db, g);
    HoldsAppend(s8, GenreClause(q), db, g);
    HoldsAppend(s9, RatingClauses(q), db, g);
    HoldsAppend(s10, DeadParentClause(q), db, g);
    SchemaMeaning(q, db, g);
    FlagsMeaning(q, db, g);
    TypesMeaning(q, db, g);
    ChannelMeaning(q, db, g);
    DatesMeaning(q, db, g);
    AiringMeaning(q, now, db, g);
    PersonMeaning(q, db, g);
    NameMeaning(q, db, g);
    GenresMeaning(q, db, g);
    RatingMeaning(q, db, g);
    DeadParentMeaning(q, db, g);
  }

  // ---- the page, the count, IsCurrentSchema, MaxParentalRating and type expansion ----

  /** `LIMIT n` on the page; SQLite reads a negative limit as no limit. */
  function ApplyLimit(ids: seq<Guid>, limit: Option<int>): (page: seq<Guid>)
    ensures page <= ids
    ensures limit.Some? && limit.value >= 0 ==> |page| == if limit.value <= |ids| then limit.value else |ids|
    ensures limit.None? || limit.value < 0 ==> page == ids
  {
    if limit.Some? && limit.value >= 0 then Seqs.Take(ids, limit.value) else ids
  }

  /** The keys of the page GetItems, GetItemIds and GetItemIdsList read. */
  function PageIds(q: ItemsQuery, now: DateTime, db: Db): seq<Guid> {
    ApplyLimit(Select(WhereClauses(q, now, true), db, OrderTerms(q)), q.limit)
  }

  /** TotalRecordCount: the count under the where-clause built without paging. */
  function TotalRecordCount(q: ItemsQuery, now: DateTime, db: Db): nat {
    Count(WhereClauses(q, now, false), db)
  }

  /** The page is the ordered matches with the first StartIndex dropped, then cut to Limit. */
  lemma PageIsSlice(q: ItemsQuery, now: DateTime, db: Db)
    requires ValidScan(db)
    ensures PageIds(q, now, db)
         == ApplyLimit(Seqs.Drop(Select(FilterClauses(q.filters, now), db, OrderTerms(q)), StartOffset(q)), q.limit)
  {
    var filters := FilterClauses(q.filters, now);
    if StartOffset(q) > 0 {
      AntiJoinPage(filters, db, OrderTerms(q), StartOffset(q));
    } else {
      assert Seqs.Drop(Select(filters, db, OrderTerms(q)), 0) == Select(filters, db, OrderTerms(q));
    }
  }

  /** Every key on the page is a stored row the query admits, and none appears twice. */
  lemma PageMembers(q: ItemsQuery, now: DateTime, db: Db)
    requires ValidScan(db)
    ensures Seqs.Distinct(PageIds(q, now, db))
    ensures forall g | g in PageIds(q, now, db) :: g in db.items && Admits(q.filters, now, db, g)
  {
    var all := Select(FilterClauses(q.filters, now), db, OrderTerms(q));
    PageIsSlice(q, now, db);
    SelectMembers(FilterClauses(q.filters, now), db, OrderTerms(q));
    Seqs.SliceMembers(all, StartOffset(q), PageIds(q, now, db));
    forall g | g in PageIds(q, now, db)
      ensures g in db.items && Admits(q.filters, now, db, g)
    {
      FilterClausesMeaning(q.filters, now, db, g);
    }
  }

  /** The rows the query admits. */
  ghost function Admitted(q: ItemsQuery, now: DateTime, db: Db): set<Guid> {
    set g | g in db.items && Admits(q.filters, now, db, g)
  }

  /** The count is the number of stored rows the query admits, which is the length of the unpaged select. */
  lemma TotalRecordCountMeaning(q: ItemsQuery, now: DateTime, db: Db, orderBy: seq<OrderTerm>)
    requires ValidScan(db)
    ensures TotalRecordCount(q, now, db) == |Admitted(q, now, db)|
    ensures TotalRecordCount(q, now, db) == |Select(FilterClauses(q.filters, now), db, orderBy)|
  {
    var filters := FilterClauses(q.filters, now);
    forall g ensures g in Matching(filters, db) <==> g in Admitted(q, now, db) {
      FilterClausesMeaning(q.filters, now, db, g);
    }
    assert Matching(filters, db) == Admitted(q, now, db);
    CountIsSelectLength(filters, db, orderBy);
  }

  /** StartIndex and Limit do not change the count. */
  lemma TotalRecordCountIgnoresPaging(q: ItemsQuery, now: DateTime, db: Db, startIndex: Option<int>, limit: Option<int>)
    ensures TotalRecordCount(q.(startIndex := startIndex, limit := limit), now, db) == TotalRecordCount(q, now, db)
  {
  }

  /** IsCurrentSchema true and false select complementary rows, whatever SchemaVersion holds. */
  lemma IsCurrentSchemaComplement(q: Filters, db: Db, g: Guid)
    ensures Holds(SchemaClause(q.(isCurrentSchema := Some(true))), db, g)
        <==> !Holds(SchemaClause(q.(isCurrentSchema := Some(false))), db, g)
  {
    SchemaMeaning(q.(isCurrentSchema := Some(true)), db, g);
    SchemaMeaning(q.(isCurrentSchema := Some(false)), db, g);
  }

  /** A rating ceiling admits unrated rows. */
  lemma MaxParentalRatingAdmitsUnrated(q: Filters, db: Db, g: Guid)
    requires q.maxParentalRating.Some? && q.hasParentalRating != Some(true)
    requires Get(RowAt(db, g), Schema.ParentalRatingValue).Null?
    ensures Holds(RatingClauses(q), db, g)
  {
    RatingMeaning(q, db, g);
  }

  lemma ExpandSingle(value: string)
    ensures TypeMap.ExpandTypes([value]) == TypeMap.MapIncludeItemTypes(value)
  {
    Seqs.FlatMapSingle(value, TypeMap.MapIncludeItemTypes);
  }

  /** Including one known type compares the tag with that type's full name. */
  lemma IncludeKnownType(q: Filters, t: TypeMap.KnownType)
    requires q.includeItemTypes == [TypeMap.Name(t)]
    ensures IncludeTypeClause(q) == [Compare(Schema.TypeName, Eq, Text(TypeMap.FullName(t)))]
  {
    ExpandSingle(TypeMap.Name(t));
    TypeMap.MapKnownType(t);
  }

  /** Including `Recording` admits either recording type through an `in` list. */
  lemma IncludeRecordings(q: Filters)
    requires q.includeItemTypes == ["Recording"]
    ensures IncludeTypeClause(q) == [InList(Schema.TypeName,
      [Text(TypeMap.FullName(TypeMap.LiveTvAudioRecording)), Text(TypeMap.FullName(TypeMap.LiveTvVideoRecording))])]
  {
    ExpandSingle("Recording");
    TypeMap.MapAliases();
    var names := [TypeMap.FullName(TypeMap.LiveTvAudioRecording), TypeMap.FullName(TypeMap.LiveTvVideoRecording)];
    assert Texts(names) == [Text(names[0]), Text(names[1])];
  }

  /** Excluding an unknown name compares the tag with that name itself. */
  lemma ExcludeUnknownName(q: Filters, value: string)
    requires q.excludeItemTypes == [value]
    requires forall t: TypeMap.KnownType :: TypeMap.Name(t) != value
    requires value != "Recording" && value != "Program" && value != "TvChannel"
    ensures ExcludeTypeClause(q) == [Compare(Schema.TypeName, Ne, Text(value))]
  {
    ExpandSingle(value);
    TypeMap.MapUnknownName(value);
  }
}
