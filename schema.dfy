/**
 * The TypedBaseItems schema: the columns the table DDL creates, the columns
 * Initialize adds one at a time (append-only schema evolution), and the column
 * list of the prepared save statement.
 */
module Schema {

  /** The schema-version stamp written on every save. */
  const LatestSchemaVersion: int := 6

  /** The columns of TypedBaseItems; `SqlName` gives each one's name in the DDL. */
  datatype Column =
    | RowId | TypeName | Data
    | Path | StartDate | EndDate | ChannelId | IsMovie | IsSports | IsKids
    | CommunityRating | CustomRating | IndexNumber | IsLocked | Name | OfficialRating
    | MediaType | Overview | ParentIndexNumber | PremiereDate | ProductionYear
    | ParentId | Genres | ParentalRatingValue | SchemaVersion | SortName | RunTimeTicks
    | OfficialRatingDescription | HomePageUrl | VoteCount | DisplayMediaType
    | DateCreated | DateModified | ForcedSortName | IsOffline

  function SqlName(c: Column): string {
    match c
    case RowId => "guid"
    case TypeName => "type"
    case Data => "data"
    case Path => "Path"
    case StartDate => "StartDate"
    case EndDate => "EndDate"
    case ChannelId => "ChannelId"
    case IsMovie => "IsMovie"
    case IsSports => "IsSports"
    case IsKids => "IsKids"
    case CommunityRating => "CommunityRating"
    case CustomRating => "CustomRating"
    case IndexNumber => "IndexNumber"
    case IsLocked => "IsLocked"
    case Name => "Name"
    case OfficialRating => "OfficialRating"
    case MediaType => "MediaType"
    case Overview => "Overview"
    case ParentIndexNumber => "ParentIndexNumber"
    case PremiereDate => "PremiereDate"
    case ProductionYear => "ProductionYear"
    case ParentId => "ParentId"
    case Genres => "Genres"
    case ParentalRatingValue => "ParentalRatingValue"
    case SchemaVersion => "SchemaVersion"
    case SortName => "SortName"
    case RunTimeTicks => "RunTimeTicks"
    case OfficialRatingDescription => "OfficialRatingDescription"
    case HomePageUrl => "HomePageUrl"
    case VoteCount => "VoteCount"
    case DisplayMediaType => "DisplayMediaType"
    case DateCreated => "DateCreated"
    case DateModified => "DateModified"
    case ForcedSortName => "ForcedSortName"
    case IsOffline => "IsOffline"
  }

  /** Columns of `create table if not exists TypedBaseItems (guid GUID primary key, type TEXT, data BLOB)`. */
  const TableColumns: seq<Column> := [RowId, TypeName, Data]

  /** Columns added by the AddColumn calls of Initialize, in call order. */
  const AddedColumns: seq<Column> := [
    Path, StartDate, EndDate, ChannelId, IsMovie, IsSports, IsKids,
    CommunityRating, CustomRating, IndexNumber, IsLocked, Name, OfficialRating,
    MediaType, Overview, ParentIndexNumber, PremiereDate, ProductionYear,
    ParentId, Genres, ParentalRatingValue, SchemaVersion, SortName, RunTimeTicks,
    OfficialRatingDescription, HomePageUrl, VoteCount, DisplayMediaType,
    DateCreated, DateModified, ForcedSortName, IsOffline]

  /** Column list of the `replace into TypedBaseItems` save statement, in binding order. */
  const SaveColumns: seq<Column> := [
    RowId, TypeName, Data, Path, StartDate, EndDate, ChannelId,
    IsKids, IsMovie, IsSports, CommunityRating, CustomRating, IndexNumber,
    IsLocked, Name, OfficialRating, MediaType, Overview, ParentIndexNumber,
    PremiereDate, ProductionYear, ParentId, Genres, ParentalRatingValue,
    SchemaVersion, SortName, RunTimeTicks, OfficialRatingDescription,
    HomePageUrl, VoteCount, DisplayMediaType, DateCreated, DateModified,
    ForcedSortName, IsOffline]

  predicate NoDuplicates<T(==)>(s: seq<T>) {
    forall i, j | 0 <= i < j < |s| :: s[i] != s[j]
  }

  /** Every column the save statement writes is created by the DDL or by AddColumn. */
  lemma SaveColumnsAreCreated()
    ensures forall c | c in SaveColumns :: c in TableColumns || c in AddedColumns
  {
  }

  /** A TypedBaseItems column list as found in an existing library file: either the
      table is absent, or it was created by the table DDL and possibly extended. */
  predicate IsEarlierLayout(existing: seq<Column>) {
    existing == [] || (|existing| >= |TableColumns| && existing[..|TableColumns|] == TableColumns)
  }

  /**
   * Initialize's schema steps against the column list of an existing file:
   * create the table if it does not exist, then AddColumn each projected
   * column, where a column that already exists is a no-op.
   */
  method Initialize(existing: seq<Column>) returns (columns: seq<Column>)
    requires IsEarlierLayout(existing)
    ensures existing <= columns
    ensures |columns| >= |TableColumns| && columns[..|TableColumns|] == TableColumns
    ensures forall c | c in SaveColumns :: c in columns
    ensures forall c | c in columns :: c in existing || c in TableColumns || c in AddedColumns
    ensures NoDuplicates(existing) ==> NoDuplicates(columns)
    ensures existing != [] && (forall c | c in AddedColumns :: c in existing) ==> columns == existing
  {
    columns := existing;
    if columns == [] {
      columns := TableColumns;
    }
    var i := 0;
    while i < |AddedColumns|
      invariant 0 <= i <= |AddedColumns|
      invariant existing <= columns
      invariant |columns| >= |TableColumns| && columns[..|TableColumns|] == TableColumns
      invariant forall j | 0 <= j < i :: AddedColumns[j] in columns
      invariant forall c | c in columns :: c in existing || c in TableColumns || c in AddedColumns[..i]
      invariant NoDuplicates(existing) ==> NoDuplicates(columns)
      invariant existing != [] && (forall c | c in AddedColumns :: c in existing) ==> columns == existing
    {
      var name := AddedColumns[i];
      if name !in columns {
        columns := columns + [name];
      }
      i := i + 1;
    }
    assert AddedColumns[..i] == AddedColumns;
    forall c | c in SaveColumns
      ensures c in columns
    {
      SaveColumnsAreCreated();
      if c in AddedColumns {
        var j :| 0 <= j < |AddedColumns| && AddedColumns[j] == c;
      } else {
        assert c in columns[..|TableColumns|];
      }
    }
  }
}
