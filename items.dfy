/**
 * The Item Store's values: the polymorphic item, the injected codec and type
 * mapper, the projected row written by a save, and the row-to-item hydration
 * used by every reader.
 */
module Items {
  import opened Wrappers
  import Schema

  /** A 128-bit globally unique id, as its unsigned value; `EmptyGuid` is Guid.Empty. */
  newtype Guid = x: int | 0 <= x < 0x1_0000_0000_0000_0000_0000_0000_0000_0000
  const EmptyGuid: Guid := 0

  type Bytes = seq<bv8>

  /** Instants are modelled as integer ticks. */
  type DateTime = int

  /** One cell of a relational row. */
  datatype Value =
    | Null
    | Text(text: string)
    | Int(number: int)
    | Bool(flag: bool)
    | Date(ticks: DateTime)
    | Float(approx: real)
    | Blob(bytes: Bytes)
    | GuidValue(guid: Guid)

  /** A TypedBaseItems row: column to cell; a column the row lacks reads as null. */
  type Row = map<Schema.Column, Value>

  function Get(row: Row, column: Schema.Column): Value {
    if column in row then row[column] else Null
  }

  /** What an item that implements IHasProgramAttributes reports. */
  datatype ProgramAttributes = ProgramAttributes(isKids: bool, isMovie: bool, isSports: bool)

  /**
   * A BaseItem as the store sees it. `typeName` is the full name of its runtime
   * type; `startDate` is present exactly when the type implements IHasStartDate,
   * `programAttributes` exactly when it implements IHasProgramAttributes; a
   * reference-typed or nullable member that is null is `None`.
   */
  datatype Item = Item(
    id: Guid,
    typeName: string,
    path: Option<string>,
    startDate: Option<DateTime>,
    endDate: Option<DateTime>,
    channelId: Option<string>,
    programAttributes: Option<ProgramAttributes>,
    communityRating: Option<real>,
    customRating: Option<string>,
    indexNumber: Option<int>,
    isLocked: bool,
    name: Option<string>,
    officialRating: Option<string>,
    mediaType: Option<string>,
    overview: Option<string>,
    parentIndexNumber: Option<int>,
    premiereDate: Option<DateTime>,
    productionYear: Option<int>,
    parentId: Guid,
    genres: seq<string>,
    parentalRatingValue: Option<int>,
    sortName: Option<string>,
    runTimeTicks: Option<int>,
    officialRatingDescription: Option<string>,
    homePageUrl: Option<string>,
    voteCount: Option<int>,
    displayMediaType: Option<string>,
    dateCreated: DateTime,
    dateModified: DateTime,
    forcedSortName: Option<string>,
    isOffline: bool)

  /**
   * The injected collaborators: the JSON serializer (`deserialize` answers None
   * when it throws a SerializationException or yields no BaseItem) and the type
   * mapper (`getType` answers None for a tag no loaded type has).
   */
  datatype Codec = Codec(
    serialize: Item -> Bytes,
    deserialize: (Bytes, string) -> Option<Item>,
    getType: string -> Option<string>)

  /** The codec restores `x` from its own serialization under its own type tag. */
  ghost predicate RoundTrips(codec: Codec, x: Item) {
    && codec.getType(x.typeName).Some?
    && codec.deserialize(codec.serialize(x), codec.getType(x.typeName).value) == Some(x)
  }

  function TextOrNull(s: Option<string>): Value {
    match s
    case Some(t) => Text(t)
    case None => Null
  }

  function IntOrNull(n: Option<int>): Value {
    match n
    case Some(k) => Int(k)
    case None => Null
  }

  function DateOrNull(d: Option<DateTime>): Value {
    match d
    case Some(t) => Date(t)
    case None => Null
  }

  function FloatOrNull(r: Option<real>): Value {
    match r
    case Some(x) => Float(x)
    case None => Null
  }

  /** `string.Join(separator, parts)`. */
  function Join(separator: string, parts: seq<string>): string {
    if |parts| == 0 then ""
    else if |parts| == 1 then parts[0]
    else parts[0] + separator + Join(separator, parts[1..])
  }

  /** Char.IsWhiteSpace, restricted to the ASCII and Latin-1 white-space characters. */
  predicate IsWhiteSpace(c: char) {
    c == ' ' || c == '\t' || c == '\n' || c == '\r' || c == '\U{B}' || c == '\U{C}'
    || c == '\U{85}' || c == '\U{A0}'
  }

  /** string.IsNullOrWhiteSpace. */
  predicate IsNullOrWhiteSpace(s: Option<string>) {
    s.None? || forall i | 0 <= i < |s.value| :: IsWhiteSpace(s.value[i])
  }

  /** SQL `text like '%fragment%'`, read as substring containment. */
  predicate Contains(text: string, fragment: string) {
    exists i | 0 <= i <= |text| - |fragment| :: OccursAt(text, fragment, i)
  }

  predicate OccursAt(text: string, fragment: string, i: int) {
    0 <= i && i + |fragment| <= |text| && text[i..i + |fragment|] == fragment
  }

  /** The value SaveItems binds for each column of the save statement. */
  function ColumnValue(codec: Codec, it: Item, column: Schema.Column): Value {
    var program := it.programAttributes;
    match column
    case RowId => GuidValue(it.id)
    case TypeName => Text(it.typeName)
    case Data => Blob(codec.serialize(it))
    case Path => TextOrNull(it.path)
    case StartDate => DateOrNull(it.startDate)
    case EndDate => DateOrNull(it.endDate)
    case ChannelId => TextOrNull(it.channelId)
    case IsKids => if program.Some? then Bool(program.value.isKids) else Null
    case IsMovie => if program.Some? then Bool(program.value.isMovie) else Null
    case IsSports => if program.Some? then Bool(program.value.isSports) else Null
    case CommunityRating => FloatOrNull(it.communityRating)
    case CustomRating => TextOrNull(it.customRating)
    case IndexNumber => IntOrNull(it.indexNumber)
    case IsLocked => Bool(it.isLocked)
    case Name => TextOrNull(it.name)
    case OfficialRating => TextOrNull(it.officialRating)
    case MediaType => TextOrNull(it.mediaType)
    case Overview => TextOrNull(it.overview)
    case ParentIndexNumber => IntOrNull(it.parentIndexNumber)
    case PremiereDate => DateOrNull(it.premiereDate)
    case ProductionYear => IntOrNull(it.productionYear)
    case ParentId => if it.parentId == EmptyGuid then Null else GuidValue(it.parentId)
    case Genres => Text(Join("|", it.genres))
    case ParentalRatingValue => IntOrNull(it.parentalRatingValue)
    case SchemaVersion => Int(Schema.LatestSchemaVersion)
    case SortName => TextOrNull(it.sortName)
    case RunTimeTicks => IntOrNull(it.runTimeTicks)
    case OfficialRatingDescription => TextOrNull(it.officialRatingDescription)
    case HomePageUrl => TextOrNull(it.homePageUrl)
    case VoteCount => IntOrNull(it.voteCount)
    case DisplayMediaType => TextOrNull(it.displayMediaType)
    case DateCreated => Date(it.dateCreated)
    case DateModified => Date(it.dateModified)
    case ForcedSortName => TextOrNull(it.forcedSortName)
    case IsOffline => Bool(it.isOffline)
  }
}
