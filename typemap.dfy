/**
 * The short-name to full-name type table used to expand IncludeItemTypes and
 * ExcludeItemTypes: one entry per known item type, plus the three aliases
 * Recording, Program and TvChannel.
 */
module TypeMap {
  import Seqs

  /** The item types the table knows about. */
  datatype KnownType =
    | LiveTvProgram | LiveTvChannel | LiveTvVideoRecording | LiveTvAudioRecording
    | Series | Audio | MusicAlbum | MusicArtist | MusicGenre | MusicVideo | Movie | BoxSet
    | Episode | Season | Book | CollectionFolder | Folder | Game | GameGenre | GameSystem
    | Genre | Person | Photo | PhotoAlbum | Studio | UserRootFolder | UserView | Video | Year

  /** `Type.Name`. */
  function Name(t: KnownType): string {
    match t
    case LiveTvProgram => "LiveTvProgram"
    case LiveTvChannel => "LiveTvChannel"
    case LiveTvVideoRecording => "LiveTvVideoRecording"
    case LiveTvAudioRecording => "LiveTvAudioRecording"
    case Series => "Series"
    case Audio => "Audio"
    case MusicAlbum => "MusicAlbum"
    case MusicArtist => "MusicArtist"
    case MusicGenre => "MusicGenre"
    case MusicVideo => "MusicVideo"
    case Movie => "Movie"
    case BoxSet => "BoxSet"
    case Episode => "Episode"
    case Season => "Season"
    case Book => "Book"
    case CollectionFolder => "CollectionFolder"
    case Folder => "Folder"
    case Game => "Game"
    case GameGenre => "GameGenre"
    case GameSystem => "GameSystem"
    case Genre => "Genre"
    case Person => "Person"
    case Photo => "Photo"
    case PhotoAlbum => "PhotoAlbum"
    case Studio => "Studio"
    case UserRootFolder => "UserRootFolder"
    case UserView => "UserView"
    case Video => "Video"
    case Year => "Year"
  }

  /** The namespace each type is declared in. */
  function Namespace(t: KnownType): string {
    match t
    case LiveTvProgram | LiveTvChannel | LiveTvVideoRecording | LiveTvAudioRecording =>
      "MediaBrowser.Controller.LiveTv"
    case Series | Episode | Season => "MediaBrowser.Controller.Entities.TV"
    case Audio | MusicAlbum | MusicArtist | MusicGenre => "MediaBrowser.Controller.Entities.Audio"
    case Movie | BoxSet => "MediaBrowser.Controller.Entities.Movies"
    case _ => "MediaBrowser.Controller.Entities"
  }

  /** `Type.FullName`: the tag stored in the `type` column. */
  function FullName(t: KnownType): string {
    Namespace(t) + "." + Name(t)
  }

  /** The KnownTypes array, in declaration order and with its repeated entries. */
  const KnownTypes: seq<KnownType> := [
    LiveTvProgram, LiveTvChannel, LiveTvVideoRecording, LiveTvAudioRecording, Series,
    LiveTvAudioRecording, LiveTvVideoRecording, Audio, MusicAlbum, MusicArtist, MusicGenre,
    MusicVideo, Movie, BoxSet, Episode, Season, Series, Book, CollectionFolder, Folder,
    Game, GameGenre, GameSystem, Genre, Person, Photo, PhotoAlbum, Studio, UserRootFolder,
    UserView, Video, Year]

  /** `dict[key(t)] = value(t)` for each element in turn; a later element overwrites an earlier one's entry. */
  function RegisterBy<T>(types: seq<T>, key: T -> string, value: T -> seq<string>): map<string, seq<string>>
    decreases |types|
  {
    if |types| == 0 then map[]
    else
      var t := types[|types| - 1];
      RegisterBy(types[..|types| - 1], key, value)[key(t) := value(t)]
  }

  /** With an injective key, the entries are exactly the elements' keys, each mapped to its own value. */
  lemma {:induction false} RegisterByEntries<T>(types: seq<T>, key: T -> string, value: T -> seq<string>, t: T)
    requires forall a, b :: key(a) == key(b) ==> a == b
    ensures key(t) in RegisterBy(types, key, value) <==> t in types
    ensures t in types ==> RegisterBy(types, key, value)[key(t)] == value(t)
    decreases |types|
  {
    if |types| > 0 {
      var init := types[..|types| - 1];
      RegisterByEntries(init, key, value, t);
      assert types == init + [types[|types| - 1]];
    }
  }

  /** Every key of the table is the key of an element. */
  lemma {:induction false} RegisterByKeys<T>(types: seq<T>, key: T -> string, value: T -> seq<string>, k: string)
    requires k in RegisterBy(types, key, value)
    ensures exists t :: t in types && key(t) == k
    decreases |types|
  {
    var last := types[|types| - 1];
    if k != key(last) {
      RegisterByKeys(types[..|types| - 1], key, value, k);
      var t :| t in types[..|types| - 1] && key(t) == k;
      assert t in types;
    }
  }

  function Entry(t: KnownType): seq<string> {
    [FullName(t)]
  }

  /** `dict[t.Name] = new[] { t.FullName }` for each type in turn; a repeated type overwrites its own entry. */
  function Register(types: seq<KnownType>): map<string, seq<string>> {
    RegisterBy(types, Name, Entry)
  }

  /** GetTypeMapDictionary. */
  function TypeMapDictionary(): map<string, seq<string>> {
    Register(KnownTypes)
      ["Recording" := [FullName(LiveTvAudioRecording), FullName(LiveTvVideoRecording)]]
      ["Program" := [FullName(LiveTvProgram)]]
      ["TvChannel" := [FullName(LiveTvChannel)]]
  }

  /** The registered entries are exactly the known types' names, each mapped to its own full name. */
  lemma RegisterEntries(types: seq<KnownType>, t: KnownType)
    ensures Name(t) in Register(types) <==> t in types
    ensures t in types ==> Register(types)[Name(t)] == [FullName(t)]
  {
    NameInjective();
    RegisterByEntries(types, Name, Entry, t);
  }

  /** No two known types share a short name. */
  lemma NameInjective()
    ensures forall a: KnownType, b: KnownType :: Name(a) == Name(b) ==> a == b
  {
  }

  lemma Listed0(t: KnownType)
    requires t.LiveTvProgram? || t.LiveTvChannel? || t.LiveTvVideoRecording? || t.LiveTvAudioRecording? || t.Series? || t.Audio? || t.MusicAlbum? || t.MusicArtist? || t.MusicGenre? || t.MusicVideo?
    ensures t in KnownTypes
  {
    match t
    case LiveTvProgram => assert KnownTypes[0] == t;
    case LiveTvChannel => assert KnownTypes[1] == t;
    case LiveTvVideoRecording => assert KnownTypes[2] == t;
    case LiveTvAudioRecording => assert KnownTypes[3] == t;
    case Series => assert KnownTypes[4] == t;
    case Audio => assert KnownTypes[7] == t;
    case MusicAlbum => assert KnownTypes[8] == t;
    case MusicArtist => assert KnownTypes[9] == t;
    case MusicGenre => assert KnownTypes[10] == t;
    case MusicVideo => assert KnownTypes[11] == t;
    case _ =>
  }

  lemma Listed1(t: KnownType)
    requires t.Movie? || t.BoxSet? || t.Episode? || t.Season? || t.Book? || t.CollectionFolder? || t.Folder? || t.Game? || t.GameGenre? || t.GameSystem?
    ensures t in KnownTypes
  {
    match t
    case Movie => assert KnownTypes[12] == t;
    case BoxSet => assert KnownTypes[13] == t;
    case Episode => assert KnownTypes[14] == t;
    case Season => assert KnownTypes[15] == t;
    case Book => assert KnownTypes[17] == t;
    case CollectionFolder => assert KnownTypes[18] == t;
    case Folder => assert KnownTypes[19] == t;
    case Game => assert KnownTypes[20] == t;
    case GameGenre => assert KnownTypes[21] == t;
    case GameSystem => assert KnownTypes[22] == t;
    case _ =>
  }

  lemma Listed2(t: KnownType)
    requires t.Genre? || t.Person? || t.Photo? || t.PhotoAlbum? || t.Studio? || t.UserRootFolder? || t.UserView? || t.Video? || t.Year?
    ensures t in KnownTypes
  {
    match t
    case Genre => assert KnownTypes[23] == t;
    case Person => assert KnownTypes[24] == t;
    case Photo => assert KnownTypes[25] == t;
    case PhotoAlbum => assert KnownTypes[26] == t;
    case Studio => assert KnownTypes[27] == t;
    case UserRootFolder => assert KnownTypes[28] == t;
    case UserView => assert KnownTypes[29] == t;
    case Video => assert KnownTypes[30] == t;
    case Year => assert KnownTypes[31] == t;
    case _ =>
  }

  /** Every known type appears in KnownTypes. */
  lemma EveryTypeListed()
    ensures forall t: KnownType :: t in KnownTypes
  {
    forall t: KnownType
      ensures t in KnownTypes
    {
      if t.LiveTvProgram? || t.LiveTvChannel? || t.LiveTvVideoRecording? || t.LiveTvAudioRecording? || t.Series? || t.Audio? || t.MusicAlbum? || t.MusicArtist? || t.MusicGenre? || t.MusicVideo? {
        Listed0(t);
      } else if t.Movie? || t.BoxSet? || t.Episode? || t.Season? || t.Book? || t.CollectionFolder? || t.Folder? || t.Game? || t.GameGenre? || t.GameSystem? {
        Listed1(t);
      } else {
        Listed2(t);
      }
    }
  }

  /** No known type is called Recording, Program or TvChannel, so the aliases never shadow a type. */
  lemma AliasesAreNotTypeNames()
    ensures forall t: KnownType :: Name(t) != "Recording" && Name(t) != "Program" && Name(t) != "TvChannel"
  {
  }

  /** MapIncludeItemTypes: a name the table holds expands to its entry, any other name passes through. */
  function MapIncludeItemTypes(value: string): seq<string> {
    var dict := TypeMapDictionary();
    if value in dict then dict[value] else [value]
  }

  /** A known short name expands to that type's full name alone. */
  lemma MapKnownType(t: KnownType)
    ensures MapIncludeItemTypes(Name(t)) == [FullName(t)]
  {
    NotAnAlias(t);
    LookupOutsideAliases(Name(t));
    ListedAt(t);
    RegisterEntries(KnownTypes, t);
  }

  lemma NotAnAlias(t: KnownType)
    ensures Name(t) != "Recording" && Name(t) != "Program" && Name(t) != "TvChannel"
  {
    AliasesAreNotTypeNames();
  }

  lemma ListedAt(t: KnownType)
    ensures t in KnownTypes
  {
    EveryTypeListed();
  }

  /** Below the three aliases, the dictionary is the registered table. */
  lemma LookupOutsideAliases(value: string)
    requires value != "Recording" && value != "Program" && value != "TvChannel"
    ensures MapIncludeItemTypes(value) == if value in Register(KnownTypes) then Register(KnownTypes)[value] else [value]
  {
  }

  /** Each alias expands to its recording, program or channel types. */
  lemma MapAliases()
    ensures MapIncludeItemTypes("Recording") == [FullName(LiveTvAudioRecording), FullName(LiveTvVideoRecording)]
    ensures MapIncludeItemTypes("Program") == [FullName(LiveTvProgram)]
    ensures MapIncludeItemTypes("TvChannel") == [FullName(LiveTvChannel)]
  {
  }

  /** A name that is neither a known type nor an alias passes through unchanged. */
  lemma MapUnknownName(value: string)
    requires forall t: KnownType :: Name(t) != value
    requires value != "Recording" && value != "Program" && value != "TvChannel"
    ensures MapIncludeItemTypes(value) == [value]
  {
    if value in Register(KnownTypes) {
      RegisterNames(KnownTypes, value);
    }
  }

  /** Every registered key is the name of a type in the list. */
  lemma RegisterNames(types: seq<KnownType>, value: string)
    requires value in Register(types)
    ensures exists t :: t in types && Name(t) == value
  {
    RegisterByKeys(types, Name, Entry, value);
  }

  /** The SelectMany over the requested names. */
  function ExpandTypes(values: seq<string>): (r: seq<string>)
    ensures forall i | 0 <= i < |values| :: forall s | s in MapIncludeItemTypes(values[i]) :: s in r
    ensures forall s | s in r :: exists i | 0 <= i < |values| :: s in MapIncludeItemTypes(values[i])
  {
    Seqs.FlatMap(values, MapIncludeItemTypes)
  }
}
