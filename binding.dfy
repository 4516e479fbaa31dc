/**
 * The positional binding of the save statement: SaveItems assigns the values
 * @1..@35 one after another, and the column list of the statement decides
 * which column each lands in.
 */
module Binding {
  import Schema
  import Seqs
  import opened Items

  /** The value of the (p + 1)-th `GetParameter(index++)` assignment of SaveItems. */
  function BoundValue(codec: Codec, it: Item, p: nat): Value
    requires p < 35
  {
    var program := it.programAttributes;
    match p
    case 0 => GuidValue(it.id)
    case 1 => Text(it.typeName)
    case 2 => Blob(codec.serialize(it))
    case 3 => TextOrNull(it.path)
    case 4 => DateOrNull(it.startDate)
    case 5 => DateOrNull(it.endDate)
    case 6 => TextOrNull(it.channelId)
    case 7 => if program.Some? then Bool(program.value.isKids) else Null
    case 8 => if program.Some? then Bool(program.value.isMovie) else Null
    case 9 => if program.Some? then Bool(program.value.isSports) else Null
    case 10 => FloatOrNull(it.communityRating)
    case 11 => TextOrNull(it.customRating)
    case 12 => IntOrNull(it.indexNumber)
    case 13 => Bool(it.isLocked)
    case 14 => TextOrNull(it.name)
    case 15 => TextOrNull(it.officialRating)
    case 16 => TextOrNull(it.mediaType)
    case 17 => TextOrNull(it.overview)
    case 18 => IntOrNull(it.parentIndexNumber)
    case 19 => DateOrNull(it.premiereDate)
    case 20 => IntOrNull(it.productionYear)
    case 21 => if it.parentId == EmptyGuid then Null else GuidValue(it.parentId)
    case 22 => Text(Join("|", it.genres))
    case 23 => IntOrNull(it.parentalRatingValue)
    case 24 => Int(Schema.LatestSchemaVersion)
    case 25 => TextOrNull(it.sortName)
    case 26 => IntOrNull(it.runTimeTicks)
    case 27 => TextOrNull(it.officialRatingDescription)
    case 28 => TextOrNull(it.homePageUrl)
    case 29 => IntOrNull(it.voteCount)
    case 30 => TextOrNull(it.displayMediaType)
    case 31 => Date(it.dateCreated)
    case 32 => Date(it.dateModified)
    case 33 => TextOrNull(it.forcedSortName)
    case _ => Bool(it.isOffline)
  }

  /** The values SaveItems binds to the parameters @1..@35, in statement order. */
  function Bind(codec: Codec, it: Item): (values: seq<Value>)
    ensures |values| == |Schema.SaveColumns|
  {
    seq(35, p requires 0 <= p < 35 => BoundValue(codec, it, p))
  }

  lemma BoundValueAligned0(codec: Codec, it: Item, p: nat)
    requires 0 <= p < 5
    ensures BoundValue(codec, it, p) == ColumnValue(codec, it, Schema.SaveColumns[p])
  {
    match p
    case 0 =>
    case 1 =>
    case 2 =>
    case 3 =>
    case _ =>
  }

  lemma BoundValueAligned1(codec: Codec, it: Item, p: nat)
    requires 5 <= p < 10
    ensures BoundValue(codec, it, p) == ColumnValue(codec, it, Schema.SaveColumns[p])
  {
    match p
    case 5 =>
    case 6 =>
    case 7 =>
    case 8 =>
    case _ =>
  }

  lemma BoundValueAligned2(codec: Codec, it: Item, p: nat)
    requires 10 <= p < 15
    ensures BoundValue(codec, it, p) == ColumnValue(codec, it, Schema.SaveColumns[p])
  {
    match p
    case 10 =>
    case 11 =>
    case 12 =>
    case 13 =>
    case _ =>
  }

  lemma BoundValueAligned3(codec: Codec, it: Item, p: nat)
    requires 15 <= p < 20
    ensures BoundValue(codec, it, p) == ColumnValue(codec, it, Schema.SaveColumns[p])
  {
    match p
    case 15 =>
    case 16 =>
    case 17 =>
    case 18 =>
    case _ =>
  }

  lemma BoundValueAligned4(codec: Codec, it: Item, p: nat)
    requires 20 <= p < 25
    ensures BoundValue(codec, it, p) == ColumnValue(codec, it, Schema.SaveColumns[p])
  {
    match p
    case 20 =>
    case 21 =>
    case 22 =>
    case 23 =>
    case _ =>
  }

  lemma BoundValueAligned5(codec: Codec, it: Item, p: nat)
    requires 25 <= p < 30
    ensures BoundValue(codec, it, p) == ColumnValue(codec, it, Schema.SaveColumns[p])
  {
    match p
    case 25 =>
    case 26 =>
    case 27 =>
    case 28 =>
    case _ =>
  }

  lemma BoundValueAligned6(codec: Codec, it: Item, p: nat)
    requires 30 <= p < 35
    ensures BoundValue(codec, it, p) == ColumnValue(codec, it, Schema.SaveColumns[p])
  {
    match p
    case 30 =>
    case 31 =>
    case 32 =>
    case 33 =>
    case _ =>
  }

  /** Each bound value is the one the store derives for the column it lands in. */
  lemma BindAligned(codec: Codec, it: Item)
    ensures |Bind(codec, it)| == |Schema.SaveColumns| == 35
    ensures forall p | 0 <= p < |Schema.SaveColumns| ::
      Bind(codec, it)[p] == ColumnValue(codec, it, Schema.SaveColumns[p])
  {
    forall p | 0 <= p < |Schema.SaveColumns|
      ensures Bind(codec, it)[p] == ColumnValue(codec, it, Schema.SaveColumns[p])
    {
      if p < 5 {
        BoundValueAligned0(codec, it, p);
      } else if p < 10 {
        BoundValueAligned1(codec, it, p);
      } else if p < 15 {
        BoundValueAligned2(codec, it, p);
      } else if p < 20 {
        BoundValueAligned3(codec, it, p);
      } else if p < 25 {
        BoundValueAligned4(codec, it, p);
      } else if p < 30 {
        BoundValueAligned5(codec, it, p);
      } else {
        BoundValueAligned6(codec, it, p);
      }
    }
  }

  /** The index of a column in the save statement's column list, so its value is parameter @(p + 1). */
  function Position(c: Schema.Column): (p: nat)
    ensures p < |Schema.SaveColumns| && Schema.SaveColumns[p] == c
  {
    SaveColumnsCoverAll(c);
    Seqs.IndexOf(Schema.SaveColumns, c)
  }

  /** The save statement lists every column of the table. */
  lemma SaveColumnsCoverAll(c: Schema.Column)
    ensures c in Schema.SaveColumns
  {
  }

  /** The row the save statement writes from its 35 bound values: each column receives the value at its position. */
  function Written(values: seq<Value>): Row
    requires |values| == |Schema.SaveColumns|
  {
    map c: Schema.Column | true :: values[Position(c)]
  }
}
