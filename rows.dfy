/**
 * The TypedBaseItems table as the store writes and reads it: the projected row
 * a save writes, the row-to-item hydration every reader uses, and the table
 * after a committed SaveItems batch.
 */
module Rows {
  import opened Wrappers
  import Schema
  import opened Items
  import Tables
  import Binding
  import Seqs

  /** The TypedBaseItems row a save writes for `it`: a value in every column. */
  function RowOf(codec: Codec, it: Item): (row: Row)
    ensures forall c: Schema.Column :: c in row && row[c] == ColumnValue(codec, it, c)
  {
    map c: Schema.Column | true :: ColumnValue(codec, it, c)
  }

  /** Binding the 35 parameters in order and writing them through the column list yields the projected row. */
  lemma WrittenBind(codec: Codec, it: Item)
    ensures |Binding.Bind(codec, it)| == |Schema.SaveColumns|
    ensures Binding.Written(Binding.Bind(codec, it)) == RowOf(codec, it)
  {
    Binding.BindAligned(codec, it);
    var w := Binding.Written(Binding.Bind(codec, it));
    var r := RowOf(codec, it);
    forall c: Schema.Column ensures c in w && w[c] == r[c] {
      var p := Binding.Position(c);
    }
  }

  /**
   * The columns SaveItems derives rather than copies: the type tag and payload,
   * the schema stamp, Guid.Empty stored as a null ParentId, genres joined by `|`,
   * and null StartDate and program flags for types without them.
   */
  lemma SavedRowProjection(codec: Codec, it: Item)
    ensures Get(RowOf(codec, it), Schema.RowId) == GuidValue(it.id)
    ensures Get(RowOf(codec, it), Schema.TypeName) == Text(it.typeName)
    ensures Get(RowOf(codec, it), Schema.Data) == Blob(codec.serialize(it))
    ensures Get(RowOf(codec, it), Schema.SchemaVersion) == Int(Schema.LatestSchemaVersion)
    ensures Get(RowOf(codec, it), Schema.IsOffline) == Bool(it.isOffline)
    ensures Get(RowOf(codec, it), Schema.ParentId) == if it.parentId == EmptyGuid then Null else GuidValue(it.parentId)
    ensures Get(RowOf(codec, it), Schema.Genres) == Text(Join("|", it.genres))
    ensures it.startDate.None? ==> Get(RowOf(codec, it), Schema.StartDate) == Null
    ensures it.programAttributes.None? ==>
      Get(RowOf(codec, it), Schema.IsKids) == Get(RowOf(codec, it), Schema.IsMovie) == Get(RowOf(codec, it), Schema.IsSports) == Null
    ensures it.programAttributes.Some? ==>
      && Get(RowOf(codec, it), Schema.IsKids) == Bool(it.programAttributes.value.isKids)
      && Get(RowOf(codec, it), Schema.IsMovie) == Bool(it.programAttributes.value.isMovie)
      && Get(RowOf(codec, it), Schema.IsSports) == Bool(it.programAttributes.value.isSports)
  {
  }

  /** The three columns GetItem reads have the shapes it reads them as. */
  predicate Readable(row: Row) {
    && Get(row, Schema.TypeName).Text?
    && Get(row, Schema.Data).Blob?
    && (Get(row, Schema.IsOffline).Null? || Get(row, Schema.IsOffline).Bool?)
  }

  /** A row stored under key `id`: its guid column is its key and GetItem can read it. */
  predicate WellFormedRow(id: Guid, row: Row) {
    Get(row, Schema.RowId) == GuidValue(id) && Readable(row)
  }

  predicate WellFormedTable(table: map<Guid, Row>) {
    forall id | id in table :: WellFormedRow(id, table[id])
  }

  lemma RowOfWellFormed(codec: Codec, it: Item)
    ensures WellFormedRow(it.id, RowOf(codec, it))
  {
    SavedRowProjection(codec, it);
  }

  /**
   * GetItem: resolve the tag through the type mapper, deserialize the payload,
   * then overlay IsOffline when that column is not null.
   */
  function GetItem(codec: Codec, row: Row): (r: Option<Item>)
    requires Readable(row)
    ensures r.None? <==>
      || codec.getType(Get(row, Schema.TypeName).text).None?
      || codec.deserialize(Get(row, Schema.Data).bytes, codec.getType(Get(row, Schema.TypeName).text).value).None?
    ensures r.Some? ==>
      var decoded := codec.deserialize(Get(row, Schema.Data).bytes, codec.getType(Get(row, Schema.TypeName).text).value).value;
      && r.value.(isOffline := decoded.isOffline) == decoded
      && r.value.isOffline == (if Get(row, Schema.IsOffline).Bool? then Get(row, Schema.IsOffline).flag else decoded.isOffline)
  {
    var tag := Get(row, Schema.TypeName).text;
    match codec.getType(tag)
    case None => None
    case Some(t) =>
      match codec.deserialize(Get(row, Schema.Data).bytes, t)
      case None => None
      case Some(item) =>
        match Get(row, Schema.IsOffline)
        case Bool(b) => Some(item.(isOffline := b))
        case _ => Some(item)
  }

  /** Round trip: an item the codec restores is hydrated from its saved row unchanged. */
  lemma SaveThenGetItem(codec: Codec, x: Item)
    requires RoundTrips(codec, x)
    ensures Readable(RowOf(codec, x)) && GetItem(codec, RowOf(codec, x)) == Some(x)
  {
    RowOfWellFormed(codec, x);
    SavedRowProjection(codec, x);
  }

  /** The point lookup of RetrieveItem: a missing id gives null. */
  function Lookup(codec: Codec, table: map<Guid, Row>, id: Guid): (r: Option<Item>)
    requires WellFormedTable(table)
    ensures id !in table ==> r.None?
    ensures id in table ==> r == GetItem(codec, table[id])
  {
    if id in table then GetItem(codec, table[id]) else None
  }

  /** The entries a SaveItems batch writes, one per item, in batch order. */
  function Saved(codec: Codec, batch: seq<Item>): (entries: seq<(Guid, Row)>)
    ensures |entries| == |batch|
    ensures forall i | 0 <= i < |batch| :: entries[i] == (batch[i].id, RowOf(codec, batch[i]))
  {
    seq(|batch|, i requires 0 <= i < |batch| => (batch[i].id, RowOf(codec, batch[i])))
  }

  /** A committed batch leaves every stored row well formed. */
  lemma SavedWellFormed(codec: Codec, table: map<Guid, Row>, batch: seq<Item>)
    requires WellFormedTable(table)
    ensures WellFormedTable(Tables.ReplaceAll(table, Saved(codec, batch)))
  {
    var entries := Saved(codec, batch);
    forall id | id in Tables.ReplaceAll(table, entries)
      ensures WellFormedRow(id, Tables.ReplaceAll(table, entries)[id])
    {
      Tables.ReplaceAllRows(table, entries, id);
      if id in Tables.KeysOf(entries) {
        var j := Tables.LastIndex(entries, id);
        RowOfWellFormed(codec, batch[j]);
      }
    }
  }

  /** Round trip through the table: after a committed batch, retrieving an id yields the last item saved with it. */
  lemma SaveThenRetrieve(codec: Codec, table: map<Guid, Row>, batch: seq<Item>, k: nat)
    requires WellFormedTable(table)
    requires k < |batch| && forall j | k < j < |batch| :: batch[j].id != batch[k].id
    requires RoundTrips(codec, batch[k])
    ensures WellFormedTable(Tables.ReplaceAll(table, Saved(codec, batch)))
    ensures Lookup(codec, Tables.ReplaceAll(table, Saved(codec, batch)), batch[k].id) == Some(batch[k])
  {
    SavedWellFormed(codec, table, batch);
    Tables.ReplaceAllLastWins(table, Saved(codec, batch), k);
    SaveThenGetItem(codec, batch[k]);
  }

  /** The readers' loop: look each id up in result order and skip the rows that give null. */
  function HydrateAll(codec: Codec, table: map<Guid, Row>, ids: seq<Guid>): seq<Item>
    requires WellFormedTable(table)
  {
    Somes(seq(|ids|, i requires 0 <= i < |ids| => Lookup(codec, table, ids[i])))
  }

  /** A bad row is skipped without stopping the scan: the result holds exactly the items of the rows that hydrate. */
  lemma HydrateAllMembers(codec: Codec, table: map<Guid, Row>, ids: seq<Guid>, x: Item)
    requires WellFormedTable(table)
    ensures |HydrateAll(codec, table, ids)| <= |ids|
    ensures x in HydrateAll(codec, table, ids) <==>
      exists i | 0 <= i < |ids| :: Lookup(codec, table, ids[i]) == Some(x)
  {
    var looked := seq(|ids|, i requires 0 <= i < |ids| => Lookup(codec, table, ids[i]));
    SomesMembers(looked, x);
    if Some(x) in looked {
      var i :| 0 <= i < |ids| && looked[i] == Some(x);
    }
    if exists i | 0 <= i < |ids| :: Lookup(codec, table, ids[i]) == Some(x) {
      var i :| 0 <= i < |ids| && Lookup(codec, table, ids[i]) == Some(x);
      assert looked[i] == Some(x);
    }
  }

  /** The batch prefix grows by the next item's projected row. */
  lemma SavedSnoc(codec: Codec, batch: seq<Item>, i: nat)
    requires i < |batch|
    ensures Saved(codec, batch[..i + 1]) == Saved(codec, batch[..i]) + [(batch[i].id, RowOf(codec, batch[i]))]
  {
  }

  /** The reader loop reads one more row: it is added when it hydrates and skipped otherwise. */
  lemma HydrateAllSnoc(codec: Codec, table: map<Guid, Row>, ids: seq<Guid>, i: nat)
    requires WellFormedTable(table) && i < |ids|
    ensures HydrateAll(codec, table, ids[..i + 1]) == HydrateAll(codec, table, ids[..i])
      + (if Lookup(codec, table, ids[i]).Some? then [Lookup(codec, table, ids[i]).value] else [])
  {
    var after := ids[..i + 1];
    var before := ids[..i];
    var looked := seq(|after|, j requires 0 <= j < |after| => Lookup(codec, table, after[j]));
    var lookedBefore := seq(|before|, j requires 0 <= j < |before| => Lookup(codec, table, before[j]));
    assert looked[..i] == lookedBefore;
    assert HydrateAll(codec, table, after) == Somes(looked);
    assert HydrateAll(codec, table, before) == Somes(lookedBefore);
  }

  /** `where type = @type`: the stored rows whose type column holds `typeName`. */
  function OfType(table: map<Guid, Row>, typeName: string): Guid -> bool {
    (g: Guid) => g in table && Get(table[g], Schema.TypeName) == Text(typeName)
  }

  /**
   * Hydrating the rows of a scan of the whole table that pass `p` yields exactly
   * the items of the stored rows that pass `p` and hydrate.
   */
  lemma HydrateScanMembers(codec: Codec, table: map<Guid, Row>, scan: seq<Guid>, p: Guid -> bool, x: Item)
    requires WellFormedTable(table)
    requires forall g :: g in scan <==> g in table
    ensures x in HydrateAll(codec, table, Seqs.Filter(scan, p)) <==>
      exists g | g in table && p(g) :: Lookup(codec, table, g) == Some(x)
  {
    var ids := Seqs.Filter(scan, p);
    HydrateAllMembers(codec, table, ids, x);
    if x in HydrateAll(codec, table, ids) {
      var i :| 0 <= i < |ids| && Lookup(codec, table, ids[i]) == Some(x);
      Seqs.FilterMembers(scan, p, ids[i]);
    }
    if exists g | g in table && p(g) :: Lookup(codec, table, g) == Some(x) {
      var g :| g in table && p(g) && Lookup(codec, table, g) == Some(x);
      Seqs.FilterMembers(scan, p, g);
      var i :| 0 <= i < |ids| && ids[i] == g;
    }
  }
}
