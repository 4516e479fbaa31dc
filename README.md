# SQLite item repository, modelled in Dafny

This project models the polymorphic item store of Emby's media server,
`SqliteItemRepository`, as an in-memory database with three tables:

- **TypedBaseItems**: one row per item, keyed by guid. A row holds the type tag,
  the serialized payload and the projected columns.
- **ChildrenIds**: a set of (parent, child) edges.
- **People**: a sequence of person rows with no key.

The `Repository.Store` class holds those tables together with the `disposed`
flag and the write lock, as fields. Each public operation is a method on it.

- **Writes** (`SaveItems`, `SaveItem`, `DeleteItem`, `SaveChildren`,
  `UpdatePeople`). Each write works on a pending copy of its tables and commits
  only when its whole statement loop succeeds. A cancellation or an engine fault
  rolls back, which leaves every table as it was, and the write lock is always
  released.
- **Readers** (`RetrieveItem`, `GetChildren`, `GetChildrenItems`,
  `GetItemsOfType`, `GetItems`, `GetItemIds`, `GetItemIdsList`, `GetPeople`,
  `GetPeopleNames`). They hydrate rows through `GetItem`, which gives null for an
  unknown tag or a payload the codec rejects.
- **Supporting modules:**
  - `Schema`: the column lists and `Initialize`'s AddColumn loop.
  - `Binding`: the 35 values bound to the save statement.
  - `Rows`: the projected rows and hydration.
  - `Tables`: `replace into` over a keyed table.
  - `Children`: the edge replacement.
  - `People`: person rows, the people where-clause and the ListOrder sort.
  - `Query`: a clause language with its evaluation.
  - `ItemQueries`: GetWhereClauses, ORDER BY, the paging anti-join and the count.
  - `TypeMap`: the type table used by IncludeItemTypes and ExcludeItemTypes.

The JSON serializer and the type mapper are a `Codec` value of uninterpreted
functions:

- `serialize` maps an item to bytes;
- `deserialize` answers `None` when it throws a SerializationException or yields no item;
- `getType` answers `None` for an unknown tag.

The clock (`DateTime.UtcNow`), the cancellation token and the engine's storage
order are parameters or nondeterministic choices.

Every `source` cell below refers to
`MediaBrowser.Server.Implementations/Persistence/SqliteItemRepository.cs`.

## Model

| member | source | states |
|---|---|---|
| Schema.SaveColumnsAreCreated | MediaBrowser.Server.Implementations/Persistence/SqliteItemRepository.cs:127-239 | Every column of the save statement's column list is created by the TypedBaseItems DDL or by one of Initialize's AddColumn calls. |
| Schema.Initialize | MediaBrowser.Server.Implementations/Persistence/SqliteItemRepository.cs:119-177 | From an absent table or any earlier layout:<br>- the schema steps only append;<br>- the DDL columns come first;<br>- every saved column then exists;<br>- no column appears that is not from the file, the DDL or AddColumn;<br>- no duplicates are introduced;<br>- a file that already has every added column is left unchanged. |
| Binding.Bind | MediaBrowser.Server.Implementations/Persistence/SqliteItemRepository.cs:243-252 | SaveItems binds exactly as many values as the save statement has parameters (35). |
| Binding.BindAligned | MediaBrowser.Server.Implementations/Persistence/SqliteItemRepository.cs:335-403 | For each of the 35 positions, the value bound there is the value derived for the column at that position of the save column list. |
| Binding.Position | MediaBrowser.Server.Implementations/Persistence/SqliteItemRepository.cs:202-239 | Every column of TypedBaseItems has a position in the save column list. |
| Rows.WrittenBind | MediaBrowser.Server.Implementations/Persistence/SqliteItemRepository.cs:241-252 | Binding the values in parameter order and storing them through the column list yields exactly the projected row. |
| Rows.SavedRowProjection | MediaBrowser.Server.Implementations/Persistence/SqliteItemRepository.cs:335-407 | In the saved row:<br>- the guid is the id, the tag is the type name and the data is the serialized item;<br>- SchemaVersion is 6;<br>- an empty ParentId is null;<br>- Genres is the genres joined by `\|`;<br>- StartDate is null for an item without a start date;<br>- the three program flags are null for an item without program attributes, and otherwise each is its flag. |
| Rows.RowOfWellFormed | MediaBrowser.Server.Implementations/Persistence/SqliteItemRepository.cs:479-518 | A saved row is keyed by its item's id, and GetItem can read it. |
| Rows.GetItem | MediaBrowser.Server.Implementations/Persistence/SqliteItemRepository.cs:479-518 | GetItem gives null exactly when the tag is unknown or the payload does not deserialize. Otherwise it gives the decoded item, with IsOffline replaced by the column's value only when that column is not null. |
| Rows.SaveThenGetItem | MediaBrowser.Server.Implementations/Persistence/SqliteItemRepository.cs:479-518 | An item the codec round-trips is hydrated unchanged from the row a save writes. |
| Rows.SavedWellFormed | MediaBrowser.Server.Implementations/Persistence/SqliteItemRepository.cs:330-407 | Committing a batch keeps every row keyed by its guid and readable. |
| Rows.SaveThenRetrieve | MediaBrowser.Server.Implementations/Persistence/SqliteItemRepository.cs:310-477 | After a committed batch, the last item saved under an id is what RetrieveItem returns for that id, provided the codec round-trips it. |
| Rows.HydrateAllMembers | MediaBrowser.Server.Implementations/Persistence/SqliteItemRepository.cs:799-808 | The reader loop skips null items without stopping: an item is in the result exactly when some scanned id hydrates to it. |
| Rows.HydrateAllSnoc | MediaBrowser.Server.Implementations/Persistence/SqliteItemRepository.cs:801-807 | One step of the reader loop appends the hydrated item, or nothing when GetItem gives null. |
| Rows.HydrateScanMembers | MediaBrowser.Server.Implementations/Persistence/SqliteItemRepository.cs:705-754 | Filtering a scan of the whole table and hydrating yields exactly the items of the stored rows that pass the filter and hydrate. |
| Tables.ReplaceAllKeys | MediaBrowser.Server.Implementations/Persistence/SqliteItemRepository.cs:241 | After a batch of `replace into`, the keys are the old keys plus the batch's keys. |
| Tables.ReplaceAllKeepsOthers | MediaBrowser.Server.Implementations/Persistence/SqliteItemRepository.cs:241 | A key that no entry of the batch names keeps its old row, or stays absent. |
| Tables.ReplaceAllLastWins | MediaBrowser.Server.Implementations/Persistence/SqliteItemRepository.cs:241 | The row stored under a key is the one from the last entry with that key. |
| Tables.LastIndex | MediaBrowser.Server.Implementations/Persistence/SqliteItemRepository.cs:241 | Every key of a batch has a last entry: no later entry has the same key. |
| Tables.ReplaceAllRows | MediaBrowser.Server.Implementations/Persistence/SqliteItemRepository.cs:241 | A key the batch does not name keeps its old row; a key it names holds the row of its last entry. |
| Tables.ReplaceAllIdempotent | MediaBrowser.Server.Implementations/Persistence/SqliteItemRepository.cs:241 | Saving the same batch twice leaves the table as saving it once. |
| Tables.ReplaceAllSnoc | MediaBrowser.Server.Implementations/Persistence/SqliteItemRepository.cs:411 | One more `replace into` overwrites, or adds, its key's row. |
| Children.ReplaceChildrenEdges | MediaBrowser.Server.Implementations/Persistence/SqliteItemRepository.cs:1257-1297 | After SaveChildren(p, cs):<br>- (p, c) is an edge exactly when c is in cs;<br>- every other parent's edges are unchanged;<br>- the children of p are the set of cs. |
| Children.ReplaceChildrenIgnoresDuplicates | MediaBrowser.Server.Implementations/Persistence/SqliteItemRepository.cs:1285-1295 | Two child lists with the same members give the same table, so a repeated child collapses. |
| Children.SameChildEdges | MediaBrowser.Server.Implementations/Persistence/SqliteItemRepository.cs:264 | Lists with the same members insert the same edges. |
| Children.ReplaceChildrenTwice | MediaBrowser.Server.Implementations/Persistence/SqliteItemRepository.cs:1257-1297 | The second SaveChildren of a parent fully overrides the first. |
| Children.DeleteKeepsChildEdges | MediaBrowser.Server.Implementations/Persistence/SqliteItemRepository.cs:1210-1212 | Deleting an item keeps the edge that makes it another parent's child, and leaves it with no children. |
| Children.ChildEdgesSnoc | MediaBrowser.Server.Implementations/Persistence/SqliteItemRepository.cs:1285-1295 | One step of the insert loop adds exactly the edge (parent, child). |
| Children.ChildrenOfMeaning | MediaBrowser.Server.Implementations/Persistence/SqliteItemRepository.cs:684 | `select ItemId from ChildrenIds where ParentId = @ParentId` returns c exactly when (parent, c) is an edge. |
| People.PersonRowOf | MediaBrowser.Server.Implementations/Persistence/SqliteItemRepository.cs:1500-1505 | The inserted row carries the owner id and the list index as ListOrder. Reading it back with GetPerson gives the person, with its ItemId set to the owner. |
| People.InsertedRows | MediaBrowser.Server.Implementations/Persistence/SqliteItemRepository.cs:1494-1511 | UpdatePeople inserts one row per person, in list order, with dense ListOrder 0..n-1. |
| People.ReplacePeopleOwnRows | MediaBrowser.Server.Implementations/Persistence/SqliteItemRepository.cs:1488-1511 | After UpdatePeople, the item's person rows are exactly the inserted ones, in input order. |
| People.ReplacePeopleOtherRows | MediaBrowser.Server.Implementations/Persistence/SqliteItemRepository.cs:1488-1511 | Every other item's person rows are unchanged, in order. |
| People.InsertPermutes | MediaBrowser.Server.Implementations/Persistence/SqliteItemRepository.cs:1398 | Placing one row into a sorted list adds exactly that row. |
| People.InsertKeepsSorted | MediaBrowser.Server.Implementations/Persistence/SqliteItemRepository.cs:1398 | Inserting into a ListOrder-sorted list keeps it sorted. |
| People.OrderByListOrderPermutes | MediaBrowser.Server.Implementations/Persistence/SqliteItemRepository.cs:1398 | `order by ListOrder` is a permutation of the result rows. |
| People.OrderByListOrderSorted | MediaBrowser.Server.Implementations/Persistence/SqliteItemRepository.cs:1398 | `order by ListOrder` yields rows in non-decreasing ListOrder. |
| People.InsertKeepsTies | MediaBrowser.Server.Implementations/Persistence/SqliteItemRepository.cs:1398 | Insertion places a row after the rows with its ListOrder. |
| People.OrderByListOrderIsStable | MediaBrowser.Server.Implementations/Persistence/SqliteItemRepository.cs:1398 | The model's tie-break for `order by ListOrder`, which SQL leaves open: rows with equal ListOrder keep their storage order. |
| People.InsertAtEnd | MediaBrowser.Server.Implementations/Persistence/SqliteItemRepository.cs:1398 | A row whose ListOrder is at least every other row's goes last. |
| People.OrderByListOrderOfSorted | MediaBrowser.Server.Implementations/Persistence/SqliteItemRepository.cs:1398 | Rows already in ListOrder order are returned as they are. |
| People.AppearsInMeaning | MediaBrowser.Server.Implementations/Persistence/SqliteItemRepository.cs:1423-1427 | The AppearsIn clause admits a row exactly when some row of that item has the same name. |
| People.TypeClausesMeaning | MediaBrowser.Server.Implementations/Persistence/SqliteItemRepository.cs:1428-1449 | Requested person types keep exactly the rows whose type is listed; excluded types keep the rows whose type is present and not listed. Both directions are proved. |
| People.OtherClausesMeaning | MediaBrowser.Server.Implementations/Persistence/SqliteItemRepository.cs:1418-1459 | ItemId, MaxListOrder and NameContains each admit exactly the rows that meet the filter; a blank NameContains admits all rows. |
| People.PeopleWhereClausesMeaning | MediaBrowser.Server.Implementations/Persistence/SqliteItemRepository.cs:1414-1462 | The conjunction of the clauses admits a row exactly when it satisfies every filter that is set. |
| People.GetPeopleAdmitted | MediaBrowser.Server.Implementations/Persistence/SqliteItemRepository.cs:1378-1412 | The result holds each admitted stored row exactly as often as it is stored, and no other row; it is sorted by ListOrder. |
| People.DistinctNames | MediaBrowser.Server.Implementations/Persistence/SqliteItemRepository.cs:1353 | `select Distinct Name` has no repeats and holds exactly the names of the rows. |
| People.GetPeopleNames | MediaBrowser.Server.Implementations/Persistence/SqliteItemRepository.cs:1342-1376 | GetPeopleNames has no repeated name. |
| People.GetPeopleNamesMembers | MediaBrowser.Server.Implementations/Persistence/SqliteItemRepository.cs:1342-1376 | A name is returned exactly when some stored row with that name satisfies the query. |
| People.OwnerQueryResult | MediaBrowser.Server.Implementations/Persistence/SqliteItemRepository.cs:1464-1513 | After UpdatePeople(id, ps), the person rows a query for id selects are exactly the inserted rows, in order. |
| People.UpdateThenGetPeople | MediaBrowser.Server.Implementations/Persistence/SqliteItemRepository.cs:1378-1513 | Round trip: after UpdatePeople(id, ps), GetPeople for id returns ps in input order, each with its ItemId set to id. |
| Query.SelectMembers | MediaBrowser.Server.Implementations/Persistence/SqliteItemRepository.cs:769-785 | A select returns each stored row that satisfies every clause, once, and no other row. |
| Query.CountIsSelectLength | MediaBrowser.Server.Implementations/Persistence/SqliteItemRepository.cs:792-813 | `select count (guid)` with the same where-clause is the number of rows the select returns. |
| Query.AntiJoinPage | MediaBrowser.Server.Implementations/Persistence/SqliteItemRepository.cs:1107-1121 | Adding `guid NOT IN (first k rows of the same predicate and order)` drops exactly the first k rows of the ordered result. |
| ItemQueries.TextsMembers | MediaBrowser.Server.Implementations/Persistence/SqliteItemRepository.cs:985-1011 | A value is in the IN list exactly when it is the text of a requested string. |
| ItemQueries.GenreAlternatives | MediaBrowser.Server.Implementations/Persistence/SqliteItemRepository.cs:1067-1079 | One `Genres like` alternative per requested genre, in order. |
| ItemQueries.BuildGenreAlternatives | MediaBrowser.Server.Implementations/Persistence/SqliteItemRepository.cs:1069-1077 | The genre loop with its index counter builds exactly those alternatives. |
| ItemQueries.GetWhereClauses | MediaBrowser.Server.Implementations/Persistence/SqliteItemRepository.cs:947-1124 | The appending method builds exactly the where-clause that the filters and the paging flag call for. |
| ItemQueries.OrderTerms | MediaBrowser.Server.Implementations/Persistence/SqliteItemRepository.cs:824-839 | A null or empty SortBy gives no terms. Otherwise there is one term per field, in order, all in the query's one direction. |
| ItemQueries.OrderByText | MediaBrowser.Server.Implementations/Persistence/SqliteItemRepository.cs:824-834 | The ORDER BY text is empty exactly when there are no sort terms. |
| ItemQueries.SchemaMeaning | MediaBrowser.Server.Implementations/Persistence/SqliteItemRepository.cs:951-962 | IsCurrentSchema admits a row exactly when the row's current-schema status matches what is asked. |
| ItemQueries.FlagsMeaning | MediaBrowser.Server.Implementations/Persistence/SqliteItemRepository.cs:963-977 | IsMovie, IsKids and IsSports each admit exactly the rows whose flag equals the requested value. |
| ItemQueries.OneOfMeaning | MediaBrowser.Server.Implementations/Persistence/SqliteItemRepository.cs:979-1001 | One name gives equality and several give IN; either admits exactly the rows whose column is one of the names. |
| ItemQueries.TypesMeaning | MediaBrowser.Server.Implementations/Persistence/SqliteItemRepository.cs:979-1001 | Include types keep a row exactly when its tag is in the expanded set; exclude types drop exactly those tags. |
| ItemQueries.ChannelMeaning | MediaBrowser.Server.Implementations/Persistence/SqliteItemRepository.cs:1003-1012 | ChannelIds admit exactly the rows on a listed channel. |
| ItemQueries.DateRangeMeaning | MediaBrowser.Server.Implementations/Persistence/SqliteItemRepository.cs:1014-1036 | Each bound that is set admits exactly the rows whose date meets it; a null date fails it. |
| ItemQueries.DatesMeaning | MediaBrowser.Server.Implementations/Persistence/SqliteItemRepository.cs:1014-1036 | The four date bounds together admit exactly the rows within every bound that is set. |
| ItemQueries.AiringMeaning | MediaBrowser.Server.Implementations/Persistence/SqliteItemRepository.cs:1038-1053 | IsAiring true admits rows that have started and not yet ended. IsAiring false admits rows that start later or have already ended. |
| ItemQueries.PersonMeaning | MediaBrowser.Server.Implementations/Persistence/SqliteItemRepository.cs:1055-1059 | A non-blank Person admits exactly the items with a person row of that name. |
| ItemQueries.NameMeaning | MediaBrowser.Server.Implementations/Persistence/SqliteItemRepository.cs:1061-1065 | A non-blank NameContains admits exactly the rows whose name contains it. |
| ItemQueries.GenresMeaning | MediaBrowser.Server.Implementations/Persistence/SqliteItemRepository.cs:1067-1079 | Genres admit exactly the rows whose genre text contains at least one requested genre. |
| ItemQueries.AlternativesMeaning | MediaBrowser.Server.Implementations/Persistence/SqliteItemRepository.cs:1069-1078 | The OR of the genre alternatives holds exactly when one of them matches. |
| ItemQueries.RatingMeaning | MediaBrowser.Server.Implementations/Persistence/SqliteItemRepository.cs:1081-1097 | MaxParentalRating admits unrated rows and rows at or under the ceiling; HasParentalRating tests for a rating. |
| ItemQueries.DeadParentMeaning | MediaBrowser.Server.Implementations/Persistence/SqliteItemRepository.cs:1099-1105 | HasDeadParentId admits exactly the rows whose parent id is set and names no stored row. |
| ItemQueries.FilterClausesMeaning | MediaBrowser.Server.Implementations/Persistence/SqliteItemRepository.cs:947-1105 | The where-clause without paging admits a row exactly when the row satisfies every filter that is set. |
| ItemQueries.ApplyLimit | MediaBrowser.Server.Implementations/Persistence/SqliteItemRepository.cs:787-790 | Without a Limit the page is every result row. Otherwise it is the first Limit rows, and SQLite's negative LIMIT means no limit. |
| ItemQueries.PageIsSlice | MediaBrowser.Server.Implementations/Persistence/SqliteItemRepository.cs:1107-1121 | The page is the ordered matches with the first StartIndex dropped, then cut to Limit. |
| ItemQueries.PageMembers | MediaBrowser.Server.Implementations/Persistence/SqliteItemRepository.cs:777-790 | The page has no repeated guid, and every guid on it names a stored row that the query admits. |
| ItemQueries.TotalRecordCountMeaning | MediaBrowser.Server.Implementations/Persistence/SqliteItemRepository.cs:771-813 | The count is the number of stored rows the query admits, which is the length of the unpaged select. |
| ItemQueries.TotalRecordCountIgnoresPaging | MediaBrowser.Server.Implementations/Persistence/SqliteItemRepository.cs:771-792 | The count does not depend on StartIndex or Limit. |
| ItemQueries.IsCurrentSchemaComplement | MediaBrowser.Server.Implementations/Persistence/SqliteItemRepository.cs:951-962 | IsCurrentSchema true and false select complementary row sets. |
| ItemQueries.MaxParentalRatingAdmitsUnrated | MediaBrowser.Server.Implementations/Persistence/SqliteItemRepository.cs:1081-1085 | A rating ceiling without HasParentalRating admits a row with a null rating. |
| ItemQueries.ExpandSingle | MediaBrowser.Server.Implementations/Persistence/SqliteItemRepository.cs:979-991 | Expanding one requested name is MapIncludeItemTypes of it. |
| ItemQueries.IncludeKnownType | MediaBrowser.Server.Implementations/Persistence/SqliteItemRepository.cs:979-984 | Including one known short name compiles to `type = ` that type's full name. |
| ItemQueries.IncludeRecordings | MediaBrowser.Server.Implementations/Persistence/SqliteItemRepository.cs:985-988 | Including `Recording` compiles to `type in` the audio and video recording types. |
| ItemQueries.ExcludeUnknownName | MediaBrowser.Server.Implementations/Persistence/SqliteItemRepository.cs:991-996 | Excluding an unknown name compiles to `type <> ` that name, unchanged. |
| TypeMap.RegisterByEntries | MediaBrowser.Server.Implementations/Persistence/SqliteItemRepository.cs:1166-1169 | With an injective key, the loop's dictionary holds exactly the listed elements' keys, each mapped to its own value. |
| TypeMap.RegisterByKeys | MediaBrowser.Server.Implementations/Persistence/SqliteItemRepository.cs:1166-1169 | Every key of the loop's dictionary is some element's key. |
| TypeMap.RegisterEntries | MediaBrowser.Server.Implementations/Persistence/SqliteItemRepository.cs:1166-1169 | A type's name is registered exactly when the type is listed, and maps to that type's full name alone. |
| TypeMap.NameInjective | MediaBrowser.Server.Implementations/Persistence/SqliteItemRepository.cs:1126-1160 | No two known types share a short name, so the repeated KnownTypes entries overwrite only themselves. |
| TypeMap.EveryTypeListed | MediaBrowser.Server.Implementations/Persistence/SqliteItemRepository.cs:1126-1160 | Every known type occurs in KnownTypes. |
| TypeMap.AliasesAreNotTypeNames | MediaBrowser.Server.Implementations/Persistence/SqliteItemRepository.cs:1126-1173 | No known type is named Recording, Program or TvChannel, so the aliases shadow no type. |
| TypeMap.MapKnownType | MediaBrowser.Server.Implementations/Persistence/SqliteItemRepository.cs:1162-1190 | A known short name maps to that type's full name alone. |
| TypeMap.MapAliases | MediaBrowser.Server.Implementations/Persistence/SqliteItemRepository.cs:1171-1173 | Recording maps to the audio then video recording types; Program and TvChannel map to the program and channel types. |
| TypeMap.MapUnknownName | MediaBrowser.Server.Implementations/Persistence/SqliteItemRepository.cs:1181-1190 | A name that is neither a type name nor an alias passes through as itself. |
| TypeMap.RegisterNames | MediaBrowser.Server.Implementations/Persistence/SqliteItemRepository.cs:1166-1169 | Every registered key is the name of a listed type. |
| TypeMap.ExpandTypes | MediaBrowser.Server.Implementations/Persistence/SqliteItemRepository.cs:979-991 | The SelectMany over the requested names contains every expansion of every name, and nothing else. |
| Repository.DisposeAsWritten | MediaBrowser.Server.Implementations/Persistence/SqliteItemRepository.cs:630-671 | Dispose as written: it blocks exactly when the write lock is held; otherwise it marks the store disposed and keeps the lock. |
| Repository.DisposeTwiceBlocks | MediaBrowser.Server.Implementations/Persistence/SqliteItemRepository.cs:634-640 | A second Dispose of the same store waits forever on the lock the first one kept. |
| Repository.DisposeOnce | MediaBrowser.Server.Implementations/Persistence/SqliteItemRepository.cs:630-671 | Dispose as intended: afterwards the store is disposed, and a first Dispose leaves the lock held for good. |
| Repository.DisposeOnceIdempotent | MediaBrowser.Server.Implementations/Persistence/SqliteItemRepository.cs:630-671 | Disposing twice is disposing once. From a quiescent store the corrected Dispose agrees with the original's first call. |
| Repository.DeleteAbsentChangesNothing | MediaBrowser.Server.Implementations/Persistence/SqliteItemRepository.cs:1192-1224 | Deleting an id with no row, no child edges and no person rows changes no table. |
| Repository.ReadAll | MediaBrowser.Server.Implementations/Persistence/SqliteItemRepository.cs:873-879 | The reader loop returns the result column in result order. GetItemIds (926-931) and GetPeopleNames (1366-1372) use the same loop. |
| Repository.ReadPeople | MediaBrowser.Server.Implementations/Persistence/SqliteItemRepository.cs:1402-1408 | The reader loop returns one GetPerson per result row, in order. |
| Repository.InsertPeople | MediaBrowser.Server.Implementations/Persistence/SqliteItemRepository.cs:1494-1511 | The insert loop, when it completes, appends exactly the dense ListOrder rows of the list. It cannot complete when some person has no name, because the People DDL (line 133) declares Name NOT NULL. |
| Repository.Store.Open | MediaBrowser.Server.Implementations/Persistence/SqliteItemRepository.cs:88-183 | Opening runs the schema steps: the column list only grows, and the store starts open and unlocked over the given tables. |
| Repository.Store.SaveItems | MediaBrowser.Server.Implementations/Persistence/SqliteItemRepository.cs:310-445 | A null batch is ArgumentNull("items"). A disposed store fails before any change. A commit is the batch's `replace into` over the old table. Any failure leaves every table as it was, and the lock is released. |
| Repository.Store.SaveItem | MediaBrowser.Server.Implementations/Persistence/SqliteItemRepository.cs:289-297 | A null item is ArgumentNull("item"). A disposed store fails, as SaveItems does. A commit writes exactly that item's row under its id; a failure changes nothing. |
| Repository.Store.RetrieveItem | MediaBrowser.Server.Implementations/Persistence/SqliteItemRepository.cs:454-477 | Guid.Empty is ArgumentNull("id"), and a disposed store fails. Otherwise the result is null for a missing id, and the hydrated row for a present one. A row saved from a round-tripping item returns that item. |
| Repository.Store.DeleteItem | MediaBrowser.Server.Implementations/Persistence/SqliteItemRepository.cs:1192-1255 | Guid.Empty is ArgumentNull("id"), and a disposed store fails. A commit removes the item row, the edges whose parent is the id, and the id's person rows, and nothing else. A failure changes nothing. |
| Repository.Store.SaveChildren | MediaBrowser.Server.Implementations/Persistence/SqliteItemRepository.cs:1257-1328 | A null parent or list is ArgumentNull, and a disposed store fails. A commit replaces the parent's edge set with the listed children. A failure changes nothing. |
| Repository.Store.UpdatePeople | MediaBrowser.Server.Implementations/Persistence/SqliteItemRepository.cs:1464-1544 | It checks the id, then the list, then disposal, and is never cancelled. An unnamed person fails. A commit replaces the item's person rows with the dense inserted list; a failure leaves People unchanged. |
| Repository.Store.ReadItems | MediaBrowser.Server.Implementations/Persistence/SqliteItemRepository.cs:796-808 | The reader loop returns the hydrated items of the scanned ids, skipping nulls. |
| Repository.Store.GetChildren | MediaBrowser.Server.Implementations/Persistence/SqliteItemRepository.cs:673-696 | The argument and disposal checks come first. The result has no repeats and holds c exactly when (parent, c) is an edge. |
| Repository.Store.GetChildrenItems | MediaBrowser.Server.Implementations/Persistence/SqliteItemRepository.cs:698-726 | The argument and disposal checks come first. The result holds exactly the hydratable items of the parent's children, in storage order, skipping nulls. |
| Repository.Store.GetItemsOfType | MediaBrowser.Server.Implementations/Persistence/SqliteItemRepository.cs:728-756 | A null type is ArgumentNull("type"). The result holds exactly the hydratable items whose tag is the type's name, in storage order. |
| Repository.Store.GetItems | MediaBrowser.Server.Implementations/Persistence/SqliteItemRepository.cs:758-822 | A null query is ArgumentNull, and a disposed store fails. Items are the hydrated page. The count is the unpaged count, which is the number of admitted rows. |
| Repository.Store.GetItemIds | MediaBrowser.Server.Implementations/Persistence/SqliteItemRepository.cs:885-945 | The guids are the page: distinct, each admitted by the query. The count is the number of admitted rows. |
| Repository.Store.GetItemIdsList | MediaBrowser.Server.Implementations/Persistence/SqliteItemRepository.cs:841-883 | The guids are the ordered matches with StartIndex dropped, cut to Limit. |
| Repository.Store.GetPeople | MediaBrowser.Server.Implementations/Persistence/SqliteItemRepository.cs:1378-1412 | A null query is ArgumentNull, and a disposed store fails. Otherwise the result is the matching rows in ListOrder order (ties in the model's storage order), each read by GetPerson. |
| Repository.Store.GetPeopleNames | MediaBrowser.Server.Implementations/Persistence/SqliteItemRepository.cs:1342-1376 | A null query is ArgumentNull, and a disposed store fails. Otherwise the result is the distinct names of the matching rows. |
| Repository.Store.Dispose | MediaBrowser.Server.Implementations/Persistence/SqliteItemRepository.cs:609-671 | Corrected Dispose: the store becomes disposed with the lock held, and a repeated call returns without change. |

## Left out

- SQL text: the command strings, the reuse of one command object and SQLite's own parsing are not modelled. Each clause is modelled as the condition it evaluates.
- Parameter-name collisions are not modelled. Each clause gets its own intended value. The collisions are:
  - `@type` shared by a single include type and a single exclude type (:983, :995);
  - `IsAiring` re-adding `@MaxStartDate` and `@MinEndDate` (:1042-1046);
  - `@PersonType` shared by the person-type include and exclude (:1431, :1442);
  - GetWhereClauses running twice on one command (:771, :777).
- IN lists are modelled as set membership. The literal lists built with quotes and no escaping (:987, :1010, :1435, :1446) are not modelled.
- LIKE is modelled as case-sensitive substring containment. SQLite's case folding and any `%` or `_` inside the search text are not modelled.
- Dates are integer ticks. Their text formatting and SQLite's comparison of stored date strings are not modelled.
- CommunityRating is kept as an opaque value; the float arithmetic is not modelled.
- Critic reviews (:525-559), chapters and media streams (:567-604, :1330-1340) are left out: they are file I/O or calls into other repositories.
- Concurrency is left out: the semaphore, async/await and the dispose lock.
  - The write lock is a boolean that every write sets and clears.
  - The lock wait and the cancellation checks are nondeterministic choices.
  - UpdatePeople uses `CancellationToken.None`, so it is never cancelled.
- Repository.Store.GetChildren: the source is a lazy iterator, so its argument and disposal checks run at the first enumeration. The model runs them on the call. The same applies to Repository.Store.GetChildrenItems and Repository.Store.GetItemsOfType.
- Repository.Store.Open: the constructor's null checks on its collaborators, the connection set-up and PrepareStatements are not modelled.
- A null element inside a batch or a list (a NullReferenceException in the loop) is not modelled separately. It is covered by the engine-failure path, which rolls back.
- Types are modelled by their full-name strings. Namespaces are written out for the 29 known types, and the type mapper is an injected partial function.
- `DateTime.UtcNow` (:1042-1051) is the parameter `now`.
- The engine's row order is a parameter `scan`. It lists each stored key once for any ORDER BY list, and the paging anti-join subquery sees the same order. Ties between equal sort keys in SQLite therefore follow one fixed order, which the model assumes rather than derives.
- People.GetPeopleNames: the position of a repeated name under `select Distinct Name ... order by ListOrder` is left to the engine. The model places each name at its first row in ListOrder order, and the proved contract is only distinctness and membership.
- Repository.Store.GetItems: the count is read with `GetInt32` (:812). The model's count is an unbounded integer, so a 32-bit overflow is not modelled. The same applies to Repository.Store.GetItemIds.
- Items.IsNullOrWhiteSpace recognises only the ASCII and Latin-1 white-space characters, not every Unicode one.
- Schema.SqlName gives the DDL names. Their distinctness is not proved; the columns are told apart as datatype constructors.
- People.OrderByListOrder: `order by ListOrder` (:1362, :1398) fixes no order among rows with equal ListOrder, and a GetPeople query without an ItemId mixes rows of several items, each numbered from 0. The model breaks such ties by storage order (a stable insertion sort), so Repository.Store.GetPeople's exact sequence is the model's choice for those ties; only sortedness and the multiset of rows are what the source promises.
- Items.Codec: only a SerializationException from the deserializer is caught (:505), and the model reads it as `None`. Any other exception the codec raises (:498) leaves GetItem and aborts the reader that called it; that path is not modelled, so the readers' success results promise more than the source does when the codec throws anything else.
- Repository.Store.Open: the DDL (:127) lets `type` and `data` be NULL, and GetItem's `reader.GetString(0)` (:481) throws on such a row. The model's well-formed-table precondition on Open excludes such files, so a database holding a row GetItem cannot read is not modelled.
- Logging is dropped.

## Findings

| source | as written | input that shows it | evidently intended | confidence | as-written member | corrected member |
|---|---|---|---|---|---|---|
| MediaBrowser.Server.Implementations/Persistence/SqliteItemRepository.cs:630-671 | `Dispose(true)` sets `_disposed`, then calls `_writeLock.Wait()` and never releases the lock. | Call Dispose twice on an idle store. The second call waits forever on the semaphore the first one kept. | A repeated Dispose returns without effect, as IDisposable requires. | not executed | Repository.DisposeAsWritten, with Repository.DisposeTwiceBlocks | Repository.DisposeOnce, with Repository.DisposeOnceIdempotent and Repository.Store.Dispose |
