# In-memory persistence engine of pip-services3-data-gox, in Dafny

This project models the in-memory persistence engine of the Go library
pip-services3-data-gox and the record types and test stores built on it:

- `Persistence.MemoryPersistence` (memory_persistence.dfy) is
  `MemoryPersistence[T]`: an ordered record sequence `Items`, an `Opened`
  flag and a page-size bound. `Open`, `Close`, `Save` and `Clear` run against
  an external Loader and Saver. The query pipeline runs filter, then sort,
  then skip/take, then projection (`GetPageByFilter`, `GetListByFilter`,
  `GetOneRandom`, `GetCountByFilter`). The mutations are `Create` (append)
  and `DeleteByFilter` (order-preserving removal).
- `Identifiable.IdentifiableMemoryPersistence` (identifiable.dfy) is
  `IdentifiableMemoryPersistence[T,K]`. It adds id semantics on top of the
  engine: first-match lookup, `GetOneById`, `GetListByIds`, `Create` with id
  generation, `Set` (upsert), `Update`, `UpdatePartially`, `DeleteById` and
  `DeleteByIds`. Go embedding becomes composition: the identity layer holds
  its engine in the field `base`.
- `Sorting` (sorting.dfy) is the `sorter` adapter of persistence/Sorter.go
  (`Len`, `Swap`, `Less`). It also holds `Sort`, a model of Go's `sort.Sort`
  driven only through `Len`/`Less`/`Swap`. It is an insertion sort; Go's
  pattern-defeating quicksort uses insertion sort itself for up to twelve
  elements. `Sort` promises a permutation, and order whenever the comparator
  is a strict weak order. It does not promise stability, and neither does
  `sort.Sort`.
- The record types are `Dummies.Dummy` (a value struct, pure functions),
  `DummyMaps` (a `map[string]any`: pure lookups, plus a class whose
  `WithId` writes into the receiver map) and `DummyRefs.DummyRef` (a
  pointer struct whose `WithId` mutates the object in place).
- `KeyedStores.KeyedMemoryPersistence` (keyed_stores.dfy) models the four
  test stores: DummyMemoryPersistence, DummyRefMemoryPersistence,
  DummyInterfacableMemoryPersistence and DummyMapMemoryPersistence. They
  differ only in how a record's Key is read, so the accessor is a
  parameter. The DummyRef store holds `*DummyRef` pointers, written as
  `DummyRefs.Ref` (nil, or the pointed-to object's fields), so its zero
  value, answered for a missing id, is nil. `DummyStores` (dummy_stores.dfy) instantiates the stores and
  replays the CRUD and batch tests of test/persistence/DummyPersistenceFixture.go.
- `JsonFile.Load` (json_file.dfy) models the part of persistence/JsonFilePersister.go
  that the engine observes through `Open`.

The engine works on record values of a generic type `T`. The record type's
`Clone` is a constructor argument. Its id capability (`IsEqualId`, `GetId`,
`IsZeroId`, `WithId`, the zero value) is a datatype of functions,
`Identifiable.Identity`. Whether a Loader or Saver is configured is a field.
What the collaborator answers when called is a parameter of the method that
calls it. Every snapshot handed to the Saver is logged in the ghost field
`Saved`, so contracts can say what was saved and when. Generated ids are
parameters too.

## Where the code departs from the natural reading

The model follows the code in each of these places:

- `GetCountByFilter` answers 0 for a nil filter instead of counting all records (MemoryPersistence.go:434-452).
- `GetOneRandom` dereferences a nil pointer when nothing matches. The model makes "at least one match" a precondition (MemoryPersistence.go:322-357).
- `Set` looks the record up by the id the input had before an id was generated (IdentifiableMemoryPersistence.go:195-218). An input with a zero id is therefore appended unless a stored record already has the zero id.
- `Clear` saves before it truncates. The Saver receives the records being cleared, and a failed save leaves them in place (MemoryPersistence.go:163-174).
- `DeleteById` returns the stored record itself, not a clone (IdentifiableMemoryPersistence.go:302-329).
- Sorting goes through the non-stable `sort.Sort`.
- A negative take makes the slice expression panic, so `GetPageByFilter` requires a non-negative take.
- `JsonFilePersister.Load` returns the not-exist error for a missing data file. It does not treat that as an empty store (JsonFilePersister.go:84-86). Only an empty file loads nothing without error.
- DummyMap's `IsZeroId` is false when "Id" is absent. `Create` stores such a map without giving it an id (DummyMap.go:33-40).

## Model

| member | source | states |
|---|---|---|
| Persistence.MemoryPersistence.constructor | persistence/MemoryPersistence.go:67-72 | a new engine is empty and closed, has no Loader or Saver, and has page-size bound 0 |
| Persistence.MemoryPersistence.Load | persistence/MemoryPersistence.go:106-122 | without a Loader: nothing changes and there is no error; with one: the Loader's error is returned, and only a non-nil list with no error replaces Items by element-wise clones (same length and order) |
| Persistence.MemoryPersistence.Open | persistence/MemoryPersistence.go:95-104 | Items as for Load; Opened becomes true exactly when loading succeeded, and a failure leaves the flag as it was |
| Persistence.MemoryPersistence.Save | persistence/MemoryPersistence.go:142-156 | without a Saver: no error, nothing saved; with one: the whole current Items is handed over and the Saver's answer is returned |
| Persistence.MemoryPersistence.Close | persistence/MemoryPersistence.go:129-135 | saves as Save does, returns its answer, and always ends closed |
| Persistence.MemoryPersistence.Clear | persistence/MemoryPersistence.go:163-174 | the Saver receives the pre-clear records; on a save error Items is untouched, otherwise it becomes empty |
| Persistence.MemoryPersistence.CollectMatches | persistence/MemoryPersistence.go:201-214 | the loop yields clones of exactly the records passing the filter (all for a nil filter), in storage order |
| Persistence.MemoryPersistence.SortItems | persistence/MemoryPersistence.go:217-220 | sorting yields a permutation of its input, ordered by the comparator when it is a strict weak order |
| Persistence.MemoryPersistence.GetPageByFilter | persistence/MemoryPersistence.go:192-250 | page data is the filter matches (storage order without comparator, else a comparator-sorted permutation) cut at max(skip,0) to at most take elements, then projected; its length is min(take, max(0, N - skip)); Total is N when requested, else 0; Items is not modified |
| Persistence.MemoryPersistence.Paginate | persistence/MemoryPersistence.go:223-238 | slicing by a positive skip (capped at the length) and then by take yields exactly the window |
| Persistence.MemoryPersistence.ProjectAll | persistence/MemoryPersistence.go:241-245 | the in-place projection loop leaves every element replaced by its image, or the sequence unchanged without a projection |
| Persistence.MemoryPersistence.GetListByFilter | persistence/MemoryPersistence.go:266-310 | same filter/sort/projection with no paging; the list is empty exactly when nothing matches |
| Persistence.MemoryPersistence.GetOneRandom | persistence/MemoryPersistence.go:322-357 | the result is a clone of one of the matching records |
| Persistence.MemoryPersistence.Create | persistence/MemoryPersistence.go:367-383 | appends exactly one clone of the input after the unchanged earlier records, saves, and returns a clone of the input |
| Persistence.MemoryPersistence.RemoveMatches | persistence/MemoryPersistence.go:400-412 | the splice loop leaves exactly the non-matching records in order and counts the matching ones |
| Persistence.MemoryPersistence.DeleteByFilter | persistence/MemoryPersistence.go:395-422 | afterwards Items is exactly the non-matching records in their original order; no save and no error when nothing matched |
| Persistence.MemoryPersistence.GetCountByFilter | persistence/MemoryPersistence.go:434-452 | the number of matches, and 0 for a nil filter |
| Persistence.SkipOf | persistence/MemoryPersistence.go:223 | an absent skip reads as -1, a given one as itself |
| Persistence.TakeOf | persistence/MemoryPersistence.go:224 | an absent take reads as the page-size bound, a given one as itself |
| Queries.Window | persistence/MemoryPersistence.go:223-238 | a non-positive skip skips nothing; the window has length min(take, max(0, N - skip)) and starts at offset max(skip, 0) |
| Queries.Project | persistence/MemoryPersistence.go:241-245 | without a projection the sequence is unchanged; with one, every element is replaced by its image |
| Queries.Matching | persistence/MemoryPersistence.go:201-214 | the matches are no more than the input, and all of it for a nil filter |
| Queries.Negate | persistence/MemoryPersistence.go:400-412 | the complement filter holds exactly where the filter fails |
| Queries.MatchingPrefix | persistence/MemoryPersistence.go:204-209 | extending the scanned prefix by one record adds that record to the matches exactly when it passes |
| Queries.CloneAllSnoc | persistence/MemoryPersistence.go:205-208 | cloning a sequence extended by one record appends that record's clone |
| Queries.MatchingAppend | persistence/MemoryPersistence.go:201-214 | filtering distributes over concatenation |
| Queries.MatchingMembers | persistence/MemoryPersistence.go:201-214 | a value is among the matches iff it is stored and passes the filter |
| Queries.MatchingEmpty | persistence/MemoryPersistence.go:290-292 | there are no matches iff no stored record passes the filter |
| Queries.MatchingAll | persistence/MemoryPersistence.go:201-214 | when every record passes, the matches are all the records in order |
| Queries.MatchingSplit | persistence/MemoryPersistence.go:395-422 | removed plus kept records add up to the original count |
| Queries.MatchingOfRemaining | persistence/MemoryPersistence.go:395-422 | no record left after DeleteByFilter passes the filter |
| Sorting.Sorter.Len | persistence/Sorter.go:16-18 | Len is the number of items |
| Sorting.Sorter.Swap | persistence/Sorter.go:24-26 | positions i and j are exchanged, all others unchanged, and the multiset of items is preserved |
| Sorting.Sorter.Less | persistence/Sorter.go:34-38 | Less(i, j) is the comparator applied to items i and j; a nil comparator panics, so it is required |
| Sorting.Swapped | persistence/Sorter.go:24-26 | the exchanged sequence has the same length, swaps i and j and keeps every other position |
| Sorting.SwappedIsPermutation | persistence/Sorter.go:25 | a swap preserves the multiset of items |
| Sorting.SwappedTwice | persistence/Sorter.go:25 | swapping i and j twice restores the original sequence |
| Sorting.InsertStep | persistence/Sorter.go:24-38 | a Less-guarded Swap moves the inserted item one step down and keeps the rest of the prefix in order |
| Sorting.InsertDone | persistence/Sorter.go:34-38 | once Less says the inserted item is not below its left neighbour, the prefix is ordered |
| Sorting.InsertOne | persistence/MemoryPersistence.go:217-220 | one insertion round through Less and Swap permutes the items and extends the ordered prefix by one |
| Sorting.Sort | persistence/MemoryPersistence.go:217-220 | sort.Sort through Len/Less/Swap permutes the items and orders them whenever the comparator is a strict weak order |
| Identifiable.IndexOfId | persistence/IdentifiableMemoryPersistence.go:150-160 | the first-match index lies in -1 up to the length minus one |
| Identifiable.IndexOfIdIsFirst | persistence/IdentifiableMemoryPersistence.go:150-160 | the index is -1 iff no record has the id, else the record there has it and none before it does |
| Identifiable.IdFilter | persistence/IdentifiableMemoryPersistence.go:111-120 | the filter holds exactly for records whose id is one of the given ids |
| Identifiable.Stamp | persistence/IdentifiableMemoryPersistence.go:171-174 | the stored record is the clone of the input, given the generated id exactly when the clone's id is zero |
| Identifiable.RemoveAt | persistence/IdentifiableMemoryPersistence.go:314-319 | removing index i keeps the records before i and shifts the ones after it down by one |
| Identifiable.RemoveAtIsPermutation | persistence/IdentifiableMemoryPersistence.go:314-319 | the removed record plus the rest is the original multiset |
| Identifiable.IdentifiableMemoryPersistence.constructor | persistence/IdentifiableMemoryPersistence.go:85-92 | a new store is empty and closed, with page-size bound 100 |
| Identifiable.IdentifiableMemoryPersistence.Configure | persistence/IdentifiableMemoryPersistence.go:98-100 | the page-size bound becomes the configured one, or stays as it was when none is configured |
| Identifiable.IdentifiableMemoryPersistence.GetIndexById | persistence/IdentifiableMemoryPersistence.go:150-160 | the scan returns the least index whose record has the id, or -1 |
| Identifiable.IdentifiableMemoryPersistence.GetOneById | persistence/IdentifiableMemoryPersistence.go:130-146 | a clone of the first record with the id, or the zero value when there is none; Items unchanged |
| Identifiable.IdentifiableMemoryPersistence.GetListByIds | persistence/IdentifiableMemoryPersistence.go:108-122 | clones of exactly the records whose id is listed, in storage order; empty iff none is stored |
| Identifiable.IdentifiableMemoryPersistence.Create | persistence/IdentifiableMemoryPersistence.go:168-186 | appends one record, a clone of the input given the generated id when its id is zero; saves; returns a clone of what was stored |
| Identifiable.IdentifiableMemoryPersistence.Set | persistence/IdentifiableMemoryPersistence.go:195-218 | upsert keyed on the input's id before generation: the found index is overwritten and the length kept, or the record is appended |
| Identifiable.IdentifiableMemoryPersistence.Update | persistence/IdentifiableMemoryPersistence.go:226-247 | an absent id answers the zero value with no error, no save and no change; otherwise only the found index is replaced by a clone of the input |
| Identifiable.IdentifiableMemoryPersistence.UpdatePartially | persistence/IdentifiableMemoryPersistence.go:255-295 | an absent id answers the zero value and nothing changes; otherwise only the found index becomes the patched clone of the stored record |
| Identifiable.IdentifiableMemoryPersistence.DeleteById | persistence/IdentifiableMemoryPersistence.go:302-329 | an absent id answers the zero value and nothing changes; otherwise the first match is removed, the others keep their order, and the stored record itself is returned |
| Identifiable.IdentifiableMemoryPersistence.DeleteByIds | persistence/IdentifiableMemoryPersistence.go:337-348 | every record whose id is listed is removed, the rest keep their order; no save when nothing matched |
| Identifiable.DeletedIdsAreGone | persistence/IdentifiableMemoryPersistence.go:337-348 | after DeleteByIds, no remaining record has a listed id, so GetListByIds finds nothing |
| Identifiable.DeleteByIdsCount | persistence/IdentifiableMemoryPersistence.go:337-348 | DeleteByIds shrinks the store by exactly the number of records GetListByIds would return |
| Dummies.Dummy.Clone | test/persistence/Dummy.go:11-17 | the clone equals the original field for field |
| Dummies.Dummy.GetId | test/persistence/Dummy.go:23-25 | the record's id is its Id field |
| Dummies.Dummy.IsEqualId | test/persistence/Dummy.go:19-21 | holds exactly when GetId is the given id |
| Dummies.Dummy.IsZeroId | test/persistence/Dummy.go:27-29 | holds exactly when the record has the empty id |
| Dummies.Dummy.WithId | test/persistence/Dummy.go:31-34 | the copy has the new id and the same Key and Content; the receiver is a value and is untouched |
| Dummies.Dummy.WithGeneratedId | test/persistence/Dummy.go:36-39 | the same as WithId with the generated id |
| Dummies.IdAccessorsAgree | test/persistence/Dummy.go:19-29 | IsEqualId(id) holds iff GetId is id, and IsZeroId iff the id is "" |
| Dummies.StampKeepsFields | test/persistence/DummyPersistenceFixture.go:28-36 | Create stores the input's id when set, else the generated one, with Key and Content kept; a non-empty generated id is never zero |
| Dummies.PatchContentOnly | test/persistence/DummyPersistenceFixture.go:79-87 | a patch naming only Content changes only Content, so the id and Key survive UpdatePartially |
| DummyMaps.IsEqualId | test/persistence/DummyMap.go:15-22 | holds exactly when "Id" is present and holds the given id as a string |
| DummyMaps.IsZeroId | test/persistence/DummyMap.go:33-40 | holds exactly when "Id" is present and holds the empty string; an absent or non-string "Id" is not zero |
| DummyMaps.GetId | test/persistence/DummyMap.go:24-31 | a non-empty answer is the string stored under "Id" |
| DummyMaps.SetId | test/persistence/DummyMap.go:42-45 | after WithId the map has the id, gains at most the key "Id", and keeps every other entry |
| DummyMaps.IdAccessorsAgree | test/persistence/DummyMap.go:15-40 | with a string "Id", IsEqualId(id) holds iff GetId is id; without one, IsEqualId and IsZeroId are false and GetId is ""; IsZeroId holds iff "Id" is the string "" |
| DummyMaps.NoIdIsNotStamped | test/persistence/DummyMap.go:33-40 | Create stores a map without "Id" as it came, with no generated id |
| DummyMaps.EmptyIdIsStamped | test/persistence/DummyMap.go:47-50 | a map whose "Id" is "" is stored with the generated id and all other entries kept |
| DummyMaps.DummyMap.Clone | test/persistence/DummyMap.go:7-13 | the clone is a new map with the same keys and values |
| DummyMaps.DummyMap.WithId | test/persistence/DummyMap.go:42-45 | writes "Id" into the receiver map itself and returns the receiver |
| DummyMaps.DummyMap.WithGeneratedId | test/persistence/DummyMap.go:47-50 | writes the generated id into the receiver map itself and returns the receiver |
| DummyMaps.StampClone | persistence/IdentifiableMemoryPersistence.go:171-173 | Create clones before it stamps, so the caller's map is never written and the stored map is fresh |
| DummyRefs.CloneRef | test/persistence/DummyRef.go:11-17 | cloning a pointer gives a pointer to an equal copy; nil stays nil |
| DummyRefs.RefIsEqualId | test/persistence/DummyRef.go:19-21 | holds exactly for a non-nil pointer whose object has the id |
| DummyRefs.RefGetId | test/persistence/DummyRef.go:23-25 | a non-nil pointer reads its object's id |
| DummyRefs.RefIsZeroId | test/persistence/DummyRef.go:27-29 | holds exactly for a non-nil pointer whose object has the empty id |
| DummyRefs.RefWithId | test/persistence/DummyRef.go:31-34 | a non-nil pointer's object gets the new id and keeps Key and Content |
| DummyRefs.RefIdentity | persistence/IdentifiableMemoryPersistence.go:144-145 | the zero value of `*DummyRef`, answered for a missing id, is the nil pointer |
| DummyRefs.RefLookupIsNilOnlyWhenMissing | persistence/IdentifiableMemoryPersistence.go:130-146 | over stored non-nil pointers, GetOneById answers nil exactly when no record has the id, and otherwise a copy of the first record with it |
| DummyRefs.RefStampIsDummyStamp | persistence/IdentifiableMemoryPersistence.go:171-174 | Create stamps a DummyRef pointer exactly as it stamps the Dummy value with the same fields |
| DummyRefs.DummyRef.Clone | test/persistence/DummyRef.go:11-17 | a fresh object with equal Id, Key and Content |
| DummyRefs.DummyRef.IsEqualId | test/persistence/DummyRef.go:19-21 | agrees with the value record's IsEqualId on the current fields |
| DummyRefs.DummyRef.GetId | test/persistence/DummyRef.go:23-25 | agrees with the value record's GetId on the current fields |
| DummyRefs.DummyRef.IsZeroId | test/persistence/DummyRef.go:27-29 | agrees with the value record's IsZeroId on the current fields |
| DummyRefs.DummyRef.WithId | test/persistence/DummyRef.go:31-34 | sets the Id of this very object, keeps Key and Content, and returns the same reference |
| DummyRefs.DummyRef.WithGeneratedId | test/persistence/DummyRef.go:36-39 | sets only the Id of this very object to the generated id |
| DummyRefs.StampClone | persistence/IdentifiableMemoryPersistence.go:171-173 | Create clones before it stamps, so the caller's object is never touched and the stored object is fresh, with the fields Stamp gives for the stored pointer |
| KeyedStores.FilterKey | test/persistence/DummyMemoryPersistence.go:52-56 | the "Key" filter parameter when present, else the empty key |
| KeyedStores.KeyFilter | test/persistence/DummyMemoryPersistence.go:60-65 | a record passes iff it has a Key and the filter key is empty or equal to it |
| KeyedStores.KeyLengthLess | test/persistence/DummyMemoryPersistence.go:67-69 | a sorts before b iff a's Key is shorter than b's |
| KeyedStores.KeyLengthLessIsStrictWeakOrder | test/persistence/DummyMemoryPersistence.go:67-69 | the key-length comparator is a strict weak order, so sort.Sort orders by it |
| KeyedStores.SortedByKeyLength | test/persistence/DummyMemoryPersistence.go:67-69 | sorted by the comparator means key lengths never decrease |
| KeyedStores.EmptyKeyPassesAll | test/persistence/DummyMemoryPersistence.go:52-65 | when every record has a Key, an empty or missing filter key lets every record through |
| KeyedStores.KeylessNeverMatches | test/persistence/DummyMapMemoryPersistence.go:27-36 | a record without a Key fails the filter whatever the filter key |
| KeyedStores.KeyedMemoryPersistence.constructor | test/persistence/DummyMemoryPersistence.go:15-19 | a new store wraps a fresh, empty identifiable engine with page-size bound 100 |
| KeyedStores.KeyedMemoryPersistence.GetPageByFilter | test/persistence/DummyMemoryPersistence.go:50-72 | the page holds the Key-filter matches ordered by non-decreasing key length, cut by skip and take, with no projection |
| KeyedStores.KeyedMemoryPersistence.GetCountByFilter | test/persistence/DummyMemoryPersistence.go:74-90 | counts the Key-filter matches; the filter is never nil, so an empty key counts every record |
| DummyStores.NewDummyMemoryPersistence | test/persistence/DummyMemoryPersistence.go:15-19 | the Dummy store reads Key as the Key field and starts empty with page-size bound 100 |
| DummyStores.NewDummyMapMemoryPersistence | test/persistence/DummyMapMemoryPersistence.go:13-17 | the map store reads Key as the string under "Key" and starts empty; its page and count queries share that one filter |
| DummyStores.RefKey | test/persistence/DummyRefMemoryPersistence.go:99-109 | the DummyRef store's filter and comparator read the Key of the pointed-to object; nil has none |
| DummyStores.NewDummyRefMemoryPersistence | test/persistence/DummyRefMemoryPersistence.go:11-19 | the DummyRef store holds `*DummyRef` pointers, starts empty with page-size bound 100, and its zero value is nil |
| DummyStores.RefMissingScenario | persistence/IdentifiableMemoryPersistence.go:130-146 | on a DummyRef store holding one created record, GetOneById answers a copy of it for its id and nil for any other id |
| DummyStores.NewDummyInterfacableMemoryPersistence | test/persistence/DummyInterfacableMemoryPersistence.go:13-17 | the store for a record type with a Key field always finds a Key, and starts empty with page-size bound 100 |
| DummyStores.FieldKey | test/persistence/DummyInterfacableMemoryPersistence.go:29-32 | the Key accessor of a record type with a Key field always answers that field |
| DummyStores.FieldFilterAccepts | test/persistence/DummyInterfacableMemoryPersistence.go:19-59 | an empty or missing "Key" lets every record through, a key k exactly those with Key == k, and the comparator compares Key lengths |
| DummyStores.RefFilterAccepts | test/persistence/DummyRefMemoryPersistence.go:90-130 | the filter on a pointer to a DummyRef reads the object's Key (all pass for an empty key, else Key == k), and the comparator compares the objects' Key lengths |
| DummyStores.MapFilterAccepts | test/persistence/DummyMapMemoryPersistence.go:19-55 | a map without a string Key fails even an empty filter key; one with a Key passes iff the key is empty or equal |
| DummyStores.DummyFilterAccepts | test/persistence/DummyMemoryPersistence.go:52-65 | an empty or missing "Key" lets every Dummy through; a key k lets through exactly Key == k |
| DummyStores.FixtureKeyOrder | test/persistence/DummyPersistenceFixture.go:55-60 | "Key 2" sorts before "Key 11" and not the other way round |
| DummyStores.TwoByKeyLength | test/persistence/DummyPersistenceFixture.go:54-60 | a two-record page ordered by key length, with different lengths, has the shorter key first |
| DummyStores.FixtureStore | test/persistence/DummyPersistenceFixture.go:24-47 | after creating the two fixture records on a fresh store, it holds them in creation order with the generated ids and unchanged Key and Content |
| DummyStores.UpdateSteps | test/persistence/DummyPersistenceFixture.go:67-87 | Update and the Content-only partial update change only the first record's Content, keeping its id and Key |
| DummyStores.CrudQueryScenario | test/persistence/DummyPersistenceFixture.go:24-65 | two creates keep Key and Content and take the generated ids; the default page is [Key 2, Key 11]; the count is 2 |
| DummyStores.CrudUpdateScenario | test/persistence/DummyPersistenceFixture.go:67-117 | Update and the partial update keep id and Key; DeleteById returns the patched record; then GetOneById answers the zero Dummy |
| DummyStores.BatchScenario | test/persistence/DummyPersistenceFixture.go:120-170 | GetListByIds of both ids returns two records, and nothing after DeleteByIds |
| JsonFile.Load | persistence/JsonFilePersister.go:79-106 | the load succeeds iff the path is set and the file is empty, holds null, or is decodable; it yields records iff decodable; an empty path is NO_PATH; a missing file is the not-exist error |
| JsonFile.OpenFromFile | persistence/JsonFilePersister.go:80-99 | opening from an empty file or one holding null keeps the records and opens; a missing file or an unset path fails, keeping records and flag; a decodable file loads clones |

## Left out

- Locks: the engine's `Lock` and the identity layer's separate `Mtx` are not modelled; every operation is one atomic step.
- Logging, `SetReferences`, and the `ctx`/`correlationId` arguments carry no behaviour and are not modelled.
- Persistence.MemoryPersistence.GetOneRandom: the random index (`rand.Seed`/`rand.Intn`) is a nondeterministic choice; nothing is said about its distribution.
- Persistence.MemoryPersistence.GetPageByFilter: the commons `PagingParams` accessors are reduced to "absent skip reads as -1, absent take reads as MaxPageSize"; any clamping they do is not modelled.
- Persistence.MemoryPersistence.IsOpen: a plain read of the flag, modelled without a contract of its own.
- Sorting.Sort: Go's pattern-defeating quicksort is modelled by its insertion-sort phase; the order it leaves equal elements in is not claimed.
- Identifiable.IdentifiableMemoryPersistence.DeleteById: the branch for an index equal to the length cannot be taken (the index is always smaller) and is not modelled.
- Identifiable.IdentifiableMemoryPersistence.UpdatePartially: the patch is an abstract function. Reflection-based field setting with case-insensitive names (persistence/Utilities.go) is not part of this model; `Dummies.SetProperties` matches field names exactly.
- Identifiable.IdentifiableMemoryPersistence.Configure: `ConfigParams` parsing is reduced to an optional integer.
- Integer widths: counts and page bounds are unbounded integers; the `int64` conversions do not overflow for any sequence that fits in memory.
- A nil slice and an empty slice are both the empty sequence.
- Generated ids come from the commons `IdGenerator` and are parameters.
- DummyRefs.Ref: a stored `*DummyRef` is written as the field values of the object it points to. Aliasing between the stored pointer and a pointer the caller still holds is not modelled; the engine clones before it stores and returns, so no pointer the caller holds is ever stored.
- DummyRefs.CloneRef: Go panics when a nil `*DummyRef` is cloned, stamped or has its id read; the model answers nil, no id, and not zero instead, so a Create or Set of nil stores nil where Go panics.
- DummyStores.MapKey: `GetAsNullableString` converts non-string values to strings in the commons library; here a non-string Key reads as no Key.
- JsonFile.Load: JSON encoding and decoding and the file system are not modelled; the file's state is an input. `JsonFilePersister.Save` is not modelled; its outcome is the Saver reply given to `Save`.
- The file-backed variants (`FilePersistence`, `IdentifiableFilePersistence`, the `*FilePersistence` test stores), the interface declarations, the page DTOs and the test harness itself are not part of this model.
- The DummyInterfacable record type is not shown in the source; its store is the keyed store for any record type with a Key accessor.
