# A verified model of the memory gateway

memgw keeps a catalog of memories it does not store: an index from gateway ids to a provider's native ids, a binding of each
end-user to a provider, and a journal of raw episodes. This project models that catalog, one concrete store (the pgvector
adapter over its row table), and the verbs of `MemoryCore` on top of both, and proves that together they behave like a plain
map of memories per tenant.

There are three layers.

1. **Values.** `MemoryIndex` holds the catalog's tables and what each statement does to them, `Pgvector` the row table and its
   two search and two delete paths, `Gateway` every verb as one step of a state machine. `Vectors`, `Ids`, `Scopes` and
   `ScopeKeys` hold the scoring, the identifiers, the covering relation and the composite keys.
2. **Objects.** `IdGenerator`, `Catalog`, `PgvectorAdapter`, `MemoryCore` and `Mem0Adapter` change their fields in place, statement
   by statement, with the source's loops, chunks, retries and rollbacks. Each method is proved equal to the value-level step,
   with the ids it drew and no others; `MemoryCore.PerformAll` shows that a client's calls are a run, so every theorem about runs
   is about them.
3. **Theorems.** `Transactions` lets any number of callers interleave their lookups, inserts and commits, `Exhaustion` drives one
   of them to raise, and `BindingRaces` interleaves binds and rebinds with all of that. `GatewayInvariant`, `Runs`,
   `Refinement`, `Listing`, `Searching`, `Crowding`, `Observed`, `Histories` and `Tenancy` follow whole runs of verbs by any
   tenants; `LabelledErasure` holds two concrete ones.

`Covers(filter, row)` is the one reference relation: every dimension set in the filter equals the row's, and every label of the
filter is on the row. Each provider's filter is proved against it.

## What turned out false, and exactly when

- **Labelled erasure.** `mark_scope_deleted` ignores labels, so `delete_scope` with labels tombstones more than the store erases.
  `LabelledErasureLosesAnId` is a three-call example: nothing is removed, the memory is still stored, and its id answers not
  found. `StepMeetsSpecIff` gives the condition: a verb does what the plain memory would, in any coupled state, if and only if it
  is no erasure that asks for a label some memory in its dimensions lacks. `StepRefines` and `RunRefines` say what the verbs do
  in every case; `ErasureExactIff` says when index and store stay in exact step.
- **Reads after such an erasure.** Tombstoned rows still take up places in a page: `LabelledErasureEmptiesAPage` is a run after
  which a listing of one memory answers with none although one is there. `ReadsAreTruthful` shows that whatever is returned is
  right; `ListingIsNewestIff` and `SearchIsBestIff` say exactly when nothing that belongs in the page is missing, and
  `ErasureCountsIff` exactly when the next erasure's count is the number of memories forgotten.
- **Labels at Mem0.** Mem0 declares label support but its filter names no labels, so a drain also deletes memories without the
  labels asked for; `LabelledDrainTakesTooMuch` is one.
- **An agent or session called "*" at Mem0.** The name reads as the wildcard, so an erasure for it deletes other agents' memories;
  `WildcardNameTakesTooMuch` is one. `FilterIsCoverIff` says the filter matches just what the dimensions cover, for every stamped
  memory, if and only if neither name is "*". On readable memories `Mem0Adapter.DeleteScope` leaves exactly the uncovered ones if
  and only if every memory the filter matches is covered; without such a name, `MatchesCoveredIff`, that is when no memory in the
  dimensions lacks the labels.
- **A drain that stops early.** An item without text is skipped and never deleted; `EmptyContentStopsTheDrain` is the smallest
  case. A Mem0 erasure empties its scope if and only if every covered item has content. If the scope fits one listing, only the
  items without text are left; a larger one can also leave items with text, depending on what Mem0 lists.
- **Pages that repeat an unseen native id.** The missing list is not deduplicated; `MapPageFailsIff` says the page is refused
  exactly then, and `TwiceIsRefused` is the smallest such page.
- **The retry bound.** The comment beside `_RETRIES` says one retry is enough. `RaisesIff` says when even three attempts are not:
  with rivals ready to take its natives one by one, some interleaving makes a call raise if and only if it has at least three
  natives the catalog has not seen. `ThreeRivalsExhaust` is a concrete database; `EachConflictIsAnotherRival` bounds the
  conflicts of any page that repeats no unseen native.
- **A returned row may be dead.** `ReturnedLiveIff`: exactly when it was found live and tombstoned by another transaction before
  the commit. `DeadRowReturned` is such an interleaving.
- **A rebind may report and remember a binding that is gone.** It reads, counts and writes in three transactions.
  `RebindReportIff` says exactly when the remembered origin and the report are true of the moment of the write, by who wrote the
  subject's binding last since the read and by how many of its memories became live and died since the count; `StaleRebind` is two
  rebinds for which they are not.
- **Id order.** `NextSortsAfterIff` says exactly when the next id sorts after the last one: not when the clock runs back, nor when the
  80-bit counter wraps within a millisecond; `LaterIdSortsFirst` shows one of each.
- **Tenants with a colon.** `TenantsCollideIff` says exactly which pairs of tenants can be given one Mem0 or Zep user id.
- **Composite keys.** `MatchUndoesRenderIff` says a format's keys read back as they were written, for every choice of values, if and
  only if a slash separates every two placeholders.

## Conventions

- A native id minted by the gateway's own generator is known by the number its 26 digits spell, and so is a gateway id;
  `PrintedOrder` and `TicksOrder` connect that number to the printed string's order. Natives the gateway did not mint are `Foreign`.
- The clock, the random draw, the extractor's facts, the embedding function and the square root are inputs.
- Python's optional strings keep their truthiness: an empty agent, session or tenant counts as unset.
- Preconditions carried: a caller's tenant is not empty, distinct provider names have distinct stores, only the gateway writes to
  a store, the clock does not run back and the counter does not overflow. Mem0 and Zep tenants have no colon where a lemma says `Stamped`.

## Model

| member | source | states |
|---|---|---|
| Scopes.CoversIff | src/memgw/types.py:63-78 | the covering relation dimension by dimension: absent or empty agent, session and tenant ask for nothing, the subject always counts, every label must be there |
| Scopes.MoreDimensionsNarrow | src/memgw/types.py:63-78 | setting one more dimension or label can only narrow what a filter covers |
| Scopes.ConditionsAreCovers | src/memgw/adapters/pgvector.py:418-429 | the SQL conditions hold of a row exactly when the filter's dimensions cover it |
| Scopes.ScopeSupportedIff | src/memgw/degrade.py:77-96 | a scope is honoured exactly when every dimension it sets, field by field, is one the provider has, and labels only where they are supported |
| Scopes.UserIdInjective | src/memgw/adapters/mem0.py:38-47 | for tenants without a colon, equal user ids mean equal tenant and equal subject |
| Scopes.UnstampedCollidesIff | src/memgw/adapters/mem0.py:38-47 | a scope without a tenant gets a tenant's user id exactly when its subject is that tenant, a colon and the subject |
| Scopes.TenantsCollideIff | src/memgw/adapters/mem0.py:38-47 | two tenants can be given one user id exactly when one, followed by a colon, is a prefix of the other |
| Scopes.Mem0FilterCovers | src/memgw/adapters/mem0.py:50-66 | wildcard filters match written ids exactly when the dimensions cover the row, an agent or session named "*" reading as unset |
| Scopes.ZepUserFilterCovers | src/memgw/adapters/zep.py:49-52 | after finer scopes and labels are refused, Zep's user filter is exactly the covering relation |
| Scopes.ZepDeleteScopeErasesCovered | src/memgw/adapters/zep.py:251-273 | deleting the user removes exactly the covered rows, and the reported count is right exactly up to the listing cap of 1000 |
| Ids.Alphabet | src/memgw/catalog.py:55 | the 32 digits are 0 to 9 and A to Z without I, L, O and U, in ascending order |
| Ids.B32PreservesOrder | src/memgw/catalog.py:61-66 | fixed-width printing is injective, and string order of the output is numeric order |
| Ids.PrintB32 | src/memgw/catalog.py:61-66 | the digit loop prints the low digits, most significant first |
| Ids.IdGenerator.NewId | src/memgw/catalog.py:69-84 | the id is the prefix, the ten digits of the clock, and the sixteen of the draw in a new millisecond, or of the last counter plus one within the same |
| Ids.IdsSpellTheDraw | src/memgw/catalog.py:69-84 | in a new millisecond ids are equal exactly when their draws are, whatever was issued before; within one the draw plays no part |
| Ids.NextSortsAfterIff | src/memgw/catalog.py:69-84 | the next id sorts after the last exactly when the clock moved on, or stayed and the 80-bit counter did not wrap |
| Ids.LaterIdSortsFirst | src/memgw/catalog.py:69-84 | a clock one millisecond back, or a counter at its end, makes the next id sort before the last |
| Ids.RunIdsIncrease | src/memgw/catalog.py:69-84 | over any run of calls on a steady clock without overflow, ids are strictly increasing strings |
| MemoryIndex.MapPageFailsIff | src/memgw/catalog.py:426-455 | a page is refused exactly when it repeats a native id the catalog has never seen |
| MemoryIndex.TwiceIsRefused | src/memgw/catalog.py:434-439 | the same new native twice on an empty index is refused |
| MemoryIndex.RecordManyContract | src/memgw/catalog.py:364-374 | the write path returns one live row per item in page order, revives tombstones under their old id with the write's scope and the last content the page gives, adds only the page's rows, live and under the ids given, and leaves live rows and other rows alone |
| MemoryIndex.RecordManyIdempotent | src/memgw/catalog.py:364-374 | writing the same page again, under any scope, returns the same rows and changes nothing |
| MemoryIndex.EnsureManyContract | src/memgw/catalog.py:384-407 | the read path returns exactly the items not tombstoned, in page order, touches no existing row, adds unseen natives live, and every id returned resolves |
| MemoryIndex.MapPageKeepsIdentity | src/memgw/catalog.py:409-455 | no page changes an id or drops a row, and ids stay unique |
| MemoryIndex.IndexScopeCovers | src/memgw/catalog.py:592-607 | the conditions of a scope tombstone are the covering relation on the dimensions the index holds |
| MemoryIndex.JournalScopeCovers | src/memgw/catalog.py:713-720 | the conditions of a journal erasure are the covering relation on the dimensions an episode holds |
| Transactions.IdentityForEver | src/memgw/catalog.py:118-134 | in every interleaving a native id keeps its gateway id, ids are unique, and rows only accumulate |
| Transactions.ReturnedIdsLast | src/memgw/catalog.py:409-455 | an id a call returned names that same native id, and no other, ever after |
| Transactions.ConflictShrinksMissing | src/memgw/catalog.py:426-455 | after a lost race every later lookup misses strictly fewer natives |
| Transactions.EachConflictIsAnotherRival | src/memgw/catalog.py:426-455 | in every interleaving of a page that repeats no unseen native, conflicts are one rival commit each, each newer than the last, for different natives the first lookup missed |
| Transactions.ThreeAttemptsSuffice | src/memgw/catalog.py:104-106 | whatever seen natives its page repeats, a call raises only if at least three of its natives were unseen, and never needs more conflicts than unseen natives |
| Transactions.ReadsNeverOverwrite | src/memgw/catalog.py:384-407 | a read's commit leaves every existing row as it was, whatever rivals did |
| Exhaustion.RaisesIff | src/memgw/catalog.py:426-455 | for a page that repeats no unseen native, with a rival ready for each, some interleaving makes the call raise if and only if at least three of its natives are unseen |
| Exhaustion.ThreeRivalsExhaust | src/memgw/catalog.py:104-106 | a concrete database in which three rivals use up all three attempts |
| Transactions.ReturnedLiveIff | src/memgw/catalog.py:426-451 | a row a committed call returns is live exactly unless it was found live and tombstoned before the commit |
| BindingRaces.OnlyRebindMoves | src/memgw/catalog.py:637-677 | however binds, rebinds of others and index transactions interleave, a binding moves only by a rebind of its subject, and only a bind of that subject makes one |
| BindingRaces.BindingsNeverVanish | src/memgw/catalog.py:652-672 | a subject once bound is never found without a binding |
| BindingRaces.BindAnswersInForce | src/memgw/catalog.py:637-650 | insert, or conflict and read again: in every interleaving a bind answers with the binding in force as it returns, and moves none |
| Transactions.DeadRowReturned | src/memgw/catalog.py:426-451 | lookup, insert of nothing, another's tombstone, commit: the call returns a row that is dead |
| BindingRaces.BindingIsLastWrite | src/memgw/catalog.py:637-677 | along any run a binding is what was last written to it, by a bind that found none or by a rebind |
| BindingRaces.LiveBalance | src/memgw/catalog.py:609-622 | along any run the live count changes by the memories that became live less those that died |
| BindingRaces.WhatMovesTheCount | src/memgw/catalog.py:496-523 | a subject's memories become live by commits only, and are lost by tombstones or to a commit that revives what another has revived since its lookup |
| BindingRaces.RebindReportIff | src/memgw/catalog.py:652-677 | whatever steps fall between its three transactions, a rebind replaces the binding; the remembered origin is true if and only if since the read nobody wrote the binding or the last write put back what was read; the report if and only if that, or an unbound subject was bound to the target, and as many stranded memories became live as died since the count |
| BindingRaces.UndisturbedRebindIsExact | src/memgw/catalog.py:652-677 | with nothing in between that concerns the subject or the index, the report is exact and the index untouched |
| BindingRaces.StaleRebind | src/memgw/catalog.py:652-677 | two interleaved rebinds, one of which remembers and reports a binding no longer in force |
| Transactions.AloneIsMapPage | src/memgw/catalog.py:426-455 | a caller with no rival commits exactly the sequential mapping |
| CatalogStore.Catalog.FindByNative | src/memgw/catalog.py:525-550 | looking up in chunks of 500 is one lookup |
| CatalogStore.Catalog.InsertMissing | src/memgw/catalog.py:457-494 | the insert goes through exactly when the natives are distinct and unseen; it adds those rows under fresh ids and reports what a select would find |
| CatalogStore.Catalog.ReviveRows | src/memgw/catalog.py:496-523 | one update per native revives exactly the doomed rows under their old ids |
| CatalogStore.Catalog.MapItems | src/memgw/catalog.py:409-455 | look up, insert, revive, retry and roll back leave the index and the answer the page mapping defines, with ids above all before |
| CatalogStore.Catalog.ResolveGatewayId | src/memgw/catalog.py:552-577 | the row is found exactly when a live row of the tenant has the id |
| CatalogStore.Catalog.MarkOneDeleted | src/memgw/catalog.py:579-590 | tombstones the tenant's live row of that id, says whether there was one, and the id no longer resolves |
| CatalogStore.Catalog.MarkManyDeleted | src/memgw/catalog.py:592-607 | tombstones the rows in scope and counts exactly the rows that stopped being live |
| CatalogStore.Catalog.BindFirst | src/memgw/catalog.py:637-650 | binds an unbound subject, never moves a binding, and answers with the one in force |
| CatalogStore.Catalog.RebindTo | src/memgw/catalog.py:652-677 | with nothing interleaved, replaces the binding, remembers the old one, and reports how many live rows it strands |
| CatalogStore.Catalog.EraseEpisodes | src/memgw/catalog.py:704-722 | removes exactly the episodes in scope and counts them |
| CatalogStore.Catalog.ReadEpisodes | src/memgw/catalog.py:724-750 | every episode of the subject, once, in id order |
| Vectors.DotUnit | src/memgw/embedding.py:160-168 | the sum of products against a unit vector is that coordinate, so each counts once |
| Vectors.DotAdds | src/memgw/embedding.py:160-168 | the sum is additive; with scaling and unit vectors that fixes it |
| Vectors.CosineIsAngle | src/memgw/embedding.py:160-168 | on non-zero vectors the score times both lengths is the sum of products |
| Vectors.ThreeFourFive | src/memgw/embedding.py:160-168 | (3, 4) scores 0.6 against one axis and 0.8 against the other, and (1, 1) scores 0 against (1, -1) |
| Vectors.CauchySchwarz | src/memgw/embedding.py:160-168 | the inequality over the sums that bounds a score |
| Vectors.CosineBounded | src/memgw/embedding.py:160-168 | a score always lies between -1 and 1 |
| Vectors.CosineSymmetric | src/memgw/embedding.py:160-168 | a score does not depend on which vector comes first |
| Vectors.CosineSelf | src/memgw/embedding.py:160-168 | a vector scores 1 against itself, or 0 if it is zero |
| Vectors.CosineScales | src/memgw/embedding.py:160-168 | stretching a vector changes no score |
| Vectors.CosineGuards | src/memgw/embedding.py:160-168 | a score is 0 exactly on mismatched or zero vectors and at a right angle |
| Pgvector.CoveredIsCovers | src/memgw/adapters/pgvector.py:418-452 | conditions plus label match are the covering relation |
| Pgvector.RowsInScopeCutsLast | src/memgw/adapters/pgvector.py:431-452 | with or without labels, a fetch is the covered rows, arranged, and only then cut |
| Pgvector.SearchPathsAgree | src/memgw/adapters/pgvector.py:302-349 | on comparable vectors within the searched dimensions, ranking in the database and in Python give equally many hits with the same scores in the same places, and the same rows when no two scores tie |
| Pgvector.SearchOmitsNoBetter | src/memgw/adapters/pgvector.py:331-349 | no eligible row left out of an answer beats one in it |
| Pgvector.TiesKeepOrder | src/memgw/adapters/pgvector.py:348-349 | rows of equal score stay in the order they were fetched in |
| Pgvector.DeleteByIdsIsDeleteByScope | src/memgw/adapters/pgvector.py:405-414 | deleting the ids of the fetched rows deletes exactly the covered rows |
| PgvectorStore.PgvectorAdapter.BuildConditions | src/memgw/adapters/pgvector.py:418-429 | the appended conditions hold exactly of the rows whose dimensions the filter covers |
| PgvectorStore.PgvectorAdapter.FetchInScope | src/memgw/adapters/pgvector.py:431-452 | the covered rows, newest first when asked, cut after label matching |
| PgvectorStore.PgvectorAdapter.Upsert | src/memgw/adapters/pgvector.py:237-269 | one row per fact under the stamped scope and an id above all before, and the memories returned in order |
| PgvectorStore.PgvectorAdapter.Update | src/memgw/adapters/pgvector.py:271-286 | rewrites content, vector and time of one row, or finds none and changes nothing |
| PgvectorStore.PgvectorAdapter.SearchByScan | src/memgw/adapters/pgvector.py:331-349 | the scoring loop, sort and cut compute the ranking the search lemmas are about |
| PgvectorStore.PgvectorAdapter.DeleteScope | src/memgw/adapters/pgvector.py:397-414 | both paths remove exactly the covered rows and return how many; chunks of 500 are one delete |
| Gateway.ServedIff | src/memgw/degrade.py:25-74 | a search is served if and only if a point in time finds a temporal store, the store is semantic, and any other mode asked for is graph, temporal or hybrid, lacking there, and allowed to degrade; every refusal is an unsupported capability |
| Gateway.DegradeOnlyByPermission | src/memgw/degrade.py:25-74 | a search that is served is served semantically, counts as degraded exactly when something else was asked for, and names what that lost |
| Gateway.Prepare | src/memgw/core.py:338-356 | what it resolves is configured, honours the stamped scope, and equals an asserted provider; the next two rows say which it is |
| Gateway.BindingDecides | src/memgw/router.py:17-51 | a bound subject gets its own provider whatever the default, if and only if it is configured, honours the scope, and no other is asserted; another assertion is a mismatch naming both |
| Gateway.DefaultDecides | src/memgw/router.py:17-51 | an unbound subject gets the default on the same terms, and is refused when there is none |
| GatewayInvariant.StepKeepsInv | src/memgw/core.py:142-334 | every verb by any tenant keeps index, stores and journal coupled, and only an erasure can end their exact step |
| GatewayInvariant.WriteFactsIs | src/memgw/core.py:365-387 | a write under fresh ids adds one store row, one index row and one record per fact, in order, binds, and touches nothing else |
| GatewayInvariant.ReadsChangeNothing | src/memgw/core.py:208-292 | in a coupled state search, list and get change nothing, bindings included |
| Runs.CoupledForEver | src/memgw/core.py:142-334 | over every run, indexed natives belong to who indexed them and live index rows are backed by equal store rows; without labelled erasures the two are in bijection |
| Runs.ErasureExactIff | src/memgw/catalog.py:592-607 | an erasure keeps index and store in exact step if and only if no stored memory in its dimensions lacks its labels |
| Runs.LabelledErasureHides | src/memgw/core.py:305-317 | a memory in the dimensions but without the labels stays stored while its id stops resolving |
| Runs.StepBindingsAre | src/memgw/core.py:142-334 | an accepted write binds, a permitted rebind moves, and no other verb touches a binding |
| Refinement.StepRefines | src/memgw/core.py:142-334 | in every coupled state every verb, labelled erasures included, does to the map of memories exactly the abstract step: add the facts, rewrite one, drop one, drop what the dimensions cover |
| Refinement.StepMeetsSpecIff | src/memgw/core.py:142-334 | a verb does what the specified memory does if and only if it is no erasure asking for a label that a memory in its dimensions lacks |
| Refinement.RunRefines | src/memgw/core.py:142-334 | over every run by any tenants the memories and bindings are those of the abstract run |
| Refinement.RunMeetsSpec | src/memgw/core.py:142-334 | a run whose erasures find their labels is a run of the specified memory and stays in exact step |
| Refinement.ErasureRefinesIff | src/memgw/core.py:305-317 | an erasure forgets exactly the covered memories if and only if no memory in its dimensions lacks its labels |
| Listing.ErasureCounts | src/memgw/core.py:305-317 | the count of an exact erasure is the number of memories forgotten, and of rows removed |
| Listing.ListAnswers | src/memgw/core.py:250-279 | with index and store in exact step, a listing is the newest covered memories of the abstract map, up to both limits, with their stored dimensions |
| Listing.NewestPageUnique | src/memgw/core.py:250-279 | that description of a listing has one solution |
| Listing.GetAnswers | src/memgw/core.py:281-290 | a get answers with the memory its id names for its own tenant, or not found |
| Searching.EmbeddedForEver | src/memgw/adapters/pgvector.py:237-288 | over every run each stored vector is the vector of the content stored beside it |
| Searching.SearchAnswers | src/memgw/core.py:208-248 | with index and store in exact step, a search is the best-scoring covered memories of the abstract map, scored by current content, best first, up to both limits, and says whether it degraded |
| Searching.BestPagesScoreAlike | src/memgw/core.py:208-248 | any two best pages are equally long and score alike at every place, so only memories of equal score are interchangeable |
| Searching.ReadsAreTruthful | src/memgw/core.py:389-415 | even after labelled erasures every record read is a live covered memory of the caller's tenant whose id resolves |
| Crowding.ListingIsNewestIff | src/memgw/core.py:250-279 | in any coupled state a listing is a head of the newest page, and all of it if and only if no tombstoned row within the cut displaced a live one beyond it |
| Crowding.SearchIsBestIff | src/memgw/core.py:208-248 | the same for a search, by score |
| Crowding.ErasureCountsIff | src/memgw/core.py:305-317 | in any coupled state the count of an erasure is the number of memories forgotten if and only if it removes as many rows of dead memories as it leaves rows of memories it makes die |
| Observed.StepTells | src/memgw/core.py:142-334 | every answer of every verb is what memories and bindings alone determine: exactly, in exact step; in any coupled state up to the head of a page and a lower bound on a count |
| Observed.ToldOnce | src/memgw/core.py:142-334 | in exact step memories and bindings leave a verb one answer, but for the choice among equally good search hits |
| Observed.RunIsObserved | src/memgw/core.py:142-334 | observational refinement: over a run whose erasures find their labels, all answers to all tenants are answers of the specified memory |
| Observed.EveryRunIsObserved | src/memgw/core.py:142-334 | over every run whatever, all answers are those of the memory whose erasures ignore labels, up to heads of pages and lower bounds on counts |
| Histories.WriteThenGet | src/memgw/core.py:169-191 | what an upsert returned, under the scope of the write without its tenant, can be read back by its id |
| Histories.OnlyRebindMovesBinding | src/memgw/core.py:155-191 | over runs, a binding moves only by a rebind and is made only by a write of that subject |
| Histories.BindingIsObeyed | src/memgw/router.py:17-51 | over any run without a rebind of a bound subject, every write, search and listing for it is answered from that provider, every record says so, and asserting another is refused |
| Histories.BindingHolds | src/memgw/router.py:17-51 | the same from a permitted rebind, or from an unbound subject's first accepted write, until the next rebind |
| Histories.RebindStrands | src/memgw/catalog.py:652-677 | a rebind leaves the index unchanged, counts exactly the live rows at the old provider, and their ids still resolve |
| Histories.EpisodesInOrder | src/memgw/catalog.py:724-750 | reading a subject's episodes back by id order gives exactly its own, in the order they were ingested |
| Histories.IngestIsRemembered | src/memgw/core.py:153-165 | a journalled ingest is the last of its subject's episodes, under the caller's scope, with the payload and the natives of the records answered |
| Histories.ErasureReachesEpisodes | src/memgw/core.py:305-317 | an erasure removes exactly the episodes its dimensions cover |
| Histories.EpisodesNameIndexedMemories | src/memgw/core.py:155-165 | after any run every native id in the journal is indexed for that tenant and provider |
| LabelledErasure.LabelledErasureLosesAnId | src/memgw/core.py:305-317 | a concrete run in which a labelled erasure removes nothing and yet loses an id |
| LabelledErasure.LabelledErasureEmptiesAPage | src/memgw/core.py:389-415 | a concrete run from the empty store after which a listing of one covered memory answers with nothing |
| Tenancy.OwnStep | src/memgw/core.py:338-363 | a verb answers from its tenant's part of the state alone |
| Tenancy.ForeignStep | src/memgw/core.py:338-363 | a verb leaves every other tenant's index rows, bindings, episodes and store rows as they were |
| Tenancy.TenantsDoNotInterfere | src/memgw/core.py:338-363 | two runs that agree on a tenant's part and calls give that tenant the same answers and the same part, whatever others hold and do |
| CoreVerbs.MemoryCore.PerformAll | src/memgw/core.py:87-334 | any sequence of calls is a run from the state found to the state left, with the answers given and the ids drawn |
| CoreVerbs.MemoryCore.Upsert | src/memgw/core.py:169-191 | the method is the gateway's upsert step and keeps the coupling |
| CoreVerbs.MemoryCore.Ingest | src/memgw/core.py:142-167 | the method is the gateway's ingest step, journal included, and keeps the coupling |
| CoreVerbs.MemoryCore.Update | src/memgw/core.py:193-204 | the method is the gateway's update step and keeps the coupling |
| CoreVerbs.MemoryCore.Search | src/memgw/core.py:208-248 | the method is the gateway's search step and changes no table |
| CoreVerbs.MemoryCore.ListScope | src/memgw/core.py:250-279 | the method is the gateway's listing step and changes no table |
| CoreVerbs.MemoryCore.Get | src/memgw/core.py:281-290 | the method is the gateway's get step |
| CoreVerbs.MemoryCore.Delete | src/memgw/core.py:294-303 | the method is the gateway's delete step and keeps the coupling |
| CoreVerbs.MemoryCore.DeleteScope | src/memgw/core.py:305-317 | the method is the gateway's erasure step and keeps the coupling |
| CoreVerbs.MemoryCore.Rebind | src/memgw/core.py:321-334 | the method is the gateway's rebind step and keeps the coupling |
| Mem0Store.Mem0Adapter.DeleteScope | src/memgw/adapters/mem0.py:182-205 | the drain ends, counts what it removed, removes only matching items with content, keeps the rest in order, empties the scope if and only if every matching item has content, misses only items without text when the scope fits one listing, and on readable memories leaves exactly what the erasure does not cover if and only if every matching memory is covered |
| Mem0Store.LabelledDrainTakesTooMuch | src/memgw/adapters/mem0.py:182-205 | erasing by a label deletes a memory that does not carry it |
| Mem0Store.FilterIsCoverIff | src/memgw/adapters/mem0.py:50-66 | the filter matches exactly what the dimensions cover, for every stamped memory, if and only if neither agent nor session is called "*" |
| Mem0Store.MatchesCoveredIff | src/memgw/adapters/mem0.py:50-66 | without such a name, everything matched is covered if and only if no memory in the dimensions lacks the labels |
| Mem0Store.WildcardNameTakesTooMuch | src/memgw/adapters/mem0.py:182-205 | erasing for an agent called "*" deletes another agent's memory |
| Mem0Store.EmptyContentStopsTheDrain | src/memgw/adapters/mem0.py:213-226 | a memory without text is covered, not deleted and not counted |
| ScopeKeys.Placeholders | src/memgw/client.py:130-132 | "{tenant}", "{subject}", "{agent}" and "{session}" are each read as the placeholder of their own dimension |
| ScopeKeys.ReadsAsWritten | src/memgw/client.py:130-132 | any format whose literals have no opening brace, written out with those four texts, reads as it was meant |
| ScopeKeys.ReadingLosesNothing | src/memgw/client.py:130-132 | any format, written out again from its reading, is itself |
| ScopeKeys.BuildPattern | src/memgw/client.py:130-132 | substituting placeholders one after another reads the format once, left to right |
| ScopeKeys.MatchIff | src/memgw/client.py:133-135 | a key matches exactly when it is some rendering of the format |
| ScopeKeys.MatchUndoesRenderIff | src/memgw/client.py:130-141 | reading undoes writing for all values if and only if a slash separates every two placeholders |
| ScopeKeys.ParseScope | src/memgw/client.py:121-141 | fails on a repeated placeholder or exactly when nothing renders to the key; otherwise answers with the greediest reading; when slashes separate, a key rendered from clean values gives those values back |
| ScopeKeys.GreediestIsUnique | src/memgw/client.py:133 | a key has one greediest reading |
| ScopeKeys.GroupIs | src/memgw/client.py:136-141 | a group holds the value of its own placeholder, and is absent exactly when the format lacks it |
| ScopeKeys.ScopeOfIs | src/memgw/types.py:36-48 | no subject in the format, or a blank one, is an error; otherwise the subject is kept to the letter and agent and session lose the white space around them, blank ones altogether |
| ScopeKeys.StripIs | src/memgw/types.py:43-48 | stripping removes white space at both ends and nothing else, and leaves nothing exactly of a blank text |
| ScopeKeys.SubjectAgentSession | src/memgw/client.py:121-141 | a subject, agent and session joined by slashes come back each in its own field |
| ScopeKeys.GroupsSurvive | src/memgw/types.py:36-48 | a subject that is not blank and trimmed agent and session come back as they were written |

## Left out

- Provider outages, `fail_open`, retries of provider calls, and health checks: every provider call returns.
- HTTP, authentication, the embedded and proxy clients, settings, logging, the CLI, migrations and deployment.
- Interleaving inside a whole verb. Verbs are atomic in runs; interleaving is modelled among the catalog's transactions. A search
  that lands between another call's store write and its catalog record can store the query's broader scope.
- Database deadlocks and dropped connections. A write that would touch a rival's uncommitted row waits.
- Floating-point rounding: vectors and scores are over the reals. A zero vector makes the database's distance undefined, and
  `SearchPathsAgree` asks for non-zero vectors of one dimension within the searched scope, and for no labels.
- The wall clock: `created_at` and `updated_at` of index rows, `bound_at` and the journal's `created_at` are not kept. A store row's times are inputs.
- Mem0's engine: a listing gives as many matching items as its cap allows, each once, in any order and choice, and a delete removes just its item.
- SHA-256: the hash column is stood in for by the content it digests. A live row's hash is not rewritten by an update, as in the code.
- Foreign natives occur in the catalog's own theorems; gateway runs are over stores only the gateway writes to.
- Re-validation of a stored scope when a record is built: dimensions are taken as already valid.
- Asking several providers at once, `capabilities` and `providers_status`: plumbing.
- The Zep adapter's `as_of`, which it never reads, its graph modes, and user creation; the Mem0 adapter's writes and search.
- Migration between providers, which the code refuses.
- Gateway.StepSearch: always ranks in Python, as the SQLite build does; `SearchPathsAgree` carries the result to the database path.
- Transactions.SelectStep: the lookup of a page is one read, though the code sends one SELECT for every 500 natives.
- BindingRaces.RebindReportIff: the delete and insert that write a binding are one atomic transaction; two of them overlapping on
  a database that lets both begin can make one raise.
- Ids.IdGenerator.Draw: supposes a clock that does not run back and a counter that does not overflow.
