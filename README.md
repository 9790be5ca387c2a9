# To-do task store, modelled in Dafny

This project models the core of a small to-do HTTP service (one Python file,
`main.py`). The service keeps every task in a process-local dictionary
`tasks_db` that maps a generated id to a task record. Six handlers work on it:

- create a task;
- list tasks with optional `completed` and `priority` filters, newest first,
  one page at a time;
- get one task;
- partially update one task;
- delete one task;
- summarise the table in statistics.

Modules, by file:

- `wrappers.dfy` (`Wrappers`): `Option` and `Result`.
- `tasks.dfy` (`Tasks`): the task record and the create and update request
  shapes with their field constraints. It also holds the partial-update merge
  (`Merge`) and the handler's `setattr` loop over `model_dump(exclude_unset=True)`
  (`Dump`, `AssignAll`), with the proof that the two agree.
- `task_list.dfy` (`TaskList`): the listing pipeline as functions. Two
  filters, a stable newest-first sort and the page slice, plus lemmas on
  soundness, completeness, order, stability and page bounds.
- `task_stats.dfy` (`TaskStats`): the statistics summary and its invariants.
- `task_store.dfy` (`TaskStore`): the class `Store`. It holds the dictionary
  as a `map` and its key insertion order as a `seq`, plus a ghost set of every
  id ever issued. Its methods `Create`, `Update` and `Delete` change the
  table. `Get` is a function. Lemmas tie the table's values
  (`list(tasks_db.values())`) to the listing.
- `update_nulls.dfy` (`UpdateNulls`): what an update request carries before
  validation, and the explicit-`null` finding below.

The id generator (`uuid.uuid4()`) and the clock (`datetime.now()`) are
parameters. `Create` takes an id that was never issued before. `Update`
takes a time no earlier than the record's last update, i.e. a monotonic
clock, and so keeps `created_at <= updated_at`. Timestamps are integers.

Where the code and the prose description of the service disagree, the model
follows the code:

- The description says a stored priority is always one of low, medium and
  high. But `priority` is declared `Optional[str]` in both `TaskBase` and
  `TaskUpdate`, so a JSON `null` passes validation and is stored. The model's
  record therefore has `priority: Option<Priority>`. Such a task matches no
  priority filter and is counted in no priority bucket, so the three bucket
  counts sum to at most the total, with equality exactly when every task has
  a priority (`TaskStats.BreakdownBound`).
- The description leaves the order of tasks with equal creation times open.
  The code sorts a list of the dictionary's values with Python's stable sort,
  so ties keep insertion order. The model states this as
  `TaskList.NewestFirstStable`.

## Model

| member | source | states |
|---|---|---|
| `Tasks.ParsePriority` | main.py:38 | a priority string is accepted only as one of three names, and it parses to the priority with that name |
| `Tasks.ParsePriorityName` | main.py:47 | every priority name is accepted and parses back to the same priority (round trip) |
| `Tasks.PriorityNameInjective` | main.py:129 | two priorities have the same name iff they are equal, so filtering by name is filtering by priority |
| `Tasks.ValidTitle` | main.py:35 | definition of the title bound (1 to 200 characters); its consequences are stated by `Tasks.NewTask` and `Tasks.Merge` |
| `Tasks.ValidDescription` | main.py:36 | definition of the description bound (absent or at most 1000 characters); its consequences are stated by `Tasks.NewTask` and `Tasks.Merge` |
| `Tasks.ValidPatch` | main.py:44-47 | definition of the update constraints on sent fields; its consequences are stated by `Tasks.Merge` and `Tasks.Updated` |
| `Tasks.RequestWithDefaults` | main.py:36-38 | the declared defaults (no description, not completed, priority medium) form an admissible create request for any valid title |
| `Tasks.DefaultTask` | main.py:94-102 | a task created from the defaults is well formed, has no description, is pending and has priority medium |
| `Tasks.NewTask` | main.py:94-102 | the created record is well formed (non-empty id, title 1-200, description at most 1000, created <= updated) and its two timestamps are equal |
| `Tasks.Merge` | main.py:169-174 | a partial update never changes id, created_at or updated_at, and a valid patch keeps a well-formed record well formed |
| `Tasks.Updated` | main.py:173-177 | the updated record keeps id and created_at, has updated_at = now (never earlier than before), and stays well formed |
| `Tasks.MergeEmpty` | main.py:170-174 | an update that sends no field changes no field |
| `Tasks.MergeIdempotent` | main.py:173-174 | applying the same patch twice equals applying it once |
| `Tasks.Then` | main.py:173-174 | combining two valid patches, the later winning per field, yields a valid patch |
| `Tasks.MergeThen` | main.py:173-177 | last write wins: two consecutive updates equal one update with their combination |
| `Tasks.MergeKeepsUnsent` | main.py:170-174 | every field left out of the patch keeps its stored value |
| `Tasks.MergeTakesSent` | main.py:173-174 | every field sent in the patch takes the sent value |
| `Tasks.UpdatedThen` | main.py:173-177 | last write wins with timestamps: two updates at times n1 <= n2 equal one update with their combined patch at n2 |
| `Tasks.Assign` | main.py:174 | one `setattr` of a patchable attribute never changes id, created_at or updated_at |
| `Tasks.AssignAll` | main.py:173-174 | the loop's assignments in turn never change id, created_at or updated_at; with `Tasks.DumpThenAssignIsMerge` they compute the merge |
| `Tasks.Dump` | main.py:170 | `model_dump(exclude_unset=True)` yields at most four entries; its content is stated by `Tasks.DumpFields` and `Tasks.DumpDistinct` |
| `Tasks.DumpFields` | main.py:170 | the dump assigns an attribute a value exactly when the patch sends that value |
| `Tasks.DumpDistinct` | main.py:170 | the dump assigns no attribute twice |
| `Tasks.JoinDistinct` | main.py:170 | joining two dumps over disjoint attributes assigns no attribute twice |
| `Tasks.AssignAllAppend` | main.py:173-174 | running the `setattr` loop over two lists in turn equals running it over their concatenation |
| `Tasks.DumpThenAssignIsMerge` | main.py:170-174 | the `setattr` loop over the dumped fields computes exactly the reference merge of the sent fields |
| `Tasks.ApplyPatch` | main.py:170-174 | the handler's loop, assigning each dumped field in turn, yields exactly the reference merge of the patch |
| `TaskList.WithCompleted` | main.py:126 | a record is kept iff it is in the input and its completion flag equals the filter value |
| `TaskList.WithPriority` | main.py:129 | a record is kept iff it is in the input and its priority's name equals the filter string (a null priority never matches) |
| `TaskList.Selected` | main.py:125-129 | a record passes the filter step iff it is in the input and matches every given filter; `TaskList.SelectedIsMatching` gives the order too |
| `TaskList.ListTasks` | main.py:107-135 | the listing has at most `limit` records, all drawn from the ranking; its properties are stated by `TaskList.ListSound`, `TaskList.ListIsPage`, `TaskList.ListSorted` and `TaskList.ListComplete` |
| `TaskList.Insert` | main.py:132 | inserting into the sorted list adds exactly that record (multiset) |
| `TaskList.NewestFirst` | main.py:132 | the sort is a permutation of its input |
| `TaskList.Page` | main.py:135 | the page has length min(limit, max(0, n - skip)) and element i is element skip + i of its input |
| `TaskList.MatchingOne` | main.py:125-129 | with only one filter given, or none, the pipeline's filter step keeps the records matching the query |
| `TaskList.BothFilters` | main.py:125-129 | the priority filter after the completed filter keeps exactly the records matching both (the intersection) |
| `TaskList.SelectedIsMatching` | main.py:125-129 | the filter step equals the one-pass filter on the whole query for every combination of given filters |
| `TaskList.MatchingMembers` | main.py:126 | a record survives the filters iff it is in the input and matches every given filter |
| `TaskList.MatchingLength` | main.py:126-129 | filtering never lengthens the list |
| `TaskList.InsertSorted` | main.py:132 | inserting into a newest-first list keeps it newest first |
| `TaskList.NewestFirstSorted` | main.py:132 | the sorted list is ordered by created_at, non-increasing |
| `TaskList.InsertAtTime` | main.py:132 | an inserted record goes first in its tie class and the rest of the class keeps its order |
| `TaskList.NewestFirstStable` | main.py:132 | the sort is stable: records with equal created_at keep their input (insertion) order |
| `TaskList.ListSound` | main.py:122-135 | every listed record is an input record that satisfies every given filter |
| `TaskList.RankedMembers` | main.py:122-132 | a record is in the ranking iff it is in the input and matches the query |
| `TaskList.RankedProperties` | main.py:122-132 | the ranking is a permutation of the matching records, newest first, with ties in insertion order |
| `TaskList.ListIsPage` | main.py:135 | the listing is exactly ranked elements skip .. skip+limit-1, of length min(limit, max(0, n - skip)), empty when skip >= n |
| `TaskList.PageMembers` | main.py:135 | every record of a page is a record of the sequence it was cut from |
| `TaskList.PageSorted` | main.py:135 | a page cut from a newest-first sequence is newest first |
| `TaskList.ListSorted` | main.py:132-135 | every listing page is ordered newest first |
| `TaskList.ListComplete` | main.py:122-135 | from skip 0 with a limit covering the table, the listing holds every matching record (multiset) |
| `TaskList.DefaultListsAll` | main.py:111-112 | the default query (skip 0, limit 100) lists every record of a table of at most 100 |
| `TaskList.PageOfTen` | main.py:135 | of ten ranked records, skip 5 and limit 3 give exactly the sixth to eighth |
| `TaskStats.CountCompleted` | main.py:205 | the completed count is at most the number of records; see `TaskStats.CompletedBound` |
| `TaskStats.CountPriority` | main.py:209-211 | a bucket count is at most the number of records; see `TaskStats.BreakdownBound` |
| `TaskStats.Rate` | main.py:218 | the rate is 0 for an empty table, and otherwise rate * total = completed * 100; see `TaskStats.RateBounds` |
| `TaskStats.Stats` | main.py:197-220 | total is the number of records, completed is at most total, pending is their difference; see `TaskStats.StatsInvariants` |
| `TaskStats.BreakdownBound` | main.py:208-212 | low + medium + high <= total, with equality iff every record has a priority |
| `TaskStats.CompletedBound` | main.py:205 | completed <= total, equal iff all are completed, zero iff none is |
| `TaskStats.RateBounds` | main.py:218 | the rate is 0 for an empty table, lies in [0, 100], is 0 iff nothing is done and 100 iff everything is |
| `TaskStats.StatsInvariants` | main.py:204-219 | completed_tasks <= total_tasks, pending_tasks = total - completed >= 0, bucket sum <= total, rate in [0, 100], empty table gives total 0 and rate 0 |
| `TaskStats.CountCompletedIsListed` | main.py:205 | the completed count equals the number of records the `completed=true` filter keeps |
| `TaskStats.CountPriorityIsListed` | main.py:209-211 | each bucket count equals the number of records the filter on that priority's name keeps |
| `TaskStats.StatsAppend` | main.py:204-211 | appending a record adds one to the total and one to each count that describes it |
| `TaskStats.TwoTaskScenario` | main.py:204-219 | a high pending task and a low completed task give total 2, completed 1, pending 1, rate 50, breakdown 1/0/1 |
| `TaskStore.Detail` | main.py:147 | the message has the fixed template's length plus the id's, and carries the id at its place in the template |
| `TaskStore.DetailIdentifiesId` | main.py:147 | two NotFound messages are equal iff they name the same id |
| `TaskStore.RemoveKey` | main.py:194 | after `del`, the key order holds exactly the other keys |
| `TaskStore.WithoutId` | main.py:194 | removing an id from the values keeps exactly the records with other ids |
| `TaskStore.RemoveKeyNoDuplicates` | main.py:194 | deleting a key keeps the key order free of duplicates |
| `TaskStore.ValuesOfAppend` | main.py:104 | inserting a new key appends its record to the dictionary's values |
| `TaskStore.ValuesOfRemove` | main.py:194 | deleting a key removes its record from the values; the others keep their order |
| `TaskStore.ValuesOfMembers` | main.py:122 | a record is among the values iff it is stored under its own id |
| `TaskStore.WithoutAbsent` | main.py:188-194 | removing an id no record carries changes nothing |
| `TaskStore.ValuesOf` | main.py:122 | the values list one record per key of the order |
| `TaskStore.KeyCount` | main.py:68 | a duplicate-free key order lists as many keys as its key set holds |
| `TaskStore.Store.Values` | main.py:122 | `list(tasks_db.values())` has exactly `len(tasks_db)` records |
| `TaskStore.Store.TotalIsSize` | main.py:204 | `total_tasks` computed over the values equals `len(tasks_db)` |
| `TaskStore.Store.ValuesAreTheStore` | main.py:122 | `tasks_db.values()` holds exactly the stored records, each well formed |
| `TaskStore.Store.ListedAreStored` | main.py:122-135 | every record `list_tasks` returns is stored under its id and satisfies the filters |
| `TaskStore.Store.constructor` | main.py:68 | the table starts empty |
| `TaskStore.Store.Get` | main.py:144-150 | found iff the id is present; a found record is the stored one; otherwise NotFound carrying that id |
| `TaskStore.Store.GetFound` | main.py:150 | the record returned for a present id carries that id and is well formed |
| `TaskStore.Store.Create` | main.py:91-105 | the new record has the request's fields and created_at = updated_at = now; it is stored under the fresh id and appended to the iteration order; no other entry changes and the size grows by one |
| `TaskStore.Store.Update` | main.py:163-179 | an absent id gives NotFound and no change; otherwise the record becomes the merge of the sent fields with updated_at = now, even for an empty patch, is stored under the same key without moving, and is returned; no other entry changes |
| `TaskStore.Store.Delete` | main.py:188-195 | an absent id gives NotFound and no change; otherwise exactly that key is removed, the others keep their order, and a following `Get` gives NotFound |
| `UpdateNulls.NullTitleIsStored` | main.py:44 | as written, an update with `"title": null` passes validation and the record holds no title |
| `UpdateNulls.NullCompletedIsStored` | main.py:46 | as written, an update with `"completed": null` passes validation and the record holds no completion flag |
| `UpdateNulls.Admit` | main.py:43-47 | intended validation: a request is admitted iff it meets the bounds and sends no null title or completed; the admitted patch is valid and agrees with the request |
| `UpdateNulls.AdmittedUpdateKeepsRecord` | main.py:173-176 | every admitted update keeps a well-formed record well formed |

## Left out

- FastAPI plumbing: the app object, CORS middleware, the root welcome endpoint, `json_schema_extra` and the uvicorn launch (main.py:14-31, 54-65, 71-79, 222-224). These are framework details.
- HTTP transport: status codes, response serialisation and response-model validation, and the `async` machinery. These are transport and concurrency concerns.
- `uuid.uuid4()`: the id is a parameter. It must be non-empty and never issued before, which the ghost set `issued` tracks.
- `datetime.now()`: the time is an integer parameter. `Update` requires it to be no earlier than the record's `updated_at`.
- TaskStats.Rate: the completion rate is the exact ratio `completed * 100 / total`. Floating-point division and `round(..., 2)` are not modelled.
- Pydantic's validation itself: the regex for priority is an enum with a parser, and the length bounds are predicates. These constraints are preconditions of `Create` and `Update`, because the framework enforces them before a handler runs.
- Negative `skip` or `limit`: Python slicing would count from the end. The model takes both as naturals.
- In-place mutation: the handler changes the record object with `setattr` and then stores it back under the same key. The model stores a new record value under that key. Nothing else holds the object between requests, so the table's contents are the same either way.

## Findings

| source | as written | input that shows it | evidently intended | confidence | as-written member | corrected member |
|---|---|---|---|---|---|---|
| main.py:44, 46, 170-174 | `title` and `completed` of `TaskUpdate` are `Optional`, so an explicit null passes validation, is reported by `model_dump(exclude_unset=True)` and is stored by `setattr` into fields typed `str` and `bool` | `PUT /tasks/{id}` with body `{"title": null}` or `{"completed": null}` on an existing task | a null title or completion flag is refused at validation, so the stored record stays a valid task | medium; not executed | `UpdateNulls.NullTitleIsStored`, `UpdateNulls.NullCompletedIsStored` | `UpdateNulls.Admit`, `UpdateNulls.AdmittedUpdateKeepsRecord` |
