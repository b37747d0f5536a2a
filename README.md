# To-do list cache reconciliation

A model of the client-side cache patching in a small React/Apollo to-do list
(`client/src/App.js`). The client caches the result of the `allTodos` list
query. After each successful mutation it updates that cached list in place
of fetching it again:

- after `deleteTodo(id)` completes, the `update` handler reads the cached
  list, keeps every entry whose `id` differs from the deleted one, and writes
  the result back;
- after `createTodo(name)` completes, the `update` handler reads the cached
  list, appends the item the backend returned (with the backend-assigned
  `id`), and writes the result back.

The two list documents `TODOS` and `GET_TODOS` select the same root field
`allTodos` with the same sub-fields, so they address the same cache entry.
The model has one slot for both.

Files:

- `todos.dfy`, module `TodoItems`: the `Item` record `{ name, id }`, the two
  list computations `Without` (the filter) and `Appended` (the concat), and
  lemmas about them: what is removed, what is kept and in which order, list
  lengths, id counts, id uniqueness, and how delete and create interact.
- `cache.dfy`, module `TodoCache`: a `Cache` class whose field `allTodos`
  is the cached slot, with `ReadQuery`/`WriteQuery` and the two `update`
  handlers as methods. The pure function `Settle` gives the slot after one
  mutation settles, and `Replay` the slot after a series of them. Each
  handler-dispatching method is proved to change the slot as `Settle` says.
  The lemmas about `Settle` and `Replay` cover the consistency claims:
  failed mutations change nothing, successive creates append in order,
  fresh ids keep the list free of duplicates, and two deletes commute.
  The method `Scenarios` states two end-to-end sequences against the class
  as assertions the verifier proves: creates into an empty list, then a
  delete by id, a failed delete, and a create before the list is cached.

Modelling decisions:

- The slot is `Option<seq<Item>>`. `None` means the list query has not yet
  written its result. Apollo's `readQuery` throws when the query's data is
  not in the cache. The handler then stops before `writeQuery`, so the cache
  is unchanged. `RemoveTodoUpdate` and `AddTodoUpdate` report this case as
  `written == false`.
- A mutation settles as `Completed(data)` or `Failed`. Only `Completed` runs
  the `update` handler; `Failed` leaves the cache untouched. The item
  returned by a delete is ignored, as in the source: the filter uses the
  `id` the button was rendered with.
- Ids are GraphQL `ID` values, which are strings; JavaScript's `!==` on two
  strings is modelled as `!=`.
- The delete filter removes every entry with the matching id, not just one.
  A description of the system that speaks of removing "the entry" holds only
  when ids are unique. `WithoutUnique` proves that case, and
  `WithoutIsLargestAvoidingSubsequence` proves the general one.
- The create handler does not check for an existing id. Unique ids are
  therefore not an invariant of the code. They hold only while the backend
  hands out fresh ids: `AppendedUnique`, `AppendedDuplicate` and
  `SettleKeepsUnique` state exactly when.
  Apollo keeps one object per id, so a duplicated id reads back with the
  returned name at both positions; the model keeps the earlier name. The ids
  and their counts agree with the source either way (see "## Left out").

## Model

| member | source | states |
|---|---|---|
| `TodoItems.CountId` | client/src/App.js:40 | the number of entries carrying an id is at most the list length |
| `TodoItems.CountIdZero` | client/src/App.js:40 | an id's count is zero exactly when no entry carries it |
| `TodoItems.Without` | client/src/App.js:40 | the filtered list has no entry with the deleted id, and its length is the old length minus the number of entries with that id |
| `TodoItems.WithoutMembers` | client/src/App.js:40 | an item is in the filtered list iff it was in the cached list with a different id |
| `TodoItems.Appended` | client/src/App.js:105 | the new list is one longer, has the old list as its prefix and the created item last |
| `TodoItems.WithoutKeepsOrder` | client/src/App.js:40 | the filtered list is a subsequence of the cached list: surviving entries keep their relative order |
| `TodoItems.WithoutCount` | client/src/App.js:40 | after the filter the deleted id occurs zero times and every other id as often as before |
| `TodoItems.WithoutMultiplicity` | client/src/App.js:40 | each item occurs in the filtered list as often as in the cached list, or not at all if it has the deleted id |
| `TodoItems.WithoutIsLargestAvoidingSubsequence` | client/src/App.js:40 | any subsequence of the cached list that avoids the id and is as long as the filtered list equals it: the filter drops exactly the entries with that id |
| `TodoItems.WithoutAbsent` | client/src/App.js:40 | the filter returns the cached list unchanged iff no entry has the deleted id |
| `TodoItems.WithoutIdempotent` | client/src/App.js:38-45 | running the delete handler's filter twice for one id gives the same list as once |
| `TodoItems.WithoutConcat` | client/src/App.js:40 | filtering a concatenation is the concatenation of the filtered parts |
| `TodoItems.WithoutCommutes` | client/src/App.js:38-45 | two delete filters give the same list in either order |
| `TodoItems.WithoutUnique` | client/src/App.js:40 | with unique ids, deleting the id of the entry at position k removes exactly that entry and nothing else |
| `TodoItems.WithoutKeepsUnique` | client/src/App.js:40 | the filter keeps a list with unique ids free of duplicates |
| `TodoItems.AppendedCount` | client/src/App.js:105 | appending adds one occurrence of the created id and leaves every other id's count unchanged |
| `TodoItems.AppendedUnique` | client/src/App.js:105 | the appended list has unique ids iff the cached list had them and the created id was not yet cached |
| `TodoItems.AppendedDuplicate` | client/src/App.js:105 | if the returned id is already cached, it occurs at least twice after the append, and ids are no longer unique |
| `TodoItems.DeleteUndoesCreate` | client/src/App.js:38-45 | deleting a freshly created item's id restores the list from before the create |
| `TodoCache.Settle` | client/src/App.js:36-46 | one settled mutation never fills or empties the slot; a failed one leaves it unchanged; a completed delete leaves no entry with its id; a completed create makes the list one longer with the created item last |
| `TodoCache.Replay` | client/src/App.js:35-109 | the slot after a series of mutations settles, one handler at a time in completion order, is filled iff it was before: the handlers only patch a list the query already cached |
| `TodoCache.ReplayFailuresUnchanged` | client/src/App.js:35-109 | a series of failed deletes and creates leaves the slot exactly as it was |
| `TodoCache.ReplayCreates` | client/src/App.js:101-107 | a series of successful creates turns the cached list s into s followed by the created items, in completion order |
| `TodoCache.ReplayCreatesOnce` | client/src/App.js:101-107 | after successful creates, the list length is the old length plus the number of creates, and a created id that was not cached and that no other create returned occurs exactly once; duplicates already in the cached list do not matter |
| `TodoCache.SettleKeepsUnique` | client/src/App.js:38-107 | settling a delete, a failure, or a create whose id is new keeps ids unique |
| `TodoCache.SettleDeletesCommute` | client/src/App.js:38-45 | two delete mutations leave the same slot whichever of them completes first |
| `TodoCache.SettleDeleteAbsent` | client/src/App.js:40-44 | a completed delete of an id that is not cached leaves the slot unchanged |
| `TodoCache.Cache.constructor` | client/src/App.js:11 | a new cache holds no list |
| `TodoCache.Cache.ReadQuery` | client/src/App.js:39 | reading the list query returns the slot's current contents and changes nothing |
| `TodoCache.Cache.WriteQuery` | client/src/App.js:41-44 | writing the list query stores exactly the given list in the slot |
| `TodoCache.Cache.RemoveTodoUpdate` | client/src/App.js:38-45 | if a list is cached the slot receives exactly the filtered list; otherwise nothing is written and the slot is unchanged |
| `TodoCache.Cache.AddTodoUpdate` | client/src/App.js:101-107 | if a list is cached the slot receives exactly the cached list with the created item appended; otherwise nothing is written |
| `TodoCache.Cache.DeleteTodo` | client/src/App.js:35-47 | the slot afterwards is `Settle` of the old slot and the delete: the handler runs only for a completed mutation |
| `TodoCache.Cache.CreateTodo` | client/src/App.js:99-109 | the slot afterwards is `Settle` of the old slot and the create: the handler runs only for a completed mutation |

## Left out

- React rendering and JSX (`DeleteButton`'s markup, `TodoList`, `Todo`, `App`, the icon): user interface only.
- The Apollo client construction and the endpoint URL: network configuration of a foreign library.
- The GraphQL documents, `gql`, `useQuery` and `useMutation`: foreign calls. The backend appears only as the `MutationResult` of each mutation.
- The loading and error states of the list query in `TodoList`: library-driven UI state. The model's empty slot stands for "list never cached".
- Form handling in `AddTodo` (`preventDefault`, reading and clearing the input, the `required` attribute): DOM behaviour. The name sent to the backend does not reach the cache; only the returned item does.
- Apollo's normalised per-object cache entries (`Todo:<id>`) that `writeQuery` also updates: library internals. Apollo stores the `allTodos` list as references to one object per id, so entries that share an id are one object there, while the model keeps them as separate values. When the backend returns an id that is already cached, Apollo's list then shows the returned name at every position with that id; the model keeps the earlier entry's name. The ids in the list, their order and their counts are the same in both, so `AppendedCount`, `AppendedDuplicate` and `AppendedUnique` state what the source does; the names of same-id entries are not modelled.
- Concurrency: handlers run one at a time, each reading the slot as it stands just before it runs. Requests racing on the network are modelled only as the order in which their handlers run.
- Partial failures where the backend applied a mutation but the client never saw the response: the code does nothing special, and the model treats them as `Failed`.
