# Task list service — model of the in-memory task store

The service keeps its tasks ("tareas") in process memory. There are two
pieces of state: an ordered list of task records and an id counter that
starts at 1. Four HTTP handlers work on that state:

- list every task, together with the count;
- create a task: validate the body, give the task the counter's value as
  its id, append it, and bump the counter;
- complete a task: find the first task with the given id, then set its
  flag and its completion time;
- delete a task: filter out every task with the given id, and report
  not-found if the list did not get shorter.

The model is written in Dafny as pure functions over an immutable store:

- `task.dfy` (module `Tasks`): the task record, JSON values and timestamps.
- `store.dfy` (module `TaskStore`): the store, its invariant, and the four
  operations. Each operation returns the new store and a `Result`.
- `lemmas.dfy` (module `StoreLemmas`): invariant preservation, repeated
  completes and deletes, and how filtering keeps order.
- `handlers.dfy` (module `Handlers`): the complete and delete handlers
  written as the loops the source uses, each proved equal to the
  functional definition.
- `api.dfy` (module `Api`): requests dispatched one at a time, runs over
  request sequences, and the ids handed out along a run.

Store invariant (`TaskStore.Valid`):

- the counter is at least 1;
- every id lies in [1, counter);
- ids strictly increase along the list, so they are pairwise distinct;
- every task has `fechaCompletada` exactly when `completada` is true.

The clock is a parameter. Each operation that reads the time receives it
as an opaque `Timestamp`.

Behaviour that is easy to misread (the model follows the code):

- The create guard refuses three cases only: no body, an empty object, or
  an object without a `titulo` key. A title that is the empty string is
  accepted (`Api.TitleGuard`).
- `descripcion` is copied from the body whenever the key is present, even
  when its value is `null` or not a string. It is `Str("")` only when the
  key is absent.
- Delete rebinds the list to the filtered list on both paths. When nothing
  matched, the filtered list equals the old one (`TaskStore.WithoutNoMatch`),
  so the failure path leaves the store unchanged.

## Model

| member | source | states |
|---|---|---|
| TaskStore.List | app.py:38-41 | the listing holds exactly the stored tasks, in order, and `total` equals their number |
| TaskStore.Create | app.py:48-62 | create fails with a validation error exactly when there is no body or no `titulo` key, and then leaves the store unchanged. On success the new task has id equal to the old counter, the given title, the given description or `""`, is not completed, has the given creation time and no completion time. It is appended at the end, the earlier tasks are unchanged, and the counter grows by exactly 1 |
| TaskStore.FindFirst | app.py:72-73 | the scan finds nothing exactly when no task has the id. Otherwise it returns the first position holding the id |
| TaskStore.Complete | app.py:72-81 | complete fails with not-found exactly when no task has the id, and then the store is unchanged. On success the first task with the id is completed at the given time and returned. Every other task is unchanged. Length, order, counter, and every task's id, title, description and creation time are preserved |
| TaskStore.Without | app.py:88-90 | the filtered list is never longer than the original, and it is strictly shorter exactly when some task had the id |
| TaskStore.WithoutMembers | app.py:88 | the filtered list holds exactly the tasks whose id differs from the deleted one |
| TaskStore.WithoutKeepsIncreasing | app.py:88 | filtering keeps ids strictly increasing along the list |
| TaskStore.Delete | app.py:86-93 | delete succeeds exactly when some task has the id, and fails with not-found (store unchanged) otherwise. Afterwards no task has the id, the other tasks remain, and the counter is untouched |
| TaskStore.WithoutNoMatch | app.py:88-93 | filtering an id nobody has leaves the list exactly as it was |
| StoreLemmas.InitialIsValid | app.py:11-12 | the empty list with counter 1 satisfies the invariant |
| StoreLemmas.CreatePreservesValid | app.py:53-62 | create keeps the invariant, and the id it hands out is not used by any stored task |
| StoreLemmas.CompletePreservesValid | app.py:72-79 | complete keeps the invariant: ids are untouched, and the flag and the timestamp are set together |
| StoreLemmas.DeletePreservesValid | app.py:86-88 | delete keeps the invariant |
| StoreLemmas.CompleteTwice | app.py:72-79 | completing an id twice gives the same store and answer as completing it once at the later time. The flag stays set and only the timestamp is refreshed |
| StoreLemmas.DeleteTwice | app.py:86-93 | deleting the same id a second time fails with not-found and changes nothing |
| StoreLemmas.WithoutAppend | app.py:88 | filtering distributes over concatenation, so the kept tasks keep their original relative order |
| StoreLemmas.WithoutAt | app.py:88 | when only position k holds its id, filtering that id removes exactly position k and keeps the rest in order |
| StoreLemmas.WithoutUnique | app.py:88 | with strictly increasing ids, filtering the id at position k removes exactly position k |
| StoreLemmas.DeleteExistingRemovesOne | app.py:86-93 | under the invariant, deleting an id in use succeeds, removes exactly that one task, and shortens the list by 1 |
| StoreLemmas.DeleteRemovesEveryMatch | app.py:88-91 | if two tasks shared an id, one delete would remove both and still report success |
| Handlers.CompleteByScan | app.py:72-81 | the front-to-back loop that returns at the first match computes the same store and answer as `Complete` |
| Handlers.DeleteByScan | app.py:86-93 | the filtering loop followed by the length comparison computes the same store and answer as `Delete` |
| Api.Handle | app.py:35-93 | listing leaves the store unchanged. Only a successful create moves the counter, by exactly 1, and the created task gets the old counter as its id. A failed request leaves the store unchanged |
| Api.HandlePreservesValid | app.py:35-93 | every request keeps the store invariant |
| Api.RunPreservesValid | app.py:35-93 | any sequence of requests from a valid store ends in a valid store |
| Api.IssuedAreConsecutive | app.py:54-62 | along any request sequence, the ids handed out are consecutive from the starting counter, and the counter ends just past the last one. No id is skipped or repeated |
| Api.IdsFromStart | app.py:11-12 | from process start, the n-th task created gets id n, the ids strictly increase, and the final store satisfies the invariant |
| Api.Walkthrough | app.py:43-93 | two creates get ids 1 and 2 (default description `""`, then the given one). The listing reports 2. Completing id 1 sets the flag and the time. Deleting id 2 leaves one task, and deleting it again is not found with the store unchanged |
| Api.TitleGuard | app.py:50-51 | an empty object and a missing body are refused and the store stays empty. A title that is the empty string is accepted |

## Left out

- Flask routing, HTTP status codes and the JSON encoding of responses (`jsonify`). These are framework plumbing; their outcomes are modelled as `Result` and `Api.Response` values.
- Non-object JSON bodies (a list, a string, a number, a boolean). A falsy one (`[]`, `""`, `0`, `false`) is refused like a missing body, which the model's `None` covers. For a truthy one, Python would either test `"titulo"` for membership in it or raise a type error; neither path is modelled. The model's body is either absent or a JSON object.
- JSON numbers are modelled as integers. Floating point is not modelled, and the store never inspects a value it stores.
- `datetime.now().isoformat()`: the clock is I/O. Its reading is an opaque parameter of create and complete.
- CORS setup, serving `index.html`, the constant `/api` description and the `__main__` start-up with its printing and file check: I/O or constants with no logic.
- Thread safety of the shared list and counter: requests are modelled as served one at a time, because the code itself has no locking.
- Ids in routes are non-negative integers, as Flask's `int` converter produces them. Negative ids never reach the handlers.
