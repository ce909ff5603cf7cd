# keepsake-ui in Dafny

A model of the logic in `keepsake_ui/app.py`, the Flask front end of a keepsake
experiment repository. The model covers:

- **The daemon handle cache** (`DaemonCache`). `Project._daemon` keeps at most one
  daemon in a single slot, stamped with its creation time. It builds the daemon
  lazily and recycles it on the first access after the daemon is older than one
  minute. The model is a class with the source's fields. Its `Daemon(now)` method
  takes the clock reading as a parameter and re-enters itself as the source does.
  Constructing a daemon draws a fresh number from a counter. Calls to `cleanup()`
  are recorded in a ghost log. The object invariant `Valid()` states the cache's
  central claim: the only daemon alive, meaning constructed and not yet cleaned
  up, is the cached one, and no daemon is cleaned up twice.
- **The display orderings** (`Ordering`). `sort_by_key` rebuilds a dict with its
  keys ascending. The experiment list sorts `(created, short_id)` tuples in
  descending order. Both compare by Python's string and tuple
  comparison (`Lexicographic`). The model computes both with insertion sorts;
  the uniqueness lemmas make the result independent of the algorithm. Each is proved to return a sorted permutation of
  its input, and to be the only sorted permutation, so it is fully determined.
- **The handlers** (`Blueprint`). `handle_error` turns an exception into the error
  page with status 404. `get_experiment` builds the experiment page; without a
  best checkpoint its metrics fall back to an empty dict. `list_experiments`
  builds the experiment list.

Values read from the keepsake library (experiments, checkpoints, their ids and
timestamps) are plain datatypes in `Repository`. What the library computes for
them (`short_id()`, `best()`, `created.isoformat()`) is stored as a field.

Facts about `keepsake_ui/app.py` that shape the model:

- The experiment list holds only the `(created, short_id)` tuples (app.py:71-72).
- Ties on creation time are broken by short id, in descending order.
- The blueprint has no delete route; app.py:33 is a TODO.

## Model

| member | source | states |
|---|---|---|
| `DaemonCache.Project.constructor` | keepsake_ui/app.py:15-18 | a new project has an empty slot, no start time and a one-minute timeout, and the object invariant holds |
| `DaemonCache.Project.Daemon` | keepsake_ui/app.py:20-29 | with an empty slot, a new daemon is created, stamped with `now`, cached and returned. A daemon no older than the timeout is returned, and neither the slot nor its start time changes. An older daemon is cleaned up exactly once and replaced by a new, different daemon stamped `now`. After every call the returned daemon is the cached one and is no older than the timeout. The method re-enters itself at most once. The timeout is never written, and the invariant "only the cached daemon is alive" is preserved |
| `DaemonCache.RequestTwice` | keepsake_ui/app.py:20-29 | the first request's daemon was created at the cached start time if the cached daemon was still young enough, and at the first request's time otherwise. A second request returns the same daemon if and only if it comes within the timeout of that creation time. Otherwise, the first daemon is the one most recently cleaned up |
| `DaemonCache.TimeoutFromCreation` | keepsake_ui/app.py:18-29 | the timeout counts from creation, not from last use. Requests at 0 s and 50 s get the same daemon; a request at 70 s gets a new one |
| `Ordering.SortByKey` | keepsake_ui/app.py:82-83 | the result has the same key/value items as the dict (the same multiset), with keys strictly ascending |
| `Ordering.SortByKeyUnique` | keepsake_ui/app.py:82-83 | any rearrangement of the dict's items with ascending keys equals `SortByKey` of the dict |
| `Ordering.SortByKeyIdempotent` | keepsake_ui/app.py:82-83 | sorting a sorted dict changes nothing, so applying `sort_by_key` twice equals applying it once |
| `Ordering.SortByKeySameMapping` | keepsake_ui/app.py:82-83 | a key maps to a value after sorting if and only if it did before |
| `Ordering.InsertByKey` | keepsake_ui/app.py:83 | helper of `SortByKey`, not a step Python's `sorted` takes: inserting an item with a new key into a dict with ascending keys keeps the keys ascending and adds exactly that item |
| `Ordering.SortDescending` | keepsake_ui/app.py:71-72 | `sorted(..., reverse=True)` returns a permutation of its input in non-increasing tuple order |
| `Ordering.InsertDescending` | keepsake_ui/app.py:71-72 | helper of `SortDescending`, not a step Python's `sorted` takes: inserting an entry into a non-increasing list keeps it non-increasing and adds exactly that entry |
| `Ordering.ExperimentList` | keepsake_ui/app.py:70-72 | the list is a permutation of the listed experiments' `(created, short_id)` tuples. Creation times are non-increasing, and on equal creation times short ids are non-increasing |
| `Ordering.ExperimentListUnique` | keepsake_ui/app.py:70-72 | any non-increasing permutation of the experiments' tuples is exactly the experiment list |
| `Ordering.NonIncreasingUnique` | keepsake_ui/app.py:71-72 | two non-increasing lists with the same entries are equal |
| `Ordering.AscendingUnique` | keepsake_ui/app.py:83 | two dicts with ascending keys and the same items are equal |
| `Lexicographic.LessTrichotomy` | keepsake_ui/app.py:71-72 | Python string `<` is total: two strings are equal or ordered one way or the other |
| `Lexicographic.LessTransitive` | keepsake_ui/app.py:71-72 | Python string `<` is transitive |
| `Blueprint.HandleError` | keepsake_ui/app.py:38-46 | for the exceptions `except Exception` catches, the wrapper does not raise. A handler's return passes through unchanged. An exception becomes the `error.html` page titled "Error", carrying the exception's message, with status 404 |
| `Blueprint.HandleErrorKeepsOutcome` | keepsake_ui/app.py:40-45 | the handler's result is returned unchanged, and an exception's message is the error page's message |
| `Blueprint.GetExperiment` | keepsake_ui/app.py:54-65 | a failed lookup propagates its exception. Otherwise the page carries the experiment's short id, creation time and command, and its params sorted by key. It carries the best checkpoint's metrics sorted by key, or an empty dict when there is no best checkpoint |
| `Blueprint.ExperimentRoute` | keepsake_ui/app.py:52-65 | the experiment page answers 404 exactly when the lookup raised, and 200 otherwise |
| `Blueprint.UnknownExperimentIsNotFound` | tests/test_app.py:48-49 | an id the repository does not hold gets status 404 and the error page with the exception's message. A held id gets status 200 and that experiment's page |
| `Blueprint.ListExperiments` | keepsake_ui/app.py:69-73 | when listing succeeds, the page holds the experiments' tuples, newest first, as a permutation. A failed listing propagates its exception |
| `Blueprint.ListRoute` | keepsake_ui/app.py:67-73 | the list page answers 200 exactly when listing succeeded, and 404 otherwise |

## Left out

- The `threading.RLock()` around `_daemon` is left out, and the cache is modelled as sequential. A fresh lock is created on every call, so it serializes nothing, and concurrency is not modelled.
- `DaemonCache.Project.Daemon` reads the clock once. The source calls `datetime.utcnow()` a second time on the re-entry, after `cleanup()`, and the model uses the first reading for both. The new daemon's start time can therefore be earlier than in the source, by however long `cleanup()` takes (wall-clock reads need not increase).
- `DaemonCache.Project.Daemon`: `cleanup()` never fails in the model. In the source, a raising `cleanup()` (app.py:26) skips clearing the slot (app.py:27). The expired daemon stays cached, and the next call runs `cleanup()` on it again. "Cleaned up at most once" in `Valid()` therefore holds only because `cleanup()` is assumed not to fail.
- `DaemonCache.Project.Daemon`: constructing a daemon never fails in the model. In the source a failing `Daemon(...)` call propagates its exception, leaving a start time with an empty slot. The invariant allows that state, but the failure itself is not modelled.
- The internals of `Daemon(self, debug=...)` and `cleanup()` are in the keepsake library and are not part of this model. A daemon is an opaque number, and a cleanup is a log entry.
- The keepsake library's `Project` base class is not part of this model. It is taken to start with an empty daemon slot.
- `project.experiments.get` and `.list()`, `best()` and `short_id()` are also in the keepsake library. Their results are parameters or fields. The lookup lemma uses exact-id lookup, so keepsake's own id matching is not modelled.
- `isoformat()` is not modelled: creation times are the already-formatted strings, compared as strings.
- Flask routing and `render_template` are not modelled. A rendered page is the context its template receives.
- The `index`, `error` and `healthz` handlers and logging are left out. They hold no logic beyond returning a fixed page.
- `keepsake_ui/main.py` (server bootstrap and command-line parsing) is not part of this model.
- `Blueprint.HandleError`: `Raised` stands only for `Exception` subclasses, which `except Exception` (app.py:43) catches. `SystemExit`, `KeyboardInterrupt` and other `BaseException` subclasses propagate through the wrapper, and so does an exception raised while logging or rendering the error page (app.py:44-45). Those are not modelled, and neither the logger nor the error template is taken to fail.
- `Blueprint.ExperimentRoute`, `Blueprint.ListRoute`: only the lookup or the listing is modelled as raising. In the source, `best()`, `short_id()`, `isoformat()` and the page render (app.py:56-65, 71-73) can also raise inside the wrapped handler, and each of those also answers 404.
