# Tsubame: Qt 5 GUI helpers, search tracking and the single-instance database backend

This project is a Dafny model of three small parts of Tsubame, a Twitter client with a QML user interface and a Python back end. It models these parts and proves properties about them:

- **The Qt 5 GUI module's pure helpers** (`gui/qt5/qt5_gui.py`):
  - `newlines2brs` turns newlines into `<br>` for QML text.
  - `tsubame_version` reports the version string.
  - `_select_image_provider_cb` sends an image id to the image provider named by its prefix.
  - `IconImageProvider.get_image` resolves an icon id to a file in the requested theme. If that file is missing, it tries the `default` theme instead.
  - The `Streams` facade lists the streams and the messages of one stream for QML.
- **The `Search` tracker** (`gui/qt5/qt5_gui.py`). It maps each running search thread (known by its name) to the search id it serves. Starting a search adds an entry. A search's result and its cancellation each remove an entry. A thread status change is forwarded only for a tracked thread whose search id is not empty. The result callback sends its results even when the thread is no longer tracked. It then removes the entry of the thread that runs the callback.
- **The single-instance database backend** (`core/db.py`):
  - `CustomFileBackend` puts a primary-key-to-instance registry in front of the document store. A single-instance `get` or `save` then keeps one in-memory object per primary key.
  - `DatabaseManager.main` creates the main backend once and returns that same backend after that.

Modules:
- `Paths` (paths.dfy) holds Python's `str.split`, `str.split(sep, 1)` and POSIX `os.path.join`, with their round-trip lemmas.
- `Qt5Gui` (qt5_gui.dfy) holds the newline conversion, the version string and image-id routing.
- `IconProvider` (icon_provider.dfy) holds icon path resolution.
- `Streams` (streams.dfy) holds the stream facade.
- `SearchTracking` (search.dfy) holds the `Search` class.
- `Db` (db.dfy) holds `CustomFileBackend` and `DatabaseManager`.
- `Wrappers` (wrappers.dfy) holds `Option` and `Result`.

The model keeps these details of the code as written:
- Every failure in `_select_image_provider_cb` is answered with None. This covers a missing `/` (a ValueError) and an unknown prefix (a KeyError).
- `search` with online services but an unknown search id calls None, which raises TypeError. The model returns `NoSearchFunction` and leaves the tracker unchanged.
- `filter` with `single_instance` returns inside its loop, so it looks only at the first match. If that match's primary key is not registered, line 63 indexes the result list with the key, which raises. The model returns `Raised(ListIndexedByPk)`. When nothing matches, the method ends without a return value, so the model returns `NoneReturned`.

## Model

| member | source | states |
|---|---|---|
| Qt5Gui.NewlinesToBrs | gui/qt5/qt5_gui.py:39-41 | the output contains no newline, and its length is the input's plus three per newline |
| Qt5Gui.CharacterPlacement | gui/qt5/qt5_gui.py:39-41 | input character i appears at i plus three per earlier newline; a newline there is replaced by "<br>", and any other character is kept as it is |
| Qt5Gui.NewlinesToBrsAppend | gui/qt5/qt5_gui.py:39-41 | converting a concatenation gives the concatenation of the converted parts |
| Qt5Gui.NewlinesToBrsKeepsPlainText | gui/qt5/qt5_gui.py:39-41 | text without newlines is returned unchanged |
| Qt5Gui.BrsToNewlinesUndoes | gui/qt5/qt5_gui.py:39-41 | for text without '<', turning "<br>" back into newlines gives back the original text |
| Qt5Gui.TsubameVersion | gui/qt5/qt5_gui.py:145-152 | the version string when there is one; otherwise "unknown" |
| Qt5Gui.RouteImage | gui/qt5/qt5_gui.py:154-173 | an id without '/' has no provider id; otherwise the id is a slash-free provider id, a '/' and the rest, and the id is routed only when the provider is registered |
| Qt5Gui.RouteImageSplitsAtFirstSlash | gui/qt5/qt5_gui.py:160-166 | for any slash-free prefix p and any rest r, including one that contains '/', the id p + "/" + r reaches p's provider with r unchanged |
| Qt5Gui.SelectImageProvider | gui/qt5/qt5_gui.py:154-173 | a missing or unknown provider gives None; a routed id gives the icon provider's answer for the rest of the id |
| Qt5Gui.IconIdsReachIconProvider | gui/qt5/qt5_gui.py:160-164 | with the GUI's own providers, "icon/" + r is answered by the icon provider for r |
| Paths.SplitOnce | gui/qt5/qt5_gui.py:162 | None exactly when there is no separator; otherwise a separator-free head, the separator and the rest make up the input |
| Paths.Split | gui/qt5/qt5_gui.py:356 | `str.split(sep)` gives at least one piece; its pieces lack the separator (SplitPiecesLackSeparator), and joining them gives back the input (JoinSplit) |
| Paths.SplitAtFirst | gui/qt5/qt5_gui.py:356 | a separator-free head followed by the separator is the first piece, followed by the pieces of the rest |
| Paths.PathJoin | core/db.py:93 | POSIX `os.path.join(a, b)`: an absolute b replaces a; otherwise a and b with one '/' between them unless a is empty or already ends in '/' |
| Paths.PathJoinAll | gui/qt5/qt5_gui.py:360 | `os.path.join(a, *parts)` as a left fold of PathJoin; for plain segments it is joining with "/" (PathJoinAllPlain) |
| Paths.SplitOnceJoin | gui/qt5/qt5_gui.py:162 | splitting once gives back the separator-free head and the whole rest |
| Paths.JoinSplit | gui/qt5/qt5_gui.py:356 | joining the pieces of `split("/")` with "/" gives back the id |
| Paths.SplitJoin | gui/qt5/qt5_gui.py:356 | splitting a join of separator-free pieces gives back the pieces |
| Paths.SplitPiecesLackSeparator | gui/qt5/qt5_gui.py:356 | no piece of a split contains the separator |
| Paths.PathJoinAllPlain | gui/qt5/qt5_gui.py:360 | for a theme folder without a trailing slash and segments that neither start nor end with one, `os.path.join` is joining with "/" |
| IconProvider.StripQuery | gui/qt5/qt5_gui.py:358 | the result is a prefix of the segment without '?', and it stops exactly at the first '?' (the whole segment when there is none) |
| IconProvider.IconSegments | gui/qt5/qt5_gui.py:356-358 | one segment per piece of the id, none containing '/'; all segments but the last are exactly the id's pieces, and the last is the last piece cut at its first '?' (StripQuery of it) |
| IconProvider.ResolveIcon | gui/qt5/qt5_gui.py:356-374 | the path returned is an existing file; the path in the requested theme wins when it exists; the result is None exactly when neither that path nor the default-theme path exists |
| IconProvider.GetImage | gui/qt5/qt5_gui.py:347-375 | an icon exactly when a path resolves, holding that file's contents and the size (-1, -1) |
| IconProvider.IgnoresQuerySuffix | gui/qt5/qt5_gui.py:357-358 | appending "?" and any slash-free suffix to an id changes neither its segments nor the file resolved |
| IconProvider.DefaultThemeHasNoFallback | gui/qt5/qt5_gui.py:363-370 | for an id already in the default theme, the fallback path equals the requested path, so an icon is found exactly when that file exists |
| IconProvider.FallbackPathSwapsTheme | gui/qt5/qt5_gui.py:359-366 | for an id "<theme>/<rest>" of plain segments, the path tried first is the theme folder, "/", the theme, "/" and the rest, and the fallback path is the same with the theme replaced by "default" |
| IconProvider.FallbackIsDefaultRequested | gui/qt5/qt5_gui.py:365-366 | the fallback path of "<theme>/<rest>" is the path requested for "default/<rest>" |
| IconProvider.FallbackSegments | gui/qt5/qt5_gui.py:365 | replacing the first segment of "<theme>/<rest>" with "default" gives the segments of "default/<rest>" |
| IconProvider.ThemedPath | gui/qt5/qt5_gui.py:356-360 | "<theme>/<rest>" splits into the theme and the pieces of the rest, and its path is the theme folder, "/", the theme, "/" and the rest |
| IconProvider.IconSegmentsPlain | gui/qt5/qt5_gui.py:356-358 | for an id without '?', the segments are exactly the pieces of `split("/")` |
| IconProvider.RequestedPath | gui/qt5/qt5_gui.py:360 | the theme folder joined, as `os.path.join` does, with the id's segments; its meaning is stated by RequestedPathIsFolderSlashId and ThemedPath |
| IconProvider.FallbackPath | gui/qt5/qt5_gui.py:365-366 | the theme folder joined with the segments whose first one is replaced by "default"; its meaning is stated by FallbackPathSwapsTheme |
| IconProvider.RequestedPathIsFolderSlashId | gui/qt5/qt5_gui.py:352-360 | for an id of non-empty segments without '?', the requested path is the theme folder, "/" and the id |
| Streams.GetStreamList | gui/qt5/qt5_gui.py:214-231 | seeding happens exactly when the list is empty; the result holds each listed stream's data dictionary, in list order |
| Streams.GetStreamMessages | gui/qt5/qt5_gui.py:233-251 | an unknown name gives []; otherwise there is one view per message of the stream (after refresh, if requested), in order, each with that message's text and user name |
| Streams.ViewOf | gui/qt5/qt5_gui.py:242-245 | the dictionary for one message: its full text under "text" and its user's screen name under "username" |
| SearchTracking.GetSearchFunction | gui/qt5/qt5_gui.py:314-328 | a function exactly when online and the id is "address", "wikipedia" or "local"; the function returned serves that id |
| SearchTracking.SearchFunctionsAreDistinct | gui/qt5/qt5_gui.py:314-326 | each search function is returned for its own id, and different functions serve different ids |
| SearchTracking.Untrack | gui/qt5/qt5_gui.py:303-304 | the handle is no longer tracked; all other entries are kept with their ids |
| SearchTracking.Recipient | gui/qt5/qt5_gui.py:309-310 | a recipient exactly when the handle is tracked under a non-empty search id, and it is that id |
| SearchTracking.UntrackIsIdempotent | gui/qt5/qt5_gui.py:296-304 | removing an entry again changes nothing, so an entry is removed at most once |
| SearchTracking.UntrackUndoesTrack | gui/qt5/qt5_gui.py:280-304 | removing a freshly added entry restores the tracker |
| SearchTracking.RecipientFollowsTracking | gui/qt5/qt5_gui.py:306-312 | a started search receives its thread's status; after its entry is removed it receives nothing; other recipients are unaffected |
| SearchTracking.Search.constructor | gui/qt5/qt5_gui.py:257-261 | the tracker starts empty and nothing has been sent |
| SearchTracking.Search.StartSearch | gui/qt5/qt5_gui.py:263-281 | offline: `Offline` and no change; unknown id: `NoSearchFunction` and no change; otherwise the launched thread's name is returned and mapped to the search id, with the rest of the tracker unchanged |
| SearchTracking.Search.SearchCallback | gui/qt5/qt5_gui.py:283-297 | exactly one event is sent, on the result prefix plus the search id, carrying every result formatted in order; then only the current thread's entry is removed |
| SearchTracking.Formatted | gui/qt5/qt5_gui.py:287-289 | the result list: `point2dict` of every result, in order |
| SearchTracking.Search.CancelSearch | gui/qt5/qt5_gui.py:299-304 | cancellation is always requested; the handle's entry is removed if present, and every other entry is unchanged |
| SearchTracking.Search.ThreadStatusCallback | gui/qt5/qt5_gui.py:306-312 | the tracker is unchanged; one status event on the status prefix plus the search id when the thread has a recipient, none otherwise |
| Db.Matches | core/db.py:56 | every match is a stored record satisfying the query, and every such record is a match |
| Db.LoadOne | core/db.py:43 | DoesNotExist exactly when no record satisfies the query; MultipleObjectsReturned exactly when more than one does; a record is loaded exactly when it is the only match |
| Db.Upsert | core/db.py:71 | the saved record is stored; records with other keys are kept; nothing else is added; keys stay unique |
| Db.PkQueryMatchesOne | core/db.py:43-44 | in a store with unique keys, the query for a stored record's key matches only that record |
| Db.SaveThenLoad | core/db.py:69-71 | after saving a record, a get by its primary key loads that record |
| Db.SaveKeepsOthers | core/db.py:69-71 | saving a record does not change what a get by another stored key loads |
| Db.CustomFileBackend.constructor | core/db.py:35-37 | the registry starts empty over the store found at the path |
| Db.CustomFileBackend.Load | core/db.py:43 | the backend's get: a new instance of the only matching record, or its error |
| Db.CustomFileBackend.LoadAll | core/db.py:56 | the backend's filter: a new instance of every match, in store order |
| Db.CustomFileBackend.Get | core/db.py:39-51 | single instance: the registered instance for the loaded key if there is one (registry unchanged), otherwise the new instance, now registered; not single instance: a new instance and no registration; errors change nothing; the registry only grows |
| Db.CustomFileBackend.Filter | core/db.py:53-67 | not single instance: every match as a new instance; single instance: None for no match, the registered instance alone for a registered first match, and the line-63 error otherwise |
| Db.CustomFileBackend.Save | core/db.py:69-80 | the store always receives the document; single instance registers it only when its key is unregistered, and otherwise keeps the existing instance; the registry only grows |
| Db.Document.constructor | core/db.py:43-48 | a loaded document instance carries the record's primary key and attributes |
| Db.SingleInstanceClient | core/db.py:39-49 | two single-instance gets with any one query give the same result, and on success the very same object |
| Db.SaveThenGet | core/db.py:39-49 | after a single-instance save of a document whose key is unregistered, a single-instance get by its key returns that very object |
| Db.DatabaseManager.constructor | core/db.py:85-88 | no main database yet |
| Db.DatabaseManager.MainDatabase | core/db.py:90-94 | the first call creates the backend under the profile's "main_db" folder; every later call returns the same backend |

## Left out

- UI I/O is not modelled:
  - `pyotherside.send` is recorded only in the ghost log `Search.sent`.
  - `set_image_provider`, `format_data`, notifications, the window state, the screen size and `_get_startup_values` are left out.
- Threads are not modelled. The name of the thread that runs a callback is a parameter. `threadMgr.cancel_thread` is recorded in the ghost log `Search.cancelRequests` and has no other effect. The registration with `threadStatusChanged` is left out.
- The online services are a parameter. `launch` stands for calling the chosen asynchronous search function, and it returns the new thread's name.
- SearchTracking.Search.SearchCallback: `SEARCH_RESULT_PREFIX`, `SEARCH_STATUS_PREFIX` and `point2dict` are not defined in `gui/qt5/qt5_gui.py`, so as written the callbacks stop with a NameError before sending anything. The model gives the evidently intended behaviour: the prefixes are constructor parameters and `point2dict` is a function parameter.
- SearchTracking.Search.ThreadStatusCallback: it uses the same undefined `SEARCH_STATUS_PREFIX` name. It is modelled as intended, like the result callback above.
- The `core.stream` stream manager is not part of this model. Its stream list and its name-to-stream dictionary are inputs. So is what `add_initial_streams()` seeds, and what `refresh()` leaves in a stream. The stream ordering, merging and de-duplication are therefore not modelled.
- Python truthiness is simplified:
  - Stream objects, documents and backends are taken to be always true.
  - An empty search id counts as false, as it does in Python.
- Logging is left out everywhere. So are the `ImageProvider` base stub, `open_url`, the `Tsubame` class and the requested image size, which the icon provider ignores.
- IconProvider.GetImage: its `except Exception` branch is not modelled. The theme folder is always a string here, so nothing in the path logic raises. The file system is two parameters: `isFile` and `readFile`.
- Qt5Gui.SelectImageProvider: its `AttributeError` branch cannot happen, because no registered provider is None. Any other exception from a provider falls under GetImage above.
- The blitzdb backend is abstract:
  - The store is a sequence of records, one per primary key, kept in the backend's listing order.
  - A query is a predicate on records.
  - Hooks (`call_hook`), `initial_keys`, collections and classes, transactions and `commit`, and primary-key generation are left out.
  - A document's primary key never changes.
- `DatabaseManager.commit_all` is left out. It iterates over one backend object as if it were a list, and it relies on blitzdb's `commit`.
- Db.DatabaseManager.MainDatabase: what the `main_db` folder already holds is a parameter, and the model requires it to have unique primary keys, as a file store keyed by primary key does.
