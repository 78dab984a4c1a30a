# DIYbyt scheduling, playlist and sync core in Dafny

DIYbyt drives an LED matrix from Pixlet "star programs". Three processes share
one metadata document, `program_metadata.json`, which maps each program name to
a record with the optional fields `enabled`, `duration`, `durationUnit`,
`order`, `refresh_rate` and `config`:

- the **sync service** watches the local program directory. It hashes the
  directory and, when the digest has changed, uploads an archive of the
  directory to the render server;
- the **render server** unpacks the archive and runs `update_render_tasks`.
  This starts one periodic `pixlet render` task per enabled program whose file
  is present, and gives those tasks the slots `slot0.gif`, `slot1.gif`, … in
  metadata order;
- the **display** loads the metadata and builds a playlist of the enabled
  programs. It numbers them `slot0.gif`, `slot1.gif`, … in metadata order,
  sorts the playlist stably by `order`, and fetches each slot's GIF from the
  server.

The model has these modules:

- `Json`: decoded JSON values, with objects as ordered member lists. It also
  holds the Python operations the programs apply to them: truthiness,
  `dict.get`, `str()` and `int()`.
- `Decimal`: decimal numerals.
- `Metadata`: the `enabled` convention and the slot file name.
- `Renderer`: `render_app`, `copy_to_slot`, one round of `continuous_render`,
  and `update_render_tasks`. The module-level task table is a class with a map
  field.
- `Display`: `load_program_metadata`, the loops branch of `display_gif`, and the
  GIF URL built in `main`.
- `Sync`: file selection, path ordering, and chunked hashing in
  `calculate_directory_hash`; `create_zip_archive`; the `last_hash` gate of
  `sync_to_server` (a class with one field); and the `on_any_event` filter.
- `SlotAgreement`: compares the server's slot numbering with the display's.
  The two agree exactly when every enabled program's file is present on the
  server. When a file is missing, the server does not give that program a slot
  but the display still does, so the display fetches later programs' GIFs from
  the wrong slots. This follows from the code as written.

Two conventions matter throughout:

- An absent `enabled` reads as false, both on the server
  (pixlet_renderer.py:149) and on the display (DIYbyt_Display.py:98).
- A program without an `order` sorts as 999 (DIYbyt_Display.py:104).

The web editor's program registry (listing, saving and reordering programs) is
not part of this model.

Effects are inputs to the model:

- The metadata file is an `Option<Json>` or a `MetadataFile`.
- The files present in the server's cache are a set of names.
- The watched directory is the sequence of entries `rglob('*')` yields.
- SHA-256 is a function parameter.
- How the `pixlet` process ended is a `Launch` value.
- The HTTP response is a `Response` value.

## Model

| member | source | states |
|---|---|---|
| Json.Truthy | DIYbyt-Server/pixlet_renderer.py:56 | Python truthiness of a decoded value: `null`, `false`, `0`, `""`, `[]` and `{}` are false, everything else is true |
| Json.Lookup | DIYbyt-Server/pixlet_renderer.py:149 | `dict.get` finds nothing exactly when no member has the key; otherwise it returns the value of a member with that key |
| Json.GetOr | DIYbyt-Server/pixlet_renderer.py:158 | `d.get(key, default)` is the value bound to `key`, or `default` when no member has that key |
| Json.PyStr | DIYbyt-Server/pixlet_renderer.py:58 | the text an f-string inserts for a value: `None`, `True`/`False`, the decimal numeral of a number, the string itself, and bracketed lists and dicts of the items' reprs |
| Json.PyRepr | DIYbyt-Server/pixlet_renderer.py:58 | how a value inside a list or dict is shown: a string quoted, every other value as `str()` shows it |
| Json.QuoteString | DIYbyt-Server/pixlet_renderer.py:58 | `repr` of a string: the string between single quotes |
| Json.PyInt | DIYbyt-Client/src/components/DIYbyt_Display.py:54 | `int(v)`: numbers as they are, booleans as 1 and 0, strings parsed as decimal numerals, and an error for everything else; `PyIntOfPyStr` proves it inverts `PyStr` on numbers within Python's 4300-digit limit |
| Decimal.ParseInt | DIYbyt-Client/src/components/DIYbyt_Display.py:54 | `int(s)` on a string: optional surrounding whitespace, an optional sign and between 1 and 4300 decimal digits, and an error otherwise; `IntToStringRoundTrip` proves it reads back every numeral `str` writes within that limit, and raises past it |
| Json.PyIntOfDefaultDuration | DIYbyt-Client/src/components/DIYbyt_Display.py:102 | an example: the default duration `'30'` converts with `int()` to 30 |
| Json.PyIntOfPyStr | DIYbyt-Client/src/components/DIYbyt_Display.py:54 | `int(str(n)) == n` for every integer n of at most 4300 digits, which includes every integer `json.load` yields; past the limit `int()` raises |
| Decimal.NatToString | DIYbyt-Server/pixlet_renderer.py:89 | `str(n)` for a non-negative int: the shortest decimal numeral, starting with `0` only for 0; `NatToStringRoundTrip` and `NatToStringInjective` prove it names n and no other number |
| Decimal.IntToString | DIYbyt-Server/pixlet_renderer.py:58 | `str(n)` for any int: a `-` before the numeral of a negative number |
| Decimal.IsSpace | DIYbyt-Client/src/components/DIYbyt_Display.py:54 | the whitespace `int()` skips around a numeral: space and the characters 9 to 13 |
| Decimal.ParseIntDigits | DIYbyt-Client/src/components/DIYbyt_Display.py:54 | a bare numeral reads as its value when it has at most 4300 digits, and `int()` raises for a longer one |
| Metadata.SlotFileName | DIYbyt-Server/pixlet_renderer.py:89 | `slot{n}.gif` starts with `slot` and ends with `.gif` |
| Metadata.IsEnabled | DIYbyt-Server/pixlet_renderer.py:149 | `config.get("enabled", False)` is truthy; the same test the display applies at DIYbyt_Display.py:98 |
| Metadata.SlotFileNameInjective | DIYbyt-Client/src/components/DIYbyt_Display.py:105 | distinct slot numbers give distinct file names |
| Renderer.SlotPath | DIYbyt-Server/pixlet_renderer.py:89 | the file `copy_to_slot` writes for slot n, `gifs/slot{n}.gif` |
| Renderer.RenderApp | DIYbyt-Server/pixlet_renderer.py:51-84 | the argument vector is `pixlet render <app>`, then one `key=value` per config member in config order, then `--gif -o <out>`, so it has 6 + \|config\| elements; building it fails exactly when the config is truthy but not a dict; the result is true exactly when the vector was built and pixlet exited with 0 |
| Renderer.KeyValueArg | DIYbyt-Server/pixlet_renderer.py:58 | one `key=value` argument, the value shown as `str()` shows it |
| Renderer.SlotPathInjective | DIYbyt-Server/pixlet_renderer.py:86-95 | two slots never copy to the same file under `gifs/` |
| Renderer.TempOutput | DIYbyt-Server/pixlet_renderer.py:100 | the file a task renders to before copying: `<temp dir>/<program name>.gif` |
| Renderer.RenderConfig | DIYbyt-Server/pixlet_renderer.py:107 | a task renders with its record's `config`, or `{}` when the record has none |
| Renderer.RenderRound | DIYbyt-Server/pixlet_renderer.py:100-108 | one render pass writes a file only if it rendered successfully and the copy succeeded, and the file it writes is its own slot's `gifs/slot{n}.gif` |
| Renderer.NewTask | DIYbyt-Server/pixlet_renderer.py:152-170 | a task carries its program's name, the path `star_programs_cache/<name>`, its slot, its record, and `refresh_rate` defaulting to 60 |
| Renderer.Scheduled | DIYbyt-Server/pixlet_renderer.py:149-155 | the server's selection: the record is a dict, it is enabled, and the program file is present |
| Renderer.PlanOf | DIYbyt-Server/pixlet_renderer.py:148-172 | the tasks the loop creates in order, each enabled entry whose file exists getting the next slot, and whether the loop stopped on a record that is not a dict; the `Plan…` lemmas below state its properties |
| Renderer.TableOf | DIYbyt-Server/pixlet_renderer.py:171 | the table after `render_tasks[name] = task` for each task in turn; its keys are exactly the tasks' names, and a later task replaces an earlier one with the same name |
| Renderer.PlanFailure | DIYbyt-Server/pixlet_renderer.py:148-150 | the loop over the metadata raises exactly when some record is not a dict |
| Renderer.PlanSlots | DIYbyt-Server/pixlet_renderer.py:146-172 | the k-th task created gets slot k, so slots are 0, 1, 2, … with no gaps |
| Renderer.PlanSelection | DIYbyt-Server/pixlet_renderer.py:148-172 | without an error, there is one task per enabled entry whose file exists, and the entry with k such entries before it gets slot k; skipped entries consume no slot |
| Renderer.PlanTasksScheduled | DIYbyt-Server/pixlet_renderer.py:149-155 | every task belongs to an entry that is a dict, is enabled, and has its file present |
| Renderer.TableKeys | DIYbyt-Server/pixlet_renderer.py:171 | without an error, the task table's keys are exactly the names of the enabled entries whose file exists |
| Renderer.TableSlots | DIYbyt-Server/pixlet_renderer.py:166-171 | with distinct keys, the table maps each scheduled name to its own task, whose slot counts the scheduled entries before it |
| Renderer.RenderScheduler.constructor | DIYbyt-Server/pixlet_renderer.py:45 | the task table starts empty, no task identity has been issued and nothing is cancelled |
| Renderer.RenderScheduler.CancelAll | DIYbyt-Server/pixlet_renderer.py:138-142 | every registered task's identity is added to the cancelled ones, and the table is cleared |
| Renderer.RenderScheduler.StartTasks | DIYbyt-Server/pixlet_renderer.py:146-172 | the table becomes exactly the tasks created before any error; the task in slot k gets the k-th identity issued by the call, so no two registered tasks share one; the call raises exactly when a record is not a dict |
| Renderer.RenderScheduler.UpdateRenderTasks | DIYbyt-Server/pixlet_renderer.py:127-176 | a missing metadata file changes nothing and returns normally; an unreadable one raises and changes nothing; otherwise every old task is cancelled, the table becomes exactly the tasks created before any error, each registered under a newly issued identity that was never cancelled, and the call raises exactly when the document or one of its records is not a dict |
| Display.MakeProgram | DIYbyt-Client/src/components/DIYbyt_Display.py:99-106 | a playlist entry takes its name and slot from its position, and takes `duration`, `durationUnit` and `order` from the record, defaulting to `'30'`, `'seconds'` and 999 |
| Display.Shown | DIYbyt-Client/src/components/DIYbyt_Display.py:95-98 | the display's selection: not `_config`, a dict, and enabled |
| Display.Collect | DIYbyt-Client/src/components/DIYbyt_Display.py:93-107 | the list the loop collects, or an error: entries other than `_config` that are enabled, in metadata order, each built by `MakeProgram` with the count of earlier collected entries as its slot; the `Collect…` lemmas below state its properties |
| Display.CollectFailure | DIYbyt-Client/src/components/DIYbyt_Display.py:93-98 | the loop raises exactly when some entry other than `_config` is not a dict |
| Display.CollectSlots | DIYbyt-Client/src/components/DIYbyt_Display.py:99-105 | before sorting, the k-th collected entry is named `slot{k}.gif` |
| Display.CollectLength | DIYbyt-Client/src/components/DIYbyt_Display.py:98-107 | one entry is collected per enabled entry other than `_config` |
| Display.CollectDescribed | DIYbyt-Client/src/components/DIYbyt_Display.py:93-107 | the enabled entry with k shown entries before it becomes the k-th collected entry, with slot k and its own defaults-filled fields |
| Display.CollectFromShown | DIYbyt-Client/src/components/DIYbyt_Display.py:95-98 | every collected entry comes from an enabled entry, and none is named `_config` |
| Display.SortByOrder | DIYbyt-Client/src/components/DIYbyt_Display.py:110 | a stable insertion sort on the numeric value of `order`; the four `SortByOrder…` lemmas below prove it is sorted, a permutation, slot-preserving and stable, and `SortByOrderUnique` proves that sorted and stable determine Python's `sorted` result |
| Display.NumericOrder | DIYbyt-Client/src/components/DIYbyt_Display.py:110 | the orders Python compares as numbers: numbers, and bools as 0 and 1 |
| Display.OrderKey | DIYbyt-Client/src/components/DIYbyt_Display.py:104 | the number an order compares as |
| Display.OrdersComparable | DIYbyt-Client/src/components/DIYbyt_Display.py:110 | whether `sorted(..., key=order)` can compare the orders at all: true for at most one entry, otherwise only when every order is a number or a bool |
| Display.SortByOrderSorted | DIYbyt-Client/src/components/DIYbyt_Display.py:110 | the sorted playlist is in ascending `order` |
| Display.SortByOrderPermutes | DIYbyt-Client/src/components/DIYbyt_Display.py:110 | the sorted playlist is a permutation of the collected entries |
| Display.SortByOrderKeepsSlots | DIYbyt-Client/src/components/DIYbyt_Display.py:110 | sorting keeps the multiset of slot names |
| Display.SortByOrderStable | DIYbyt-Client/src/components/DIYbyt_Display.py:110 | the sort is stable: for every order value, the entries with that order keep their relative order |
| Display.SortedStableUnique | DIYbyt-Client/src/components/DIYbyt_Display.py:110 | two arrangements in ascending `order` that list each order's entries in the same relative order are equal |
| Display.SortByOrderUnique | DIYbyt-Client/src/components/DIYbyt_Display.py:110 | every arrangement of the collected entries that is sorted by `order` and keeps equal orders in input order is the model's sort result, so it is the list `sorted` returns |
| Display.ServerUrl | DIYbyt-Client/src/components/DIYbyt_Display.py:89 | with a dict `_config`, the URL is its `render_server_url` when that key is present and `http://localhost:8000` otherwise; without `_config` it is `http://localhost:8000`; the lookup raises exactly when `_config` is present but not a dict |
| Display.Loaded | DIYbyt-Client/src/components/DIYbyt_Display.py:84-110 | the successful result of the load: the document must be a dict, the URL lookup and the loop must not raise, and the orders must be comparable; then it is the URL and the sorted collected list |
| Display.LoadProgramMetadata | DIYbyt-Client/src/components/DIYbyt_Display.py:82-114 | returns the configured URL and the sorted playlist when nothing raises, and `('http://localhost:8000', [])` otherwise |
| Display.Playlist | DIYbyt-Client/src/components/DIYbyt_Display.py:93-110 | the returned playlist never lists `_config`; it is a sorted, stable permutation of the enabled entries with one entry per enabled entry; its slots are `slot0.gif` … `slot{k-1}.gif`, each used once |
| Display.FirstSlotsDistinct | DIYbyt-Client/src/components/DIYbyt_Display.py:105 | the slot names `slot0.gif` … `slot{k-1}.gif` are pairwise distinct |
| Display.LoopCount | DIYbyt-Client/src/components/DIYbyt_Display.py:54 | the number of iterations of `range(int(duration))`: 0 when `int` raises or the count is negative |
| Display.LoopsMode | DIYbyt-Client/src/components/DIYbyt_Display.py:52 | `duration_unit == "loops"`: only the string `"loops"` selects the loops branch |
| Display.Loops | DIYbyt-Client/src/components/DIYbyt_Display.py:54-55 | the frames `count` loops show, `range(n)` repeated `count` times; `LoopsLength` and `LoopsAt` state it |
| Display.LoopsLength | DIYbyt-Client/src/components/DIYbyt_Display.py:54-55 | `count` loops over an n-frame GIF show count·n frames |
| Display.LoopsAt | DIYbyt-Client/src/components/DIYbyt_Display.py:54-59 | loop r shows frame f at position r·n + f: frames 0…n-1 in order, repeated |
| Display.LoopsModeOfRecord | DIYbyt-Client/src/components/DIYbyt_Display.py:52 | a program plays in loops mode exactly when its record's `durationUnit` is the string `"loops"`; the default `'seconds'`, other spellings and non-strings take the seconds branch |
| Display.PlayLoops | DIYbyt-Client/src/components/DIYbyt_Display.py:52-61 | loops mode shows `Loops(int(duration), n)`, and nothing when `int` raises or the count is negative |
| Display.GifUrl | DIYbyt-Client/src/components/DIYbyt_Display.py:138 | `f"{server_url}/gifs/{slot}"`, with the server URL shown as `str()` shows it |
| Display.GifUrlInjective | DIYbyt-Client/src/components/DIYbyt_Display.py:138 | distinct slots are fetched from distinct URLs |
| Sync.IsSynced | DIYbyt-Sync/sync_service.py:72 | the file filter: a regular file whose own name does not start with `.`; a file inside a hidden directory passes |
| Sync.NameLess | DIYbyt-Sync/sync_service.py:70 | how `sorted` compares two path components: code point by code point, a proper prefix first |
| Sync.PathLess | DIYbyt-Sync/sync_service.py:70 | how `sorted` compares two relative paths: component by component, a proper prefix first |
| Sync.SelectFiles | DIYbyt-Sync/sync_service.py:70-73 | the entries that pass the filter, in enumeration order; `SelectFilesMultiset` and `SelectFilesSubset` state it |
| Sync.SelectFilesMultiset | DIYbyt-Sync/sync_service.py:70-73 | the selected entries are exactly the regular files whose own name does not start with `.`, each with its multiplicity |
| Sync.SelectFilesSubset | DIYbyt-Sync/sync_service.py:71-72 | every selected entry was enumerated and passes the filter |
| Sync.PathLessTotal | DIYbyt-Sync/sync_service.py:70 | the path order compares any two distinct paths |
| Sync.PathLessTransitive | DIYbyt-Sync/sync_service.py:70 | the path order is transitive |
| Sync.SortByPath | DIYbyt-Sync/sync_service.py:70 | insertion sort by path; `SortByPathSorted` and `SortedByPathUnique` prove it yields the one path-sorted permutation |
| Sync.SortByPathSorted | DIYbyt-Sync/sync_service.py:70-73 | the sorted files are in path order and are a permutation of the selected files |
| Sync.SortedByPathUnique | DIYbyt-Sync/sync_service.py:70 | when paths identify entries, only one path-sorted arrangement of a multiset of entries exists |
| Sync.Feed | DIYbyt-Sync/sync_service.py:75-82 | for each file in turn, its relative path followed by its bytes, with no separator |
| Sync.RelPathBytes | DIYbyt-Sync/sync_service.py:77 | `str(file_path.relative_to(root)).encode()`: the components joined by `/` |
| Sync.HashedFiles | DIYbyt-Sync/sync_service.py:70-73 | the files hashed, in hashing order: the selected files sorted by path |
| Sync.HashInput | DIYbyt-Sync/sync_service.py:70-82 | everything the hasher receives: `Feed` over the selected files in path order |
| Sync.FeedInChunks | DIYbyt-Sync/sync_service.py:80-82 | reading a file in chunks of at most 8192 bytes and feeding each one hands the hasher exactly the file's bytes, appended to what it had |
| Sync.CalculateDirectoryHash | DIYbyt-Sync/sync_service.py:65-84 | the digest is SHA-256 of the concatenation, over the selected files in path order, of each relative path followed by the file's bytes; feeding the bytes in 8192-byte chunks does not change it |
| Sync.HashInputIgnoresEnumerationOrder | DIYbyt-Sync/sync_service.py:69-73 | two enumerations of the same entries give the same hash input |
| Sync.Archive | DIYbyt-Sync/sync_service.py:93-96 | the archive has one member per selected file, in enumeration order, named by its relative path |
| Sync.MemberOf | DIYbyt-Sync/sync_service.py:95-96 | the archive member of a file: named by its relative path, holding its bytes |
| Sync.CreateZipArchive | DIYbyt-Sync/sync_service.py:86-98 | returns exactly those archive members |
| Sync.HashAndArchiveSelectSameFiles | DIYbyt-Sync/sync_service.py:70-96 | the hash reads a permutation of the files the archive holds, and these are exactly the enumerated files that pass the filter |
| Sync.SyncStep | DIYbyt-Sync/sync_service.py:103-124 | one sync from a given `last_hash`: no upload when the digest equals it, and otherwise an upload, recording the digest only on 200; the four lemmas below state it |
| Sync.UnchangedDigestSkipsUpload | DIYbyt-Sync/sync_service.py:103-105 | an unchanged digest sends nothing; a changed one uploads |
| Sync.LastHashRecordedOnlyOn200 | DIYbyt-Sync/sync_service.py:120-124 | `last_hash` changes only to the digest just uploaded, and only on status 200 |
| Sync.FirstSyncUploads | DIYbyt-Sync/sync_service.py:61 | `last_hash` starts as None, so the first sync always uploads |
| Sync.RepeatedSync | DIYbyt-Sync/sync_service.py:100-130 | after an upload, syncing the same tree again sends nothing exactly when the first upload was answered with 200 |
| Sync.SyncService.constructor | DIYbyt-Sync/sync_service.py:61 | a new service has no `last_hash` |
| Sync.SyncService.SyncToServer | DIYbyt-Sync/sync_service.py:100-130 | hashes the tree; uploads the archive exactly when the digest differs from `last_hash`; records the digest only on 200 |
| Sync.PassesEventFilter | DIYbyt-Sync/sync_service.py:38 | the filter at the head of `on_any_event`: an event passes unless it is about a directory or its path ends in `.tmp` |
| Sync.FileEvent | DIYbyt-Sync/sync_service.py:35 | the event for a change to a file under the watched root: not a directory event, with path `<root>/<relative path>` |
| Sync.TmpFileHashedButIgnored | DIYbyt-Sync/sync_service.py:38-39 | a non-hidden regular file named `*.tmp` passes the hash and archive filter, so it is hashed and archived, but the event for a change to it never passes the filter of `on_any_event`; only the periodic check at sync_service.py:151-153 picks it up |
| Sync.UnsyncedChangeSendsNothing | DIYbyt-Sync/sync_service.py:72 | adding a file the filter skips, such as a hidden one, leaves the hash input unchanged, so after an accepted upload the sync it leads to sends nothing |
| Sync.FileEventPassesFilter | DIYbyt-Sync/sync_service.py:38 | the event for a regular file passes the filter of `on_any_event` exactly when the file's own name does not end in `.tmp` |
| Sync.AtomicSaveFiltered | DIYbyt-Sync/sync_service.py:38 | for a rename from `<name>.tmp` to a synced file `<name>`, the event's `src_path` is the old name, so the filter drops it although the change reaches the hash |
| Sync.HiddenFilePassesFilter | DIYbyt-Sync/sync_service.py:38 | a change to any hidden regular file whose name does not end in `.tmp`, such as `.env`, passes the filter of `on_any_event`, although the filter keeps that file out of the hash |
| Sync.DirectoryEventsIgnored | DIYbyt-Sync/sync_service.py:38-39 | directory events never pass the filter of `on_any_event` |
| SlotAgreement.FewerScheduled | DIYbyt-Server/pixlet_renderer.py:149-155 | the server schedules at most as many programs as the display lists, and fewer when an enabled program's file is missing |
| SlotAgreement.SameSlotsWhenFilesPresent | DIYbyt-Server/pixlet_renderer.py:146-172 | when every enabled program's file is present, the server's (program, slot) list equals the display's list before sorting |
| SlotAgreement.SlotAssignmentsAgree | DIYbyt-Client/src/components/DIYbyt_Display.py:98-105 | for documents of dicts with no enabled `_config`, the server's and the display's (program, slot) lists are equal exactly when every enabled program's file is present on the server |
| SlotAgreement.GifUrlFetchesRenderedSlot | DIYbyt-Client/src/components/DIYbyt_Display.py:138 | the display fetches slot n from `<server>/gifs/slot{n}.gif`, the path the server copies slot n to |

## Left out

- Display.Loaded, Display.OrdersComparable: when two or more orders are all strings or all lists, the model treats the load as failed and returns an empty playlist, but Python sorts them. The orders are meant to be integers. In every other case the model agrees with Python: numbers and bools sort, and mixed types, all `null` or all dicts raise TypeError.
- Json.PyStr: strings inside lists and dicts are shown between single quotes without Python's escaping or its choice of double quotes.
- Decimal.ParseInt: accepts only ASCII digits, and as surrounding whitespace only the six ASCII whitespace characters (space, tab, line feed, vertical tab, form feed, carriage return). Python's `int()` also accepts `_` separators, other Unicode digits, and non-ASCII spaces such as U+0085 and U+00A0; like the model, it rejects U+001C through U+001F, and numerals of more than 4300 digits (Python 3.11's default limit). Json.PyInt, Display.LoopCount and Display.PlayLoops inherit these bounds.
- Json: JSON floats are not modelled, and object keys are assumed distinct. `JNum` is unbounded, although `json.load` rejects integers of more than 4300 digits and `str()` raises on them; Json.PyStr does not model that `str()` error. Python keeps the last value of a duplicate key at the first key's position.
- Renderer.RenderApp: a missing `pixlet` executable and a launch that raises are both one `LaunchFailed` value. The process output and the log messages are not modelled.
- Renderer.RenderRound: models one iteration. The endless loop, the temporary-file cleanup, the 5-second retry after an error, and the sleep of `max(0.1, refresh_rate - elapsed)` are left out; they depend on wall-clock time and floating point.
- Renderer.NewTask: the program path is the string `star_programs_cache/<name>`. pathlib normalizes some names at pixlet_renderer.py:152 (the empty name, `.`, names with `//`, absolute names), and for those the model does not capture the real path. Whether the path exists is an input set of names.
- Renderer.RenderScheduler.UpdateRenderTasks: the existence of `star_programs_cache/<name>` is an input set of names. A render task never finishes on its own, so `task.done()` is always false; tasks are records of their arguments plus an identity issued from a counter, not running coroutines.
- `PixletRenderer.current_renders` is never read, and `copy_to_slot`'s file copy is I/O; `RenderRound` takes the copy's success as an input.
- The FastAPI endpoints (`/update` and the static GIF route), and the unpacking of the uploaded archive into the cache, are HTTP and file I/O.
- Sync.CalculateDirectoryHash: SHA-256 and `hexdigest` are a function parameter. A file that cannot be read is not modelled; in the source that exception ends `sync_to_server` through its handler.
- Sync.SyncToServer: the outcome of the POST is an input, either a status code or an exception. The archive's temporary file, its deletion and its compression are not modelled; the archive is its list of members.
- Sync: paths are sequences of UTF-8 name components, ordered component by component and joined with `/`. POSIX paths are assumed; this is how `sorted` orders `PosixPath` objects under one root, if the names hold no surrogate escapes. `WindowsPath` compares case-folded parts and `str()` joins them with `\`.
- Sync.SyncToServer: hashes and archives one enumeration `dir`. The source enumerates the tree twice, once for the hash (sync_service.py:71) and once for the archive (sync_service.py:93). A change between the two uploads a tree other than the one whose digest is recorded in `last_hash`; the model does not capture this.
- `StarProgramsHandler.on_any_event` after its filter is not modelled. Watchdog calls it on the observer's thread. There `asyncio.create_task(self.debounce_sync())` (sync_service.py:46) finds no running event loop and raises. As written, then, an event that passes the filter never leads to a sync: only the start-up sync and the periodic check upload. The 2-second debounce, `SyncService.start`/`stop`, the observer and the periodic check loop are asyncio and timing; only the event filter is modelled.
- Sync.FileEvent: covers events whose `src_path` is the changed file. For a move, `src_path` is the old name, and destination paths are not modelled; Sync.AtomicSaveFiltered states the one consequence proved.
- The display's seconds mode, the frame delays, the image decoding, `get_gif_from_server`, `setup_matrix` and the retry sleeps in `main` depend on wall-clock time, floating point or the hardware; only the loops-mode frame order and the URL are modelled.
- The web editor's program registry and the reconciliation of `order` after a reorder are not part of this model.
