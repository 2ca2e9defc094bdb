# Console core, modelled in Dafny

This project models the self-contained logic of the Redpanda Console
(formerly Kowl) repository, a web UI for Kafka with a React frontend and a
Go backend, and proves properties of that model:

- the frontend's general utilities (`frontend/src/utils/utils.ts`):
  - `groupConsecutive`, which splits partition ids into runs of consecutive values;
  - `assignDeep`, the recursive settings merge with its key and type filters;
  - `findElementDeep`, the depth-first property search with a shared path stack and an early abort;
  - the clock-driven `TimeSince`, `Cooldown` and `Timer` classes;
  - the get-or-create `LazyMap`;
  - the string helpers `cullText` and `titleCase`, and `hoursToMilliseconds`;
- the validation of a websocket "list messages" request and its translation into the message-listing service's request
  (`backend/pkg/api/handle_topic_messages.go`);
- the Snowflake connector hook that checks the value converter in a Kafka Connect validation response
  (`backend/pkg/connector/interceptor/snowflake_hook.go`);
- the Git service configuration's validation rule and defaults (`backend/pkg/git/config.go`).

Files:

| file | module | contents |
|---|---|---|
| `wrappers.dfy` | `Wrappers` | `Option` and `Result` |
| `go_ints.dfy` | `GoInts` | Go's `int64`, `int32` and `uint16` as subset types |
| `js_values.dfy` | `JsValues` | JSON-like JavaScript values, `typeof`, truthiness, property read and write |
| `assign_deep.dfy` | `AssignDeep` | the deep merge: a specification function and the loop that computes it |
| `find_element.dfy` | `FindElement` | the deep search: a specification function, the search context class and its recursive methods |
| `group_consecutive.dfy` | `GroupConsecutive` | the run split and its uniqueness |
| `timers.dfy` | `Timers` | `TimeSince`, `Cooldown` and `Timer` as classes |
| `lazy_map.dfy` | `LazyMaps` | `LazyMap` as a class over a `map` field |
| `text.dfy` | `Text` | `cullText`, `titleCase`, `hoursToMilliseconds` |
| `topic_messages.dfy` | `TopicMessages` | the request check and the request mapping |
| `snowflake_hook.dfy` | `SnowflakeHook` | config lookup and the hook, in place on an array |
| `git_config.dfy` | `GitConfig` | the configuration class, `Validate` and `SetDefaults` |

Modelling choices:

- `Date.now()` is an explicit `now: int` argument, in milliseconds.
- A JavaScript object is its list of enumerable properties in `for ... in` order. Each property records whether it is
  the object's own property or one inherited through the prototype chain. Reading `obj[key]` takes the first property
  with that key. Writing it replaces that first property or appends a new own property.
- `typeof null` is `"object"`, as in JavaScript. This is why a `null` source entry over an object in the target
  merges nothing.
- The case-insensitive comparison of `findElementDeep` goes through a locale collator. It is a function parameter
  `collatorEquals`.
- `Repository.Validate()` in the Git configuration is a function parameter of `Validate`. The repository, basic-auth
  and SSH sub-configurations are type parameters.
- A Go slice copied with a struct still shares its elements with the caller. The Snowflake hook's config list is
  therefore an `array` inside the response value, and the hook edits it in place.
- Edge cases the model follows the code on:
  - `groupConsecutive`'s only caller sorts the ids first (`frontend/src/components/pages/GroupDetails.tsx:264`). The
    function itself never relies on the order, and the model accepts any list of integers.
  - `cullText` shortens a string that is longer than a length below 3 to `"..."`, three characters long, because
    `substring` treats a negative end as 0.

## Model

| member | source | states |
|---|---|---|
| TopicMessages.Validate | backend/pkg/api/handle_topic_messages.go:92-110 | nil error exactly when the topic name is non-empty, the start offset is at least -2, the partition id at least -1 and max results between 1 and 500; otherwise the error of the first failing check, in the order topic, offset, partition, count |
| TopicMessages.PrepareListRequest | backend/pkg/api/handle_topic_messages.go:188-193 | succeeds exactly for a well-formed request, fails with the validation error otherwise, and on success copies topic name, partition id, start offset and max results (as message count) into the service request, which then meets the bounds |
| TopicMessages.ToListMessageRequest | backend/pkg/api/handle_topic_messages.go:188-193 | the service request has the topic name, partition id and start offset of the decoded request, and its max results as message count |
| TopicMessages.RejectionMessage | backend/pkg/api/handle_topic_messages.go:159-168 | no message exactly for a well-formed request; otherwise "Failed to validate list message request: " followed by the text `OK()` returns for the first failing check (line 164) |
| TopicMessages.RejectionMessageIdentifiesCheck | backend/pkg/api/handle_topic_messages.go:92-110 | two requests get the same message exactly when validation gives them the same outcome, so the text tells which check failed |
| TopicMessages.SentinelsAccepted | backend/pkg/api/handle_topic_messages.go:87-103 | start offsets -1 (newest) and -2 (oldest) and partition id -1 (all partitions) pass validation |
| TopicMessages.MaxResultsBoundaries | backend/pkg/api/handle_topic_messages.go:89-107 | for the unsigned count, 0 and 501 are rejected while 1 and 500 are accepted |
| TopicMessages.FirstFailureDecides | backend/pkg/api/handle_topic_messages.go:93-107 | an empty topic name is reported even when the count is 0 too; a too-small offset is reported before a bad partition id and count |
| SnowflakeHook.AddValueErrors | backend/pkg/connector/interceptor/snowflake_hook.go:21 | the entry keeps its definition, name and value; the old errors come first, followed by the new ones |
| SnowflakeHook.FindConfig | backend/pkg/connector/interceptor/snowflake_hook.go:27-34 | None exactly when no entry has the name; otherwise the index of the first entry with it |
| SnowflakeHook.GetConfig | backend/pkg/connector/interceptor/snowflake_hook.go:27-34 | the loop returns the first-match index that FindConfig specifies |
| SnowflakeHook.HookedConfigs | backend/pkg/connector/interceptor/snowflake_hook.go:9-25 | length preserved; without a streaming ingestion method and a non-string converter the list is unchanged; otherwise only the first converter entry changes, by gaining the one error |
| SnowflakeHook.KafkaConnectToConsoleSnowflakeHook | backend/pkg/connector/interceptor/snowflake_hook.go:9-25 | returns the same response, whose config array now holds HookedConfigs of its old contents |
| SnowflakeHook.NoIngestionMethodUnchanged | backend/pkg/connector/interceptor/snowflake_hook.go:10-13 | with no ingestion-method entry the configs are returned untouched |
| SnowflakeHook.NoValueConverterUnchanged | backend/pkg/connector/interceptor/snowflake_hook.go:15-18 | with no value-converter entry the configs are returned untouched |
| SnowflakeHook.ErrorAttachedIff | backend/pkg/connector/interceptor/snowflake_hook.go:20-22 | the first converter entry gains the error exactly when the first ingestion entry is "snowpipe_streaming" and the converter is not the string converter; every other entry is unchanged |
| GitConfig.Config.constructor | backend/pkg/git/config.go:10-32 | the configuration holds the given field values |
| GitConfig.Config.Validate | backend/pkg/git/config.go:41-50 | disabled: no error whatever the other fields; enabled with a zero interval: the refresh-interval error; otherwise the repository's own validation result |
| GitConfig.Config.SetDefaults | backend/pkg/git/config.go:53-57 | refresh interval one minute, max file size 500000, keying by file name; enabled flag, extensions, repository and auth unchanged; afterwards Validate is nil when disabled and the repository's result when enabled |
| GitConfig.RefreshErrorMeansZeroInterval | backend/pkg/git/config.go:45-47 | the refresh-interval error is reported exactly for an enabled configuration with a zero interval, unless the repository check returns that same error |
| GitConfig.DefaultIntervalPassesRefreshCheck | backend/pkg/git/config.go:45-54 | with the default interval, validation is either nil or the repository's own result, never the refresh-interval error of its own |
| JsValues.TypeOf | frontend/src/utils/utils.ts:266-273 | "object" exactly for objects and null; "function", "symbol" and "undefined" exactly for functions, symbols and undefined |
| JsValues.TypeNamesDistinct | frontend/src/utils/utils.ts:266-273 | the names typeof returns differ between kinds, so the string comparisons with "function", "symbol" and "object" compare kinds |
| JsValues.Truthy | frontend/src/utils/utils.ts:273 | falsy exactly for undefined, null, false, 0 and the empty string |
| JsValues.TruthyObjectIsObj | frontend/src/utils/utils.ts:273 | a value that is truthy and of type "object" is exactly a non-null object |
| JsValues.Get | frontend/src/utils/utils.ts:259 | a key with no property reads as undefined |
| JsValues.GetFirst | frontend/src/utils/utils.ts:259 | reading a missing key gives undefined; reading a present one gives the value of the first property with that key |
| JsValues.Put | frontend/src/utils/utils.ts:274 | afterwards the key is present and reads the new value; every other key keeps its presence and its value |
| AssignDeep.AssignDeep | frontend/src/utils/utils.ts:253-288 | the loop over the source's entries, recursing into nested objects, returns exactly the merged target that Merged specifies |
| AssignDeep.MergedKeepsUntouchedKeys | frontend/src/utils/utils.ts:254-269 | a key whose source entries are all inherited, reserved (`__proto__`, `constructor`), functions or symbols keeps its target value and presence |
| AssignDeep.MergedKeepsKeys | frontend/src/utils/utils.ts:253-288 | the merge never removes a key from the target |
| AssignDeep.MergedEntryValue | frontend/src/utils/utils.ts:271-285 | an object or null source entry replaces a target entry that is not an object and is merged into one that is; any other value is stored as it is |
| AssignDeep.NullOverObjectUnchanged | frontend/src/utils/utils.ts:271-276 | a null source entry over an object in the target leaves that object as it was |
| AssignDeep.MergeExample | frontend/src/utils/utils.ts:253-288 | {a:1, b:{c:2}} merged with {b:{c:5, d:6}} gives {a:1, b:{c:5, d:6}} |
| FindElement.AbortIsFinal | frontend/src/utils/utils.ts:339-340 | once the properties searched so far have aborted, later properties add no result and the search stays aborted |
| FindElement.FoundPropertiesMatch | frontend/src/utils/utils.ts:322-328 | every result's name matches the target (exactly, when case-sensitive) and its path leads from the root to the object holding that property with that value |
| FindElement.FirstResultOnly | frontend/src/utils/utils.ts:326-341 | with returnFirstResult the search reports exactly the first, in pre-order, of the results of the same search without it (so at most one), and aborts exactly when that full search finds something |
| FindElement.AllMatchesFound | frontend/src/utils/utils.ts:316-345 | without returnFirstResult, a result is reported exactly for each matching property, with the path to it |
| FindElement.SearchExample | frontend/src/utils/utils.ts:316-345 | a case-insensitive first-result search for "TARGET" in {x:{y:{target:1}}} finds target under [x, y]; a case-sensitive one finds nothing |
| FindElement.SearchContext.constructor | frontend/src/utils/utils.ts:306-311 | a fresh context holds the target name, the options and an empty path stack and result list |
| FindElement.SearchContext.SearchDeep | frontend/src/utils/utils.ts:316-345 | the path stack is as it was on entry, the search's results are appended to the result list, and the abort signal is the one the specification computes |
| FindElement.SearchContext.VisitProperty | frontend/src/utils/utils.ts:319-341 | one turn of the loop: match test, snapshot of the path, descent with push and pop, in agreement with the specification |
| FindElement.FindElementDeep | frontend/src/utils/utils.ts:305-314 | the returned results are those of the specified search from the root with an empty path |
| GroupConsecutive.GroupConsecutive | frontend/src/utils/utils.ts:384-403 | the groups concatenate to the input in order; each group is non-empty and each element is its predecessor plus one; no group's first element continues the previous group; empty input gives no groups and only empty input does |
| GroupConsecutive.RunSplitUnique | frontend/src/utils/utils.ts:384-403 | any two splits of a list into maximal runs are equal, so the result is fully determined by those properties |
| GroupConsecutive.GroupExample | frontend/src/utils/utils.ts:384-403 | [1, 2, 3, 7, 8, 10] splits into [[1, 2, 3], [7, 8], [10]] |
| Timers.TimeSince.constructor | frontend/src/utils/utils.ts:77 | a new stopwatch is stamped now and reads 0 |
| Timers.TimeSince.Reset | frontend/src/utils/utils.ts:80-82 | after reset(to), the stopwatch reads `to` at the same instant |
| Timers.TimeSince.Value | frontend/src/utils/utils.ts:85-87 | the start stamp plus the reading is the clock |
| Timers.ValueAdvancesWithClock | frontend/src/utils/utils.ts:85-87 | the stopwatch reading grows exactly with the clock |
| Timers.Cooldown.constructor | frontend/src/utils/utils.ts:99-104 | the duration is stored; starting running stamps the trigger now, starting ready leaves it at 0 |
| Timers.Cooldown.TimeSinceLastTrigger | frontend/src/utils/utils.ts:107-109 | the trigger stamp plus the reading is the clock |
| Timers.Cooldown.TimeLeft | frontend/src/utils/utils.ts:112-117 | never negative; zero exactly when the duration has passed since the last trigger; otherwise now plus the time left is the end of the charge |
| Timers.Cooldown.IsReady | frontend/src/utils/utils.ts:120-122 | ready exactly when at least the duration has passed since the last trigger |
| Timers.Cooldown.Consume | frontend/src/utils/utils.ts:125-131 | succeeds exactly when the cooldown was ready or forced; then the trigger is stamped now, else nothing changes |
| Timers.Cooldown.SetReady | frontend/src/utils/utils.ts:134-136 | the trigger time becomes 0, so the cooldown is ready at any time from its duration on |
| Timers.Cooldown.Restart | frontend/src/utils/utils.ts:139-141 | the trigger is stamped now, so a cooldown with a positive duration is not ready |
| Timers.ReadyAgainAfterDuration | frontend/src/utils/utils.ts:107-122 | a cooldown triggered at `now` is ready at `later` exactly when the duration has passed, and until then reports the exact time left |
| Timers.ReadyCooldownConsumedTwice | frontend/src/utils/utils.ts:99-131 | a cooldown created ready and consumed twice at the same instant succeeds once and then fails |
| Timers.RunningCooldownNotReady | frontend/src/utils/utils.ts:99-122 | a cooldown created running with a positive duration is not ready right away |
| Timers.Timer.constructor | frontend/src/utils/utils.ts:148-155 | a started timer ends `duration` after now; a done one has target 0 |
| Timers.Timer.TimeLeft | frontend/src/utils/utils.ts:158-163 | never negative; zero exactly from the target on; before that now plus the time left is the target |
| Timers.Timer.IsDone | frontend/src/utils/utils.ts:169-171 | done exactly from the target on |
| Timers.Timer.IsRunning | frontend/src/utils/utils.ts:165-167 | running exactly before the target, that is when not done |
| Timers.Timer.Restart | frontend/src/utils/utils.ts:174-176 | the target becomes now plus the duration, so a timer with a positive duration runs with the whole duration left |
| Timers.Timer.SetDone | frontend/src/utils/utils.ts:179-181 | the target becomes 0, so the timer is done with no time left at any non-negative time |
| Timers.TimerCountsDown | frontend/src/utils/utils.ts:158-171 | before its target a timer stays running and its time left falls exactly with the clock |
| LazyMaps.LazyMap.constructor | frontend/src/utils/utils.ts:220-222 | a new cache is empty and keeps the default creator |
| LazyMaps.LazyMap.HandleMiss | frontend/src/utils/utils.ts:240-245 | the value comes from the given creator when there is one, otherwise from the default creator |
| LazyMaps.LazyMap.Get | frontend/src/utils/utils.ts:229-245 | a hit returns the stored value and changes nothing; a miss stores and returns the value of the given creator, or of the default creator when none is given; the key then maps to the returned value |
| LazyMaps.GetTwice | frontend/src/utils/utils.ts:229-245 | two lookups of the same key in a row return the same value, whatever creators they bring |
| Text.HoursToMilliseconds | frontend/src/utils/utils.ts:373-380 | the result is a whole number of 3,600,000 ms hours, and that number is the input |
| Text.CullText | frontend/src/utils/utils.ts:382 | a string that fits is unchanged; a longer one becomes a prefix of it followed by "...", exactly `length` long (3 when `length` is below 3) |
| Text.CullTextIdempotent | frontend/src/utils/utils.ts:382 | for every length, culling a culled string changes nothing |
| Text.UpperCase | frontend/src/utils/utils.ts:435 | a to z map to A to Z; every other character is unchanged |
| Text.TitleCase | frontend/src/utils/utils.ts:433-436 | same length; the first character upper-cased and the rest unchanged; the empty string stays empty |
| Text.TitleCaseIdempotent | frontend/src/utils/utils.ts:433-436 | title-casing twice is title-casing once |

## Left out

- React and MobX UI components (`App.tsx`, `GroupDetails.tsx`, the topic list, settings pages, `index.tsx`): rendering,
  routing and observable plumbing. `renderAssignments` renders `groupConsecutive`'s groups as JSX after
  sorting the ids of each topic.
- `frontend/src/state/ui.ts`: local-storage loading and saving, a debounced `autorun` and an unload listener, all I/O
  and reactivity. Its merge logic is `assignDeep`, which is modelled.
- `FilterableDataSource` (`frontend/src/utils/filterableDataSource.ts`), the filtered list view behind the topic list,
  is not part of this model.
- `toJson`, `clone` and `touch` wrap `JSON.stringify` and `JSON.parse`. `randomId`, `simpleUniqueId` and `uniqueId4`
  use floating-point `Math.random`. `DebugTimerStore` is a `setInterval` singleton.
- `containsIgnoreCase` (`frontend/src/utils/utils.ts:290-292`) lower-cases both strings with Unicode's default case
  conversion, which the model's strings do not carry. Only the `Intl.Collator` comparison (lines 295-298) depends on the
  locale; it enters `findElementDeep` as the parameter `collatorEquals`.
- `getAllKeys`, `prettyBytesOrNA` and the remaining helpers of `utils.ts` not listed above are not part of this model.
- `backend/pkg/api/routes.go`, and the rest of `handle_topic_messages.go` (the websocket progress reporter and the
  request flow): network I/O, mutex-guarded writes and context timeouts.
- The filesystem service, the frontend file handlers, the Kafka and owl service wrappers and the cluster-info
  integration test: file, HTTP and Kafka I/O.
- The connector `model` package is not part of this model. `SnowflakeHook.AddValueErrors` assumes that
  `AddValueErrors` appends the messages to the entry's errors. `Value.Value` is modelled as a string.
- JavaScript numbers are modelled as unbounded integers: there are no NaN, infinities or fractions. `HoursToMilliseconds` takes whole hours.
- Strings are sequences of Dafny characters, not UTF-16 code units.
- Text.TitleCase and Text.UpperCase: upper-case only the ASCII letters a to z, not the full Unicode `toUpperCase`.
- AssignDeep.AssignDeep: the target is updated on values, and the merged target properties are returned. In-place
  mutation and aliasing between target and source objects are not modelled. `for ... in` over a string or an array
  source is covered only through the property-list view of objects.
- AssignDeep.AssignDeep: two source behaviours that come from JavaScript's built-ins are not modelled.
  `source.hasOwnProperty(key)` (`frontend/src/utils/utils.ts:255`) throws a TypeError when the source has an own
  non-function `hasOwnProperty` entry. For `assignDeep({}, JSON.parse('{"hasOwnProperty":1}'))` the source throws,
  while `Merged` returns the target with that entry added. `target[key]` (line 259) also reads non-enumerable built-ins
  such as an array's `length`. Merging `{length: 1}` into `[1, 2, 3]` truncates the array to `[1]` through the
  assignment at line 285, while the model appends a "length" property.
- Cyclic object graphs: `Value` is a finite tree, so objects that contain themselves are not modelled. On such a graph
  `findElementDeep` (`frontend/src/utils/utils.ts:316-345`) and `assignDeep` recurse without end.
- JsValues.Put: a new key is appended at the end of the property list. JavaScript's `for ... in` lists integer-like
  keys first, in ascending order, and an object's own keys before its inherited ones. That key order is not modelled.
- FindElement.SearchContext.SearchDeep: it visits objects only. `for ... in` over a string value is not modelled,
  because `typeof` of a string is not "object" and the search never descends into one; only the top-level call could
  receive one.
- LazyMaps.LazyMap.Get: a stored `undefined` counts as a miss in the source. The model has no `undefined` value in `V`,
  so every stored key is a hit. The inherited `Map` methods other than `get` and `set` are not modelled.
- Timers: the source's default arguments are not modelled as defaults: a new `Cooldown` starts running
  (`frontend/src/utils/utils.ts:99`), a new `Timer` starts in the `'started'` state (line 148), `reset()` uses `to = 0` (line 80)
  and `consume()` uses `force = false` (line 125). Callers of the model pass these values explicitly.
- Timers: the classes' public fields can be reassigned from outside in the source. The model only changes them through
  its methods.
