# muxjs core, modelled in Dafny

muxjs is a small observable-model library. A model instance (`Mux`) keeps its
observed properties in a private `_props` object. It keeps computed properties
with their dependency lists and cached values. Every change is announced on a
publish/subscribe emitter: `change:<keypath>` per property, and `*:<keypath>`
once per write with snapshots of the model before and after.

This project models the core of the library:

- `lib/keypath.js` (module `KeyPath`): bracket-to-dot normalisation, and
  reading and writing through a dotted key path.
- `lib/message.js` (module `Message`): the emitter. Class `Channel` holds the
  observer lists and records every callback invocation in a trace.
- `lib/util.js` (module `Util`): `diff`, `patch`, `merge`, `objEach`,
  `copyArray` and `copyObject`. The `type` helper is `Js.TypeOf`.
- `lib/array-hook.js` (module `ArrayHook`): the installer that wraps eight
  mutating array methods in proxies calling a hook, and the attached `$concat`.
- `lib/mux.js`, the `Ctor` closure:
  - Module `MuxState` gives the effect of every internal `_$` function and of
    the instance methods `$add`, `$computed`, `$set`, `$get`, `$watch` and
    `$unwatch`, as functions on a `State` value. Each effect is a `Run`: the new
    state, the events emitted in order, and the exception raised, if any.
  - Class `MuxModel.Mux` holds the closure variables as fields. Its methods
    are proved to change those fields as the `MuxState` functions say. They also
    append to the emitter's trace exactly the callback invocations the events
    cause (`MuxState.Broadcast`).
  - Module `MuxProperties` proves what the library promises about those effects.

JavaScript values live in module `Js`. Primitives are values. Objects and
arrays are references into a `Heap` class, so for the values held in that heap
identity (`===`) and aliasing are those of the source. The options object and
the closure variables of `Ctor` are values of the model, not heap objects;
"## Left out" names the one aliasing effect this loses. A `Result` models a thrown exception. The exception paths
that arise on the inputs the model's types can express are kept; "## Left out"
lists the inputs and values the types exclude.

## Model

| member | source | states |
|---|---|---|
| `KeyPath.NormalizeNoBracket` | lib/keypath.js:7-11 | a path with no `[` comes back from normalisation unchanged |
| `KeyPath.NormalizeSplitBeforeBracket` | lib/keypath.js:7-11 | a regex match never spans into a suffix that starts with `[`, so normalisation distributes over such a split |
| `KeyPath.NormalizeBracketSegment` | lib/keypath.js:7-11 | a segment `[w]`, with `w` non-empty and free of brackets, becomes `.` plus the last character of `w` (the capture group of a repeated group holds only its last iteration) |
| `KeyPath.NormalizePlainIndex` | lib/keypath.js:7-11 | between bracket-free text, `p[w]q` normalises to `p`, a dot, the last character of `w`, then `q` |
| `KeyPath.NormalizeExample` | lib/keypath.js:3-7 | the documented example: `person.books[1].title` gives `person.books.1.title` |
| `KeyPath.NormalizeKeepsLastCharacter` | lib/keypath.js:7-11 | `a[10]` gives `a.0`, not `a.10` |
| `KeyPath.NormalizeEmptyBrackets` | lib/keypath.js:7-11 | `[]` is not a match and stays in the path |
| `KeyPath.NormalizeNotIdempotent` | lib/keypath.js:7-11 | normalising twice can differ from normalising once: `[[a]]` gives `[.a]`, then `.a` |
| `KeyPath.NormalizeKeepsQuote` | lib/keypath.js:7-11 | quotes are not stripped: `a["x"]` gives `a."` |
| `KeyPath.JoinSplit` | lib/keypath.js:16 | `split('.')` loses nothing: joining the pieces with dots gives the path back |
| `KeyPath.SplitNoDot` | lib/keypath.js:16 | a path without a dot splits into itself alone |
| `KeyPath.SplitHead` | lib/mux.js:320-321 | the first piece of `p.rest` is `p` when `p` has no dot, which is the property `_$sync` mounts under |
| `KeyPath.WalkAppend` | lib/keypath.js:19-22 | walking `keys + [k]` is walking `keys` and then reading `k`, and an exception on the way is kept |
| `KeyPath.WalkFrame` | lib/keypath.js:29-37 | a walk's result depends only on the containers it reads |
| `KeyPath.Set` | lib/keypath.js:15-25 | `_set` returns the same `obj` and leaves the heap as `SetSpec` gives it; when it throws, the heap is untouched |
| `KeyPath.SetChangesOneEntry` | lib/keypath.js:15-25 | a successful `_set` writes the last segment into the one container the walk reached and changes nothing else |
| `KeyPath.GetAfterSet` | lib/keypath.js:15-37 | round trip: after `_set(obj, kp, v)`, `_get(obj, kp)` gives `v`, unless the write lands in a container the walk passes through |
| `KeyPath.SetSingleSegment` | lib/keypath.js:15-37 | on a path of one segment, `_set` is `obj[kp] = v` and `_get` is `obj[kp]`, and reading back gives `v` |
| `KeyPath.WalkUndefinedPrefix` | lib/keypath.js:19-22 | a walk that reaches undefined after any number of keys, with a key still to read, throws a TypeError |
| `KeyPath.UndefinedIntermediateThrows` | lib/keypath.js:19-36 | an undefined value reached before the last segment, at any depth (`_get(o, 'a.b.c')` with `o.a = {}` included), makes both `_get` and `_set` throw a TypeError, and is not read as undefined |
| `Message.Channel.constructor` | lib/message.js:7-9 | a new emitter has no observers and has delivered nothing |
| `Message.Channel.On` | lib/message.js:11-17 | `on(sub, cb)` appends one observer at the end of `sub`'s list and creates the list if absent; other topics are untouched |
| `Message.Channel.Off` | lib/message.js:24-52 | `off(sub, cb)` applies to `sub`, or to every topic when `sub` is falsy. It empties the list when `cb` is falsy, else keeps exactly the observers whose `cb` is not `cb`, in order. A missing topic is not created, and `off` returns the channel |
| `Message.Channel.Emit` | lib/message.js:53-61 | `emit(sub, args)` invokes every truthy callback of `sub` with `args`, in registration order, and nothing else |
| `Message.DeliveriesInOrder` | lib/message.js:58-60 | one delivery per truthy observer, in list order, each with the emitted arguments |
| `Message.CallbackCountPerObserver` | lib/message.js:11-17 | registering a callback n times makes an emit call it n times |
| `Message.WithoutCallbacks` | lib/message.js:41-45 | after removal the callback is called zero times, and every other callback as often as before |
| `Message.OffOtherTopicsUnchanged` | lib/message.js:27 | `off` with a topic leaves every other topic's list as it was |
| `Message.OffSilences` | lib/message.js:24-61 | after `off(t, c)` or `off('', c)`, an emit on `t` never reaches `c` |
| `Message.OffAllEmpties` | lib/message.js:28-38 | `off()` keeps every topic and empties every list |
| `Util.DiffCases` | lib/util.js:17-19 | `diff` is false exactly for two equal primitives other than NaN; a composite always differs, even from itself; NaN differs from NaN |
| `Util.Patch` | lib/util.js:14-16 | `patch` leaves the heap as `PatchSpec` gives it, or raises its exception and changes nothing |
| `Util.PatchWritesOnlyFalsy` | lib/util.js:14-16 | on an object, a truthy property is left alone and a falsy one is replaced by the default |
| `Util.PatchFalsyValues` | lib/util.js:14-16 | 0, "" and false are overwritten too; on undefined or null `patch` throws a TypeError |
| `Util.ObjEach` | lib/util.js:7-13 | `objEach` calls `fn` exactly once per own enumerable key of an object, with that key's value; undefined, null and numbers give no call |
| `Util.EachOnceCount` | lib/util.js:7-13 | the number of calls is the number of own keys |
| `Util.Merge` | lib/util.js:20-27 | `merge` returns `dest` and leaves the heap as `MergeSpec` gives it; when it throws, the heap is untouched |
| `Util.MergeContents` | lib/util.js:20-27 | afterwards `dest` holds every own key of `source` with the source's value, keeps its other keys, and no other container changes |
| `Util.MergeIntoEmpty` | lib/mux.js:363 | `merge({}, model)` is a snapshot: the fresh object holds exactly the model's own enumerable properties |
| `Util.CopyArray` | lib/util.js:28-35 | `copyArray` returns a fresh array with the same items in the same places, and no other container changes |
| `Util.CopyObjectAsWritten` | lib/util.js:36-42 | `copyObject` as written always returns a fresh empty object |
| `Util.CopyObject` | lib/util.js:36-42 | corrected: a fresh object holding the argument's own keys and values |
| `Util.CopyObjectLosesKeys` | lib/util.js:36-42 | `{a: 1}` has the own key `a`, which the as-written copy `{}` lacks |
| `ArrayHook.HookMethodsDistinct` | lib/array-hook.js:4 | the eight hooked method names are pairwise distinct |
| `ArrayHook.Install` | lib/array-hook.js:23-47 | the installer's loop leaves the array's own methods and the closure cells as `InstallSpec` gives them; every proxy still names an existing cell |
| `ArrayHook.InstallKeepsBound` | lib/array-hook.js:23-47 | installing keeps every proxy's closure cell in range |
| `ArrayHook.InstallFoldOwn` | lib/array-hook.js:24-46 | the loop gives every hook method a proxy (a new one reads the new cell, an existing one is kept) and no other own method changes |
| `ArrayHook.InstallFoldClosures` | lib/array-hook.js:25-29 | re-hooking sets the cell of every existing proxy to the new hook and no other cell changes |
| `ArrayHook.InstallReplacesExactly` | lib/array-hook.js:23-47 | after installing, exactly the eight hook methods are proxies; every other own property is as it was |
| `ArrayHook.InvokeAfterInstall` | lib/array-hook.js:31-38 | calling a hooked method invokes the installed hook once, with the array, the method name, the captured native method and the arguments |
| `ArrayHook.RehookKeepsProxies` | lib/array-hook.js:25-29 | hooking an array a second time defines no second wrapper |
| `ArrayHook.RehookSwapsHook` | lib/array-hook.js:25-29 | after re-hooking, a call reaches the new hook with the originally captured native method |
| `ArrayHook.ConcatCapturesAttached` | lib/array-hook.js:31 | an array without its own `$concat` gets the attached implementation behind the proxy |
| `ArrayHook.Concat` | lib/array-hook.js:8-19 | `$concat` returns the same array, and only that array's items change, as `ConcatFold` gives them |
| `ArrayHook.ConcatKeepsPrefix` | lib/array-hook.js:8-19 | `$concat` never touches the items already in the array |
| `ArrayHook.ConcatFlattens` | lib/array-hook.js:11-17 | when the array is not among its own arguments, `$concat` appends the arguments flattened one level, and the length grows by each array argument's length plus one per other argument |
| `ArrayHook.ConcatExample` | lib/array-hook.js:8-19 | `[1, 2].$concat(3, [4])` gives `[1, 2, 3, 4]` |
| `ArrayHook.ConcatSelf` | lib/array-hook.js:11-17 | `arr.$concat(arr)` appends the array's items once, as they were before the call |
| `MuxState.TriggerFoldNext` | lib/mux.js:300-308 | each dependent key recomputes from the state the previous one left and appends one change event |
| `MuxState.RecomputeFoldNext` | lib/mux.js:417-423 | each batched key recomputes from the state the previous one left and appends a change event only on a `diff` |
| `MuxState.SyncStepEvents` | lib/mux.js:394-413 | a step of the `_$setMulti` loop appends its events after those already emitted |
| `MuxState.SyncEachNext` | lib/mux.js:394-413 | the loop over `n + 1` entries is the loop over `n` entries followed by one step |
| `MuxState.BroadcastExtends` | lib/message.js:53-61 | emitting one batch of events after another appends both batches' deliveries in order |
| `MuxModel.CollectUnique` | lib/mux.js:407-410 | the `reduce` that appends each dependent key not yet collected |
| `MuxModel.Mux.constructor` | lib/mux.js:66-182 | `Ctor` up to its closing `_$setMulti`: a fresh `_props` object and a fresh emitter with no observers; the state is `CtorSpec` of the initial props and computed definitions (dep linking corrected, see ## Findings lib/mux.js:192) |
| `MuxModel.Mux.InitObserved` | lib/mux.js:127-138 | each initial prop is stored in `_props` and gets an observed accessor |
| `MuxModel.Mux.InitComputedProps` | lib/mux.js:149-176 | each computed definition with deps links its deps and seeds its cache; the keys with deps are returned in order (dep linking corrected, see ## Findings lib/mux.js:192) |
| `MuxModel.Mux.DefineAccessors` | lib/mux.js:143 | `Object.defineProperties` gives each key the one accessor kind |
| `MuxModel.Mux.Create` | lib/mux.js:66-182 | `Ctor(options, receiveProps)` ends with a TypeError when initial, computed and built-in names clash. Otherwise it runs `_$setMulti(receiveProps)` (lib/mux.js:727) on the built state, with its events delivered to the fresh emitter. `new Mux(options)` passes no `receiveProps` (`None`, lib/mux.js:25-27); a class made by `Mux.extend` passes its argument (lib/mux.js:55-59) (dep linking corrected, see ## Findings lib/mux.js:192) |
| `MuxModel.Mux.EmitChange` | lib/mux.js:87-93 | `_emit(prop, ...)` emits on `change:` plus the instance's key path, a dot when that path is non-empty, and `prop` |
| `MuxModel.Mux.EmitAll` | lib/mux.js:94-99 | `_emitAll(next, pre)` emits both snapshots on `*:` plus the instance's key path |
| `MuxModel.Mux.LinkDependency` | lib/mux.js:190-197 | `_addProp2ComputedDepsMapping`, corrected: a computed dep is refused, and a key is listed under a dep at most once |
| `MuxModel.Mux.LinkDependencies` | lib/mux.js:485-487 | each dep in turn is linked to the computed key (dep linking corrected, see ## Findings lib/mux.js:192) |
| `MuxModel.Mux.SeedCache` | lib/mux.js:491-492 | the cache of a new computed key is patched into existence and its `current` set from `fn` |
| `MuxModel.Mux.RecomputeOne` | lib/mux.js:302-305 | `pre` takes `current` and `current` takes `fn` evaluated on the model |
| `MuxModel.Mux.TriggerOne` | lib/mux.js:300-308 | one dependent key is recomputed and emits its new and previous value |
| `MuxModel.Mux.TriggerComputed` | lib/mux.js:299-309 | `_triggerPropertyComputedChange` recomputes every dependent of the property in mapping order and emits each, changed or not |
| `MuxModel.Mux.RecomputeNext` | lib/mux.js:417-423 | one batched key is recomputed and emits only when `diff` holds |
| `MuxModel.Mux.RecomputeAll` | lib/mux.js:417-423 | the batch recomputation of `_$setMulti`, one key at a time, emitting only on a difference |
| `MuxModel.Mux.Sync` | lib/mux.js:319-356 | `_$sync` refuses a computed or unobserved property and changes nothing. Otherwise it writes through `_props` and reports the mounted property, its new value and its old one |
| `MuxModel.Mux.SetOne` | lib/mux.js:362-379 | `_$set` changes state, raises and emits exactly as `SetSpec` gives it; its events reach the emitter's observers in order |
| `MuxModel.Mux.SyncNext` | lib/mux.js:394-412 | one `objEach` callback of `_$setMulti` extends the synced prefix by one entry |
| `MuxModel.Mux.SyncAll` | lib/mux.js:394-413 | the `objEach` loop of `_$setMulti`, ending at the first exception, with the collected dependents and `hasDiff` |
| `MuxModel.Mux.SetMulti` | lib/mux.js:385-426 | `_$setMulti` changes state, raises and emits exactly as `SetMultiSpec` gives it |
| `MuxModel.Mux.AddOne` | lib/mux.js:433-455 | `_$add` changes state, raises and emits as `AddSpec` gives it, and returns whether an observed key was re-added with a value |
| `MuxModel.Mux.DefineComputed` | lib/mux.js:463-500 | `_$computed` changes state and raises as `ComputedSpec` gives it (dep linking corrected, see ## Findings lib/mux.js:192) |
| `MuxModel.Mux.Add` | lib/mux.js:515-557 | `$add` in all its argument forms, as `AddDispatch` gives it (default branch corrected, see ## Findings lib/mux.js:553) |
| `MuxModel.Mux.AddEachName` | lib/mux.js:535-540 | `$add(array)` adds each name in order, stopping at an exception |
| `MuxModel.Mux.AddEachEntry` | lib/mux.js:541-549 | `$add(object)` adds each entry and returns the already observed ones to reset |
| `MuxModel.Mux.Computed` | lib/mux.js:566-584 | `$computed` with one definition or an object of them, as `ComputedDispatch` gives it (dep linking corrected, see ## Findings lib/mux.js:192) |
| `MuxModel.Mux.Set` | lib/mux.js:592-606 | `$set(kp, value)` is `_$set`, `$set(object)` is `_$setMulti`, anything else only warns |
| `MuxModel.Mux.Get` | lib/mux.js:613-632 | `$get` reads without changing the model and returns `GetSpec` |
| `MuxModel.Mux.Watch` | lib/mux.js:639-666 | `$watch` subscribes the callback on the topic `_emit` uses for the key (corrected) or on the wildcard topic, and returns the arguments of its unsubscriber |
| `MuxModel.Mux.Unwatch` | lib/mux.js:675-702 | `$unwatch` removes a key's callback, a key's callbacks, a wildcard callback, or everything |
| `MuxProperties.ChangeTopicIsNotAll` | lib/mux.js:87-99 | a change event is never delivered to wildcard listeners: the `change:` and `*:` topics never coincide |
| `MuxProperties.SetRefusesUnobserved` | lib/mux.js:323-332 | writing a computed or unobserved property is refused: `_$set` and a one-entry `_$setMulti` change nothing and emit nothing |
| `MuxProperties.SyncBareProperty` | lib/mux.js:334-355 | `_$sync(p, v)` on an observed property writes `_props[p] = v` and reports `p`, `v` and the previous value |
| `MuxProperties.TriggerFoldEvents` | lib/mux.js:299-309 | exactly one change event per dependent key, in mapping order, changed or not; only caches change |
| `MuxProperties.SetEmitOrder` | lib/mux.js:362-379 | `_$set` emits exactly when the change guard holds. The order is then the dependents' change events, `change:prop` with the new and old value, and one wildcard event last; otherwise only `_props` changes |
| `MuxProperties.AddUniqueCollects` | lib/mux.js:406-410 | the collected dependents have no duplicates, keep their earlier order, and hold every key offered |
| `MuxProperties.SyncEachFacts` | lib/mux.js:394-413 | `hasDiff` holds exactly when some key emitted; no wildcard is emitted inside the loop; dependents are collected once; only the heap changes |
| `MuxProperties.RecomputeFoldFacts` | lib/mux.js:417-423 | the batch recomputation emits only change events, at most one per key, and changes only caches |
| `MuxProperties.SetMultiOneWildcard` | lib/mux.js:385-426 | `_$setMulti` of a non-object does nothing, and an exception ends it without a wildcard. Otherwise exactly one wildcard event fires, last, exactly when some key emitted its change |
| `MuxProperties.AddDepsRegisters` | lib/mux.js:190-197 | linking keeps each dep's list duplicate-free, lists the key under each non-computed dep, never under a computed one, and changes only the mapping |
| `MuxProperties.ComputedExistingIsNoop` | lib/mux.js:475 | defining an existing computed property again does nothing |
| `MuxProperties.ComputedNewDefines` | lib/mux.js:463-500 | a new computed property is appended, linked under its non-computed deps, and its cache seeded by one call of `fn`. Nothing is emitted, and the accessor definition throws exactly when the model already has that property (dep linking corrected, see ## Findings lib/mux.js:192) |
| `MuxProperties.BadNameExamples` | lib/mux.js:435 | a name with a dot or a bracket is rejected; plain names are accepted |
| `MuxProperties.AddCases` | lib/mux.js:433-455 | `_$add` throws on a bad name; it asks for a reset exactly when an observed key comes with a value. A new key is appended, stores the copied value and emits `change:prop` with the value given |
| `MuxProperties.AddKeepsKeysDistinct` | lib/mux.js:437-443 | `_observableKeys` never lists a key twice and never loses one |
| `MuxProperties.AddEachObserves` | lib/mux.js:535-540 | after `$add(names)` without an exception, every name is observed, each once |
| `MuxProperties.AddObservedSets` | lib/mux.js:523-530 | `$add(p, v)` on an observed `p` is exactly `$set(p, v)` |
| `MuxProperties.GetReevaluates` | lib/mux.js:619-620 | `$get` of a computed key calls `fn` afresh, while the accessor reads the cache |
| `MuxProperties.GetCanDisagreeWithAccessor` | lib/mux.js:613-632 | `$get` of a computed key and its accessor can give different values |
| `MuxProperties.GetUnobservedPath` | lib/mux.js:622-626 | `$get('p.rest')`, for any `rest`, gives undefined without throwing when `p` is not observed |
| `MuxProperties.GetUnobservedIndex` | lib/mux.js:622-626 | `$get('p[w]rest')`, for any `rest`, gives undefined without throwing when `p` is not observed |
| `KeyPath.NormalizeBracketFreePrefix` | lib/keypath.js:7-11 | a prefix without `[` cannot start a match, so normalisation keeps it and works on the rest |
| `MuxProperties.GetAfterSet` | lib/mux.js:362-379 | round trip: after `$set(p, v)` on an observed property, `$get(p)` gives `v` |
| `MuxProperties.WatchThenUnwatch` | lib/mux.js:639-702 | the unsubscriber `$watch` returns removes the callback from the very topic it subscribed. While subscribed, an emit reaches the callback last; afterwards it never does |
| `MuxProperties.WatchTopicsAgreeAtRoot` | lib/mux.js:645-648 | at the root the as-written and the corrected `$watch` subscribe the same topic |
| `MuxProperties.WatchAsWrittenMissesChanges` | lib/mux.js:645-648 | below the root, `$watch(key, cb)` as written subscribes a topic `_emit` never uses, and its unsubscriber removes nothing |
| `MuxProperties.AddDepAsWrittenThrows` | lib/mux.js:191-192 | as written, a computed dep throws a ReferenceError; the corrected version leaves the mapping alone and agrees on every other dep |
| `MuxProperties.AddOtherAsWrittenThrows` | lib/mux.js:552-553 | as written, an unexpected `$add` argument throws a ReferenceError; the corrected version only warns |
| `MuxProperties.AddDepsOnlyMapping` | lib/mux.js:161-163 | linking deps changes only the dependency mapping |
| `MuxProperties.InitPropsAccessors` | lib/mux.js:127-143 | each initial key becomes an observed property; other properties are kept |
| `MuxProperties.InitPropsStores` | lib/mux.js:127-128 | each initial value is stored under its key in `_props` |
| `MuxProperties.InitComputedKeeps` | lib/mux.js:149-176 | the computed loop changes only the mapping and the caches |
| `MuxProperties.DefineAllFacts` | lib/mux.js:143 | `defineProperties` gives each listed key its kind and keeps the others |
| `MuxProperties.CtorStoresInitial` | lib/mux.js:118-143 | without a name clash the observed keys are the initial keys, and `$get` of each gives its initial value |
| `MuxProperties.CtorDefinesAccessors` | lib/mux.js:167-182 | without a name clash each computed key with deps is a computed property, and the id and every instance method are defined |

## Left out

- `_walk` (lib/mux.js:240-293) is the identity. The array-hook handler it installs and the deep sub-instances (`_subInstance`, lib/mux.js:204-232) are not part of this model. `ArrayHook` is modelled on its own.
- `options.emitter` sharing and `$emitter` (lib/mux.js:68, 717-722): every instance has a fresh emitter of its own.
- `$props` (lib/mux.js:707-712) is not modelled as an instance method. It returns `copyObject(_props)`, which `Util.CopyObjectAsWritten` covers.
- `__muxid__` numbering (`allotId`) is left out; the property itself is a built-in accessor.
- `$util.copyValue` and `$keypath.join` are called but not defined in lib/util.js and lib/keypath.js. `copyValue` is a parameter of `Config`; `join` is used only by `_walk`.
- `$util.def` is not defined in lib/util.js either. It is read as `Object.defineProperty`.
- lib/info.js warnings have no effect in the model. lib/expect.js is reduced to its one throwing case (`PlainError` in `_$add`).
- `staticOptionCheck`, `Mux.extend`/`MuxFactory` and the `__proto__` splicing (lib/mux.js:34-60, 735-741): only `Ctor` is modelled. Options reach `Create` already split into initial props and computed definitions. A props getter function is called before that. As written, `staticOptionCheck` calls `$expect.type`, but lib/expect.js exports a bare function with no `type` member. So whenever `options.props` or `options.computed` is truthy, `new Mux(options)` and `Mux.extend(options)` throw a TypeError before `Ctor` runs. `MuxModel.Mux.Create` with a non-empty `initial` or `defs` is therefore reachable only once that check is repaired; the model assumes it is.
- `MuxModel.Mux.DefineComputed` and `MuxModel.Mux.Computed`: `_computedProps` is the caller's own `options.computed` object (lib/mux.js:117), and `_$computed` writes each new definition into it (lib/mux.js:477). Since `Mux.extend` hands the same options to every instance (lib/mux.js:55-59), a later instance of that class starts with the computed properties an earlier one added, and the caller sees them in `options.computed`. The model takes the definitions as a value for each instance and leaves out this write-back and its effect on later instances.
- The global message centre (lib/message.js:73-82) is an instance of `Channel` like any other.
- Callbacks are opaque identities and run no code. A listener that re-enters the model is not modelled.
- Computed `fn`s are pure functions of the model's enumerable properties and the heap.
- `Util.ObjEach`: iterating an array raises `Unsupported`, and a string primitive is treated as having no keys; the model's callers only iterate plain objects.
- Names inherited from `Object.prototype` (`toString`, `constructor`, `hasOwnProperty`, ...) are read as absent everywhere: a container holds only its own keys. The consequences follow.
  - `$set({hasOwnProperty: 1})` syncs the key, where `objEach` (lib/util.js:9) would throw a TypeError.
  - `$set('toString', v)` on an observed `toString` emits normally, where `_computedDepsMapping['toString'] || []` (lib/mux.js:300) finds the inherited function and `forEach` throws a TypeError.
  - A computed property depending on `constructor` is registered, where `patch` keeps the inherited function and `indexOf` throws (lib/mux.js:194-195).
  - `$get('a.toString')` gives undefined, where the source returns the inherited function.
- Arguments of the wrong JavaScript type are not representable, so the exceptions they cause are not modelled.
  - `$add([1])`: the names of `AddNames` are strings, so `prop.match` never fails on a number (lib/mux.js:435).
  - `$computed('c', 'ab', fn)`: `deps` is a sequence of strings or absent, so `deps.forEach` never fails on a string (lib/mux.js:485).
  - `$computed('c', [], 1)`: `fn` is a getter or absent, so `(fn || NOOP).call` never fails on a number (lib/mux.js:492).
  - `options.computed = {c: null}`: a `ComputedDef` is always a record, so `prop.deps` never fails (lib/mux.js:151).
- Function values are not part of `Js.Value`: a property holding a function cannot be written or read, so `diff` (lib/util.js:18) never sees one.
- Array holes are not distinct from `undefined` (`Js.Holes`). `$concat` pushes an array argument's holes as undefined, where `forEach` (lib/array-hook.js:13) skips them.
- Writing a named (non-index) property of an array raises `Unsupported` in the model, where JavaScript would add the property.
- Numbers are unbounded integers; fractions, infinities and number-to-string formatting of keys are not modelled.
- `Object.keys` and `for ... in` order is the order of the entry sequences given to the model.
- The dist/ builds and mux.v3.js are not part of this model.
- `KeyPath.Normalize`: the code is followed where the documentation promises more. The code is not idempotent and keeps quotes and multi-character indices truncated (see `KeyPath.NormalizeNotIdempotent`, `KeyPath.NormalizeKeepsQuote`, `KeyPath.NormalizeKeepsLastCharacter`).
- `KeyPath.GetAfterSet`: the round trip is stated only when the written container is not on the path to itself, because the source's write can redirect its own later walk.
- `MuxModel.Mux.Get`: `$get` runs a computed `fn`, which in the model cannot change state. A `fn` with side effects is not covered.

## Findings

| source | as written | input that shows it | evidently intended | confidence | as-written member | corrected member |
|---|---|---|---|---|---|---|
| lib/mux.js:192 | the warning for a computed dep reads the undeclared variable `prop`, so it throws a ReferenceError | `Ctor` with computed `a` (deps `[]`) and computed `b` with deps `['a']` | warn and leave the mapping alone | high (not executed) | `MuxProperties.AddDepAsWrittenThrows` | `MuxProperties.AddDepsRegisters` |
| lib/mux.js:553 | the default branch of `$add` calls `info.warn`; only `$info` is declared, so it throws a ReferenceError | `model.$add(42)` | warn and return the model | high (not executed) | `MuxProperties.AddOtherAsWrittenThrows` | `MuxModel.Mux.Add` |
| lib/mux.js:645-648 | `$watch(key, cb)` builds the `prefix` and then ignores it, subscribing `change:key` | an instance with `__kp__` = `"a"`, `$watch("b", cb)` then a change of `b`, which is emitted on `change:a.b` | subscribe `change:` plus the prefix plus `key`, as `_emit` and `$unwatch` do | medium (not executed) | `MuxProperties.WatchAsWrittenMissesChanges` | `MuxProperties.WatchThenUnwatch` |
| lib/util.js:36-42 | `copyObject` takes no parameter and passes its callback to `objEach` as the object, so the copy is always `{}` | `copyObject({a: 1})` | a copy holding the argument's own keys and values | high (not executed) | `Util.CopyObjectLosesKeys` | `Util.CopyObject` |
