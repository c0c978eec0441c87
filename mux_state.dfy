/**
 * The state of one model instance of lib/mux.js (the closure variables of
 * `Ctor`) and the effect of each of its operations, as functions.
 *
 * An operation's effect is a `Run`: the state afterwards, the events it
 * emitted in order, and the exception it raised, if any.  Events are what
 * `_emit` and `_emitAll` hand to the emitter; `Broadcast` turns them into
 * the callback invocations the channel makes.
 */
module MuxState {
  import opened Js
  import KeyPath
  import Util
  import Message

  /** A computed property's `fn`, called with the model: it sees the enumerable properties and the heap. */
  type Getter = (map<string, Value>, map<Ref, Container>) -> Value

  /** The own properties of the model: observed and computed accessors, and the non-enumerable methods. */
  datatype Accessor = Observed | Computed | Builtin

  /** An entry of `_computedCaches`. */
  datatype Cache = Cache(current: Value, pre: Value)

  /** An emitted argument: a value, or a fresh snapshot object `$util.merge({}, model)`. */
  datatype Payload = Val(v: Value) | Snap(props: map<string, Value>)

  datatype Event = Event(topic: string, args: seq<Payload>)

  /**
   * What an instance fixes at construction: where `_props` lives, `_isDeep`,
   * the key path `__kp__` of the instance (empty for a root model), and the
   * `$util.copyValue` helper, which lib/util.js does not define.
   */
  datatype Config = Config(propsRef: Ref, deep: bool, rootPath: string, copyValue: Value -> Value)

  datatype State = State(
    cells: map<Ref, Container>,              // the heap, which holds `_props`
    observableKeys: seq<string>,             // `_observableKeys`
    computedKeys: seq<string>,               // `_computedKeys`
    fns: map<string, Option<Getter>>,        // `_computedProps[k].fn`; None is a falsy fn (NOOP)
    depsMapping: map<string, seq<string>>,   // `_computedDepsMapping`
    caches: map<string, Cache>,              // `_computedCaches`
    accessors: map<string, Accessor>)        // the own properties of `model`

  /** The non-enumerable own properties `Ctor` defines: the id and the instance methods. */
  const Builtins: seq<string> := ["__muxid__", "$add", "$computed", "$set", "$get", "$watch", "$unwatch", "$props", "$emitter"]

  datatype Run = Run(st: State, events: seq<Event>, thrown: Option<Exception>)

  /** Sequencing: the second run starts where the first ended. */
  function Then(first: Run, second: Run): Run
  {
    Run(second.st, first.events + second.events, second.thrown)
  }

  // ---------------------------------------------------------------------
  // Reading the model

  /** The fields of `_props`. */
  function PropsOf(cells: map<Ref, Container>, propsRef: Ref): map<string, Value>
  {
    if propsRef in cells && cells[propsRef].ObjC? then cells[propsRef].fields else map[]
  }

  /** `_props[k]`. */
  function ReadProp(cells: map<Ref, Container>, propsRef: Ref, k: string): Value
  {
    var props := PropsOf(cells, propsRef);
    if k in props then props[k] else Undefined
  }

  /** `_props[k] = v`: only the `_props` object changes, and reading `k` back gives `v`. */
  function WriteProp(cells: map<Ref, Container>, propsRef: Ref, k: string, v: Value): (r: map<Ref, Container>)
    ensures r.Keys == cells.Keys
    ensures forall q :: q in cells && q != propsRef ==> r[q] == cells[q]
    ensures propsRef in cells && cells[propsRef].ObjC? ==> ReadProp(r, propsRef, k) == v
  {
    if propsRef in cells && cells[propsRef].ObjC? then cells[propsRef := ObjC(cells[propsRef].fields[k := v])] else cells
  }

  /** `$util.patch(_computedCaches, k, {})` read back: an absent entry is a fresh, empty cache. */
  function CacheOf(caches: map<string, Cache>, k: string): Cache
  {
    if k in caches then caches[k] else Cache(Undefined, Undefined)
  }

  /** `$util.merge({}, model)`: every enumerable own property read through its getter. */
  function ViewOf(cells: map<Ref, Container>, propsRef: Ref, accessors: map<string, Accessor>, caches: map<string, Cache>): map<string, Value>
  {
    map k | k in accessors && accessors[k] != Builtin ::
      if accessors[k] == Observed then ReadProp(cells, propsRef, k) else CacheOf(caches, k).current
  }

  function FnOf(fns: map<string, Option<Getter>>, k: string): Option<Getter>
  {
    if k in fns then fns[k] else None
  }

  /** `(fn || NOOP).call(model, model)`. */
  function Call(fn: Option<Getter>, view: map<string, Value>, cells: map<Ref, Container>): Value
  {
    match fn
    case None => Undefined
    case Some(g) => g(view, cells)
  }

  function View(st: State, cfg: Config): map<string, Value>
  {
    ViewOf(st.cells, cfg.propsRef, st.accessors, st.caches)
  }

  function PropValue(st: State, cfg: Config, k: string): Value
  {
    ReadProp(st.cells, cfg.propsRef, k)
  }

  /** A computed property's value evaluated now, bypassing the cache. */
  function Eval(st: State, cfg: Config, ck: string): Value
  {
    Call(FnOf(st.fns, ck), View(st, cfg), st.cells)
  }

  /** `_computedDepsMapping[prop] || []`. */
  function Dependents(depsMapping: map<string, seq<string>>, prop: string): seq<string>
  {
    if prop in depsMapping then depsMapping[prop] else []
  }

  // ---------------------------------------------------------------------
  // Topics and delivery

  /** The topic `_emit(prop, ...)` uses: `change:` then the instance's key path and a dot, if any. */
  function ChangeTopic(rootPath: string, prop: string): string
  {
    "change:" + (if rootPath == "" then "" else rootPath + ".") + prop
  }

  /** The topic `_emitAll` uses. */
  function AllTopic(rootPath: string): string
  {
    "*:" + rootPath
  }

  function ChangeEvent(cfg: Config, prop: string, next: Value, pre: Value): Event
  {
    Event(ChangeTopic(cfg.rootPath, prop), [Val(next), Val(pre)])
  }

  function WildcardEvent(next: map<string, Value>, pre: map<string, Value>, cfg: Config): Event
  {
    Event(AllTopic(cfg.rootPath), [Snap(next), Snap(pre)])
  }

  /** The callback invocations the channel makes for a sequence of emits. */
  function Broadcast(observers: map<string, seq<Message.Observer>>, events: seq<Event>): seq<Message.Delivery<Payload>>
  {
    if events == [] then []
    else
      var e := events[|events| - 1];
      Broadcast(observers, events[..|events| - 1]) + Message.Deliveries(e.topic, Message.Listeners(observers, e.topic), e.args)
  }

  lemma {:induction false} BroadcastAppend(observers: map<string, seq<Message.Observer>>, a: seq<Event>, b: seq<Event>)
    ensures Broadcast(observers, a + b) == Broadcast(observers, a) + Broadcast(observers, b)
  {
    if b == [] {
      assert a + b == a;
      assert Broadcast(observers, b) == [];
    } else {
      var init, e := b[..|b| - 1], b[|b| - 1];
      var last := Message.Deliveries(e.topic, Message.Listeners(observers, e.topic), e.args);
      BroadcastAppend(observers, a, init);
      assert (a + b)[..|a + b| - 1] == a + init;
      assert (a + b)[|a + b| - 1] == e;
      assert Broadcast(observers, a + b) == Broadcast(observers, a + init) + last;
      assert Broadcast(observers, b) == Broadcast(observers, init) + last;
      AppendAssoc(Broadcast(observers, a), Broadcast(observers, init), last);
    }
  }

  /** Emitting `more` after `events` extends the trace by the deliveries of `more`. */
  lemma BroadcastExtends(observers: map<string, seq<Message.Observer>>, trace0: seq<Message.Delivery<Payload>>,
                         events: seq<Event>, more: seq<Event>,
                         trace1: seq<Message.Delivery<Payload>>, trace2: seq<Message.Delivery<Payload>>)
    requires trace1 == trace0 + Broadcast(observers, events)
    requires trace2 == trace1 + Broadcast(observers, more)
    ensures trace2 == trace0 + Broadcast(observers, events + more)
  {
    BroadcastAppend(observers, events, more);
  }

  // ---------------------------------------------------------------------
  // _$sync

  datatype SyncResult =
    | Refused                                                  // `return false`
    | Threw(error: Exception)                                  // the key-path write raised
    | Synced(cells: map<Ref, Container>, mounted: string, next: Value, pre: Value)

  /** The first segment of the normalised key path: the top-level property a write lands under. */
  function Mounted(kp: string): string
  {
    KeyPath.Parts(kp)[0]
  }

  /** `_$sync(kp, value)`: refuse computed and unobserved properties, else write through `_props`. */
  function SyncSpec(st: State, cfg: Config, kp: string, value: Value): SyncResult
  {
    var prop := Mounted(kp);
    if prop in st.computedKeys || prop !in st.observableKeys then Refused
    else
      match KeyPath.SetSpec(st.cells, Obj(cfg.propsRef), kp, value)
      case Err(e) => Threw(e)
      case Ok(cells) => Synced(cells, prop, ReadProp(cells, cfg.propsRef, prop), PropValue(st, cfg, prop))
  }

  /** The change guard of `_$set` and `_$setMulti`: shallow, or the bare property in deep mode, and `diff`. */
  predicate Changes(cfg: Config, kp: string, mounted: string, next: Value, pre: Value)
  {
    (!cfg.deep || kp == mounted) && Util.Diff(next, pre)
  }

  // ---------------------------------------------------------------------
  // Recomputing computed properties

  /** Move `current` into `pre` and evaluate `fn` into `current`; returns the new and the previous value. */
  function Recompute(st: State, cfg: Config, ck: string): (State, Value, Value)
  {
    var pre := CacheOf(st.caches, ck).current;
    var swapped := st.(caches := st.caches[ck := Cache(pre, pre)]);
    var next := Eval(swapped, cfg, ck);
    (st.(caches := st.caches[ck := Cache(next, pre)]), next, pre)
  }

  /** `_triggerPropertyComputedChange` over the keys in `cks`: every one emits, changed or not. */
  function TriggerFold(st: State, cfg: Config, cks: seq<string>): (State, seq<Event>)
  {
    if cks == [] then (st, [])
    else
      var before := TriggerFold(st, cfg, cks[..|cks| - 1]);
      var after := Recompute(before.0, cfg, cks[|cks| - 1]);
      (after.0, before.1 + [ChangeEvent(cfg, cks[|cks| - 1], after.1, after.2)])
  }

  lemma TriggerFoldNext(st: State, cfg: Config, cks: seq<string>, i: nat)
    requires i < |cks|
    ensures var before := TriggerFold(st, cfg, cks[..i]);
            var after := Recompute(before.0, cfg, cks[i]);
            TriggerFold(st, cfg, cks[..i + 1]) == (after.0, before.1 + [ChangeEvent(cfg, cks[i], after.1, after.2)])
  {
    assert cks[..i + 1][..i] == cks[..i];
  }

  function TriggerSpec(st: State, cfg: Config, prop: string): (State, seq<Event>)
  {
    TriggerFold(st, cfg, Dependents(st.depsMapping, prop))
  }

  /** The batch recomputation of `_$setMulti`: each key once, emitting only when `diff` holds. */
  function RecomputeFold(st: State, cfg: Config, cks: seq<string>): (State, seq<Event>)
  {
    if cks == [] then (st, [])
    else
      var before := RecomputeFold(st, cfg, cks[..|cks| - 1]);
      var after := Recompute(before.0, cfg, cks[|cks| - 1]);
      (after.0, if Util.Diff(after.1, after.2) then before.1 + [ChangeEvent(cfg, cks[|cks| - 1], after.1, after.2)] else before.1)
  }

  lemma RecomputeFoldNext(st: State, cfg: Config, cks: seq<string>, i: nat)
    requires i < |cks|
    ensures var before := RecomputeFold(st, cfg, cks[..i]);
            var after := Recompute(before.0, cfg, cks[i]);
            RecomputeFold(st, cfg, cks[..i + 1]) ==
              (after.0, if Util.Diff(after.1, after.2) then before.1 + [ChangeEvent(cfg, cks[i], after.1, after.2)] else before.1)
  {
    assert cks[..i + 1][..i] == cks[..i];
  }

  // ---------------------------------------------------------------------
  // _$set and _$setMulti

  /** `_$set(kp, value)`. */
  function SetSpec(st: State, cfg: Config, kp: string, value: Value): Run
  {
    var pps := View(st, cfg);
    match SyncSpec(st, cfg, kp, value)
    case Refused => Run(st, [], None)
    case Threw(e) => Run(st, [], Some(e))
    case Synced(cells, m, next, pre) =>
      var synced := st.(cells := cells);
      if Changes(cfg, kp, m, next, pre) then
        var triggered := TriggerSpec(synced, cfg, m);
        Run(triggered.0, triggered.1 + [ChangeEvent(cfg, m, next, pre)] + [WildcardEvent(View(triggered.0, cfg), pps, cfg)], None)
      else Run(synced, [], None)
  }

  /** The `reduce` of `_$setMulti`: append each key not yet collected, in order. */
  function AddUnique(will: seq<string>, cks: seq<string>): seq<string>
  {
    if cks == [] then will
    else
      var before := AddUnique(will, cks[..|cks| - 1]);
      if cks[|cks| - 1] in before then before else before + [cks[|cks| - 1]]
  }

  /** The loop state of `_$setMulti`: model state, events so far, `willComputedProps`, `hasDiff`, and a raised exception. */
  datatype Batch = Batch(st: State, events: seq<Event>, will: seq<string>, hasDiff: bool, thrown: Option<Exception>)

  /** One `objEach` callback of `_$setMulti`. */
  function SyncStep(b: Batch, cfg: Config, key: string, item: Value): Batch
  {
    match SyncSpec(b.st, cfg, key, item)
    case Refused => b
    case Threw(e) => b.(thrown := Some(e))
    case Synced(cells, m, next, pre) =>
      var synced := b.st.(cells := cells);
      if Changes(cfg, key, m, next, pre) then
        Batch(synced, b.events + [ChangeEvent(cfg, m, next, pre)], AddUnique(b.will, Dependents(synced.depsMapping, m)), true, None)
      else b.(st := synced)
  }

  /** A step appends its events to those collected so far, whatever they are. */
  lemma SyncStepEvents(b: Batch, cfg: Config, key: string, item: Value)
    requires b.thrown.None?
    ensures var step := SyncStep(b.(events := []), cfg, key, item);
            SyncStep(b, cfg, key, item) == step.(events := b.events + step.events)
  {
    match SyncSpec(b.st, cfg, key, item)
    case Refused =>
    case Threw(e) =>
    case Synced(cells, m, next, pre) =>
      if Changes(cfg, key, m, next, pre) {
        assert [] + [ChangeEvent(cfg, m, next, pre)] == [ChangeEvent(cfg, m, next, pre)];
      }
  }

  /** The `objEach` loop of `_$setMulti` over the entries in order; an exception ends it. */
  function SyncEach(st: State, cfg: Config, entries: seq<(string, Value)>): Batch
  {
    if entries == [] then Batch(st, [], [], false, None)
    else
      var before := SyncEach(st, cfg, entries[..|entries| - 1]);
      if before.thrown.Some? then before
      else SyncStep(before, cfg, entries[|entries| - 1].0, entries[|entries| - 1].1)
  }

  /** One more entry: the step runs from the state reached, its events after the earlier ones. */
  lemma SyncEachNext(st: State, cfg: Config, entries: seq<(string, Value)>, i: nat)
    requires i < |entries| && SyncEach(st, cfg, entries[..i]).thrown.None?
    ensures var before := SyncEach(st, cfg, entries[..i]);
            var step := SyncStep(Batch(before.st, [], before.will, before.hasDiff, None), cfg, entries[i].0, entries[i].1);
            SyncEach(st, cfg, entries[..i + 1]) == step.(events := before.events + step.events)
  {
    assert entries[..i + 1][..i] == entries[..i];
    var before := SyncEach(st, cfg, entries[..i]);
    SyncStepEvents(before, cfg, entries[i].0, entries[i].1);
    assert before.(events := []) == Batch(before.st, [], before.will, before.hasDiff, None);
  }

  /**
   * `_$setMulti(keyMap)`; `None` is an argument that is falsy or not a plain
   * object, otherwise the object's own entries in enumeration order.
   */
  function SetMultiSpec(st: State, cfg: Config, keyMap: Option<seq<(string, Value)>>): Run
  {
    match keyMap
    case None => Run(st, [], None)
    case Some(entries) =>
      var pps := View(st, cfg);
      var b := SyncEach(st, cfg, entries);
      if b.thrown.Some? then Run(b.st, b.events, b.thrown)
      else
        var recomputed := RecomputeFold(b.st, cfg, b.will);
        var events := b.events + recomputed.1;
        Run(recomputed.0, if b.hasDiff then events + [WildcardEvent(View(recomputed.0, cfg), pps, cfg)] else events, None)
  }

  // ---------------------------------------------------------------------
  // _$add

  /** `prop.match(/[\.\[\]]/)`. */
  predicate BadName(prop: string)
  {
    exists i :: 0 <= i < |prop| && prop[i] in {'.', '[', ']'}
  }

  /** The run of `_$add(prop[, value])` and whether it returned true (an observed key re-added with a value). */
  datatype AddOutcome = AddOutcome(run: Run, reset: bool)

  /**
   * `_$add(prop[, value])`: reject a bad name by throwing; an observed key
   * is left alone; otherwise store a copy of the value, append the key,
   * define its accessor (throwing if the model already has that own
   * property) and emit `change:prop` with the value given.
   */
  function AddSpec(st: State, cfg: Config, prop: string, value: Option<Value>): AddOutcome
  {
    if BadName(prop) then AddOutcome(Run(st, [], Some(PlainError)), false)
    else if prop in st.observableKeys then AddOutcome(Run(st, [], None), value.Some?)
    else
      var given := if value.Some? then value.value else Undefined;
      var stored := st.(cells := WriteProp(st.cells, cfg.propsRef, prop, cfg.copyValue(given)),
                        observableKeys := st.observableKeys + [prop]);
      if prop in st.accessors then AddOutcome(Run(stored, [], Some(TypeError)), false)
      else AddOutcome(Run(stored.(accessors := st.accessors[prop := Observed]), [Event(ChangeTopic(cfg.rootPath, prop), [Val(given)])], None), false)
  }

  // ---------------------------------------------------------------------
  // Dependencies and _$computed

  /**
   * `_addProp2ComputedDepsMapping(ck, dep)` as written: for a dep that is a
   * computed key, building the warning reads the undeclared variable `prop`.
   */
  function AddDepAsWritten(st: State, ck: string, dep: string): Result<State>
  {
    if dep in st.computedKeys then Err(ReferenceError) else Ok(AddDep(st, ck, dep))
  }

  /** `_addProp2ComputedDepsMapping(ck, dep)` as intended: a computed dep only warns. */
  function AddDep(st: State, ck: string, dep: string): State
  {
    if dep in st.computedKeys then st
    else
      var list := Dependents(st.depsMapping, dep);
      st.(depsMapping := st.depsMapping[dep := if ck in list then list else list + [ck]])
  }

  /** `deps.forEach(dep => _addProp2ComputedDepsMapping(ck, dep))`. */
  function AddDeps(st: State, ck: string, deps: seq<string>): State
  {
    if deps == [] then st else AddDep(AddDeps(st, ck, deps[..|deps| - 1]), ck, deps[|deps| - 1])
  }

  /** A computed definition: `deps` (None when falsy) and `fn` (None when falsy). */
  datatype ComputedDef = ComputedDef(deps: Option<seq<string>>, fn: Option<Getter>)

  function DepsList(deps: Option<seq<string>>): seq<string>
  {
    if deps.Some? then deps.value else []
  }

  /** `$util.patch(_computedCaches, ck, {})`, then `current` set to `fn` evaluated on the model. */
  function Seed(st: State, cfg: Config, ck: string): State
  {
    var patched := st.(caches := st.caches[ck := CacheOf(st.caches, ck)]);
    patched.(caches := st.caches[ck := CacheOf(st.caches, ck).(current := Eval(patched, cfg, ck))])
  }

  /** `_$computed(name, deps, fn)`; it emits nothing. */
  function ComputedSpec(st: State, cfg: Config, name: string, def: ComputedDef): Run
  {
    if name in st.computedKeys then Run(st, [], None)
    else
      var declared := st.(computedKeys := st.computedKeys + [name], fns := st.fns[name := def.fn]);
      var seeded := Seed(AddDeps(declared, name, DepsList(def.deps)), cfg, name);
      if name in seeded.accessors then Run(seeded, [], Some(TypeError))
      else Run(seeded.(accessors := seeded.accessors[name := Computed]), [], None)
  }

  // ---------------------------------------------------------------------
  // The instance methods

  /** The argument forms of `$add`. */
  datatype AddArg =
    | AddName(name: string, value: Option<Value>)    // (propname [, defaultValue])
    | AddNames(names: seq<string>)                    // (propnameArray)
    | AddEntries(entries: seq<(string, Value)>)       // (propsObj)
    | AddOther                                        // anything else

  /** The `forEach` of `$add(array)`: `_$add(item)` for each name; an exception ends it. */
  function AddEach(st: State, cfg: Config, names: seq<string>): Run
  {
    if names == [] then Run(st, [], None)
    else
      var before := AddEach(st, cfg, names[..|names| - 1]);
      if before.thrown.Some? then before
      else Then(before, AddSpec(before.st, cfg, names[|names| - 1], None).run)
  }

  /** The `objEach` of `$add(object)`: each entry is added; the keys already observed are collected for a reset. */
  function AddCollect(st: State, cfg: Config, entries: seq<(string, Value)>): (Run, seq<(string, Value)>)
  {
    if entries == [] then (Run(st, [], None), [])
    else
      var before := AddCollect(st, cfg, entries[..|entries| - 1]);
      if before.0.thrown.Some? then before
      else
        var e := entries[|entries| - 1];
        var added := AddSpec(before.0.st, cfg, e.0, Some(e.1));
        (Then(before.0, added.run), if added.reset then before.1 + [e] else before.1)
  }

  /** `$add(...)`; the unexpected-argument branch as intended (a warning). */
  function AddDispatch(st: State, cfg: Config, arg: AddArg): Run
  {
    match arg
    case AddName(n, None) => AddSpec(st, cfg, n, None).run
    case AddName(n, Some(v)) =>
      var added := AddSpec(st, cfg, n, Some(v));
      if added.reset then Then(added.run, SetSpec(added.run.st, cfg, n, v)) else added.run
    case AddNames(names) => AddEach(st, cfg, names)
    case AddEntries(entries) =>
      var collected := AddCollect(st, cfg, entries);
      if collected.0.thrown.None? && collected.1 != [] then
        Then(collected.0, SetMultiSpec(collected.0.st, cfg, Some(collected.1)))
      else collected.0
    case AddOther => Run(st, [], None)
  }

  /** The default branch of `$add` as written: `info` is not declared (the module is `$info`). */
  function AddOtherAsWritten(st: State): Run
  {
    Run(st, [], Some(ReferenceError))
  }

  /** The argument forms of `$computed`. */
  datatype ComputedArg =
    | ComputedOne(name: string, def: ComputedDef)          // (propname, deps, fn)
    | ComputedMany(defs: seq<(string, ComputedDef)>)       // (propsObj)
    | ComputedOther

  function ComputedEach(st: State, cfg: Config, defs: seq<(string, ComputedDef)>): Run
  {
    if defs == [] then Run(st, [], None)
    else
      var before := ComputedEach(st, cfg, defs[..|defs| - 1]);
      if before.thrown.Some? then before
      else Then(before, ComputedSpec(before.st, cfg, defs[|defs| - 1].0, defs[|defs| - 1].1))
  }

  function ComputedDispatch(st: State, cfg: Config, arg: ComputedArg): Run
  {
    match arg
    case ComputedOne(name, def) => ComputedSpec(st, cfg, name, def)
    case ComputedMany(defs) => ComputedEach(st, cfg, defs)
    case ComputedOther => Run(st, [], None)
  }

  /** The argument forms of `$set`. */
  datatype SetArg =
    | SetPath(kp: string, value: Value)            // (kp, value) or (kp)
    | SetBatch(entries: seq<(string, Value)>)      // (kpMap)
    | SetOther

  function SetDispatch(st: State, cfg: Config, arg: SetArg): Run
  {
    match arg
    case SetPath(kp, v) => SetSpec(st, cfg, kp, v)
    case SetBatch(entries) => SetMultiSpec(st, cfg, Some(entries))
    case SetOther => Run(st, [], None)
  }

  /** `$get(kp)`: observed key, computed key evaluated afresh, or a key path under an observed key. */
  function GetSpec(st: State, cfg: Config, kp: string): Result<Value>
  {
    if kp in st.observableKeys then Ok(PropValue(st, cfg, kp))
    else if kp in st.computedKeys then Ok(Eval(st, cfg, kp))
    else
      var normal := KeyPath.Normalize(kp);
      if KeyPath.Split(normal)[0] !in st.observableKeys then Ok(Undefined)
      else KeyPath.Get(st.cells, Obj(cfg.propsRef), normal)
  }

  /** The argument forms of `$watch`. */
  datatype WatchArg =
    | WatchKey(key: string, cb: Option<Message.Callback>)   // (key, callback)
    | WatchAll(fn: Message.Callback)                        // (callback)
    | WatchOther

  /** The topic `$watch(key, cb)` subscribes as written: the instance's key path is left out. */
  function WatchTopicAsWritten(key: string): string
  {
    "change:" + key
  }

  /** The topic `$watch(key, cb)` is evidently meant to subscribe: the one `_emit` and `$unwatch` use. */
  function WatchTopic(cfg: Config, key: string): string
  {
    ChangeTopic(cfg.rootPath, key)
  }

  /** The `on` call `$watch` makes as written: the topic and the callback, if the arguments fit. */
  function WatchOnAsWritten(cfg: Config, arg: WatchArg): Option<(string, Option<Message.Callback>)>
  {
    match arg
    case WatchKey(key, cb) => Some((WatchTopicAsWritten(key), cb))
    case WatchAll(fn) => Some((AllTopic(cfg.rootPath), Some(fn)))
    case WatchOther => None
  }

  /** The `on` call `$watch` evidently means to make. */
  function WatchOn(cfg: Config, arg: WatchArg): Option<(string, Option<Message.Callback>)>
  {
    match arg
    case WatchKey(key, cb) => Some((WatchTopic(cfg, key), cb))
    case WatchAll(fn) => Some((AllTopic(cfg.rootPath), Some(fn)))
    case WatchOther => None
  }

  /** The argument forms of `$unwatch`. */
  datatype UnwatchArg =
    | UnwatchKeyCb(key: string, cb: Option<Message.Callback>)   // (key, callback)
    | UnwatchKey(key: string)                                   // (key)
    | UnwatchCb(fn: Message.Callback)                           // (callback)
    | UnwatchAll                                                // ()
    | UnwatchOther

  /** The `off` call `$unwatch` makes: the topic (empty for all) and the callback, if any. */
  function UnwatchOff(cfg: Config, arg: UnwatchArg): Option<(string, Option<Message.Callback>)>
  {
    match arg
    case UnwatchKeyCb(key, cb) => Some((ChangeTopic(cfg.rootPath, key), cb))
    case UnwatchKey(key) => Some((ChangeTopic(cfg.rootPath, key), None))
    case UnwatchCb(fn) => Some((AllTopic(cfg.rootPath), Some(fn)))
    case UnwatchAll => Some(("", None))
    case UnwatchOther => None
  }

  /** The arguments the function `$watch` returns passes on to `$unwatch`. */
  function Unsubscriber(arg: WatchArg): Option<UnwatchArg>
  {
    match arg
    case WatchKey(key, cb) => Some(UnwatchKeyCb(key, cb))
    case WatchAll(fn) => Some(UnwatchCb(fn))
    case WatchOther => None
  }

  // ---------------------------------------------------------------------
  // Ctor

  function Keys<T>(entries: seq<(string, T)>): (keys: seq<string>)
    ensures |keys| == |entries| && forall i :: 0 <= i < |entries| ==> keys[i] == entries[i].0
  {
    if entries == [] then [] else Keys(entries[..|entries| - 1]) + [entries[|entries| - 1].0]
  }

  /** The keys of the computed definitions that have `deps`: only those get a cache and an accessor in `Ctor`. */
  function WithDeps(defs: seq<(string, ComputedDef)>): seq<string>
  {
    if defs == [] then []
    else WithDeps(defs[..|defs| - 1]) + (if defs[|defs| - 1].1.deps.Some? then [defs[|defs| - 1].0] else [])
  }

  /** `_computedProps[k].fn` for the definitions given to `Ctor`. */
  function FnsOf(defs: seq<(string, ComputedDef)>): map<string, Option<Getter>>
  {
    if defs == [] then map[] else FnsOf(defs[..|defs| - 1])[defs[|defs| - 1].0 := defs[|defs| - 1].1.fn]
  }

  /** One own property of each key, all of one kind. */
  function DefineAll(accessors: map<string, Accessor>, keys: seq<string>, kind: Accessor): map<string, Accessor>
  {
    if keys == [] then accessors else DefineAll(accessors, keys[..|keys| - 1], kind)[keys[|keys| - 1] := kind]
  }

  predicate Distinct(keys: seq<string>)
  {
    forall i, j :: 0 <= i < j < |keys| ==> keys[i] != keys[j]
  }

  /**
   * Some `defineProperties` call of `Ctor` throws a TypeError: an initial
   * prop or a computed property with deps is named like a built-in method
   * or the id, or a computed property with deps is named like an initial prop
   * (the own properties `Ctor` defines are not configurable).
   */
  predicate Collides(initial: seq<(string, Value)>, defs: seq<(string, ComputedDef)>)
  {
    || (exists k :: k in Keys(initial) && k in Builtins)
    || (exists k :: k in WithDeps(defs) && (k in Builtins || k in Keys(initial)))
  }

  /** The `_observableKeys.forEach` of `Ctor`: store each initial value and define its accessor. */
  function InitProps(st: State, cfg: Config, initial: seq<(string, Value)>): State
  {
    if initial == [] then st
    else
      var before := InitProps(st, cfg, initial[..|initial| - 1]);
      var e := initial[|initial| - 1];
      before.(cells := WriteProp(before.cells, cfg.propsRef, e.0, e.1), accessors := before.accessors[e.0 := Observed])
  }

  /** The `_computedKeys.forEach` of `Ctor`: a definition with deps links them and seeds its cache. */
  function InitComputed(st: State, cfg: Config, defs: seq<(string, ComputedDef)>): State
  {
    if defs == [] then st
    else
      var before := InitComputed(st, cfg, defs[..|defs| - 1]);
      var e := defs[|defs| - 1];
      if e.1.deps.None? then before else Seed(AddDeps(before, e.0, e.1.deps.value), cfg, e.0)
  }

  /**
   * The state `Ctor` builds before its closing `_$setMulti(receiveProps)`,
   * starting from a heap in which `_props` is a fresh empty object.
   */
  function CtorSpec(cells: map<Ref, Container>, cfg: Config, initial: seq<(string, Value)>, defs: seq<(string, ComputedDef)>): State
  {
    var start := State(cells, Keys(initial), Keys(defs), FnsOf(defs), map[], map[], map[Builtins[0] := Builtin]);
    var computed := InitComputed(InitProps(start, cfg, initial), cfg, defs);
    var withComputed := computed.(accessors := DefineAll(computed.accessors, WithDeps(defs), Computed));
    withComputed.(accessors := DefineAll(withComputed.accessors, Builtins[1..], Builtin))
  }

  // ---------------------------------------------------------------------
  // The loops over entries, one entry at a time; an exception ends them

  lemma {:induction false} SyncEachDone(st: State, cfg: Config, entries: seq<(string, Value)>, i: nat)
    requires i <= |entries|
    requires i == |entries| || SyncEach(st, cfg, entries[..i]).thrown.Some?
    ensures SyncEach(st, cfg, entries) == SyncEach(st, cfg, entries[..i])
    decreases |entries| - i
  {
    if i == |entries| {
      assert entries[..i] == entries;
    } else {
      var init := entries[..|entries| - 1];
      assert init[..i] == entries[..i];
      SyncEachDone(st, cfg, init, i);
    }
  }

  lemma AddEachNext(st: State, cfg: Config, names: seq<string>, i: nat)
    requires i < |names| && AddEach(st, cfg, names[..i]).thrown.None?
    ensures var before := AddEach(st, cfg, names[..i]);
            AddEach(st, cfg, names[..i + 1]) == Then(before, AddSpec(before.st, cfg, names[i], None).run)
  {
    assert names[..i + 1][..i] == names[..i];
  }

  lemma {:induction false} AddEachDone(st: State, cfg: Config, names: seq<string>, i: nat)
    requires i <= |names|
    requires i == |names| || AddEach(st, cfg, names[..i]).thrown.Some?
    ensures AddEach(st, cfg, names) == AddEach(st, cfg, names[..i])
    decreases |names| - i
  {
    if i == |names| {
      assert names[..i] == names;
    } else {
      var init := names[..|names| - 1];
      assert init[..i] == names[..i];
      AddEachDone(st, cfg, init, i);
    }
  }

  lemma AddCollectNext(st: State, cfg: Config, entries: seq<(string, Value)>, i: nat)
    requires i < |entries| && AddCollect(st, cfg, entries[..i]).0.thrown.None?
    ensures var before := AddCollect(st, cfg, entries[..i]);
            var added := AddSpec(before.0.st, cfg, entries[i].0, Some(entries[i].1));
            AddCollect(st, cfg, entries[..i + 1]) ==
              (Then(before.0, added.run), if added.reset then before.1 + [entries[i]] else before.1)
  {
    assert entries[..i + 1][..i] == entries[..i];
  }

  lemma {:induction false} AddCollectDone(st: State, cfg: Config, entries: seq<(string, Value)>, i: nat)
    requires i <= |entries|
    requires i == |entries| || AddCollect(st, cfg, entries[..i]).0.thrown.Some?
    ensures AddCollect(st, cfg, entries) == AddCollect(st, cfg, entries[..i])
    decreases |entries| - i
  {
    if i == |entries| {
      assert entries[..i] == entries;
    } else {
      var init := entries[..|entries| - 1];
      assert init[..i] == entries[..i];
      AddCollectDone(st, cfg, init, i);
    }
  }

  lemma ComputedEachNext(st: State, cfg: Config, defs: seq<(string, ComputedDef)>, i: nat)
    requires i < |defs| && ComputedEach(st, cfg, defs[..i]).thrown.None?
    ensures var before := ComputedEach(st, cfg, defs[..i]);
            ComputedEach(st, cfg, defs[..i + 1]) == Then(before, ComputedSpec(before.st, cfg, defs[i].0, defs[i].1))
  {
    assert defs[..i + 1][..i] == defs[..i];
  }

  lemma {:induction false} ComputedEachDone(st: State, cfg: Config, defs: seq<(string, ComputedDef)>, i: nat)
    requires i <= |defs|
    requires i == |defs| || ComputedEach(st, cfg, defs[..i]).thrown.Some?
    ensures ComputedEach(st, cfg, defs) == ComputedEach(st, cfg, defs[..i])
    decreases |defs| - i
  {
    if i == |defs| {
      assert defs[..i] == defs;
    } else {
      var init := defs[..|defs| - 1];
      assert init[..i] == defs[..i];
      ComputedEachDone(st, cfg, init, i);
    }
  }
}
