/**
 * One model instance of lib/mux.js: the closure state of `Ctor` as the
 * fields of a class, the `_$` functions and the instance methods as its
 * methods.  Each method is proved against the function of module MuxState
 * that gives its effect: the new state, the exception raised, and the
 * callback invocations appended to the emitter's trace.
 */
module MuxModel {
  import opened Js
  import KeyPath
  import Util
  import Message
  import opened MuxState

  /** The `reduce` of `_$setMulti`: push each key not yet collected. */
  method CollectUnique(will: seq<string>, cks: seq<string>) returns (r: seq<string>)
    ensures r == AddUnique(will, cks)
  {
    r := will;
    var i := 0;
    while i < |cks|
      invariant 0 <= i <= |cks|
      invariant r == AddUnique(will, cks[..i])
    {
      assert cks[..i + 1][..i] == cks[..i];
      if cks[i] !in r {
        r := r + [cks[i]];
      }
      i := i + 1;
    }
    assert cks[..|cks|] == cks;
  }

  class Mux {
    const heap: Heap
    const emitter: Message.Channel<Payload>
    const cfg: Config
    var observableKeys: seq<string>
    var computedKeys: seq<string>
    var fns: map<string, Option<Getter>>
    var depsMapping: map<string, seq<string>>
    var caches: map<string, Cache>
    var accessors: map<string, Accessor>

    /** The heap is well formed and `_props` stays an object in it. */
    ghost predicate Valid()
      reads this, heap
    {
      heap.Valid() && cfg.propsRef in heap.cells && heap.cells[cfg.propsRef].ObjC?
    }

    /** The instance's state as a value. */
    ghost function St(): State
      reads this, heap
    {
      State(heap.cells, observableKeys, computedKeys, fns, depsMapping, caches, accessors)
    }

    /**
     * The part of `Ctor` before its closing `_$setMulti`: `_props` is a new
     * object; the initial props are stored and observed; each computed
     * property with deps links them and is evaluated into its cache; then
     * the accessors of those and the built-in methods are defined.
     */
    constructor (h: Heap, deep: bool, rootPath: string, copyValue: Value -> Value,
                 initial: seq<(string, Value)>, defs: seq<(string, ComputedDef)>)
      requires h.Valid()
      requires Distinct(Keys(initial)) && Distinct(Keys(defs))
      modifies h
      ensures Valid() && heap == h
      ensures cfg == Config(cfg.propsRef, deep, rootPath, copyValue) && cfg.propsRef !in old(h.cells)
      ensures St() == CtorSpec(old(h.cells)[cfg.propsRef := ObjC(map[])], cfg, initial, defs)
      ensures h.methods == old(h.methods) && h.closures == old(h.closures)
      ensures fresh(emitter) && emitter.observers == map[] && emitter.trace == []
    {
      var props := h.Alloc(ObjC(map[]));
      heap := h;
      emitter := new Message.Channel<Payload>();
      cfg := Config(props, deep, rootPath, copyValue);
      observableKeys, computedKeys, fns := Keys(initial), Keys(defs), FnsOf(defs);
      depsMapping, caches := map[], map[];
      accessors := map[Builtins[0] := Builtin];
      new;
      ghost var spec := CtorSpec(old(h.cells)[props := ObjC(map[])], cfg, initial, defs);
      assert St() == State(old(h.cells)[props := ObjC(map[])], Keys(initial), Keys(defs), FnsOf(defs), map[], map[], map[Builtins[0] := Builtin]);
      InitObserved(initial);
      var withDeps := InitComputedProps(defs);
      DefineAccessors(withDeps, MuxState.Computed);
      DefineAccessors(Builtins[1..], Builtin);
      assert St() == spec;
    }

    /** The `_observableKeys.forEach` of `Ctor`. */
    method InitObserved(initial: seq<(string, Value)>)
      requires Valid()
      modifies heap`cells, this`accessors
      ensures Valid()
      ensures St() == InitProps(old(St()), cfg, initial)
    {
      var i := 0;
      while i < |initial|
        invariant 0 <= i <= |initial|
        invariant Valid()
        invariant St() == InitProps(old(St()), cfg, initial[..i])
      {
        assert initial[..i + 1][..i] == initial[..i];
        heap.cells := WriteProp(heap.cells, cfg.propsRef, initial[i].0, initial[i].1);
        accessors := accessors[initial[i].0 := Observed];
        i := i + 1;
      }
      assert initial[..|initial|] == initial;
    }

    /** The `_computedKeys.forEach` of `Ctor`; returns the keys that had deps, in order. */
    method InitComputedProps(defs: seq<(string, ComputedDef)>) returns (withDeps: seq<string>)
      modifies this`depsMapping, this`caches
      ensures St() == InitComputed(old(St()), cfg, defs) && withDeps == WithDeps(defs)
    {
      withDeps := [];
      var i := 0;
      while i < |defs|
        invariant 0 <= i <= |defs|
        invariant St() == InitComputed(old(St()), cfg, defs[..i])
        invariant withDeps == WithDeps(defs[..i])
      {
        assert defs[..i + 1][..i] == defs[..i];
        var ck := defs[i].0;
        var deps := defs[i].1.deps;
        if deps.Some? {
          LinkDependencies(ck, deps.value);
          SeedCache(ck);
          withDeps := withDeps + [ck];
        }
        i := i + 1;
      }
      assert defs[..|defs|] == defs;
    }

    /** `Object.defineProperties` for the given keys, all of one kind. */
    method DefineAccessors(keys: seq<string>, kind: Accessor)
      modifies this`accessors
      ensures accessors == DefineAll(old(accessors), keys, kind)
    {
      var i := 0;
      while i < |keys|
        invariant 0 <= i <= |keys|
        invariant accessors == DefineAll(old(accessors), keys[..i], kind)
      {
        assert keys[..i + 1][..i] == keys[..i];
        accessors := accessors[keys[i] := kind];
        i := i + 1;
      }
      assert keys[..|keys|] == keys;
    }

    /**
     * `Ctor` called with `receiveProps`: the instance, and the exception
     * the `new` expression raises, if any (the instance is then unreachable
     * in the source).
     */
    static method Create(h: Heap, deep: bool, rootPath: string, copyValue: Value -> Value,
                         initial: seq<(string, Value)>, defs: seq<(string, ComputedDef)>,
                         receiveProps: Option<seq<(string, Value)>>) returns (m: Mux, thrown: Option<Exception>)
      requires h.Valid()
      requires Distinct(Keys(initial)) && Distinct(Keys(defs))
      modifies h
      ensures m.Valid() && m.heap == h && m.cfg == Config(m.cfg.propsRef, deep, rootPath, copyValue)
      ensures m.cfg.propsRef !in old(h.cells)
      ensures var built := CtorSpec(old(h.cells)[m.cfg.propsRef := ObjC(map[])], m.cfg, initial, defs);
              if Collides(initial, defs) then
                thrown == Some(TypeError) && m.St() == built && m.emitter.trace == []
              else
                var run := SetMultiSpec(built, m.cfg, receiveProps);
                m.St() == run.st && thrown == run.thrown &&
                m.emitter.observers == map[] && m.emitter.trace == Broadcast(map[], run.events)
    {
      m := new Mux(h, deep, rootPath, copyValue, initial, defs);
      if Collides(initial, defs) {
        return m, Some(TypeError);
      }
      thrown := m.SetMulti(receiveProps);
    }

    // -------------------------------------------------------------------
    // Emitting

    /** `_emit(prop, args...)`: emit on the change topic of `prop` under the instance's key path. */
    method EmitChange(prop: string, args: seq<Payload>)
      modifies emitter`trace
      ensures emitter.trace == old(emitter.trace) + Broadcast(emitter.observers, [Event(ChangeTopic(cfg.rootPath, prop), args)])
    {
      var prefix := cfg.rootPath;
      if prefix != "" {
        prefix := prefix + ".";
      }
      emitter.Emit("change:" + prefix + prop, args);
      assert [Event(ChangeTopic(cfg.rootPath, prop), args)][..0] == [];
    }

    /** `_emitAll(next, pre)`: emit both snapshots on the wildcard topic of the instance. */
    method EmitAll(next: map<string, Value>, pre: map<string, Value>)
      modifies emitter`trace
      ensures emitter.trace == old(emitter.trace) + Broadcast(emitter.observers, [WildcardEvent(next, pre, cfg)])
    {
      emitter.Emit("*:" + cfg.rootPath, [Snap(next), Snap(pre)]);
      assert [WildcardEvent(next, pre, cfg)][..0] == [];
    }

    // -------------------------------------------------------------------
    // Dependencies and computed caches

    /** `_addProp2ComputedDepsMapping(ck, dep)`, a computed `dep` only warning. */
    method LinkDependency(ck: string, dep: string)
      modifies this`depsMapping
      ensures St() == AddDep(old(St()), ck, dep)
    {
      if dep in computedKeys {
        return;
      }
      if dep !in depsMapping {
        depsMapping := depsMapping[dep := []];
      }
      if ck in depsMapping[dep] {
        return;
      }
      depsMapping := depsMapping[dep := depsMapping[dep] + [ck]];
    }

    /** `deps.forEach(dep => _addProp2ComputedDepsMapping(ck, dep))`. */
    method LinkDependencies(ck: string, deps: seq<string>)
      modifies this`depsMapping
      ensures St() == AddDeps(old(St()), ck, deps)
    {
      var i := 0;
      while i < |deps|
        invariant 0 <= i <= |deps|
        invariant St() == AddDeps(old(St()), ck, deps[..i])
      {
        assert deps[..i + 1][..i] == deps[..i];
        LinkDependency(ck, deps[i]);
        i := i + 1;
      }
      assert deps[..|deps|] == deps;
    }

    /** `$util.patch(_computedCaches, ck, {})` and `current` set to `fn` called on the model. */
    method SeedCache(ck: string)
      modifies this`caches
      ensures St() == Seed(old(St()), cfg, ck)
    {
      var c := CacheOf(caches, ck);
      caches := caches[ck := c];
      var current := Call(FnOf(fns, ck), ViewOf(heap.cells, cfg.propsRef, accessors, caches), heap.cells);
      caches := caches[ck := c.(current := current)];
    }

    /** One computed key: `pre` takes `current`, `current` takes `fn` called on the model. */
    method RecomputeOne(ck: string) returns (next: Value, pre: Value)
      modifies this`caches
      ensures (St(), next, pre) == Recompute(old(St()), cfg, ck)
    {
      ghost var st0 := St();
      pre := CacheOf(caches, ck).current;
      caches := caches[ck := Cache(pre, pre)];
      assert St() == st0.(caches := st0.caches[ck := Cache(pre, pre)]);
      next := Call(FnOf(fns, ck), ViewOf(heap.cells, cfg.propsRef, accessors, caches), heap.cells);
      assert next == Eval(St(), cfg, ck);
      caches := caches[ck := Cache(next, pre)];
      assert caches == st0.caches[ck := Cache(next, pre)];
    }

    /** The `forEach` callback of `_triggerPropertyComputedChange`: recompute `ck` and emit. */
    method TriggerOne(ck: string, ghost trace0: seq<Message.Delivery<Payload>>, ghost events: seq<Event>)
      requires emitter.trace == trace0 + Broadcast(emitter.observers, events)
      modifies this`caches, emitter`trace
      ensures var r := Recompute(old(St()), cfg, ck);
              St() == r.0 && emitter.trace == trace0 + Broadcast(emitter.observers, events + [ChangeEvent(cfg, ck, r.1, r.2)])
    {
      ghost var trace1 := emitter.trace;
      var next, pre := RecomputeOne(ck);
      EmitChange(ck, [Val(next), Val(pre)]);
      BroadcastExtends(emitter.observers, trace0, events, [ChangeEvent(cfg, ck, next, pre)], trace1, emitter.trace);
    }

    /** `_triggerPropertyComputedChange(prop)`: recompute every dependent of `prop` and emit, changed or not. */
    method TriggerComputed(prop: string)
      modifies this`caches, emitter`trace
      ensures var t := TriggerSpec(old(St()), cfg, prop);
              St() == t.0 && emitter.trace == old(emitter.trace) + Broadcast(emitter.observers, t.1)
    {
      var cks := Dependents(depsMapping, prop);
      ghost var st0 := St();
      var i := 0;
      while i < |cks|
        invariant 0 <= i <= |cks|
        invariant St() == TriggerFold(st0, cfg, cks[..i]).0
        invariant emitter.trace == old(emitter.trace) + Broadcast(emitter.observers, TriggerFold(st0, cfg, cks[..i]).1)
      {
        TriggerFoldNext(st0, cfg, cks, i);
        TriggerOne(cks[i], old(emitter.trace), TriggerFold(st0, cfg, cks[..i]).1);
        i := i + 1;
      }
      assert cks[..|cks|] == cks;
    }

    /** One key of the `forEach` over `willComputedProps`: recompute it, emit only on a difference. */
    method RecomputeNext(ck: string, ghost trace0: seq<Message.Delivery<Payload>>, ghost events: seq<Event>)
      requires emitter.trace == trace0 + Broadcast(emitter.observers, events)
      modifies this`caches, emitter`trace
      ensures var r := Recompute(old(St()), cfg, ck);
              St() == r.0 &&
              emitter.trace == trace0 + Broadcast(emitter.observers,
                                 if Util.Diff(r.1, r.2) then events + [ChangeEvent(cfg, ck, r.1, r.2)] else events)
    {
      ghost var trace1 := emitter.trace;
      var next, pre := RecomputeOne(ck);
      if Util.Diff(next, pre) {
        EmitChange(ck, [Val(next), Val(pre)]);
        BroadcastExtends(emitter.observers, trace0, events, [ChangeEvent(cfg, ck, next, pre)], trace1, emitter.trace);
      }
    }

    /** The `forEach` over `willComputedProps` in `_$setMulti`: recompute each, emit only on a difference. */
    method RecomputeAll(will: seq<string>)
      modifies this`caches, emitter`trace
      ensures var t := RecomputeFold(old(St()), cfg, will);
              St() == t.0 && emitter.trace == old(emitter.trace) + Broadcast(emitter.observers, t.1)
    {
      ghost var st0 := St();
      var i := 0;
      while i < |will|
        invariant 0 <= i <= |will|
        invariant St() == RecomputeFold(st0, cfg, will[..i]).0
        invariant emitter.trace == old(emitter.trace) + Broadcast(emitter.observers, RecomputeFold(st0, cfg, will[..i]).1)
      {
        RecomputeFoldNext(st0, cfg, will, i);
        RecomputeNext(will[i], old(emitter.trace), RecomputeFold(st0, cfg, will[..i]).1);
        i := i + 1;
      }
      assert will[..|will|] == will;
    }

    // -------------------------------------------------------------------
    // _$sync, _$set, _$setMulti

    /** `_$sync(kp, value)`. */
    method Sync(kp: string, value: Value) returns (r: SyncResult)
      requires Valid()
      modifies heap`cells
      ensures Valid()
      ensures r == SyncSpec(old(St()), cfg, kp, value)
      ensures heap.cells == if r.Synced? then r.cells else old(heap.cells)
    {
      var parts := KeyPath.Split(KeyPath.Normalize(kp));
      var prop := parts[0];
      if prop in computedKeys || prop !in observableKeys {
        return Refused;
      }
      var pv := ReadProp(heap.cells, cfg.propsRef, prop);
      var res := KeyPath.Set(heap, Obj(cfg.propsRef), kp, value);
      if res.Err? {
        return Threw(res.error);
      }
      return Synced(heap.cells, prop, ReadProp(heap.cells, cfg.propsRef, prop), pv);
    }

    /** `_$set(kp, value)`. */
    method SetOne(kp: string, value: Value) returns (thrown: Option<Exception>)
      requires Valid()
      modifies heap`cells, this`caches, emitter`trace
      ensures Valid()
      ensures var run := SetSpec(old(St()), cfg, kp, value);
              St() == run.st && thrown == run.thrown &&
              emitter.trace == old(emitter.trace) + Broadcast(emitter.observers, run.events)
    {
      var pps := ViewOf(heap.cells, cfg.propsRef, accessors, caches);
      var diff := Sync(kp, value);
      if diff.Refused? {
        return None;
      } else if diff.Threw? {
        return Some(diff.error);
      }
      var m, next, pre := diff.mounted, diff.next, diff.pre;
      if (!cfg.deep || kp == m) && Util.Diff(next, pre) {
        ghost var triggered := TriggerSpec(St(), cfg, m);
        ghost var change := ChangeEvent(cfg, m, next, pre);
        TriggerComputed(m);
        ghost var trace1 := emitter.trace;
        EmitChange(m, [Val(next), Val(pre)]);
        BroadcastExtends(emitter.observers, old(emitter.trace), triggered.1, [change], trace1, emitter.trace);
        ghost var trace2 := emitter.trace;
        EmitAll(ViewOf(heap.cells, cfg.propsRef, accessors, caches), pps);
        BroadcastExtends(emitter.observers, old(emitter.trace), triggered.1 + [change], [WildcardEvent(View(St(), cfg), pps, cfg)], trace2, emitter.trace);
      }
      return None;
    }

    /** The first `i` entries of `_$setMulti` have been synced from `st0`, and their events emitted after `trace0`. */
    ghost predicate SyncedUpTo(st0: State, trace0: seq<Message.Delivery<Payload>>, entries: seq<(string, Value)>, i: nat,
                               will: seq<string>, hasDiff: bool, thrown: Option<Exception>)
      requires i <= |entries|
      reads this, heap, emitter
    {
      var b := SyncEach(st0, cfg, entries[..i]);
      St() == b.st && will == b.will && hasDiff == b.hasDiff && thrown == b.thrown &&
      emitter.trace == trace0 + Broadcast(emitter.observers, b.events)
    }

    /** The `objEach` callback of `_$setMulti` for entry `i`. */
    method SyncNext(entries: seq<(string, Value)>, i: nat, will: seq<string>, hasDiff: bool,
                    ghost st0: State, ghost trace0: seq<Message.Delivery<Payload>>)
      returns (will': seq<string>, hasDiff': bool, thrown: Option<Exception>)
      requires i < |entries| && Valid()
      requires SyncedUpTo(st0, trace0, entries, i, will, hasDiff, None)
      modifies heap`cells, emitter`trace
      ensures Valid()
      ensures SyncedUpTo(st0, trace0, entries, i + 1, will', hasDiff', thrown)
    {
      ghost var events := SyncEach(st0, cfg, entries[..i]).events;
      SyncEachNext(st0, cfg, entries, i);
      var key, item := entries[i].0, entries[i].1;
      will', hasDiff', thrown := will, hasDiff, None;
      var diff := Sync(key, item);
      if diff.Threw? {
        thrown := Some(diff.error);
        assert events + [] == events;
      } else if diff.Synced? && (!cfg.deep || key == diff.mounted) && Util.Diff(diff.next, diff.pre) {
        ghost var trace1 := emitter.trace;
        EmitChange(diff.mounted, [Val(diff.next), Val(diff.pre)]);
        BroadcastExtends(emitter.observers, trace0, events, [ChangeEvent(cfg, diff.mounted, diff.next, diff.pre)], trace1, emitter.trace);
        will' := CollectUnique(will, Dependents(depsMapping, diff.mounted));
        hasDiff' := true;
      } else {
        assert events + [] == events;
      }
    }

    /** The `objEach` loop of `_$setMulti`; an exception ends it. */
    method SyncAll(entries: seq<(string, Value)>) returns (will: seq<string>, hasDiff: bool, thrown: Option<Exception>)
      requires Valid()
      modifies heap`cells, emitter`trace
      ensures Valid()
      ensures var b := SyncEach(old(St()), cfg, entries);
              St() == b.st && will == b.will && hasDiff == b.hasDiff && thrown == b.thrown &&
              emitter.trace == old(emitter.trace) + Broadcast(emitter.observers, b.events)
    {
      ghost var st0 := St();
      will, hasDiff, thrown := [], false, None;
      var i := 0;
      while i < |entries| && thrown.None?
        invariant 0 <= i <= |entries|
        invariant Valid()
        invariant SyncedUpTo(st0, old(emitter.trace), entries, i, will, hasDiff, thrown)
      {
        will, hasDiff, thrown := SyncNext(entries, i, will, hasDiff, st0, old(emitter.trace));
        i := i + 1;
      }
      SyncEachDone(st0, cfg, entries, i);
    }

    /** `_$setMulti(keyMap)`. */
    method SetMulti(keyMap: Option<seq<(string, Value)>>) returns (thrown: Option<Exception>)
      requires Valid()
      modifies heap`cells, this`caches, emitter`trace
      ensures Valid()
      ensures var run := SetMultiSpec(old(St()), cfg, keyMap);
              St() == run.st && thrown == run.thrown &&
              emitter.trace == old(emitter.trace) + Broadcast(emitter.observers, run.events)
    {
      if keyMap.None? {
        return None;
      }
      var pps := ViewOf(heap.cells, cfg.propsRef, accessors, caches);
      var will, hasDiff;
      will, hasDiff, thrown := SyncAll(keyMap.value);
      if thrown.Some? {
        return;
      }
      ghost var b := SyncEach(old(St()), cfg, keyMap.value);
      ghost var recomputed := RecomputeFold(St(), cfg, will);
      ghost var trace1 := emitter.trace;
      RecomputeAll(will);
      BroadcastExtends(emitter.observers, old(emitter.trace), b.events, recomputed.1, trace1, emitter.trace);
      if hasDiff {
        ghost var trace2 := emitter.trace;
        EmitAll(ViewOf(heap.cells, cfg.propsRef, accessors, caches), pps);
        BroadcastExtends(emitter.observers, old(emitter.trace), b.events + recomputed.1, [WildcardEvent(View(St(), cfg), pps, cfg)], trace2, emitter.trace);
      }
    }

    // -------------------------------------------------------------------
    // _$add and _$computed

    /** `_$add(prop[, value])`: returns whether an observed key was re-added with a value. */
    method AddOne(prop: string, value: Option<Value>) returns (reset: bool, thrown: Option<Exception>)
      requires Valid()
      modifies heap`cells, this`observableKeys, this`accessors, emitter`trace
      ensures Valid()
      ensures var o := AddSpec(old(St()), cfg, prop, value);
              St() == o.run.st && thrown == o.run.thrown && reset == o.reset &&
              emitter.trace == old(emitter.trace) + Broadcast(emitter.observers, o.run.events)
    {
      if BadName(prop) {
        return false, Some(PlainError);
      }
      if prop in observableKeys {
        return value.Some?, None;
      }
      var given := if value.Some? then value.value else Undefined;
      heap.cells := WriteProp(heap.cells, cfg.propsRef, prop, cfg.copyValue(given));
      observableKeys := observableKeys + [prop];
      if prop in accessors {
        return false, Some(TypeError);
      }
      accessors := accessors[prop := Observed];
      EmitChange(prop, [Val(given)]);
      return false, None;
    }

    /** `_$computed(name, deps, fn)`. */
    method DefineComputed(name: string, def: ComputedDef) returns (thrown: Option<Exception>)
      modifies this`computedKeys, this`fns, this`depsMapping, this`caches, this`accessors
      ensures var run := ComputedSpec(old(St()), cfg, name, def);
              St() == run.st && thrown == run.thrown
    {
      if name in computedKeys {
        return None;
      }
      computedKeys := computedKeys + [name];
      fns := fns[name := def.fn];
      LinkDependencies(name, DepsList(def.deps));
      SeedCache(name);
      if name in accessors {
        return Some(TypeError);
      }
      accessors := accessors[name := MuxState.Computed];
      return None;
    }

    // -------------------------------------------------------------------
    // The instance methods

    /** `$add(...)`, the unexpected-argument branch only warning. */
    method Add(arg: AddArg) returns (thrown: Option<Exception>)
      requires Valid()
      modifies heap`cells, this`observableKeys, this`accessors, this`caches, emitter`trace
      ensures Valid()
      ensures var run := AddDispatch(old(St()), cfg, arg);
              St() == run.st && thrown == run.thrown &&
              emitter.trace == old(emitter.trace) + Broadcast(emitter.observers, run.events)
    {
      match arg {
        case AddName(n, value) =>
          ghost var added := AddSpec(St(), cfg, n, value);
          var reset;
          reset, thrown := AddOne(n, value);
          if reset {
            ghost var trace1 := emitter.trace;
            thrown := SetOne(n, value.value);
            BroadcastExtends(emitter.observers, old(emitter.trace), added.run.events,
                             SetSpec(added.run.st, cfg, n, value.value).events, trace1, emitter.trace);
          }
        case AddNames(names) =>
          thrown := AddEachName(names);
        case AddEntries(entries) =>
          ghost var collected := AddCollect(St(), cfg, entries);
          var resets;
          resets, thrown := AddEachEntry(entries);
          if thrown.None? && resets != [] {
            ghost var trace1 := emitter.trace;
            thrown := SetMulti(Some(resets));
            BroadcastExtends(emitter.observers, old(emitter.trace), collected.0.events,
                             SetMultiSpec(collected.0.st, cfg, Some(resets)).events, trace1, emitter.trace);
          }
        case AddOther =>
          thrown := None;
      }
    }

    /** The `forEach` of `$add(array)`. */
    method AddEachName(names: seq<string>) returns (thrown: Option<Exception>)
      requires Valid()
      modifies heap`cells, this`observableKeys, this`accessors, emitter`trace
      ensures Valid()
      ensures var run := AddEach(old(St()), cfg, names);
              St() == run.st && thrown == run.thrown &&
              emitter.trace == old(emitter.trace) + Broadcast(emitter.observers, run.events)
    {
      ghost var st0 := St();
      thrown := None;
      var i := 0;
      while i < |names| && thrown.None?
        invariant 0 <= i <= |names|
        invariant Valid()
        invariant var run := AddEach(st0, cfg, names[..i]);
                  thrown == run.thrown && St() == run.st &&
                  emitter.trace == old(emitter.trace) + Broadcast(emitter.observers, run.events)
      {
        AddEachNext(st0, cfg, names, i);
        ghost var before := AddEach(st0, cfg, names[..i]);
        ghost var trace1 := emitter.trace;
        var _, t := AddOne(names[i], None);
        BroadcastExtends(emitter.observers, old(emitter.trace), before.events,
                         AddSpec(before.st, cfg, names[i], None).run.events, trace1, emitter.trace);
        thrown := t;
        i := i + 1;
      }
      AddEachDone(st0, cfg, names, i);
    }

    /** The `objEach` of `$add(object)`: the entries whose key was already observed are returned for a reset. */
    method AddEachEntry(entries: seq<(string, Value)>) returns (resets: seq<(string, Value)>, thrown: Option<Exception>)
      requires Valid()
      modifies heap`cells, this`observableKeys, this`accessors, emitter`trace
      ensures Valid()
      ensures var c := AddCollect(old(St()), cfg, entries);
              St() == c.0.st && thrown == c.0.thrown && resets == c.1 &&
              emitter.trace == old(emitter.trace) + Broadcast(emitter.observers, c.0.events)
    {
      ghost var st0 := St();
      resets, thrown := [], None;
      var i := 0;
      while i < |entries| && thrown.None?
        invariant 0 <= i <= |entries|
        invariant Valid()
        invariant var c := AddCollect(st0, cfg, entries[..i]);
                  thrown == c.0.thrown && St() == c.0.st && resets == c.1 &&
                  emitter.trace == old(emitter.trace) + Broadcast(emitter.observers, c.0.events)
      {
        AddCollectNext(st0, cfg, entries, i);
        ghost var before := AddCollect(st0, cfg, entries[..i]).0;
        ghost var trace1 := emitter.trace;
        var reset, t := AddOne(entries[i].0, Some(entries[i].1));
        BroadcastExtends(emitter.observers, old(emitter.trace), before.events,
                         AddSpec(before.st, cfg, entries[i].0, Some(entries[i].1)).run.events, trace1, emitter.trace);
        if reset {
          resets := resets + [entries[i]];
        }
        thrown := t;
        i := i + 1;
      }
      AddCollectDone(st0, cfg, entries, i);
    }

    /** `$computed(...)`. */
    method Computed(arg: ComputedArg) returns (thrown: Option<Exception>)
      modifies this`computedKeys, this`fns, this`depsMapping, this`caches, this`accessors
      ensures var run := ComputedDispatch(old(St()), cfg, arg);
              St() == run.st && thrown == run.thrown
    {
      match arg {
        case ComputedOne(name, def) =>
          thrown := DefineComputed(name, def);
        case ComputedMany(defs) =>
          ghost var st0 := St();
          thrown := None;
          var i := 0;
          while i < |defs| && thrown.None?
            invariant 0 <= i <= |defs|
            invariant thrown == ComputedEach(st0, cfg, defs[..i]).thrown && St() == ComputedEach(st0, cfg, defs[..i]).st
          {
            ComputedEachNext(st0, cfg, defs, i);
            thrown := DefineComputed(defs[i].0, defs[i].1);
            i := i + 1;
          }
          ComputedEachDone(st0, cfg, defs, i);
        case ComputedOther =>
          thrown := None;
      }
    }

    /** `$set(...)`. */
    method Set(arg: SetArg) returns (thrown: Option<Exception>)
      requires Valid()
      modifies heap`cells, this`caches, emitter`trace
      ensures Valid()
      ensures var run := SetDispatch(old(St()), cfg, arg);
              St() == run.st && thrown == run.thrown &&
              emitter.trace == old(emitter.trace) + Broadcast(emitter.observers, run.events)
    {
      match arg {
        case SetPath(kp, v) =>
          thrown := SetOne(kp, v);
        case SetBatch(entries) =>
          thrown := SetMulti(Some(entries));
        case SetOther =>
          thrown := None;
      }
    }

    /** `$get(kp)`. */
    method Get(kp: string) returns (r: Result<Value>)
      ensures r == GetSpec(St(), cfg, kp)
    {
      if kp in observableKeys {
        return Ok(ReadProp(heap.cells, cfg.propsRef, kp));
      } else if kp in computedKeys {
        return Ok(Call(FnOf(fns, kp), ViewOf(heap.cells, cfg.propsRef, accessors, caches), heap.cells));
      }
      var normal := KeyPath.Normalize(kp);
      var parts := KeyPath.Split(normal);
      if parts[0] !in observableKeys {
        return Ok(Undefined);
      }
      return KeyPath.Get(heap.cells, Obj(cfg.propsRef), normal);
    }

    /** `$watch(...)`, subscribing on the instance's change topic; returns what the unsubscriber passes to `$unwatch`. */
    method Watch(arg: WatchArg) returns (unsubscribe: Option<UnwatchArg>)
      modifies emitter`observers
      ensures emitter.observers == match WatchOn(cfg, arg)
                                   case None => old(emitter.observers)
                                   case Some(on) => Message.Subscribe(old(emitter.observers), on.0, on.1)
      ensures unsubscribe == Unsubscriber(arg)
    {
      match arg {
        case WatchKey(key, cb) =>
          var prefix := cfg.rootPath;
          if prefix != "" {
            prefix := prefix + ".";
          }
          emitter.On("change:" + prefix + key, cb);
          return Some(UnwatchKeyCb(key, cb));
        case WatchAll(fn) =>
          emitter.On("*:" + cfg.rootPath, Some(fn));
          return Some(UnwatchCb(fn));
        case WatchOther =>
          return None;
      }
    }

    /** `$unwatch(...)`. */
    method Unwatch(arg: UnwatchArg)
      modifies emitter`observers
      ensures emitter.observers == match UnwatchOff(cfg, arg)
                                   case None => old(emitter.observers)
                                   case Some(off) => Message.OffSpec(old(emitter.observers), off.0, off.1)
    {
      var prefix := cfg.rootPath;
      match arg {
        case UnwatchKeyCb(key, cb) =>
          if prefix != "" {
            prefix := prefix + ".";
          }
          var _ := emitter.Off("change:" + prefix + key, cb);
        case UnwatchKey(key) =>
          if prefix != "" {
            prefix := prefix + ".";
          }
          var _ := emitter.Off("change:" + prefix + key, None);
        case UnwatchCb(fn) =>
          var _ := emitter.Off("*:" + prefix, Some(fn));
        case UnwatchAll =>
          var _ := emitter.Off("", None);
        case UnwatchOther =>
      }
    }
  }
}
