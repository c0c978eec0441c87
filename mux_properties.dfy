/**
 * Properties of the model instance of lib/mux.js, stated over the
 * functions of module MuxState that the methods of `MuxModel.Mux` are
 * proved against.
 */
module MuxProperties {
  import opened Js
  import KeyPath
  import Util
  import Message
  import opened MuxState

  // ---------------------------------------------------------------------
  // Topics

  /** A change topic is never the wildcard topic: the first is `change:…`, the second `*:…`. */
  lemma ChangeTopicIsNotAll(rootPath: string, prop: string, rootPath': string)
    ensures ChangeTopic(rootPath, prop) != AllTopic(rootPath')
  {
    assert ChangeTopic(rootPath, prop)[0] == 'c';
    assert AllTopic(rootPath')[0] == '*';
  }

  /** No event in the list is on the instance's wildcard topic. */
  predicate NoWildcard(cfg: Config, events: seq<Event>)
  {
    forall i :: 0 <= i < |events| ==> events[i].topic != AllTopic(cfg.rootPath)
  }

  // ---------------------------------------------------------------------
  // _$sync and _$set

  /** `_$sync` and `_$set` on a computed or unobserved property: refused, nothing changes, nothing is emitted. */
  lemma SetRefusesUnobserved(st: State, cfg: Config, kp: string, v: Value)
    requires Mounted(kp) in st.computedKeys || Mounted(kp) !in st.observableKeys
    ensures SyncSpec(st, cfg, kp, v) == Refused
    ensures SetSpec(st, cfg, kp, v) == Run(st, [], None)
    ensures SetMultiSpec(st, cfg, Some([(kp, v)])).st == st
    ensures SetMultiSpec(st, cfg, Some([(kp, v)])).events == []
  {
    var entries := [(kp, v)];
    assert entries[..0] == [];
    assert SyncEach(st, cfg, entries) == Batch(st, [], [], false, None);
    assert RecomputeFold(st, cfg, []) == (st, []);
  }

  /**
   * `_$sync` on a bare observed property: `mounted` is the property, `next`
   * the value written and `pre` the value it had; only `_props[p]` changes.
   */
  lemma SyncBareProperty(st: State, cfg: Config, p: string, v: Value)
    requires '.' !in p && '[' !in p
    requires p in st.observableKeys && p !in st.computedKeys
    requires cfg.propsRef in st.cells && st.cells[cfg.propsRef].ObjC?
    ensures SyncSpec(st, cfg, p, v) == Synced(WriteProp(st.cells, cfg.propsRef, p, v), p, v, PropValue(st, cfg, p))
  {
    KeyPath.NormalizeNoBracket(p);
    KeyPath.SplitNoDot(p);
    assert Mounted(p) == p;
    KeyPath.SetSingleSegment(st.cells, Obj(cfg.propsRef), p, v);
  }

  /** Recomputing moves `current` into `pre`, stores the new value, and changes nothing but the cache of `ck`. */
  lemma RecomputeShiftsCache(st: State, cfg: Config, ck: string)
    ensures var r := Recompute(st, cfg, ck);
            && r.2 == CacheOf(st.caches, ck).current
            && r.0.caches == st.caches[ck := Cache(r.1, r.2)]
            && r.0 == st.(caches := r.0.caches)
  {
  }

  /**
   * `_triggerPropertyComputedChange` over `cks`: exactly one change event per
   * key, in order, whether or not its value changed; only caches change.
   */
  lemma {:induction false} TriggerFoldEvents(st: State, cfg: Config, cks: seq<string>)
    ensures var t := TriggerFold(st, cfg, cks);
            && |t.1| == |cks|
            && (forall i :: 0 <= i < |cks| ==> t.1[i].topic == ChangeTopic(cfg.rootPath, cks[i]) && |t.1[i].args| == 2)
            && t.0 == st.(caches := t.0.caches)
  {
    if cks != [] {
      var init := cks[..|cks| - 1];
      TriggerFoldEvents(st, cfg, init);
      var before := TriggerFold(st, cfg, init);
      var after := Recompute(before.0, cfg, cks[|cks| - 1]);
      assert TriggerFold(st, cfg, cks) == (after.0, before.1 + [ChangeEvent(cfg, cks[|cks| - 1], after.1, after.2)]);
      forall i | 0 <= i < |init|
        ensures init[i] == cks[i]
      {
      }
    }
  }

  /**
   * `_$set` on an observed property emits exactly when the change guard
   * holds, and then in this order: one event per dependent computed key,
   * `change:prop` with the new and old value, and one wildcard event.
   */
  lemma SetEmitOrder(st: State, cfg: Config, kp: string, v: Value)
    requires SyncSpec(st, cfg, kp, v).Synced?
    ensures var s := SyncSpec(st, cfg, kp, v);
            var r := SetSpec(st, cfg, kp, v);
            && r.thrown.None?
            && (r.events != [] <==> Changes(cfg, kp, s.mounted, s.next, s.pre))
            && (!Changes(cfg, kp, s.mounted, s.next, s.pre) ==> r.st == st.(cells := s.cells))
    ensures var s := SyncSpec(st, cfg, kp, v);
            var r := SetSpec(st, cfg, kp, v);
            var deps := Dependents(st.depsMapping, s.mounted);
            Changes(cfg, kp, s.mounted, s.next, s.pre) ==>
              && |r.events| == |deps| + 2
              && (forall i :: 0 <= i < |deps| ==> r.events[i].topic == ChangeTopic(cfg.rootPath, deps[i]))
              && r.events[|deps|] == ChangeEvent(cfg, s.mounted, s.next, s.pre)
              && r.events[|deps| + 1].topic == AllTopic(cfg.rootPath)
              && NoWildcard(cfg, r.events[..|deps| + 1])
  {
    var s := SyncSpec(st, cfg, kp, v);
    if Changes(cfg, kp, s.mounted, s.next, s.pre) {
      var synced := st.(cells := s.cells);
      var deps := Dependents(st.depsMapping, s.mounted);
      TriggerFoldEvents(synced, cfg, deps);
      var t := TriggerSpec(synced, cfg, s.mounted);
      var events := t.1 + [ChangeEvent(cfg, s.mounted, s.next, s.pre)] + [WildcardEvent(View(t.0, cfg), View(st, cfg), cfg)];
      assert SetSpec(st, cfg, kp, v).events == events;
      forall i | 0 <= i < |deps| + 1
        ensures SetSpec(st, cfg, kp, v).events[i].topic != AllTopic(cfg.rootPath)
      {
        if i < |deps| {
          ChangeTopicIsNotAll(cfg.rootPath, deps[i], cfg.rootPath);
        } else {
          ChangeTopicIsNotAll(cfg.rootPath, s.mounted, cfg.rootPath);
        }
      }
    }
  }

  // ---------------------------------------------------------------------
  // _$setMulti

  /**
   * The `reduce` that collects `willComputedProps`: no key twice, the keys
   * already collected stay first and in order, and every key offered is in.
   */
  lemma {:induction false} AddUniqueCollects(will: seq<string>, cks: seq<string>)
    requires Distinct(will)
    ensures var r := AddUnique(will, cks);
            && Distinct(r)
            && |will| <= |r| && r[..|will|] == will
            && (forall x :: x in r <==> x in will || x in cks)
  {
    if cks == [] {
      assert will[..|will|] == will;
    } else {
      var init, last := cks[..|cks| - 1], cks[|cks| - 1];
      AddUniqueCollects(will, init);
      var before := AddUnique(will, init);
      assert forall x :: x in cks <==> x in init || x == last;
      if last !in before {
        var r := before + [last];
        assert r[..|will|] == before[..|will|];
        forall i, j | 0 <= i < j < |r|
          ensures r[i] != r[j]
        {
          if j == |before| {
            assert r[i] in before;
          }
        }
      }
    }
  }

  /**
   * The loop of `_$setMulti`: `hasDiff` holds exactly when some key emitted its
   * change, no wildcard event is emitted inside the loop, the dependents are
   * collected without duplicates, and only the heap changes.
   */
  lemma {:induction false} SyncEachFacts(st: State, cfg: Config, entries: seq<(string, Value)>)
    ensures var b := SyncEach(st, cfg, entries);
            && (b.hasDiff <==> b.events != [])
            && NoWildcard(cfg, b.events)
            && Distinct(b.will)
            && b.st == st.(cells := b.st.cells)
  {
    if entries != [] {
      var init := entries[..|entries| - 1];
      SyncEachFacts(st, cfg, init);
      var before := SyncEach(st, cfg, init);
      var e := entries[|entries| - 1];
      if before.thrown.None? && SyncSpec(before.st, cfg, e.0, e.1).Synced? {
        var s := SyncSpec(before.st, cfg, e.0, e.1);
        if Changes(cfg, e.0, s.mounted, s.next, s.pre) {
          ChangeTopicIsNotAll(cfg.rootPath, s.mounted, cfg.rootPath);
          AddUniqueCollects(before.will, Dependents(before.st.depsMapping, s.mounted));
          var events := before.events + [ChangeEvent(cfg, s.mounted, s.next, s.pre)];
          assert SyncEach(st, cfg, entries).events == events;
          forall i | 0 <= i < |events|
            ensures events[i].topic != AllTopic(cfg.rootPath)
          {
            if i < |before.events| {
              assert events[i] == before.events[i];
            }
          }
        }
      }
    }
  }

  /** The batch recomputation emits only change events, at most one per key, and changes only caches. */
  lemma {:induction false} RecomputeFoldFacts(st: State, cfg: Config, cks: seq<string>)
    ensures var t := RecomputeFold(st, cfg, cks);
            && NoWildcard(cfg, t.1)
            && |t.1| <= |cks|
            && t.0 == st.(caches := t.0.caches)
  {
    if cks != [] {
      var init, last := cks[..|cks| - 1], cks[|cks| - 1];
      RecomputeFoldFacts(st, cfg, init);
      var before := RecomputeFold(st, cfg, init);
      var after := Recompute(before.0, cfg, last);
      if Util.Diff(after.1, after.2) {
        ChangeTopicIsNotAll(cfg.rootPath, last, cfg.rootPath);
        var events := before.1 + [ChangeEvent(cfg, last, after.1, after.2)];
        assert RecomputeFold(st, cfg, cks).1 == events;
        forall i | 0 <= i < |events|
          ensures events[i].topic != AllTopic(cfg.rootPath)
        {
          if i < |before.1| {
            assert events[i] == before.1[i];
          }
        }
      }
    }
  }

  lemma NoWildcardConcat(cfg: Config, a: seq<Event>, b: seq<Event>)
    requires NoWildcard(cfg, a) && NoWildcard(cfg, b)
    ensures NoWildcard(cfg, a + b)
  {
    forall i | 0 <= i < |a + b|
      ensures (a + b)[i].topic != AllTopic(cfg.rootPath)
    {
      if i >= |a| {
        assert (a + b)[i] == b[i - |a|];
      }
    }
  }

  /**
   * `_$setMulti`: a falsy or non-object argument does nothing; an exception
   * in the loop ends the call with the events emitted so far and no wildcard;
   * otherwise exactly one wildcard event, the last one, fires exactly when
   * some key emitted its change.
   */
  lemma SetMultiOneWildcard(st: State, cfg: Config, entries: seq<(string, Value)>)
    ensures SetMultiSpec(st, cfg, None) == Run(st, [], None)
    ensures var b := SyncEach(st, cfg, entries);
            var r := SetMultiSpec(st, cfg, Some(entries));
            b.thrown.Some? ==> r == Run(b.st, b.events, b.thrown) && NoWildcard(cfg, r.events)
    ensures var b := SyncEach(st, cfg, entries);
            var r := SetMultiSpec(st, cfg, Some(entries));
            b.thrown.None? ==>
              && r.thrown.None?
              && (b.hasDiff <==> b.events != [])
              && (b.hasDiff ==> |r.events| >= 1 && r.events[|r.events| - 1].topic == AllTopic(cfg.rootPath) &&
                                NoWildcard(cfg, r.events[..|r.events| - 1]))
              && (!b.hasDiff ==> NoWildcard(cfg, r.events))
  {
    var b := SyncEach(st, cfg, entries);
    SyncEachFacts(st, cfg, entries);
    if b.thrown.None? {
      var recomputed := RecomputeFold(b.st, cfg, b.will);
      RecomputeFoldFacts(b.st, cfg, b.will);
      var events := b.events + recomputed.1;
      NoWildcardConcat(cfg, b.events, recomputed.1);
      if b.hasDiff {
        var all := events + [WildcardEvent(View(recomputed.0, cfg), View(st, cfg), cfg)];
        assert all[..|all| - 1] == events;
      }
    }
  }

  // ---------------------------------------------------------------------
  // _addProp2ComputedDepsMapping and _$computed

  /** No dep lists a computed key twice. */
  predicate DepsDistinct(st: State)
  {
    forall d :: d in st.depsMapping ==> Distinct(st.depsMapping[d])
  }

  /**
   * Linking `ck` to `deps`: every dep that is not a computed key lists `ck`
   * (once), a dep that is a computed key is never registered, no list gains
   * anything but `ck`, and only the mapping changes.
   */
  lemma {:induction false} AddDepsRegisters(st: State, ck: string, deps: seq<string>)
    requires DepsDistinct(st)
    ensures var after := AddDeps(st, ck, deps);
            && DepsDistinct(after)
            && after == st.(depsMapping := after.depsMapping)
            && (forall d :: d in deps && d !in st.computedKeys ==> ck in Dependents(after.depsMapping, d))
            && (forall d :: d in st.computedKeys ==> Dependents(after.depsMapping, d) == Dependents(st.depsMapping, d))
            && (forall d, k :: k in Dependents(after.depsMapping, d) ==> k in Dependents(st.depsMapping, d) || k == ck)
  {
    if deps != [] {
      var init, last := deps[..|deps| - 1], deps[|deps| - 1];
      AddDepsRegisters(st, ck, init);
      var mid := AddDeps(st, ck, init);
      assert forall d :: d in deps <==> d in init || d == last;
      if last !in mid.computedKeys {
        var list := Dependents(mid.depsMapping, last);
        if ck !in list {
          var grown := list + [ck];
          forall i, j | 0 <= i < j < |grown|
            ensures grown[i] != grown[j]
          {
            if j == |list| {
              assert grown[i] in list;
            }
          }
        }
      }
    }
  }

  /** `_$computed` on a name already computed does nothing. */
  lemma ComputedExistingIsNoop(st: State, cfg: Config, name: string, def: ComputedDef)
    requires name in st.computedKeys
    ensures ComputedSpec(st, cfg, name, def) == Run(st, [], None)
    ensures ComputedDispatch(st, cfg, ComputedOne(name, def)) == Run(st, [], None)
  {
  }

  /**
   * `_$computed` on a new name: the key is appended, linked under each of its
   * deps that is not computed (itself included), its cache seeded by one
   * evaluation of `fn` with `pre` kept, nothing emitted, no prop changed.
   */
  lemma ComputedNewDefines(st: State, cfg: Config, name: string, def: ComputedDef)
    requires name !in st.computedKeys && DepsDistinct(st)
    ensures var r := ComputedSpec(st, cfg, name, def);
            && r.events == []
            && r.st.computedKeys == st.computedKeys + [name]
            && r.st.cells == st.cells && r.st.observableKeys == st.observableKeys
            && DepsDistinct(r.st)
            && (forall d :: d in DepsList(def.deps) && d !in st.computedKeys && d != name ==>
                  name in Dependents(r.st.depsMapping, d))
            && Dependents(r.st.depsMapping, name) == Dependents(st.depsMapping, name)
            && name in r.st.caches && r.st.caches[name].pre == CacheOf(st.caches, name).pre
            && (def.fn.None? ==> r.st.caches[name].current == Undefined)
            && (r.thrown.None? <==> name !in st.accessors)
            && (r.thrown.None? ==> r.st.accessors == st.accessors[name := Computed])
            && (r.thrown.Some? ==> r.thrown == Some(TypeError) && r.st.accessors == st.accessors)
  {
    var declared := st.(computedKeys := st.computedKeys + [name], fns := st.fns[name := def.fn]);
    assert DepsDistinct(declared);
    AddDepsRegisters(declared, name, DepsList(def.deps));
  }

  // ---------------------------------------------------------------------
  // _$add and $add

  /** The name check of `_$add`: a dot or a bracket anywhere rejects the name. */
  lemma BadNameExamples()
    ensures BadName("a.b") && BadName("list[0]") && BadName("]")
    ensures !BadName("name") && !BadName("")
  {
    assert "a.b"[1] == '.';
    assert "list[0]"[4] == '[';
    assert "]"[0] == ']';
  }

  /**
   * The cases of `_$add(prop[, value])`: a bad name throws and changes
   * nothing; an observed key changes nothing and asks for a reset exactly
   * when a value was given; a new key is appended once, stores a copy of the
   * value, and emits `change:prop` unless the model already had that property.
   */
  lemma AddCases(st: State, cfg: Config, prop: string, value: Option<Value>)
    ensures var o := AddSpec(st, cfg, prop, value);
            BadName(prop) ==> o.run == Run(st, [], Some(PlainError)) && !o.reset
    ensures var o := AddSpec(st, cfg, prop, value);
            !BadName(prop) && prop in st.observableKeys ==> o.run == Run(st, [], None) && (o.reset <==> value.Some?)
    ensures var o := AddSpec(st, cfg, prop, value);
            var given := if value.Some? then value.value else Undefined;
            !BadName(prop) && prop !in st.observableKeys ==>
              && !o.reset
              && o.run.st.observableKeys == st.observableKeys + [prop]
              && (cfg.propsRef in st.cells && st.cells[cfg.propsRef].ObjC? ==>
                    PropValue(o.run.st, cfg, prop) == cfg.copyValue(given))
              && (o.run.thrown.None? <==> prop !in st.accessors)
              && (o.run.thrown.None? ==>
                    o.run.events == [Event(ChangeTopic(cfg.rootPath, prop), [Val(given)])] &&
                    o.run.st.accessors[prop] == Observed)
              && (o.run.thrown.Some? ==> o.run.events == [])
  {
  }

  /** `_$add` never lists a key twice in `_observableKeys`, and keeps every key it had. */
  lemma AddKeepsKeysDistinct(st: State, cfg: Config, prop: string, value: Option<Value>)
    requires Distinct(st.observableKeys)
    ensures var after := AddSpec(st, cfg, prop, value).run.st;
            && Distinct(after.observableKeys)
            && (forall k :: k in st.observableKeys ==> k in after.observableKeys)
            && (!BadName(prop) ==> prop in after.observableKeys)
  {
    if !BadName(prop) && prop !in st.observableKeys {
      var keys := st.observableKeys + [prop];
      forall i, j | 0 <= i < j < |keys|
        ensures keys[i] != keys[j]
      {
        if j == |st.observableKeys| {
          assert keys[i] in st.observableKeys;
        }
      }
    }
  }

  /** `$add(names)`: unless a name throws, every name is observed afterwards, each once. */
  lemma {:induction false} AddEachObserves(st: State, cfg: Config, names: seq<string>)
    requires Distinct(st.observableKeys)
    ensures var r := AddEach(st, cfg, names);
            && Distinct(r.st.observableKeys)
            && (forall k :: k in st.observableKeys ==> k in r.st.observableKeys)
            && (r.thrown.None? ==> forall n :: n in names ==> n in r.st.observableKeys)
  {
    if names != [] {
      var init, last := names[..|names| - 1], names[|names| - 1];
      AddEachObserves(st, cfg, init);
      var before := AddEach(st, cfg, init);
      if before.thrown.None? {
        AddKeepsKeysDistinct(before.st, cfg, last, None);
        assert forall n :: n in names ==> n in init || n == last;
      }
    }
  }

  /** `$add(prop, value)` on an observed key is `$set(prop, value)`. */
  lemma AddObservedSets(st: State, cfg: Config, prop: string, v: Value)
    requires !BadName(prop) && prop in st.observableKeys
    ensures AddDispatch(st, cfg, AddName(prop, Some(v))) == SetSpec(st, cfg, prop, v)
  {
    assert [] + SetSpec(st, cfg, prop, v).events == SetSpec(st, cfg, prop, v).events;
  }

  // ---------------------------------------------------------------------
  // $get

  /**
   * `$get` of a computed key calls `fn` afresh, while the model's accessor
   * reads the cache `_$set` last refreshed.
   */
  lemma GetReevaluates(st: State, cfg: Config, ck: string)
    requires ck in st.computedKeys && ck !in st.observableKeys
    ensures GetSpec(st, cfg, ck) == Ok(Eval(st, cfg, ck))
    ensures ck in st.accessors && st.accessors[ck] == Computed ==> View(st, cfg)[ck] == CacheOf(st.caches, ck).current
  {
  }

  /** The two can disagree: a cache holding 1 while `fn` now gives 2. */
  lemma GetCanDisagreeWithAccessor()
    ensures exists st: State, cfg: Config :: "c" in View(st, cfg) && GetSpec(st, cfg, "c") != Ok(View(st, cfg)["c"])
  {
    var g: Getter := (view: map<string, Value>, cells: map<Ref, Container>) => Num(2);
    var st := State(map[], [], ["c"], map["c" := Some(g)], map[], map["c" := Cache(Num(1), Undefined)], map["c" := Computed]);
    var cfg := Config(0, false, "", (v: Value) => v);
    assert View(st, cfg)["c"] == Num(1);
    assert GetSpec(st, cfg, "c") == Ok(Num(2));
  }

  /** `$get` of a key path `p.rest` whose first segment `p` is not observed is undefined, with no error. */
  lemma GetUnobservedPath(st: State, cfg: Config, p: string, rest: string)
    requires '.' !in p && '[' !in p
    requires p !in st.observableKeys
    requires p + "." + rest !in st.observableKeys && p + "." + rest !in st.computedKeys
    ensures GetSpec(st, cfg, p + "." + rest) == Ok(Undefined)
  {
    assert '[' !in p + ".";
    assert p + "." + rest == (p + ".") + rest;
    KeyPath.NormalizeBracketFreePrefix(p + ".", rest);
    KeyPath.SplitHead(p, KeyPath.Normalize(rest));
  }

  /** `$get` of a key path `p[w]rest` whose first segment `p` is not observed is undefined, with no error. */
  lemma GetUnobservedIndex(st: State, cfg: Config, p: string, w: string, rest: string)
    requires '.' !in p && '[' !in p
    requires |w| > 0 && forall i :: 0 <= i < |w| ==> !KeyPath.IsBracket(w[i])
    requires p !in st.observableKeys
    requires p + "[" + w + "]" + rest !in st.observableKeys && p + "[" + w + "]" + rest !in st.computedKeys
    ensures GetSpec(st, cfg, p + "[" + w + "]" + rest) == Ok(Undefined)
  {
    KeyPath.IndexPathHead(p, w, rest);
  }

  /** Round trip: after `$set(p, v)` on a bare observed property, `$get(p)` gives `v`. */
  lemma GetAfterSet(st: State, cfg: Config, p: string, v: Value)
    requires '.' !in p && '[' !in p
    requires p in st.observableKeys && p !in st.computedKeys
    requires cfg.propsRef in st.cells && st.cells[cfg.propsRef].ObjC?
    ensures SetSpec(st, cfg, p, v).thrown.None?
    ensures GetSpec(SetSpec(st, cfg, p, v).st, cfg, p) == Ok(v)
  {
    SyncBareProperty(st, cfg, p, v);
    var synced := st.(cells := WriteProp(st.cells, cfg.propsRef, p, v));
    TriggerFoldEvents(synced, cfg, Dependents(st.depsMapping, p));
  }

  // ---------------------------------------------------------------------
  // $watch and $unwatch

  /**
   * The function `$watch` returns undoes the subscription: it removes the
   * callback from the very topic it was added to.  While subscribed, an emit
   * on that topic reaches the callback last; afterwards, never.
   */
  lemma WatchThenUnwatch(cfg: Config, observers: map<string, seq<Message.Observer>>, arg: WatchArg,
                         c: Message.Callback, args: seq<Payload>)
    requires (arg.WatchKey? && arg.cb == Some(c)) || arg == WatchAll(c)
    ensures var on := WatchOn(cfg, arg).value;
            var off := UnwatchOff(cfg, Unsubscriber(arg).value).value;
            var watched := Message.Subscribe(observers, on.0, on.1);
            && off == on
            && Message.Deliveries(on.0, Message.Listeners(watched, on.0), args) ==
                 Message.Deliveries(on.0, Message.Listeners(observers, on.0), args) + [Message.Delivery(on.0, c, args)]
            && (forall d :: d in Message.Deliveries(on.0, Message.Listeners(Message.OffSpec(watched, off.0, off.1), on.0), args) ==> d.cb != c)
  {
    var on := WatchOn(cfg, arg).value;
    var watched := Message.Subscribe(observers, on.0, on.1);
    var list := Message.Listeners(observers, on.0) + [Message.Observer(Some(c))];
    assert Message.Listeners(watched, on.0) == list;
    assert list[..|list| - 1] == Message.Listeners(observers, on.0);
    Message.OffSilences(watched, on.0, c, on.0, args);
  }

  /** At the root (an empty key path) the topic `$watch` uses as written is the intended one. */
  lemma WatchTopicsAgreeAtRoot(cfg: Config, arg: WatchArg)
    requires cfg.rootPath == ""
    ensures WatchOnAsWritten(cfg, arg) == WatchOn(cfg, arg)
  {
    if arg.WatchKey? {
      assert ChangeTopic("", arg.key) == "change:" + arg.key;
    }
  }

  /**
   * Below the root, `$watch(key, cb)` as written subscribes `change:key`
   * while changes of `key` are emitted on `change:<keypath>.key`: the
   * callback never hears them, and `$unwatch(key, cb)` (or the returned
   * unsubscriber) removes nothing, so the callback stays registered.
   */
  lemma WatchAsWrittenMissesChanges(cfg: Config, observers: map<string, seq<Message.Observer>>, key: string, c: Message.Callback)
    requires cfg.rootPath != ""
    ensures var on := WatchOnAsWritten(cfg, WatchKey(key, Some(c))).value;
            var off := UnwatchOff(cfg, Unsubscriber(WatchKey(key, Some(c))).value).value;
            var watched := Message.Subscribe(observers, on.0, on.1);
            var topic := ChangeTopic(cfg.rootPath, key);
            && on.0 != topic && off.0 == topic
            && Message.Listeners(watched, topic) == Message.Listeners(observers, topic)
            && Message.Listeners(Message.OffSpec(watched, off.0, off.1), on.0) == Message.Listeners(watched, on.0)
            && Message.Observer(Some(c)) in Message.Listeners(Message.OffSpec(watched, off.0, off.1), on.0)
  {
    var topic := ChangeTopic(cfg.rootPath, key);
    var asWritten := WatchTopicAsWritten(key);
    assert |topic| == |asWritten| + |cfg.rootPath| + 1;
    var watched := Message.Subscribe(observers, asWritten, Some(c));
    Message.OffOtherTopicsUnchanged(watched, topic, Some(c), asWritten);
    var list := Message.Listeners(watched, asWritten);
    assert list[|list| - 1] == Message.Observer(Some(c));
  }

  // ---------------------------------------------------------------------
  // The other findings, side by side

  /**
   * `_addProp2ComputedDepsMapping` as written throws a ReferenceError for a
   * dep that is a computed key, where the intended one leaves the mapping
   * alone; the two agree on every other dep.
   */
  lemma AddDepAsWrittenThrows(st: State, ck: string, dep: string)
    ensures dep in st.computedKeys ==> AddDepAsWritten(st, ck, dep) == Err(ReferenceError) && AddDep(st, ck, dep) == st
    ensures dep !in st.computedKeys ==> AddDepAsWritten(st, ck, dep) == Ok(AddDep(st, ck, dep))
  {
  }

  /** The default branch of `$add` as written throws a ReferenceError; intended, it only warns. */
  lemma AddOtherAsWrittenThrows(st: State, cfg: Config)
    ensures AddOtherAsWritten(st) == Run(st, [], Some(ReferenceError))
    ensures AddDispatch(st, cfg, AddOther) == Run(st, [], None)
  {
  }

  // ---------------------------------------------------------------------
  // Ctor

  /** Linking deps changes only the dependency mapping. */
  lemma {:induction false} AddDepsOnlyMapping(st: State, ck: string, deps: seq<string>)
    ensures AddDeps(st, ck, deps) == st.(depsMapping := AddDeps(st, ck, deps).depsMapping)
  {
    if deps != [] {
      AddDepsOnlyMapping(st, ck, deps[..|deps| - 1]);
    }
  }

  /** The initial props loop makes each initial key an observed property and leaves the other properties alone. */
  lemma {:induction false} InitPropsAccessors(st: State, cfg: Config, initial: seq<(string, Value)>)
    ensures var after := InitProps(st, cfg, initial);
            && after == st.(cells := after.cells, accessors := after.accessors)
            && (forall i :: 0 <= i < |initial| ==> initial[i].0 in after.accessors && after.accessors[initial[i].0] == Observed)
            && (forall k :: k !in Keys(initial) ==>
                  (k in after.accessors <==> k in st.accessors) && (k in st.accessors ==> after.accessors[k] == st.accessors[k]))
  {
    if initial != [] {
      var init, e := initial[..|initial| - 1], initial[|initial| - 1];
      assert Keys(initial) == Keys(init) + [e.0];
      InitPropsAccessors(st, cfg, init);
    }
  }

  /** The initial props loop stores each initial value under its key. */
  lemma {:induction false} InitPropsStores(st: State, cfg: Config, initial: seq<(string, Value)>)
    requires Distinct(Keys(initial))
    requires cfg.propsRef in st.cells && st.cells[cfg.propsRef].ObjC?
    ensures var after := InitProps(st, cfg, initial);
            && cfg.propsRef in after.cells && after.cells[cfg.propsRef].ObjC?
            && (forall i :: 0 <= i < |initial| ==> ReadProp(after.cells, cfg.propsRef, initial[i].0) == initial[i].1)
  {
    if initial != [] {
      var init, e := initial[..|initial| - 1], initial[|initial| - 1];
      assert Keys(initial) == Keys(init) + [e.0];
      assert Distinct(Keys(init)) by {
        assert forall i :: 0 <= i < |init| ==> Keys(init)[i] == Keys(initial)[i];
      }
      InitPropsStores(st, cfg, init);
      forall i | 0 <= i < |init|
        ensures initial[i].0 != e.0
      {
        assert Keys(initial)[i] != Keys(initial)[|initial| - 1];
      }
    }
  }

  /** The computed loop of `Ctor` touches neither the props, the key lists nor the accessors. */
  lemma {:induction false} InitComputedKeeps(st: State, cfg: Config, defs: seq<(string, ComputedDef)>)
    ensures var after := InitComputed(st, cfg, defs);
            after == st.(depsMapping := after.depsMapping, caches := after.caches)
  {
    if defs != [] {
      var init, e := defs[..|defs| - 1], defs[|defs| - 1];
      InitComputedKeeps(st, cfg, init);
      if e.1.deps.Some? {
        AddDepsOnlyMapping(InitComputed(st, cfg, init), e.0, e.1.deps.value);
      }
    }
  }

  /** `Object.defineProperties` over `keys`: each of them gets `kind`, every other property is kept. */
  lemma {:induction false} DefineAllFacts(accessors: map<string, Accessor>, keys: seq<string>, kind: Accessor)
    ensures forall k :: k in keys ==> k in DefineAll(accessors, keys, kind) && DefineAll(accessors, keys, kind)[k] == kind
    ensures forall k :: k !in keys ==>
              (k in DefineAll(accessors, keys, kind) <==> k in accessors) &&
              (k in accessors ==> DefineAll(accessors, keys, kind)[k] == accessors[k])
  {
    if keys != [] {
      DefineAllFacts(accessors, keys[..|keys| - 1], kind);
      assert forall k :: k in keys <==> k in keys[..|keys| - 1] || k == keys[|keys| - 1];
    }
  }

  /** The state `Ctor` reaches before its accessors are defined, from the start state. */
  lemma CtorSteps(cells: map<Ref, Container>, cfg: Config, initial: seq<(string, Value)>, defs: seq<(string, ComputedDef)>)
    ensures var start := State(cells, Keys(initial), Keys(defs), FnsOf(defs), map[], map[], map[Builtins[0] := Builtin]);
            var computed := InitComputed(InitProps(start, cfg, initial), cfg, defs);
            var st := CtorSpec(cells, cfg, initial, defs);
            && st == computed.(accessors := st.accessors)
            && st.accessors == DefineAll(DefineAll(computed.accessors, WithDeps(defs), Computed), Builtins[1..], Builtin)
  {
  }

  /**
   * A model built without a clash of names: the observed keys are the
   * initial keys, and `$get` of each gives its initial value and it is an
   * observed property.
   */
  lemma CtorStoresInitial(cells: map<Ref, Container>, cfg: Config, initial: seq<(string, Value)>, defs: seq<(string, ComputedDef)>)
    requires cfg.propsRef in cells && cells[cfg.propsRef] == ObjC(map[])
    requires Distinct(Keys(initial)) && !Collides(initial, defs)
    ensures var st := CtorSpec(cells, cfg, initial, defs);
            && st.observableKeys == Keys(initial) && st.computedKeys == Keys(defs)
            && (forall i :: 0 <= i < |initial| ==>
                  GetSpec(st, cfg, initial[i].0) == Ok(initial[i].1) &&
                  initial[i].0 in st.accessors && st.accessors[initial[i].0] == Observed)
  {
    var start := State(cells, Keys(initial), Keys(defs), FnsOf(defs), map[], map[], map[Builtins[0] := Builtin]);
    InitPropsStores(start, cfg, initial);
    InitPropsAccessors(start, cfg, initial);
    var observed := InitProps(start, cfg, initial);
    InitComputedKeeps(observed, cfg, defs);
    var computed := InitComputed(observed, cfg, defs);
    CtorSteps(cells, cfg, initial, defs);
    DefineAllFacts(computed.accessors, WithDeps(defs), Computed);
    DefineAllFacts(DefineAll(computed.accessors, WithDeps(defs), Computed), Builtins[1..], Builtin);
    forall i | 0 <= i < |initial|
      ensures initial[i].0 in Keys(initial) && initial[i].0 !in WithDeps(defs) && initial[i].0 !in Builtins
    {
      assert Keys(initial)[i] == initial[i].0;
    }
  }

  /**
   * A model built without a clash of names: each computed key with deps is
   * a computed property, and the id and every instance method are
   * non-enumerable properties.
   */
  lemma CtorDefinesAccessors(cells: map<Ref, Container>, cfg: Config, initial: seq<(string, Value)>, defs: seq<(string, ComputedDef)>)
    requires !Collides(initial, defs)
    ensures var st := CtorSpec(cells, cfg, initial, defs);
            && (forall k :: k in WithDeps(defs) ==> k in st.accessors && st.accessors[k] == Computed)
            && (forall k :: k in Builtins ==> k in st.accessors && st.accessors[k] == Builtin)
  {
    var start := State(cells, Keys(initial), Keys(defs), FnsOf(defs), map[], map[], map[Builtins[0] := Builtin]);
    InitPropsAccessors(start, cfg, initial);
    var observed := InitProps(start, cfg, initial);
    InitComputedKeeps(observed, cfg, defs);
    var computed := InitComputed(observed, cfg, defs);
    CtorSteps(cells, cfg, initial, defs);
    DefineAllFacts(computed.accessors, WithDeps(defs), Computed);
    var withComputed := DefineAll(computed.accessors, WithDeps(defs), Computed);
    DefineAllFacts(withComputed, Builtins[1..], Builtin);
    assert forall k :: k in Builtins ==> k == Builtins[0] || k in Builtins[1..];
    assert Builtins[0] !in Builtins[1..];
  }
}
