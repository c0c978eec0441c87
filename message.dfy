/**
 * The publish/subscribe channel of lib/message.js.
 *
 * A channel maps each topic to the ordered list of its observer records.
 * Callbacks are opaque identities; invoking one is recorded as a delivery
 * appended to the channel's trace.
 */
module Message {
  import opened Js

  type Callback = nat

  /** An observer record `{cb: cb}`; `cb` may be a falsy value (None). */
  datatype Observer = Observer(cb: Option<Callback>)

  /** One invocation `cb.apply(null, args)` made by `emit`. */
  datatype Delivery<A> = Delivery(topic: string, cb: Callback, args: seq<A>)

  /** The list a topic has, or none. */
  function Listeners(observers: map<string, seq<Observer>>, sub: string): seq<Observer>
  {
    if sub in observers then observers[sub] else []
  }

  /** The callbacks `emit` invokes for a list, in list order, skipping falsy ones. */
  function Deliveries<A>(topic: string, obs: seq<Observer>, args: seq<A>): seq<Delivery<A>>
  {
    if obs == [] then []
    else
      var last := obs[|obs| - 1];
      Deliveries(topic, obs[..|obs| - 1], args) +
      (if last.cb.Some? then [Delivery(topic, last.cb.value, args)] else [])
  }

  /** The truthy callbacks of a list, in order. */
  function Callbacks(obs: seq<Observer>): seq<Callback>
  {
    if obs == [] then []
    else
      var last := obs[|obs| - 1];
      Callbacks(obs[..|obs| - 1]) + (if last.cb.Some? then [last.cb.value] else [])
  }

  /** The observers whose `cb` is not identical to `c`, in their original order. */
  function Without(obs: seq<Observer>, c: Callback): seq<Observer>
  {
    if obs == [] then []
    else
      var last := obs[|obs| - 1];
      Without(obs[..|obs| - 1], c) + (if last.cb == Some(c) then [] else [last])
  }

  /** The list `off` leaves for a topic it applies to. */
  function Remove(obs: seq<Observer>, cb: Option<Callback>): seq<Observer>
  {
    if cb.None? then [] else Without(obs, cb.value)
  }

  /** The effect of `on(sub, cb)`: one observer appended at the end of `sub`'s list. */
  function Subscribe(observers: map<string, seq<Observer>>, sub: string, cb: Option<Callback>): map<string, seq<Observer>>
  {
    observers[sub := Listeners(observers, sub) + [Observer(cb)]]
  }

  /** The effect of `off(sub, cb)`; an empty `sub` (falsy) applies to every topic. */
  function OffSpec(observers: map<string, seq<Observer>>, sub: string, cb: Option<Callback>): map<string, seq<Observer>>
  {
    map k | k in observers :: if sub == "" || k == sub then Remove(observers[k], cb) else observers[k]
  }

  /** How many times `x` occurs in `s`. */
  function Count(s: seq<Callback>, x: Callback): nat
  {
    if s == [] then 0 else Count(s[..|s| - 1], x) + (if s[|s| - 1] == x then 1 else 0)
  }

  class Channel<A> {
    var observers: map<string, seq<Observer>>
    var trace: seq<Delivery<A>>

    constructor ()
      ensures observers == map[] && trace == []
    {
      observers, trace := map[], [];
    }

    /** `on(sub, cb)`: append one observer at the end of `sub`'s list, creating the list if absent. */
    method On(sub: string, cb: Option<Callback>)
      modifies this`observers
      ensures observers == Subscribe(old(observers), sub, cb)
    {
      if sub !in observers {
        observers := observers[sub := []];
      }
      observers := observers[sub := observers[sub] + [Observer(cb)]];
    }

    /**
     * `off(sub, cb)`: for `sub` (or every existing topic when `sub` is falsy),
     * empty the list when `cb` is falsy, else drop the observers whose `cb`
     * is `cb`.  A topic that has no list is not created.  Returns the channel.
     */
    method Off(sub: string, cb: Option<Callback>) returns (self: Channel<A>)
      modifies this`observers
      ensures self == this
      ensures observers == OffSpec(old(observers), sub, cb)
    {
      var types := if sub != "" then {sub} else observers.Keys;
      var todo := types;
      while todo != {}
        invariant todo <= types
        invariant observers.Keys == old(observers).Keys
        invariant forall k :: k in old(observers) ==>
                    observers[k] == if k in types - todo then Remove(old(observers)[k], cb) else old(observers)[k]
        decreases todo
      {
        var k :| k in todo;
        if k in observers {
          var nextObs := if cb.None? then [] else Without(observers[k], cb.value);
          observers := observers[k := nextObs];
        }
        todo := todo - {k};
      }
      assert forall k :: k in old(observers) ==> (k in types <==> sub == "" || k == sub);
      return this;
    }

    /** `emit(sub, args...)`: invoke each observer of `sub` in list order, skipping falsy ones. */
    method Emit(sub: string, args: seq<A>)
      modifies this`trace
      ensures trace == old(trace) + Deliveries(sub, Listeners(observers, sub), args)
    {
      if sub !in observers {
        return;
      }
      var obs := observers[sub];
      var i := 0;
      while i < |obs|
        invariant 0 <= i <= |obs|
        invariant trace == old(trace) + Deliveries(sub, obs[..i], args)
      {
        assert obs[..i + 1][..i] == obs[..i];
        if obs[i].cb.Some? {
          trace := trace + [Delivery(sub, obs[i].cb.value, args)];
        }
        i := i + 1;
      }
      assert obs[..|obs|] == obs;
    }
  }

  // ---------------------------------------------------------------------
  // Properties

  /** `emit` invokes exactly the truthy callbacks of the list, once each, in registration order. */
  lemma {:induction false} DeliveriesInOrder<A>(topic: string, obs: seq<Observer>, args: seq<A>)
    ensures |Deliveries(topic, obs, args)| == |Callbacks(obs)|
    ensures forall k :: 0 <= k < |Callbacks(obs)| ==>
              Deliveries(topic, obs, args)[k] == Delivery(topic, Callbacks(obs)[k], args)
  {
    if obs != [] {
      DeliveriesInOrder(topic, obs[..|obs| - 1], args);
    }
  }

  lemma {:induction false} CallbacksAppend(a: seq<Observer>, b: seq<Observer>)
    ensures Callbacks(a + b) == Callbacks(a) + Callbacks(b)
  {
    if b == [] {
      assert a + b == a;
    } else {
      CallbacksAppend(a, b[..|b| - 1]);
      assert (a + b)[..|a + b| - 1] == a + b[..|b| - 1];
    }
  }

  lemma {:induction false} CountAppend(a: seq<Callback>, b: seq<Callback>, x: Callback)
    ensures Count(a + b, x) == Count(a, x) + Count(b, x)
  {
    if b == [] {
      assert a + b == a;
    } else {
      CountAppend(a, b[..|b| - 1], x);
      assert (a + b)[..|a + b| - 1] == a + b[..|b| - 1];
    }
  }

  /** Each observer record holding `c` yields one delivery to `c`: registering twice means two calls. */
  lemma {:induction false} CallbackCountPerObserver(obs: seq<Observer>, c: Callback)
    ensures Count(Callbacks(obs), c) == |set i | 0 <= i < |obs| && obs[i].cb == Some(c)|
  {
    if obs != [] {
      var init := obs[..|obs| - 1];
      var last := obs[|obs| - 1];
      CallbackCountPerObserver(init, c);
      var tail := if last.cb.Some? then [last.cb.value] else [];
      CountAppend(Callbacks(init), tail, c);
      var prev := set i | 0 <= i < |init| && init[i].cb == Some(c);
      var now := set i | 0 <= i < |obs| && obs[i].cb == Some(c);
      if last.cb == Some(c) {
        assert now == prev + {|obs| - 1};
      } else {
        assert now == prev;
      }
    }
  }

  /** After `off(sub, c)` the dropped callback `c` gets nothing, the others keep their count. */
  lemma {:induction false} WithoutCallbacks(obs: seq<Observer>, c: Callback)
    ensures Count(Callbacks(Without(obs, c)), c) == 0
    ensures forall x :: x != c ==> Count(Callbacks(Without(obs, c)), x) == Count(Callbacks(obs), x)
  {
    if obs != [] {
      var init := obs[..|obs| - 1];
      var last := obs[|obs| - 1];
      WithoutCallbacks(init, c);
      var kept := if last.cb == Some(c) then [] else [last];
      CallbacksAppend(Without(init, c), kept);
      assert Callbacks(kept) == if last.cb == Some(c) || last.cb.None? then [] else [last.cb.value] by {
        if kept != [] { assert kept[..0] == []; }
      }
      var tail := if last.cb.Some? then [last.cb.value] else [];
      forall x
        ensures Count(Callbacks(Without(obs, c)), x) == Count(Callbacks(Without(init, c)), x) + Count(Callbacks(kept), x)
        ensures Count(Callbacks(obs), x) == Count(Callbacks(init), x) + Count(tail, x)
      {
        CountAppend(Callbacks(Without(init, c)), Callbacks(kept), x);
        CountAppend(Callbacks(init), tail, x);
      }
    }
  }

  /** `off(sub, cb)` leaves every topic it does not name exactly as it was. */
  lemma OffOtherTopicsUnchanged(observers: map<string, seq<Observer>>, sub: string, cb: Option<Callback>, t: string)
    requires sub != "" && t != sub
    ensures Listeners(OffSpec(observers, sub, cb), t) == Listeners(observers, t)
  {
  }

  /** Once removed with `off(t, c)`, an emit on `t` never reaches `c`. */
  lemma OffSilences<A>(observers: map<string, seq<Observer>>, sub: string, c: Callback, t: string, args: seq<A>)
    requires sub == "" || sub == t
    ensures forall d :: d in Deliveries(t, Listeners(OffSpec(observers, sub, Some(c)), t), args) ==> d.cb != c
  {
    var obs := Listeners(OffSpec(observers, sub, Some(c)), t);
    DeliveriesInOrder(t, obs, args);
    if t in observers {
      WithoutCallbacks(observers[t], c);
      CountZero(Callbacks(obs), c);
    }
  }

  lemma {:induction false} CountZero(s: seq<Callback>, x: Callback)
    requires Count(s, x) == 0
    ensures forall k :: 0 <= k < |s| ==> s[k] != x
  {
    if s != [] {
      CountZero(s[..|s| - 1], x);
      assert forall k :: 0 <= k < |s| - 1 ==> s[k] == s[..|s| - 1][k];
    }
  }

  /** `off()` with neither topic nor callback empties every list and keeps the topics. */
  lemma OffAllEmpties(observers: map<string, seq<Observer>>)
    ensures OffSpec(observers, "", None).Keys == observers.Keys
    ensures forall k :: k in OffSpec(observers, "", None) ==> OffSpec(observers, "", None)[k] == []
  {
  }
}
