/** The event registry of `Vanilla\Event`: callbacks bound to case-insensitive
    event names at integer priorities, fired in ascending priority order. The
    PHP class keeps its state in two static arrays; here that state is one
    `Event` object. */
module Vanilla {
  import opened Php
  import opened Buckets
  import opened Dispatch

  const PriorityLow := 1000
  const PriorityMedium := 100
  const PriorityHigh := 10

  /** Calling a callback with an argument list (`call_user_func_array`). */
  type Invoker = (Callback, seq<Value>) -> Value

  /** What firing produced: the value returned and the calls made, in order. */
  datatype Fired = Fired(result: Value, calls: seq<Invocation>)

  /** The handler arrays as `fire` sees them: each event's array in key order. */
  type Registry = map<string, seq<Bucket>>

  /** The handler array stored for key `k`, or none. */
  function BucketsOf(h: map<string, seq<Bucket>>, k: string): seq<Bucket> {
    if k in h then h[k] else []
  }

  /** The callbacks `fire(event, ...)` would call, in order. */
  function Handlers(reg: Registry, event: string): seq<Callback> {
    Flatten(BucketsOf(reg, Lower(event)))
  }

  /** At least one callback is bound to `event`. */
  predicate Bound(reg: Registry, event: string) {
    Lower(event) in reg && Flatten(reg[Lower(event)]) != []
  }

  /** `fire`: 0 when the event has no handler array; otherwise every handler
      called with `args` and the last result returned. */
  function FireOutcome(reg: Registry, event: string, args: seq<Value>, invoke: Invoker): Fired {
    if Lower(event) !in reg then Fired(Int(0), [])
    else
      var cbs := Flatten(reg[Lower(event)]);
      Fired(LastResult(cbs, args, invoke), Calls(cbs, args))
  }

  /** `fireFilter`: `value` unchanged when the event has no handler array;
      otherwise `value` threaded through the handlers. */
  function FilterOutcome(reg: Registry, event: string, value: Value, rest: seq<Value>, invoke: Invoker): Fired {
    if Lower(event) !in reg then Fired(value, [])
    else
      var cbs := Flatten(reg[Lower(event)]);
      Fired(Filtered(cbs, value, rest, invoke), FilterCalls(cbs, value, rest, invoke))
  }

  /** The event name `callUserFuncArray` derives from a callable: a function
      name as it is, `Class_method` for a `[class or object, method]` pair,
      and none for any other callable. */
  function EventName(cb: Callback): (r: Option<string>)
    ensures r.None? <==> cb.Closure?
  {
    match cb
    case Function(name) => Some(name)
    case Method(ClassName(c), m) => Some(c + "_" + m)
    case Method(Instance(o), m) => Some(o.className + "_" + m)
    case Closure(_) => None
  }

  /** The arguments the events of `callUserFuncArray` see: the call's own
      arguments, preceded by the object when the callable is bound to one. */
  function EventArgs(cb: Callback, args: seq<Value>): (r: seq<Value>)
    ensures |r| >= |args| && r[|r| - |args|..] == args
    ensures cb.Method? && cb.target.Instance? ==> r == [Object(cb.target.obj)] + args
    ensures !(cb.Method? && cb.target.Instance?) ==> r == args
  {
    if cb.Method? && cb.target.Instance? then [Object(cb.target.obj)] + args else args
  }

  /** `callUserFuncArray`: a closure is just called. Otherwise, with `name`
      its event name and the event arguments passed as ONE array argument:
      `name_before` is fired, then `name` is fired in place of the callable
      if it has a handler (else the callable is called with the original
      arguments), then `name_after` is fired; the middle step's result is
      returned. */
  function CallOutcome(reg: Registry, cb: Callback, args: seq<Value>, invoke: Invoker): Fired {
    match EventName(cb)
    case None => Fired(invoke(cb, args), [Invocation(cb, args)])
    case Some(name) =>
      var fireArgs := [List(EventArgs(cb, args))];
      var before := FireOutcome(reg, name + "_before", fireArgs, invoke);
      var middle :=
        if Bound(reg, name) then FireOutcome(reg, name, fireArgs, invoke)
        else Fired(invoke(cb, args), [Invocation(cb, args)]);
      var after := FireOutcome(reg, name + "_after", fireArgs, invoke);
      Fired(middle.result, before.calls + middle.calls + after.calls)
  }

  /** Every stored handler array viewed in key order. */
  ghost function SortedView(h: map<string, seq<Bucket>>): Registry {
    map e | e in h :: KSort(h[e])
  }

  /** Sorting one stored array in place does not change what is seen in key
      order. */
  lemma SortInPlace(h: map<string, seq<Bucket>>, k: string)
    requires k in h && DistinctKeys(h[k])
    ensures SortedView(h[k := KSort(h[k])]) == SortedView(h)
  {
    var h' := h[k := KSort(h[k])];
    var v, v' := SortedView(h), SortedView(h');
    assert h'.Keys == h.Keys;
    forall e | e in h ensures e in v' && v'[e] == v[e] {
      if e == k {
        KSortCharacterized(h[k], KSort(h[k]));
      }
    }
  }

  lemma SortedHandlersNonEmpty(h: map<string, seq<Bucket>>, k: string)
    ensures k in h && WellFormed(h[k]) ==> Flatten(KSort(h[k])) != []
  {
    if k in h && WellFormed(h[k]) {
      KSortWellFormed(h[k]);
    }
  }

  class Event {
    /** `Event::$handlers`: lower-cased event name to its handler array. */
    var handlers: map<string, seq<Bucket>>
    /** `Event::$toSort`: events whose handler array may be out of key order. */
    var toSort: set<string>

    ghost predicate Valid()
      reads this
    {
      && toSort <= handlers.Keys
      && forall e | e in handlers ::
           && IsLower(e)
           && WellFormed(handlers[e])
           && (e !in toSort ==> Ascending(handlers[e]))
    }

    /** The registry as firing observes it: sorting on demand does not
        change it. */
    ghost function Registry(): Registry
      reads this
      requires Valid()
    {
      SortedView(handlers)
    }

    /** The state of the class before anything is bound. */
    constructor ()
      ensures Valid() && handlers == map[] && toSort == {}
    {
      handlers := map[];
      toSort := {};
    }

    /** `bind`: appends `callback` to bucket `priority` of the lower-cased
        event and marks that event for sorting. */
    method Bind(event: string, callback: Callback, priority: int := PriorityMedium)
      requires Valid()
      modifies this
      ensures Valid()
      ensures handlers == old(handlers)[Lower(event) := Push(BucketsOf(old(handlers), Lower(event)), priority, callback)]
      ensures toSort == old(toSort) + {Lower(event)}
      ensures forall q ::
        Lookup(handlers[Lower(event)], q)
        == (if q == priority then Lookup(BucketsOf(old(handlers), Lower(event)), q) + [callback]
            else Lookup(BucketsOf(old(handlers), Lower(event)), q))
      ensures forall e :: Lower(e) == Lower(event) ==> HasHandler(e)
    {
      var k := Lower(event);
      var bs := BucketsOf(handlers, k);
      PushWellFormed(bs, priority, callback);
      handlers := handlers[k := Push(bs, priority, callback)];
      toSort := toSort + {k};
      forall q ensures Lookup(handlers[k], q) == if q == priority then Lookup(bs, q) + [callback] else Lookup(bs, q) {
        PushLookup(bs, priority, callback, q);
      }
    }

    /** `getHandlers`: none when nothing was ever bound to the event;
        otherwise its handler array in ascending key order, sorted in place
        first if it was marked. */
    method GetHandlers(name: string) returns (r: Option<seq<Bucket>>)
      requires Valid()
      modifies this
      ensures Valid() && Registry() == old(Registry())
      ensures r.None? <==> Lower(name) !in old(handlers)
      ensures r.Some? ==> r.value == KSort(old(handlers)[Lower(name)]) && Ascending(r.value)
      ensures r.Some? ==> forall q :: Lookup(r.value, q) == Lookup(old(handlers)[Lower(name)], q)
      ensures r.Some? ==> handlers == old(handlers)[Lower(name) := r.value]
      ensures r.None? ==> handlers == old(handlers)
      ensures toSort == old(toSort) - {Lower(name)}
    {
      var k := Lower(name);
      if k !in handlers {
        return None;
      }
      KSortAscending(handlers[k]);
      forall q ensures Lookup(KSort(handlers[k]), q) == Lookup(handlers[k], q) {
        KSortLookup(handlers[k], q);
      }
      if k in toSort {
        KSortWellFormed(handlers[k]);
        SortInPlace(handlers, k);
        handlers := handlers[k := KSort(handlers[k])];
        toSort := toSort - {k};
      } else {
        KSortOfAscending(handlers[k]);
      }
      r := Some(handlers[k]);
    }

    /** `hasHandler`: whether at least one callback is bound to the event,
        whatever the case of the name. */
    function HasHandler(event: string): (r: bool)
      reads this
      ensures Valid() ==> (r <==> Bound(Registry(), event))
    {
      var k := Lower(event);
      SortedHandlersNonEmpty(handlers, k);
      k in handlers && handlers[k] != []
    }

    /** `reset`: forgets every handler. */
    method Reset()
      modifies this
      ensures Valid() && handlers == map[] && toSort == {}
      ensures forall e :: !HasHandler(e)
    {
      handlers := map[];
      toSort := {};
    }

    /** `fire`: calls every handler of the event with `args`, in ascending
        priority and bind order, and returns the last result; 0 when nothing
        was bound to the event. */
    method Fire(event: string, args: seq<Value>, invoke: Invoker) returns (result: Value, calls: seq<Invocation>)
      requires Valid()
      modifies this
      ensures Valid() && Registry() == old(Registry())
      ensures Fired(result, calls) == FireOutcome(old(Registry()), event, args, invoke)
    {
      var h := GetHandlers(event);
      if h.None? {
        return Int(0), [];
      }
      result, calls := Broadcast(h.value, args, invoke);
    }

    /** `fireFilter`: passes `value` through the handlers of the event, each
        receiving the previous result as its first argument and `rest` after
        it; `value` itself when nothing was bound to the event. */
    method FireFilter(event: string, value: Value, rest: seq<Value>, invoke: Invoker) returns (result: Value, calls: seq<Invocation>)
      requires Valid()
      modifies this
      ensures Valid() && Registry() == old(Registry())
      ensures Fired(result, calls) == FilterOutcome(old(Registry()), event, value, rest, invoke)
    {
      var h := GetHandlers(event);
      if h.None? {
        return value, [];
      }
      result, calls := Chain(h.value, value, rest, invoke);
    }

    /** `callUserFuncArray`: calls a callable with before, override and
        after events around it. */
    method CallUserFuncArray(callback: Callback, args: seq<Value>, invoke: Invoker) returns (result: Value, calls: seq<Invocation>)
      requires Valid()
      modifies this
      ensures Valid() && Registry() == old(Registry())
      ensures Fired(result, calls) == CallOutcome(old(Registry()), callback, args, invoke)
    {
      var name := EventName(callback);
      if name.None? {
        return invoke(callback, args), [Invocation(callback, args)];
      }
      var eventName := name.value;
      var eventArgs := EventArgs(callback, args);
      var _, before := Fire(eventName + "_before", [List(eventArgs)], invoke);
      var middle;
      if HasHandler(eventName) {
        result, middle := Fire(eventName, [List(eventArgs)], invoke);
      } else {
        result := invoke(callback, args);
        middle := [Invocation(callback, args)];
      }
      var _, after := Fire(eventName + "_after", [List(eventArgs)], invoke);
      calls := before + middle + after;
    }

    /** `functionExists`: whether the function is defined (unless only
        events are asked about) or an event replaces it; with only events,
        exactly when `callUserFuncArray` would fire an override for it. */
    function FunctionExists(functionName: string, functionDefined: string -> bool, onlyEvents: bool := false): (r: bool)
      reads this
      ensures !onlyEvents && functionDefined(functionName) ==> r
      ensures onlyEvents || !functionDefined(functionName) ==> (r <==> HasHandler(functionName))
      ensures Valid() && onlyEvents ==> (r <==> Bound(Registry(), EventName(Function(functionName)).value))
    {
      if !onlyEvents && functionDefined(functionName) then true
      else HasHandler(functionName)
    }

    /** `methodExists`: whether the method is defined (unless only events
        are asked about) or an event named `Class_method` replaces it; with
        only events, exactly when `callUserFuncArray` would fire an override
        for `[target, methodName]`. */
    function MethodExists(target: Target, methodName: string, methodDefined: (Target, string) -> bool, onlyEvents: bool := false): (r: bool)
      reads this
      ensures !onlyEvents && methodDefined(target, methodName) ==> r
      ensures onlyEvents || !methodDefined(target, methodName) ==> (r <==> HasHandler(EventName(Method(target, methodName)).value))
      ensures Valid() && onlyEvents ==> (r <==> Bound(Registry(), EventName(Method(target, methodName)).value))
    {
      if !onlyEvents && methodDefined(target, methodName) then true
      else HasHandler(EventName(Method(target, methodName)).value)
    }
  }

  /** `fire` on a stored handler array: every callback bound to the event
      is called exactly once with `args`, in non-decreasing priority and,
      within one priority, in bind order; the result is the last call's. */
  lemma FireOrder(h: map<string, seq<Bucket>>, event: string, args: seq<Value>, invoke: Invoker)
    requires Lower(event) in h && DistinctKeys(h[Lower(event)])
    ensures var out := FireOutcome(SortedView(h), event, args, invoke);
      var es := Entries(KSort(h[Lower(event)]));
      && |out.calls| == |es|
      && (forall i :: 0 <= i < |es| ==> out.calls[i] == Invocation(es[i].callback, args))
      && (forall i, j :: 0 <= i < j < |es| ==> es[i].priority <= es[j].priority)
      && (forall p :: Select(es, p) == Lookup(h[Lower(event)], p))
      && out.result == if es == [] then Null else invoke(es[|es| - 1].callback, args)
  {
    DispatchOrder(h[Lower(event)]);
  }

  /** `fireFilter` on a stored handler array: the callbacks are met in the
      same order as by `fire`; the first gets `value`, each later one the
      previous result, all of them `rest` after it, and the last result is
      returned. */
  lemma FilterOrder(h: map<string, seq<Bucket>>, event: string, value: Value, rest: seq<Value>, invoke: Invoker)
    requires Lower(event) in h && DistinctKeys(h[Lower(event)])
    ensures var out := FilterOutcome(SortedView(h), event, value, rest, invoke);
      var es := Entries(KSort(h[Lower(event)]));
      && |out.calls| == |es|
      && (forall i :: 0 <= i < |es| ==> out.calls[i].callback == es[i].callback && |out.calls[i].args| == |rest| + 1 && out.calls[i].args[1..] == rest)
      && (es != [] ==> out.calls[0].args[0] == value)
      && (forall i :: 0 < i < |es| ==> out.calls[i].args[0] == invoke(out.calls[i - 1].callback, out.calls[i - 1].args))
      && out.result == if es == [] then value else invoke(out.calls[|es| - 1].callback, out.calls[|es| - 1].args)
  {
    var bs := h[Lower(event)];
    var cbs := Flatten(KSort(bs));
    assert SortedView(h)[Lower(event)] == KSort(bs);
    var out := FilterOutcome(SortedView(h), event, value, rest, invoke);
    assert out == Fired(Filtered(cbs, value, rest, invoke), FilterCalls(cbs, value, rest, invoke));
    DispatchOrder(bs);
    FilterThreading(cbs, value, rest, invoke);
  }

  /** The keys of `name_before` and `name_after` are the key of `name` with
      the suffix added, so all three events are found whatever the case of
      `name`. */
  lemma SuffixedKeys(name: string)
    ensures Lower(name + "_before") == Lower(name) + "_before"
    ensures Lower(name + "_after") == Lower(name) + "_after"
  {
    LowerConcat(name, "_before");
    LowerConcat(name, "_after");
    LowerOfLower("_before");
    LowerOfLower("_after");
  }

  /** `[obj, m]` and `[get_class(obj), m]` fire the same three events and
      are overridden by the same handlers, in the same order; only the
      handlers of the object-bound call see the object, as the first element
      of their one array argument. */
  lemma {:induction false} ObjectAndClassPairs(reg: Registry, o: Obj, m: string, args: seq<Value>, invoke: Invoker)
    ensures EventName(Method(Instance(o), m)) == EventName(Method(ClassName(o.className), m))
    ensures var name := o.className + "_" + m;
      var byObject := CallOutcome(reg, Method(Instance(o), m), args, invoke);
      var byClass := CallOutcome(reg, Method(ClassName(o.className), m), args, invoke);
      Bound(reg, name) ==>
        && |byObject.calls| == |byClass.calls|
        && (forall i :: 0 <= i < |byObject.calls| ==>
              && byObject.calls[i].callback == byClass.calls[i].callback
              && byObject.calls[i].args == [List([Object(o)] + args)]
              && byClass.calls[i].args == [List(args)])
  {
    var name := o.className + "_" + m;
    CallSequence(reg, Method(Instance(o), m), args, invoke);
    CallSequence(reg, Method(ClassName(o.className), m), args, invoke);
    assert Bound(reg, name) <==> Handlers(reg, name) != [];
  }

  /** Around a named callable, `callUserFuncArray` calls the `_before`
      handlers, then either the handlers of the event named after the
      callable or, when it has none, the callable itself, then the `_after`
      handlers. Every handler gets the event arguments as one array
      argument; the callable gets its own arguments; the result is that of
      the middle step. */
  lemma {:induction false} CallSequence(reg: Registry, cb: Callback, args: seq<Value>, invoke: Invoker)
    requires EventName(cb).Some?
    ensures var name := EventName(cb).value;
      var fireArgs := [List(EventArgs(cb, args))];
      var out := CallOutcome(reg, cb, args, invoke);
      var before := Handlers(reg, name + "_before");
      var overrides := Handlers(reg, name);
      var after := Handlers(reg, name + "_after");
      && (overrides != [] ==>
            out.calls == Calls(before + overrides + after, fireArgs)
            && out.result == invoke(overrides[|overrides| - 1], fireArgs))
      && (overrides == [] ==>
            out.calls == Calls(before, fireArgs) + [Invocation(cb, args)] + Calls(after, fireArgs)
            && out.result == invoke(cb, args))
  {
    var name := EventName(cb).value;
    var fireArgs := [List(EventArgs(cb, args))];
    var before := Handlers(reg, name + "_before");
    var overrides := Handlers(reg, name);
    var after := Handlers(reg, name + "_after");
    assert FireOutcome(reg, name + "_before", fireArgs, invoke).calls == Calls(before, fireArgs);
    assert FireOutcome(reg, name + "_after", fireArgs, invoke).calls == Calls(after, fireArgs);
    assert Bound(reg, name) <==> overrides != [];
    if overrides != [] {
      assert FireOutcome(reg, name, fireArgs, invoke).calls == Calls(overrides, fireArgs);
      CallsConcat(before, overrides, fireArgs);
      CallsConcat(before + overrides, after, fireArgs);
    }
  }

  /** With nothing bound to any of its events, `callUserFuncArray` is a
      plain call of the callable. */
  lemma CallWithoutHandlers(reg: Registry, cb: Callback, args: seq<Value>, invoke: Invoker)
    requires EventName(cb).Some? ==>
      var name := EventName(cb).value;
      Handlers(reg, name + "_before") == [] && Handlers(reg, name) == [] && Handlers(reg, name + "_after") == []
    ensures CallOutcome(reg, cb, args, invoke) == Fired(invoke(cb, args), [Invocation(cb, args)])
  {
    if EventName(cb).Some? {
      CallSequence(reg, cb, args, invoke);
    }
  }

  /** Asking twice for an event's handlers gives the same answer, and
      neither call changes what firing sees. */
  method GetHandlersTwice(events: Event, name: string) returns (first: Option<seq<Bucket>>, second: Option<seq<Bucket>>)
    requires events.Valid()
    modifies events
    ensures first == second
    ensures events.Valid() && events.Registry() == old(events.Registry())
  {
    first := events.GetHandlers(name);
    second := events.GetHandlers(name);
    if first.Some? {
      KSortOfAscending(first.value);
    }
  }

  /** The three spellings used below share one key. */
  lemma SavedKey()
    ensures Lower("Saved") == "saved" && Lower("SAVED") == "saved" && Lower("saved") == "saved"
  {
    LowerOfLower("saved");
  }

  /** Binding at the low and then at the high priority makes two buckets,
      in bind order. */
  lemma TwoBinds(first: Callback, second: Callback)
    ensures Push(Push([], PriorityLow, first), PriorityHigh, second)
         == [Bucket(PriorityLow, [first]), Bucket(PriorityHigh, [second])]
  {
    assert Push([], PriorityLow, first) == [Bucket(PriorityLow, [first])];
    assert PriorityHigh !in Priorities([Bucket(PriorityLow, [first])]);
  }

  /** Sorting puts the high-priority bucket, the smaller key, first. */
  lemma HighSortsFirst(low: Bucket, high: Bucket)
    requires low.priority == PriorityLow && high.priority == PriorityHigh
    ensures KSort([low, high]) == [high, low]
  {
    assert [low, high][1..] == [high];
    assert KSort([high]) == [high];
  }

  /** Firing two one-callback buckets calls their callbacks in order. */
  lemma FireTwo(a: Callback, b: Callback, args: seq<Value>)
    ensures Calls(Flatten([Bucket(PriorityHigh, [a]), Bucket(PriorityLow, [b])]), args)
         == [Invocation(a, args), Invocation(b, args)]
  {
    var bs := [Bucket(PriorityHigh, [a]), Bucket(PriorityLow, [b])];
    assert bs[1..] == [Bucket(PriorityLow, [b])];
    assert [Bucket(PriorityLow, [b])][1..] == [];
    assert Flatten(bs[1..]) == [b];
    assert Flatten(bs) == [a, b];
    assert Calls([a, b], args)[1] == Invocation(b, args);
  }

  /** Binding at the low and then at the high priority, under names that
      differ only in case, fires the high-priority callback first. */
  method PriorityExample(first: Callback, second: Callback, invoke: Invoker) returns (calls: seq<Invocation>)
    ensures calls == [Invocation(second, []), Invocation(first, [])]
  {
    SavedKey();
    TwoBinds(first, second);
    HighSortsFirst(Bucket(PriorityLow, [first]), Bucket(PriorityHigh, [second]));
    FireTwo(second, first, []);
    var events := new Event();
    events.Bind("Saved", first, PriorityLow);
    events.Bind("SAVED", second, PriorityHigh);
    var _, c := events.Fire("saved", [], invoke);
    calls := c;
  }
}
