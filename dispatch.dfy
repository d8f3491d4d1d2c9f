/** The two ways an event's handler array is walked once it has been
    fetched: `fire` calls every callback with the same arguments and keeps the
    last result; `fireFilter` threads a value through the callbacks. Calling a
    callback is the parameter `invoke`; each call is also recorded, in order,
    as an `Invocation`. */
module Dispatch {
  import opened Php
  import opened Buckets

  /** Every callback of `cbs` called once, in order, with `args`. */
  function Calls(cbs: seq<Callback>, args: seq<Value>): seq<Invocation> {
    seq(|cbs|, k requires 0 <= k < |cbs| => Invocation(cbs[k], args))
  }

  lemma CallsSnoc(cbs: seq<Callback>, c: Callback, args: seq<Value>)
    ensures Calls(cbs + [c], args) == Calls(cbs, args) + [Invocation(c, args)]
  {
    assert |Calls(cbs + [c], args)| == |Calls(cbs, args) + [Invocation(c, args)]|;
    forall k | 0 <= k < |cbs| + 1
      ensures Calls(cbs + [c], args)[k] == (Calls(cbs, args) + [Invocation(c, args)])[k]
    {
    }
  }

  lemma CallsConcat(a: seq<Callback>, b: seq<Callback>, args: seq<Value>)
    ensures Calls(a + b, args) == Calls(a, args) + Calls(b, args)
  {
    assert |Calls(a + b, args)| == |Calls(a, args) + Calls(b, args)|;
    forall k | 0 <= k < |a| + |b|
      ensures Calls(a + b, args)[k] == (Calls(a, args) + Calls(b, args))[k]
    {
    }
  }

  lemma TakeStep(cbs: seq<Callback>, j: nat)
    requires j < |cbs|
    ensures cbs[..j + 1] == cbs[..j] + [cbs[j]]
  {
  }

  /** The result of the last call, or null when nothing was called. */
  function LastResult(cbs: seq<Callback>, args: seq<Value>, invoke: (Callback, seq<Value>) -> Value): Value {
    if cbs == [] then Null else invoke(cbs[|cbs| - 1], args)
  }

  /** The nested loops of `fire`: each callback of each bucket is called with
      `args`, and the result of the last call is kept. */
  method Broadcast(buckets: seq<Bucket>, args: seq<Value>, invoke: (Callback, seq<Value>) -> Value)
    returns (result: Value, calls: seq<Invocation>)
    ensures calls == Calls(Flatten(buckets), args)
    ensures result == LastResult(Flatten(buckets), args, invoke)
  {
    result := Null;
    calls := [];
    var i := 0;
    while i < |buckets|
      invariant 0 <= i <= |buckets|
      invariant calls == Calls(Flatten(buckets[..i]), args)
      invariant result == LastResult(Flatten(buckets[..i]), args, invoke)
    {
      var callbacks := buckets[i].callbacks;
      ghost var done := Flatten(buckets[..i]);
      var j := 0;
      while j < |callbacks|
        invariant 0 <= j <= |callbacks|
        invariant calls == Calls(done + callbacks[..j], args)
        invariant result == LastResult(done + callbacks[..j], args, invoke)
      {
        result := invoke(callbacks[j], args);
        CallsSnoc(done + callbacks[..j], callbacks[j], args);
        assert done + callbacks[..j + 1] == (done + callbacks[..j]) + [callbacks[j]];
        calls := calls + [Invocation(callbacks[j], args)];
        j := j + 1;
      }
      assert callbacks[..j] == callbacks;
      FlattenPrefix(buckets, i);
      i := i + 1;
    }
    assert buckets[..i] == buckets;
  }

  /** The value left after passing `value` through `cbs`: every callback gets
      the previous result as its first argument, followed by `rest`. */
  function Filtered(cbs: seq<Callback>, value: Value, rest: seq<Value>, invoke: (Callback, seq<Value>) -> Value): Value
    decreases |cbs|
  {
    if cbs == [] then value
    else invoke(cbs[|cbs| - 1], [Filtered(cbs[..|cbs| - 1], value, rest, invoke)] + rest)
  }

  /** The calls made while passing `value` through `cbs`. */
  function FilterCalls(cbs: seq<Callback>, value: Value, rest: seq<Value>, invoke: (Callback, seq<Value>) -> Value): seq<Invocation>
    decreases |cbs|
  {
    if cbs == [] then []
    else
      var prefix := cbs[..|cbs| - 1];
      FilterCalls(prefix, value, rest, invoke) + [Invocation(cbs[|cbs| - 1], [Filtered(prefix, value, rest, invoke)] + rest)]
  }

  lemma FilterStep(cbs: seq<Callback>, c: Callback, value: Value, rest: seq<Value>, invoke: (Callback, seq<Value>) -> Value)
    ensures Filtered(cbs + [c], value, rest, invoke) == invoke(c, [Filtered(cbs, value, rest, invoke)] + rest)
    ensures FilterCalls(cbs + [c], value, rest, invoke)
         == FilterCalls(cbs, value, rest, invoke) + [Invocation(c, [Filtered(cbs, value, rest, invoke)] + rest)]
  {
    assert (cbs + [c])[..|cbs|] == cbs;
  }

  /** `$args[0] = $value` on an argument list `[x] + rest`. */
  lemma ReplaceFirst(x: Value, y: Value, rest: seq<Value>)
    ensures ([x] + rest)[0 := y] == [y] + rest
  {
    var a, b := ([x] + rest)[0 := y], [y] + rest;
    assert |a| == |b|;
    forall k | 0 <= k < |a| ensures a[k] == b[k] {
    }
  }

  /** The nested loops of `fireFilter`: the argument list starts as `value`
      followed by `rest`, and after each call its first element is replaced
      by that call's result. */
  method Chain(buckets: seq<Bucket>, value: Value, rest: seq<Value>, invoke: (Callback, seq<Value>) -> Value)
    returns (result: Value, calls: seq<Invocation>)
    ensures result == Filtered(Flatten(buckets), value, rest, invoke)
    ensures calls == FilterCalls(Flatten(buckets), value, rest, invoke)
  {
    result := value;
    var args := [value] + rest;
    calls := [];
    ghost var seen: seq<Callback> := [];
    var i := 0;
    while i < |buckets|
      invariant 0 <= i <= |buckets|
      invariant seen == Flatten(buckets[..i])
      invariant args == [result] + rest
      invariant result == Filtered(seen, value, rest, invoke)
      invariant calls == FilterCalls(seen, value, rest, invoke)
    {
      var callbacks := buckets[i].callbacks;
      FlattenPrefix(buckets, i);
      ghost var done := seen;
      var j := 0;
      while j < |callbacks|
        invariant 0 <= j <= |callbacks|
        invariant seen == done + callbacks[..j]
        invariant args == [result] + rest
        invariant result == Filtered(seen, value, rest, invoke)
        invariant calls == FilterCalls(seen, value, rest, invoke)
      {
        FilterStep(seen, callbacks[j], value, rest, invoke);
        calls := calls + [Invocation(callbacks[j], args)];
        result := invoke(callbacks[j], args);
        ReplaceFirst(args[0], result, rest);
        args := args[0 := result];
        seen := seen + [callbacks[j]];
        TakeStep(callbacks, j);
        j := j + 1;
      }
      assert callbacks[..j] == callbacks;
      i := i + 1;
    }
    assert buckets[..i] == buckets;
  }

  /** What `fireFilter` promises of the chain: one call per callback, in
      order; the first call gets `value`, every later call gets the previous
      call's result as its first argument, every call gets `rest` after it,
      and the final value is the last call's result. */
  lemma {:induction false} FilterThreading(cbs: seq<Callback>, value: Value, rest: seq<Value>, invoke: (Callback, seq<Value>) -> Value)
    ensures var calls := FilterCalls(cbs, value, rest, invoke);
      && |calls| == |cbs|
      && (forall k :: 0 <= k < |cbs| ==> calls[k].callback == cbs[k] && |calls[k].args| == |rest| + 1 && calls[k].args[1..] == rest)
      && (cbs != [] ==> calls[0].args[0] == value)
      && (forall k :: 0 < k < |cbs| ==> calls[k].args[0] == invoke(calls[k - 1].callback, calls[k - 1].args))
      && Filtered(cbs, value, rest, invoke) == if cbs == [] then value else invoke(calls[|cbs| - 1].callback, calls[|cbs| - 1].args)
  {
    if cbs != [] {
      var prefix := cbs[..|cbs| - 1];
      FilterThreading(prefix, value, rest, invoke);
      var calls := FilterCalls(cbs, value, rest, invoke);
      var before := FilterCalls(prefix, value, rest, invoke);
      assert calls == before + [Invocation(cbs[|cbs| - 1], [Filtered(prefix, value, rest, invoke)] + rest)];
      forall k | 0 <= k < |cbs|
        ensures calls[k].callback == cbs[k] && |calls[k].args| == |rest| + 1 && calls[k].args[1..] == rest
      {
        if k < |prefix| {
          assert calls[k] == before[k];
        }
      }
      if prefix == [] {
        assert calls[0].args[0] == value;
      } else {
        assert calls[0] == before[0];
      }
      forall k | 0 < k < |cbs|
        ensures calls[k].args[0] == invoke(calls[k - 1].callback, calls[k - 1].args)
      {
        if k < |prefix| {
          assert calls[k] == before[k] && calls[k - 1] == before[k - 1];
        } else {
          assert calls[k - 1] == before[k - 1];
        }
      }
    }
  }
}
