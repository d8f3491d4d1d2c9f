# Vanilla event registry in Dafny

This project models `Vanilla\Event`, the event-handler registry of the
Garden/Vanilla framework. Addons bind callbacks to named events at integer
priorities. The application fires the events:

- `fire` calls every handler with the same arguments.
- `fireFilter` threads a value through the handlers.
- `callUserFuncArray` wraps a call in `_before`, override and `_after` events.

Event names are case-insensitive: every name passes through `strtolower`
before it is used as a key.

Files:

- `php.dfy` (`Php`): the PHP values the registry handles and ASCII
  `strtolower`. Values are null, booleans, integers, strings, objects and
  indexed arrays. Callables are a function name, a `[class or object, method]`
  pair, or a closure.
- `buckets.dfy` (`Buckets`): the handler array of one event. In PHP this is
  an ordered array from priority to the callbacks bound at it. Here it is a
  sequence of `Bucket(priority, callbacks)` in PHP's insertion order, because
  that order is what an unsorted array iterates in. The file covers three
  things:
  - appending a callback (`Push`);
  - `ksort`, modelled as `KSort`, which is proved to be the only ascending
    reordering;
  - the order in which the nested `foreach` loops meet the callbacks.
- `dispatch.dfy` (`Dispatch`): the two nested loops of `fire` and `fireFilter`
  as methods. Each is proved against a recursive specification function.
- `event.dfy` (`Vanilla`): the class state and the operations on it.
  - PHP keeps `$handlers` and `$toSort` in static properties. Here they are
    the fields of one `Event` object, and every operation is a method or
    function of it.
  - Its invariant `Valid()` holds four facts:
    - keys are lower case;
    - every handler array has distinct priorities and no empty bucket;
    - every array not flagged in `toSort` is already sorted;
    - `toSort` only names stored events.
  - The ghost view `Registry()` shows every array sorted. `GetHandlers`,
    `Fire`, `FireFilter` and `CallUserFuncArray` leave it unchanged, even
    though `getHandlers` sorts in place.

Calling a callback is the parameter `invoke: (Callback, seq<Value>) -> Value`.
Every dispatching method also returns the calls it made, in order, as
`Invocation(callback, args)` values. This lets its contract say which callback
was called with which arguments. `function_exists` and `method_exists` are
parameters as well.

Two behaviours of the code are modelled as written:

- `fire` returns the result of the last handler it called. It returns 0 when
  the event was never bound. Its doc comment claims it returns "how many times
  the event was handled"; the code does not count.
- `callUserFuncArray` passes the event arguments to `fire` as a single
  argument (`src/Vanilla/Event.php:86`, `:91`, `:98`). So the `_before`,
  override and `_after` handlers each receive one argument: the whole
  argument array, with the object first when the callable is bound to one.
  The callable itself, when not overridden, gets its original arguments.

## Model

| member | source | states |
|---|---|---|
| Php.Lower | src/Vanilla/Event.php:111 | A-Z become a-z, every other character is kept, the length is the same, and the result has no upper-case letter |
| Php.LowerOfLower | src/Vanilla/Event.php:111 | lower-casing twice is lower-casing once, and a lower-case name is its own key |
| Php.LowerConcat | src/Vanilla/Event.php:111 | lower-casing distributes over concatenation |
| Vanilla.SuffixedKeys | src/Vanilla/Event.php:86-98 | the key of `name_before` is the key of `name` followed by `_before`, and likewise for `_after`, so all three events are found whatever the case of `name` |
| Buckets.Push | src/Vanilla/Event.php:112 | appending to `$handlers[$event][$priority]` adds `priority` to the keys; a new key gets a one-callback bucket at the end of the array |
| Buckets.PushLookup | src/Vanilla/Event.php:112 | after the append, bucket `priority` holds its old callbacks followed by the new one; every other bucket is unchanged |
| Buckets.PushKeepsKeys | src/Vanilla/Event.php:112 | appending to an existing bucket keeps the array's length and key order |
| Buckets.PushWellFormed | src/Vanilla/Event.php:112 | an append keeps the handler array free of duplicate keys and empty buckets |
| Buckets.KSort | src/Vanilla/Event.php:275 | `ksort` returns a permutation of the buckets |
| Buckets.KSortAscending | src/Vanilla/Event.php:275 | after `ksort` the priority keys are strictly ascending |
| Buckets.KSortLookup | src/Vanilla/Event.php:275 | `ksort` leaves every bucket's contents unchanged |
| Buckets.KSortOfAscending | src/Vanilla/Event.php:274-277 | sorting an array already in key order leaves it unchanged |
| Buckets.KSortCharacterized | src/Vanilla/Event.php:275 | every ascending permutation of the buckets is the `ksort` result, and sorting twice is sorting once |
| Buckets.KSortWellFormed | src/Vanilla/Event.php:275 | `ksort` keeps a handler array free of duplicate keys and empty buckets |
| Buckets.DispatchOrder | src/Vanilla/Event.php:189-193 | the loops over a sorted array meet each bound callback once; priorities never decrease; within one priority, callbacks come in bind order |
| Dispatch.Broadcast | src/Vanilla/Event.php:187-194 | every callback of every bucket is called once, in order, with the same arguments; the last result is returned, or null if none |
| Dispatch.Chain | src/Vanilla/Event.php:212-219 | the chain's calls and final value match the threaded specification, with `$args[0]` replaced by each result |
| Dispatch.FilterThreading | src/Vanilla/Event.php:207-220 | one call per callback, in order; the first gets the value; each later one gets the previous result first; all get the remaining arguments; the final value is the last result |
| Vanilla.EventName | src/Vanilla/Event.php:65-76 | a callable has an event name exactly when it is a function name or a `[class or object, method]` pair |
| Vanilla.ObjectAndClassPairs | src/Vanilla/Event.php:68-91 | `[obj, m]` and `[get_class(obj), m]` have the same event name; when overridden, both call the same handlers in the same order, but only the object-bound call's handlers get the object first in their one array argument |
| Vanilla.Event.constructor | src/Vanilla/Event.php:30-36 | the registry starts empty, with nothing to sort |
| Vanilla.Event.Bind | src/Vanilla/Event.php:110-114 | only the lower-cased event's array changes; the callback is appended to bucket `priority`; other buckets are kept; the event is flagged for sorting; afterwards every spelling of the name has a handler |
| Vanilla.Event.GetHandlers | src/Vanilla/Event.php:267-280 | returns false exactly when the lower-cased name was never bound; otherwise returns the array in ascending key order with bucket contents unchanged, stored back and unflagged; what firing sees does not change |
| Vanilla.Event.HasHandler | src/Vanilla/Event.php:288-291 | true exactly when at least one callback is bound to the lower-cased name |
| Vanilla.Event.Reset | src/Vanilla/Event.php:321-324 | both arrays are empty, and no name has a handler |
| Vanilla.Event.Fire | src/Vanilla/Event.php:181-195 | returns 0 with no calls when the event was never bound; otherwise calls the sorted handlers with the given arguments and returns the last result |
| Vanilla.Event.FireFilter | src/Vanilla/Event.php:207-220 | returns the value unchanged with no calls when the event was never bound; otherwise threads it through the sorted handlers |
| Vanilla.Event.CallUserFuncArray | src/Vanilla/Event.php:64-101 | a closure is just called; otherwise `_before` is fired, then the override if it has a handler (else the callable), then `_after`; the middle result is returned |
| Vanilla.Event.FunctionExists | src/Vanilla/Event.php:253-258 | with only events, equals `hasHandler` of the function name, which is exactly when `callUserFuncArray` would override it; otherwise a defined function is reported as existing |
| Vanilla.Event.MethodExists | src/Vanilla/Event.php:302-313 | a defined method is reported as existing unless only events are asked about; otherwise the result equals `hasHandler` of the name `callUserFuncArray` derives, `Class_method` with the class of an object; with only events, that is exactly when `callUserFuncArray` would override the call |
| Vanilla.SortInPlace | src/Vanilla/Event.php:274-277 | sorting one stored array in place does not change the sorted view of the registry |
| Vanilla.FireOrder | src/Vanilla/Event.php:181-195 | `fire` calls each callback bound to the event exactly once, with the given arguments, in non-decreasing priority and bind order within a priority; it returns the last call's result |
| Vanilla.FilterOrder | src/Vanilla/Event.php:207-220 | `fireFilter` meets the callbacks in the same order; the first gets the value, each later one the previous result; it returns the last call's result |
| Vanilla.CallSequence | src/Vanilla/Event.php:85-100 | the calls are the `_before` handlers, then either the override handlers or the callable with its own arguments, then the `_after` handlers; each handler gets the event arguments as one array |
| Vanilla.CallWithoutHandlers | src/Vanilla/Event.php:64-101 | with nothing bound to its three events, `callUserFuncArray` is a plain call of the callable |
| Vanilla.GetHandlersTwice | src/Vanilla/Event.php:267-280 | a second `getHandlers` for the same name returns the same value as the first |
| Vanilla.HighSortsFirst | src/Vanilla/Event.php:20-22 | a bucket at `PRIORITY_HIGH` sorts before one at `PRIORITY_LOW` |
| Vanilla.PriorityExample | src/Vanilla/Event.php:20-22 | binding at `PRIORITY_LOW`, then at `PRIORITY_HIGH` under another spelling, fires the high-priority callback first |

## Left out

- `bindClass` (`src/Vanilla/Event.php:137-173`) is not modelled. It lists a
  class's methods by reflection. Its loop never binds anything, because the
  event name it computes stays empty. Its one observable behaviour is the
  `InvalidArgumentException` for a class name without an `instance()` method,
  and that depends on reflection too.
- `fireOverride` (`src/Vanilla/Event.php:229-243`) is commented out in the
  source.
- Callbacks are pure in the model: `invoke` cannot bind, fire or reset
  events. A handler that changes the registry while it is being fired is not
  modelled.
- Exceptions from callbacks are not modelled: `invoke` always returns. In
  the source, a handler that throws aborts the loops of `fire` and
  `fireFilter` (`src/Vanilla/Event.php:189-193`, `:213-218`). A callable that
  throws at `src/Vanilla/Event.php:94` skips the `_after` fire at `:98`.
- `call_user_func_array`, `function_exists`, `method_exists` and `get_class`
  are parameters or fields. Their behaviour is whatever the caller supplies.
- Callables of other shapes are left out. These include `'Class::method'`
  strings and arrays whose first element is neither a string nor an object.
  A string is always treated as a function name.
- `strtolower` is modelled for ASCII only. Locale-dependent case mapping of
  other characters is not modelled.
- PHP's integer-like string keys are not modelled. Priorities are unbounded
  integers.
- The Db and Cli tests are not part of this model: the engine and parser they
  exercise are not among the source files.
