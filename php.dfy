/** The parts of the PHP runtime the event registry touches: the values that
    flow through callbacks, the shapes a callable can take, and `strtolower`. */
module Php {

  datatype Option<+T> = None | Some(value: T)

  /** An object instance; `get_class` of it is `className`. */
  datatype Obj = Obj(className: string, id: nat)

  /** The PHP values handed to and returned by callbacks. `List` is an
      indexed PHP array, which is how an argument list travels as one value. */
  datatype Value =
    | Null
    | Bool(b: bool)
    | Int(i: int)
    | Str(s: string)
    | Object(obj: Obj)
    | List(items: seq<Value>)

  /** The first element of a `[target, method]` callable. */
  datatype Target = ClassName(name: string) | Instance(obj: Obj)

  /** A PHP callable: a function name, a `[target, method]` pair, or a
      closure (any other callable object), known only by identity. */
  datatype Callback =
    | Function(name: string)
    | Method(target: Target, methodName: string)
    | Closure(id: nat)

  /** One call of a callback: what was called and with which arguments. */
  datatype Invocation = Invocation(callback: Callback, args: seq<Value>)

  predicate IsUpper(c: char) {
    'A' <= c <= 'Z'
  }

  function LowerChar(c: char): (d: char)
    ensures !IsUpper(d)
    ensures IsUpper(c) ==> d as int == c as int + 32
    ensures !IsUpper(c) ==> d == c
  {
    if IsUpper(c) then (c as int + 32) as char else c
  }

  predicate IsLower(s: string) {
    forall i :: 0 <= i < |s| ==> !IsUpper(s[i])
  }

  /** `strtolower`: ASCII letters A-Z are mapped to a-z, every other
      character is kept. */
  function Lower(s: string): (r: string)
    ensures |r| == |s|
    ensures forall i :: 0 <= i < |s| ==> r[i] == LowerChar(s[i])
    ensures IsLower(r)
  {
    seq(|s|, i requires 0 <= i < |s| => LowerChar(s[i]))
  }

  /** Lower-casing a name twice gives the same name as once, and a name that
      has no upper-case letter is its own lower-case form. */
  lemma LowerOfLower(s: string)
    ensures IsLower(s) ==> Lower(s) == s
    ensures Lower(Lower(s)) == Lower(s)
  {
  }

  /** Lower-casing distributes over concatenation, so `Lower(n + "_after")`
      only depends on `Lower(n)`. */
  lemma LowerConcat(a: string, b: string)
    ensures Lower(a + b) == Lower(a) + Lower(b)
  {
    var l, r := Lower(a + b), Lower(a) + Lower(b);
    forall i | 0 <= i < |a + b| ensures l[i] == r[i] {
      if i < |a| { assert (a + b)[i] == a[i]; } else { assert (a + b)[i] == b[i - |a|]; }
    }
  }
}
