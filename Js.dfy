/**
 * The pieces of JavaScript semantics the weather widget's response shaping depends on:
 * the TypeErrors it can raise, dynamically typed display values, reads of a property
 * that may be missing, and Array.prototype.reduce with and without an initial value
 * (section 15.4.4.21 of ECMA-262, 5.1 edition).
 */
module Js {

  datatype Option<+T> = None | Some(value: T)

  /** The TypeErrors that can be thrown while shaping a response. */
  datatype Error =
    | ReduceOfEmptyArray                    // reduce called with no initial value on an empty array
    | CannotReadProperty(property: string)  // reading `property` of undefined

  /** The value of an expression that either evaluates or throws a TypeError. */
  datatype Result<+T> = Ok(value: T) | Err(error: Error) {
    predicate IsFailure() {
      Err?
    }

    function PropagateFailure<U>(): Result<U>
      requires Err?
    {
      Err(error)
    }

    function Extract(): T
      requires Ok?
    {
      value
    }
  }

  /** The JavaScript values the display state holds: the initial numbers, the strings
      copied from the responses, a `Date`, and `undefined`. */
  datatype Value = Undefined | Number(n: int) | Text(s: string) | Instant(millis: int)

  /** `obj[key]` on an object whose own properties are the map `obj`: undefined when absent. */
  function Get(obj: map<string, string>, key: string): (v: Value)
    ensures v == Undefined <==> key !in obj
    ensures key in obj ==> v == Text(obj[key])
  {
    if key in obj then Text(obj[key]) else Undefined
  }

  /**
   * `s.reduce(f, init)`: the callback runs on every element from left to right and the
   * accumulator starts as `init`. Defined by peeling off the last element, which is the
   * same left fold (ReduceAppend and ReduceHeadFirst show the left-to-right reading).
   */
  function Reduce<T, A>(s: seq<T>, f: (A, T) -> A, init: A): (r: A)
    ensures |s| == 0 ==> r == init
    ensures |s| == 1 ==> r == f(init, s[0])
    decreases |s|
  {
    if |s| == 0 then init else f(Reduce(s[..|s| - 1], f, init), s[|s| - 1])
  }

  /**
   * `s.reduce(f)` with no initial value. In a typed model the first element becomes the
   * accumulator through `asAccumulator`; the callback runs only on elements 1 .. |s|-1,
   * and an empty array throws a TypeError.
   */
  function ReduceNoInit<T, A>(s: seq<T>, asAccumulator: T -> A, f: (A, T) -> A): (r: Result<A>)
    ensures r.Err? <==> |s| == 0
    ensures r.Err? ==> r.error == ReduceOfEmptyArray
    ensures |s| == 1 ==> r == Ok(asAccumulator(s[0]))
  {
    if |s| == 0 then Err(ReduceOfEmptyArray) else Ok(Reduce(s[1..], f, asAccumulator(s[0])))
  }

  /** Reducing a concatenation reduces the second part from the first part's result. */
  lemma {:induction false} ReduceAppend<T, A>(s: seq<T>, t: seq<T>, f: (A, T) -> A, init: A)
    ensures Reduce(s + t, f, init) == Reduce(t, f, Reduce(s, f, init))
    decreases |t|
  {
    if |t| == 0 {
      assert s + t == s;
    } else {
      var t' := t[..|t| - 1];
      assert (s + t)[..|s + t| - 1] == s + t';
      assert (s + t)[|s + t| - 1] == t[|t| - 1];
      ReduceAppend(s, t', f, init);
    }
  }

  /** The initialised reduce processes the head first and then folds the rest. */
  lemma ReduceHeadFirst<T, A>(s: seq<T>, f: (A, T) -> A, init: A)
    requires |s| > 0
    ensures Reduce(s, f, init) == Reduce(s[1..], f, f(init, s[0]))
  {
    assert s == [s[0]] + s[1..];
    ReduceAppend([s[0]], s[1..], f, init);
  }

  /**
   * The two forms of reduce agree on a non-empty array when seeding the accumulator
   * with the head gives what the callback makes of the head from `init`.
   */
  lemma ReduceNoInitAgrees<T, A>(s: seq<T>, asAccumulator: T -> A, f: (A, T) -> A, init: A)
    requires |s| > 0
    ensures asAccumulator(s[0]) == f(init, s[0]) ==> ReduceNoInit(s, asAccumulator, f) == Ok(Reduce(s, f, init))
  {
    ReduceHeadFirst(s, f, init);
  }
}
