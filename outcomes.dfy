/**
 * How a Go function of the schema package ends: it returns a value together
 * with an error (which may be nil), or it panics.  The model keeps the value
 * a Go function returns beside a non-nil error, because callers such as
 * ParseObjects hand it on.
 */
module Outcomes {
  import opened Wrappers

  /** The error values the schema package creates with fmt.Errorf. */
  datatype Error =
    | UnsupportedEnumType(typ: string)
    | ArrayWithoutItems
    | ResponseFieldMissing
  {
    /** The text of the Go error. */
    function Message(): string {
      match this
      case UnsupportedEnumType(typ) => "unsupported enum type: " + typ
      case ArrayWithoutItems => "array must have items field"
      case ResponseFieldMissing => "properties.response field does not exists"
    }
  }

  /** The pair (value, err) a Go function returns; err == None is a nil error. */
  datatype Parsed<+T> = Parsed(value: T, err: Option<Error>)

  /**
   * A call that may panic.  OutOfFuel stands for a recursion that the Go code
   * would continue past the depth the model was given.
   */
  datatype Outcome<+T> = Return(value: T) | Panic(reason: string) | OutOfFuel

  /**
   * Applies f to each element of xs in order and collects the values; at the
   * first error it stops and returns the values collected before it together
   * with that error.  This is the shape of every accumulating loop and
   * ForEach callback of the schema package.
   */
  function Collect<A, B>(xs: seq<A>, f: A -> Parsed<B>): Parsed<seq<B>>
  {
    if xs == [] then Parsed([], None)
    else
      var init := Collect(xs[..|xs| - 1], f);
      if init.err.Some? then init
      else
        var last := f(xs[|xs| - 1]);
        if last.err.Some? then Parsed(init.value, last.err)
        else Parsed(init.value + [last.value], None)
  }

  /** The index of the first element on which f fails, or |xs| when none does. */
  function FirstFailure<A, B>(xs: seq<A>, f: A -> Parsed<B>): (k: nat)
    ensures k <= |xs|
    ensures forall j :: 0 <= j < k ==> f(xs[j]).err.None?
    ensures k < |xs| ==> f(xs[k]).err.Some?
  {
    if xs == [] then 0
    else if f(xs[0]).err.Some? then 0
    else 1 + FirstFailure(xs[1..], f)
  }

  /**
   * Collect returns exactly the values of the elements before the first
   * failing one, in order, and the error of that element (nil if none fails).
   */
  lemma {:induction false} CollectStopsAtFirstFailure<A, B>(xs: seq<A>, f: A -> Parsed<B>)
    ensures var r, k := Collect(xs, f), FirstFailure(xs, f);
      && |r.value| == k
      && (forall j :: 0 <= j < k ==> r.value[j] == f(xs[j]).value)
      && r.err == (if k < |xs| then f(xs[k]).err else None)
  {
    if xs != [] {
      var init := xs[..|xs| - 1];
      CollectStopsAtFirstFailure(init, f);
      var k, ki := FirstFailure(xs, f), FirstFailure(init, f);
      assert ki == if k < |xs| - 1 then k else |xs| - 1 by {
        FirstFailureOfPrefix(xs, |xs| - 1, f);
      }
    }
  }

  /** The first failure of a prefix is the first failure of the whole, capped at the prefix. */
  lemma {:induction false} FirstFailureOfPrefix<A, B>(xs: seq<A>, n: nat, f: A -> Parsed<B>)
    requires n <= |xs|
    ensures FirstFailure(xs[..n], f) == if FirstFailure(xs, f) < n then FirstFailure(xs, f) else n
  {
    if n > 0 && f(xs[0]).err.None? {
      assert xs[..n][1..] == xs[1..][..n - 1];
      FirstFailureOfPrefix(xs[1..], n - 1, f);
    }
  }

  /** Once a prefix has failed, the rest of the sequence is never looked at. */
  lemma {:induction false} CollectKeepsFailure<A, B>(xs: seq<A>, n: nat, f: A -> Parsed<B>)
    requires n <= |xs|
    requires Collect(xs[..n], f).err.Some?
    ensures Collect(xs, f) == Collect(xs[..n], f)
  {
    if n < |xs| {
      assert xs[..|xs| - 1][..n] == xs[..n];
      CollectKeepsFailure(xs[..|xs| - 1], n, f);
    } else {
      assert xs[..n] == xs;
    }
  }

  /** One more step of Collect on a prefix that has not failed yet. */
  lemma CollectStep<A, B>(xs: seq<A>, n: nat, f: A -> Parsed<B>)
    requires n < |xs|
    ensures Collect(xs[..n + 1], f) ==
      var init := Collect(xs[..n], f);
      if init.err.Some? then init
      else if f(xs[n]).err.Some? then Parsed(init.value, f(xs[n]).err)
      else Parsed(init.value + [f(xs[n]).value], None)
  {
    assert xs[..n + 1][..n] == xs[..n];
  }

  /**
   * One turn of a loop that folds f over xs: given the fold of the prefix
   * and f's result on the next element, either the prefix grows by that
   * value or the whole fold ends with that error.
   */
  lemma CollectAdvance<A, B>(xs: seq<A>, i: nat, f: A -> Parsed<B>, acc: seq<B>, step: Parsed<B>)
    requires i < |xs|
    requires Collect(xs[..i], f) == Parsed(acc, None)
    requires f(xs[i]) == step
    ensures step.err.None? ==> Collect(xs[..i + 1], f) == Parsed(acc + [step.value], None)
    ensures step.err.Some? ==> Collect(xs, f) == Parsed(acc, step.err)
  {
    CollectStep(xs, i, f);
    if step.err.Some? {
      CollectKeepsFailure(xs, i + 1, f);
    }
  }
}
