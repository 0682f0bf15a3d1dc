/**
 * ObjectDefinition.Equal and ObjectExpr.EqualType.  The comparison is
 * structural and positional, and every kind-specific check is chosen by the
 * tag of the receiver alone.  Following a reference calls the Ref closure on
 * both sides; the Go code panics when a closure is missing or returns an
 * error, and it recurses without bound through cyclic references.  The
 * model returns an Outcome: the Go boolean, the panic, or OutOfFuel once
 * `fuel` reference hops have been spent (each hop through a pair of
 * references costs one unit; nothing else does).
 */
module Equality {
  import opened Wrappers
  import opened Outcomes
  import opened Objects
  import opened References

  const NilDereference := "invalid memory address or nil pointer dereference"

  /**
   * Calling the Ref closure of an expression: the resolved definition, or a
   * panic when the closure is nil (it is set only for "$ref" nodes) or when
   * resolution panics or returns an error (EqualType panics with it).
   */
  function Deref(e: ObjectExpr): (r: Outcome<ObjectDefinition>)
    ensures r.OutOfFuel? == false
    ensures e.ref.None? ==> r == Panic(NilDereference)
    ensures r.Return? <==> (
      && e.ref.Some?
      && var res := ResolveReference(e.ref.value.owner, e.ref.value.pointer);
         res.Return? && res.value.err.None?)
    ensures e.ref.Some? ==>
      var res := ResolveReference(e.ref.value.owner, e.ref.value.pointer);
      && (res.Return? && res.value.err.None? ==> r == Return(res.value.value))
      && (res.Return? && res.value.err.Some? ==> r == Panic(res.value.err.value.Message()))
      && (res.Panic? ==> r == Panic(res.reason))
  {
    if e.ref.None? then Panic(NilDereference)
    else
      match ResolveReference(e.ref.value.owner, e.ref.value.pointer)
      case Return(Parsed(def, err)) => if err.Some? then Panic(err.value.Message()) else Return(def)
      case Panic(reason) => Panic(reason)
      case OutOfFuel => OutOfFuel
  }

  /**
   * ObjectDefinition.Equal: same name, then the expressions compared by
   * EqualType; definitions with different names are never equal.
   */
  function EqualDefinition(d1: ObjectDefinition, d2: ObjectDefinition, fuel: nat): (r: Outcome<bool>)
    ensures d1.name != d2.name ==> r == Return(false)
    ensures r == Return(true) ==> d1.name == d2.name && d1.expr.typ == d2.expr.typ
    decreases fuel, d1, 0
  {
    if d1.name != d2.name then Return(false)
    else EqualType(d1.expr, d2.expr, fuel)
  }

  /**
   * ObjectExpr.EqualType.  The Go code runs the Ref, AllOf, OneOf, Enum and
   * Array checks one after the other; a receiver carries one tag, so at most
   * one of them applies (Is matches the tag exactly), which the chain of
   * conditions below expresses.
   */
  function EqualType(a: ObjectExpr, b: ObjectExpr, fuel: nat): (r: Outcome<bool>)
    ensures a.typ != b.typ || |a.properties| != |b.properties| ==> r == Return(false)
    ensures r == Return(true) ==> a.typ == b.typ && |a.properties| == |b.properties|
    ensures r == Return(true) ==> forall k :: 0 <= k < |a.properties| ==> a.properties[k].name == b.properties[k].name
    ensures r == Return(true) && a.Is(Array) ==> a.arrayOf.Some? && b.arrayOf.Some?
    decreases fuel, a, 2
  {
    if a.typ != b.typ then Return(false)
    else if |a.properties| != |b.properties| then Return(false)
    else
      var props := EqualDefinitions(a.properties, b.properties, fuel);
      if props != Return(true) then props
      else if a.Is(Ref) then EqualReferences(a, b, fuel)
      else if a.Is(AllOf) then EqualLists(a.allOf, b.allOf, fuel)
      else if a.Is(OneOf) then EqualLists(a.oneOf, b.oneOf, fuel)
      else if a.Is(Enum) then Return(a.enum == b.enum && a.enumNames == b.enumNames)
      else if a.Is(Array) then
        if a.arrayOf.None? || b.arrayOf.None? then Panic(NilDereference)
        else EqualType(a.arrayOf.value, b.arrayOf.value, fuel)
      else Return(true)
  }

  /**
   * The Ref check: resolve the receiver's reference, then the other's, and
   * compare the definitions.  A verdict needs both references resolved and
   * a unit of depth, and "equal" needs the two definitions to share a name.
   */
  function EqualReferences(a: ObjectExpr, b: ObjectExpr, fuel: nat): (r: Outcome<bool>)
    ensures r.Return? ==> fuel > 0 && Deref(a).Return? && Deref(b).Return?
    ensures r == Return(true) ==> Deref(a).value.name == Deref(b).value.name
    decreases fuel, a, 1
  {
    EqualResolved(a, Deref(a), Deref(b), fuel)
  }

  /**
   * Comparing the two resolved references; a panic on either side ends the
   * comparison with that panic, the receiver's side first.
   */
  function EqualResolved(ghost a: ObjectExpr, r1: Outcome<ObjectDefinition>, r2: Outcome<ObjectDefinition>, fuel: nat): (r: Outcome<bool>)
    ensures r1.Panic? ==> r == Panic(r1.reason)
    ensures r1.Return? && r2.Panic? ==> r == Panic(r2.reason)
    ensures r.Return? ==> fuel > 0 && r1.Return? && r2.Return?
    ensures r == Return(true) ==> r1.value.name == r2.value.name
    decreases fuel, a, 0
  {
    match r1
    case Panic(reason) => Panic(reason)
    case OutOfFuel => OutOfFuel
    case Return(d1) =>
      match r2
      case Panic(reason) => Panic(reason)
      case OutOfFuel => OutOfFuel
      case Return(d2) =>
        if fuel == 0 then OutOfFuel
        else EqualDefinition(d1, d2, fuel - 1)
  }

  /**
   * The properties loop: pairwise Equal, stopping at the first pair that is
   * not equal; "equal" needs the same names at the same positions.
   */
  function EqualDefinitions(xs: seq<ObjectDefinition>, ys: seq<ObjectDefinition>, fuel: nat): (r: Outcome<bool>)
    requires |xs| == |ys|
    ensures r == Return(true) ==> forall k :: 0 <= k < |xs| ==> xs[k].name == ys[k].name
    decreases fuel, xs, 0
  {
    if xs == [] then Return(true)
    else
      var first := EqualDefinition(xs[0], ys[0], fuel);
      if first != Return(true) then first
      else EqualDefinitions(xs[1..], ys[1..], fuel)
  }

  /**
   * The allOf and oneOf checks: same length, then pairwise EqualType;
   * "equal" needs the same types at the same positions.
   */
  function EqualLists(xs: seq<ObjectExpr>, ys: seq<ObjectExpr>, fuel: nat): (r: Outcome<bool>)
    ensures |xs| != |ys| ==> r == Return(false)
    ensures r == Return(true) ==> |xs| == |ys| && forall k :: 0 <= k < |xs| ==> xs[k].typ == ys[k].typ
    decreases fuel, xs, 0
  {
    if |xs| != |ys| then Return(false)
    else if xs == [] then Return(true)
    else
      var first := EqualType(xs[0], ys[0], fuel);
      if first != Return(true) then first
      else EqualLists(xs[1..], ys[1..], fuel)
  }
}
