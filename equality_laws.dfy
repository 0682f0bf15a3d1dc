/**
 * Properties of EqualType: more fuel never changes a verdict that was
 * reached, no expression is found different from itself, reference-free
 * well-formed expressions equal themselves without any fuel, a true verdict
 * means the same type and the same property names in the same order, and
 * descriptions are never compared.
 */
module EqualityLaws {
  import opened Wrappers
  import opened Outcomes
  import opened Objects
  import opened ObjectLaws
  import opened Equality

  /** Fuel is only a bound: once a verdict or a panic is reached, more fuel gives the same. */
  lemma {:induction false} MoreFuelType(a: ObjectExpr, b: ObjectExpr, fuel: nat, more: nat)
    requires fuel <= more && !EqualType(a, b, fuel).OutOfFuel?
    ensures EqualType(a, b, more) == EqualType(a, b, fuel)
    decreases fuel, a, 2
  {
    if a.typ == b.typ && |a.properties| == |b.properties| {
      var props := EqualDefinitions(a.properties, b.properties, fuel);
      if props.OutOfFuel? {
      } else {
        MoreFuelDefinitions(a.properties, b.properties, fuel, more);
        if props == Return(true) {
          if a.Is(Ref) {
            MoreFuelReferences(a, b, fuel, more);
          } else if a.Is(AllOf) {
            MoreFuelLists(a.allOf, b.allOf, fuel, more);
          } else if a.Is(OneOf) {
            MoreFuelLists(a.oneOf, b.oneOf, fuel, more);
          } else if a.Is(Array) && a.arrayOf.Some? && b.arrayOf.Some? {
            MoreFuelType(a.arrayOf.value, b.arrayOf.value, fuel, more);
          }
        }
      }
    }
  }

  lemma MoreFuelReferences(a: ObjectExpr, b: ObjectExpr, fuel: nat, more: nat)
    requires fuel <= more && !EqualReferences(a, b, fuel).OutOfFuel?
    ensures EqualReferences(a, b, more) == EqualReferences(a, b, fuel)
    decreases fuel, a, 1
  {
    MoreFuelResolved(a, Deref(a), Deref(b), fuel, more);
  }

  lemma {:induction false} MoreFuelResolved(a: ObjectExpr, r1: Outcome<ObjectDefinition>, r2: Outcome<ObjectDefinition>, fuel: nat, more: nat)
    requires fuel <= more && !EqualResolved(a, r1, r2, fuel).OutOfFuel?
    ensures EqualResolved(a, r1, r2, more) == EqualResolved(a, r1, r2, fuel)
    decreases fuel, a, 0
  {
    if r1.Return? && r2.Return? {
      MoreFuelDefinition(r1.value, r2.value, fuel - 1, more - 1);
    }
  }

  lemma {:induction false} MoreFuelDefinition(d1: ObjectDefinition, d2: ObjectDefinition, fuel: nat, more: nat)
    requires fuel <= more && !EqualDefinition(d1, d2, fuel).OutOfFuel?
    ensures EqualDefinition(d1, d2, more) == EqualDefinition(d1, d2, fuel)
    decreases fuel, d1, 0
  {
    if d1.name == d2.name {
      MoreFuelType(d1.expr, d2.expr, fuel, more);
    }
  }

  lemma {:induction false} MoreFuelDefinitions(xs: seq<ObjectDefinition>, ys: seq<ObjectDefinition>, fuel: nat, more: nat)
    requires |xs| == |ys|
    requires fuel <= more && !EqualDefinitions(xs, ys, fuel).OutOfFuel?
    ensures EqualDefinitions(xs, ys, more) == EqualDefinitions(xs, ys, fuel)
    decreases fuel, xs, 0
  {
    if xs != [] {
      MoreFuelDefinition(xs[0], ys[0], fuel, more);
      if EqualDefinition(xs[0], ys[0], fuel) == Return(true) {
        MoreFuelDefinitions(xs[1..], ys[1..], fuel, more);
      }
    }
  }

  lemma {:induction false} MoreFuelLists(xs: seq<ObjectExpr>, ys: seq<ObjectExpr>, fuel: nat, more: nat)
    requires fuel <= more && !EqualLists(xs, ys, fuel).OutOfFuel?
    ensures EqualLists(xs, ys, more) == EqualLists(xs, ys, fuel)
    decreases fuel, xs, 0
  {
    if |xs| == |ys| && xs != [] {
      MoreFuelType(xs[0], ys[0], fuel, more);
      if EqualType(xs[0], ys[0], fuel) == Return(true) {
        MoreFuelLists(xs[1..], ys[1..], fuel, more);
      }
    }
  }

  /** No expression is ever found different from itself (it may still panic or run out of fuel). */
  lemma {:induction false} NeverDifferentFromItself(a: ObjectExpr, fuel: nat)
    ensures EqualType(a, a, fuel) != Return(false)
    decreases fuel, a, 2
  {
    SelfDefinitions(a.properties, fuel);
    if EqualDefinitions(a.properties, a.properties, fuel) == Return(true) {
      if a.Is(Ref) {
        SelfReferences(a, fuel);
      } else if a.Is(AllOf) {
        SelfLists(a.allOf, fuel);
      } else if a.Is(OneOf) {
        SelfLists(a.oneOf, fuel);
      } else if a.Is(Array) && a.arrayOf.Some? {
        NeverDifferentFromItself(a.arrayOf.value, fuel);
      }
    }
  }

  lemma {:induction false} SelfReferences(a: ObjectExpr, fuel: nat)
    ensures EqualReferences(a, a, fuel) != Return(false)
    decreases fuel, a, 1
  {
    SelfResolved(a, Deref(a), fuel);
  }

  lemma {:induction false} SelfResolved(a: ObjectExpr, r: Outcome<ObjectDefinition>, fuel: nat)
    ensures EqualResolved(a, r, r, fuel) != Return(false)
    decreases fuel, a, 0
  {
    if r.Return? && fuel > 0 {
      SelfDefinition(r.value, fuel - 1);
    }
  }

  lemma {:induction false} SelfDefinition(d: ObjectDefinition, fuel: nat)
    ensures EqualDefinition(d, d, fuel) != Return(false)
    decreases fuel, d, 0
  {
    NeverDifferentFromItself(d.expr, fuel);
  }

  lemma {:induction false} SelfDefinitions(xs: seq<ObjectDefinition>, fuel: nat)
    ensures EqualDefinitions(xs, xs, fuel) != Return(false)
    decreases fuel, xs, 0
  {
    if xs != [] {
      SelfDefinition(xs[0], fuel);
      SelfDefinitions(xs[1..], fuel);
    }
  }

  lemma {:induction false} SelfLists(xs: seq<ObjectExpr>, fuel: nat)
    ensures EqualLists(xs, xs, fuel) != Return(false)
    decreases fuel, xs, 0
  {
    if xs != [] {
      NeverDifferentFromItself(xs[0], fuel);
      SelfLists(xs[1..], fuel);
    }
  }

  /** No reference anywhere EqualType can reach. */
  ghost predicate RefFree(e: ObjectExpr)
  {
    && e.tag != Ref
    && (forall j :: 0 <= j < |e.properties| ==> RefFree(e.properties[j].expr))
    && (forall j :: 0 <= j < |e.allOf| ==> RefFree(e.allOf[j]))
    && (forall j :: 0 <= j < |e.oneOf| ==> RefFree(e.oneOf[j]))
    && (e.arrayOf.Some? ==> RefFree(e.arrayOf.value))
  }

  /**
   * A well-formed expression without references equals itself, with any
   * fuel, zero included: only reference hops consume fuel, and only a
   * missing element type could panic.
   */
  lemma {:induction false} RefFreeEqualsItself(a: ObjectExpr, fuel: nat)
    requires WellFormed(a) && RefFree(a)
    ensures EqualType(a, a, fuel) == Return(true)
    decreases a
  {
    RefFreeDefinitions(a.properties, fuel);
    if a.Is(AllOf) {
      RefFreeLists(a.allOf, fuel);
    } else if a.Is(OneOf) {
      RefFreeLists(a.oneOf, fuel);
    } else if a.Is(Array) {
      RefFreeEqualsItself(a.arrayOf.value, fuel);
    }
  }

  lemma {:induction false} RefFreeDefinitions(xs: seq<ObjectDefinition>, fuel: nat)
    requires forall j :: 0 <= j < |xs| ==> WellFormed(xs[j].expr) && RefFree(xs[j].expr)
    ensures EqualDefinitions(xs, xs, fuel) == Return(true)
    decreases xs
  {
    if xs != [] {
      RefFreeEqualsItself(xs[0].expr, fuel);
      RefFreeDefinitions(xs[1..], fuel);
    }
  }

  lemma {:induction false} RefFreeLists(xs: seq<ObjectExpr>, fuel: nat)
    requires forall j :: 0 <= j < |xs| ==> WellFormed(xs[j]) && RefFree(xs[j])
    ensures EqualLists(xs, xs, fuel) == Return(true)
    decreases xs
  {
    if xs != [] {
      RefFreeEqualsItself(xs[0], fuel);
      RefFreeLists(xs[1..], fuel);
    }
  }

  /**
   * A true verdict means the same type and the same property names in the
   * same order: the comparison is positional, not by name.
   */
  lemma SameOutline(a: ObjectExpr, b: ObjectExpr, fuel: nat)
    requires EqualType(a, b, fuel) == Return(true)
    ensures a.typ == b.typ && |a.properties| == |b.properties|
    ensures forall j :: 0 <= j < |a.properties| ==> a.properties[j].name == b.properties[j].name
  {
    DefinitionsPairwise(a.properties, b.properties, fuel);
  }

  /** The properties loop is true exactly when every pair at the same position is Equal. */
  lemma {:induction false} DefinitionsPairwise(xs: seq<ObjectDefinition>, ys: seq<ObjectDefinition>, fuel: nat)
    requires |xs| == |ys|
    ensures EqualDefinitions(xs, ys, fuel) == Return(true)
        <==> forall j :: 0 <= j < |xs| ==> EqualDefinition(xs[j], ys[j], fuel) == Return(true)
    decreases xs
  {
    if xs != [] {
      DefinitionsPairwise(xs[1..], ys[1..], fuel);
      assert forall j :: 1 <= j < |xs| ==> xs[j] == xs[1..][j - 1] && ys[j] == ys[1..][j - 1];
    }
  }

  /** The allOf and oneOf checks are true exactly when the lengths agree and every pair at the same position is equal. */
  lemma {:induction false} ListsPairwise(xs: seq<ObjectExpr>, ys: seq<ObjectExpr>, fuel: nat)
    ensures EqualLists(xs, ys, fuel) == Return(true)
        <==> |xs| == |ys| && forall j :: 0 <= j < |xs| ==> EqualType(xs[j], ys[j], fuel) == Return(true)
    decreases xs
  {
    if |xs| == |ys| && xs != [] {
      ListsPairwise(xs[1..], ys[1..], fuel);
      assert forall j :: 1 <= j < |xs| ==> xs[j] == xs[1..][j - 1] && ys[j] == ys[1..][j - 1];
    }
  }

  /**
   * What a true verdict says, check by check: every property pair is
   * Equal, and the check selected by the receiver's tag passed: both
   * references resolved (with a hop of fuel left) to Equal definitions,
   * the unions have pairwise equal members, the enumerations the same
   * literals and names, the arrays equal element types.
   */
  lemma TrueVerdict(a: ObjectExpr, b: ObjectExpr, fuel: nat)
    requires EqualType(a, b, fuel) == Return(true)
    ensures |a.properties| == |b.properties|
    ensures forall j :: 0 <= j < |a.properties| ==> EqualDefinition(a.properties[j], b.properties[j], fuel) == Return(true)
    ensures a.Is(Ref) ==>
      && Deref(a).Return? && Deref(b).Return? && fuel > 0
      && EqualDefinition(Deref(a).value, Deref(b).value, fuel - 1) == Return(true)
    ensures a.Is(AllOf) ==>
      |a.allOf| == |b.allOf| && forall j :: 0 <= j < |a.allOf| ==> EqualType(a.allOf[j], b.allOf[j], fuel) == Return(true)
    ensures a.Is(OneOf) ==>
      |a.oneOf| == |b.oneOf| && forall j :: 0 <= j < |a.oneOf| ==> EqualType(a.oneOf[j], b.oneOf[j], fuel) == Return(true)
    ensures a.Is(Enum) ==> a.enum == b.enum && a.enumNames == b.enumNames
    ensures a.Is(Array) ==>
      a.arrayOf.Some? && b.arrayOf.Some? && EqualType(a.arrayOf.value, b.arrayOf.value, fuel) == Return(true)
  {
    DefinitionsPairwise(a.properties, b.properties, fuel);
    if a.Is(Ref) {
      assert EqualType(a, b, fuel) == EqualResolved(a, Deref(a), Deref(b), fuel);
    } else if a.Is(AllOf) {
      ListsPairwise(a.allOf, b.allOf, fuel);
    } else if a.Is(OneOf) {
      ListsPairwise(a.oneOf, b.oneOf, fuel);
    }
  }

  /** Descriptions never take part in the comparison. */
  lemma DescriptionIgnored(a: ObjectExpr, b: ObjectExpr, d1: Option<string>, d2: Option<string>, fuel: nat)
    ensures EqualType(a.(description := d1), b.(description := d2), fuel) == EqualType(a, b, fuel)
  {
    var a', b' := a.(description := d1), b.(description := d2);
    assert a'.properties == a.properties && b'.properties == b.properties;
    if a.Is(Ref) {
      assert Deref(a') == Deref(a) && Deref(b') == Deref(b);
      assert EqualReferences(a', b', fuel) == EqualResolved(a', Deref(a), Deref(b), fuel);
      assert EqualReferences(a, b, fuel) == EqualResolved(a, Deref(a), Deref(b), fuel);
    }
  }

  /**
   * A reference receiver compared with an expression that has no
   * reference: once the receiver's own reference resolves, calling the
   * other's nil closure panics.
   */
  lemma ReferenceAgainstPlain(a: ObjectExpr, b: ObjectExpr, fuel: nat)
    requires a.tag == Ref && Deref(a).Return? && b.ref.None?
    requires a.typ == b.typ && |a.properties| == |b.properties|
    requires EqualDefinitions(a.properties, b.properties, fuel) == Return(true)
    ensures EqualType(a, b, fuel) == Panic(NilDereference)
  {
    assert Deref(b) == Panic(NilDereference);
    assert EqualType(a, b, fuel) == EqualResolved(a, Deref(a), Deref(b), fuel);
  }

  /**
   * The comparator's error policy for references: when following either
   * reference fails (a nil closure, a panic inside resolution, or a
   * resolution error), the comparison panics with that failure's reason; it
   * never reports "not equal" instead.
   */
  lemma FailedDereferencePanics(a: ObjectExpr, b: ObjectExpr, fuel: nat)
    requires a.tag == Ref && a.typ == b.typ && |a.properties| == |b.properties|
    requires EqualDefinitions(a.properties, b.properties, fuel) == Return(true)
    requires Deref(a).Panic? || (Deref(a).Return? && Deref(b).Panic?)
    ensures Deref(a).Panic? ==> EqualType(a, b, fuel) == Panic(Deref(a).reason)
    ensures Deref(a).Return? ==> EqualType(a, b, fuel) == Panic(Deref(b).reason)
  {
    assert EqualType(a, b, fuel) == EqualResolved(a, Deref(a), Deref(b), fuel);
  }

  /**
   * The receiver's tag alone selects the checks: a plain expression equals
   * a union of the same type, while the union does not equal the plain
   * expression.
   */
  lemma ReceiverDecides()
    ensures var plain := Empty.(typ := "t");
      var union := Empty.(tag := AllOf, typ := "t", allOf := [Empty]);
      EqualType(plain, union, 0) == Return(true) && EqualType(union, plain, 0) == Return(false)
  {
    var plain := Empty.(typ := "t");
    var union := Empty.(tag := AllOf, typ := "t", allOf := [Empty]);
    assert EqualLists(union.allOf, plain.allOf, 0) == Return(false);
  }
}
