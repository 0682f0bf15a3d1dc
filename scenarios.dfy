/**
 * Concrete documents: an object definition parsed end to end, the
 * precedence of "enum" over the declared type, an array without "items",
 * property order in comparisons, and a definition that refers to itself,
 * on which EqualType never settles.
 */
module Scenarios {
  import opened Wrappers
  import opened Json
  import opened Utils
  import opened Outcomes
  import opened Objects
  import opened References
  import opened ObjectLaws
  import opened Equality
  import opened EqualityLaws

  /** {"type": "integer"} */
  const IntegerNode: Json := Obj([Member("type", Str("integer"))])

  /** {"type": "object", "properties": {"a": {"type": "integer"}}} */
  const FooNode: Json := Obj([Member("type", Str("object")), Member("properties", Obj([Member("a", IntegerNode)]))])

  /** {"definitions": {"Foo": ...}} */
  const FooDocument: Json := Obj([Member("definitions", Obj([Member("Foo", FooNode)]))])

  /** The expression expected for "a". */
  const IntegerExpr: ObjectExpr := Empty.(tag := Base, typ := "integer")

  /** The expression expected for "Foo". */
  const FooExpr: ObjectExpr := Empty.(typ := "object", properties := [ObjectDefinition("a", IntegerExpr)])

  /** Collecting over one element. */
  lemma CollectOne<A, B>(x: A, f: A -> Parsed<B>)
    ensures f(x).err.None? ==> Collect([x], f) == Parsed([f(x).value], None)
    ensures f(x).err.Some? ==> Collect([x], f) == Parsed([], f(x).err)
  {
    assert [x][..0] == [];
    assert Collect([x][..0], f) == Parsed([], None);
    assert [] + [f(x).value] == [f(x).value];
  }

  lemma IntegerKeys()
    ensures Get(Some(IntegerNode), "type") == Some(Str("integer"))
    ensures Get(Some(IntegerNode), "properties") == None
    ensures Get(Some(IntegerNode), "$ref") == None
    ensures Get(Some(IntegerNode), "allOf") == None
    ensures Get(Some(IntegerNode), "enum") == None
    ensures Get(Some(IntegerNode), "description") == None
  {
  }

  /** {"type": "integer"} is the base type "integer". */
  lemma ParseInteger(p: Parser)
    ensures p.ParseObject(Some(IntegerNode)) == Parsed(IntegerExpr, None)
  {
    var node := Some(IntegerNode);
    IntegerKeys();
    assert Entries(Get(node, "properties")) == [];
    assert PropertiesOf(p, node) == Parsed([], None);
    assert Start(p, node) == Empty;
    BaseTypes(p, node);
  }

  lemma FooKeys()
    ensures Get(Some(FooNode), "type") == Some(Str("object"))
    ensures Get(Some(FooNode), "properties") == Some(Obj([Member("a", IntegerNode)]))
    ensures Get(Some(FooNode), "$ref") == None
    ensures Get(Some(FooNode), "allOf") == None
    ensures Get(Some(FooNode), "enum") == None
    ensures Get(Some(FooNode), "oneOf") == None
    ensures Get(Some(FooNode), "description") == None
  {
  }

  lemma FooProperties(p: Parser)
    ensures PropertiesOf(p, Some(FooNode)) == Parsed([ObjectDefinition("a", IntegerExpr)], None)
  {
    FooKeys();
    var m := Member("a", IntegerNode);
    assert Entries(Get(Some(FooNode), "properties")) == [m];
    ParseInteger(p);
    assert p.DefinitionStep()(m) == Parsed(ObjectDefinition("a", IntegerExpr), None);
    CollectOne(m, p.DefinitionStep());
  }

  /** What parseObjectExpression reads of "Foo" before its switch. */
  lemma FooShape(p: Parser)
    ensures var node := Some(FooNode);
      && PropertiesOf(p, node).err.None?
      && !Exists(Get(node, "$ref")) && !IsArray(Get(node, "allOf")) && Exists(Get(node, "type"))
      && !IsArray(Get(node, "enum")) && Text(Get(node, "type")) == "object" && !IsArray(Get(node, "oneOf"))
      && Start(p, node) == Empty.(properties := [ObjectDefinition("a", IntegerExpr)])
  {
    FooKeys();
    assert Text(Get(Some(FooNode), "type")) == "object";
    FooStart(p);
  }

  /** The expression "Foo" starts from: no description, the one property "a". */
  lemma FooStart(p: Parser)
    ensures PropertiesOf(p, Some(FooNode)).err.None?
    ensures Start(p, Some(FooNode)) == Empty.(properties := [ObjectDefinition("a", IntegerExpr)])
  {
    FooKeys();
    FooProperties(p);
    assert DescriptionOf(Some(FooNode)) == None;
  }

  /** The object "Foo" parses to an object with the one property "a". */
  lemma ParseFoo(p: Parser)
    ensures p.ParseObject(Some(FooNode)) == Parsed(FooExpr, None)
  {
    FooShape(p);
    ObjectOneOf(p, Some(FooNode));
  }

  /**
   * The end-to-end example: one definition "Foo", an object whose one
   * property "a" is the base type "integer".
   */
  lemma FooDefinitions(p: Parser)
    ensures p.Definitions(FooDocument) == Parsed([ObjectDefinition("Foo", FooExpr)], None)
  {
    var m := Member("Foo", FooNode);
    assert Get(Some(FooDocument), "definitions") == Some(Obj([m]));
    assert Entries(Get(Some(FooDocument), "definitions")) == [m];
    ParseFoo(p);
    assert p.DefinitionStep()(m) == Parsed(ObjectDefinition("Foo", FooExpr), None);
    CollectOne(m, p.DefinitionStep());
  }

  /** The parsed "Foo" equals itself, with no fuel needed. */
  lemma FooEqualsItself()
    ensures EqualType(FooExpr, FooExpr, 0) == Return(true)
  {
    assert WellFormed(IntegerExpr);
    assert RefFree(IntegerExpr);
    assert FooExpr.properties[0].expr == IntegerExpr;
    assert WellFormed(FooExpr);
    assert RefFree(FooExpr);
    RefFreeEqualsItself(FooExpr, 0);
  }

  /** {"type": "string", "enum": ["x", "y", "z"]} */
  const EnumNode: Json := Obj([Member("type", Str("string")), Member("enum", Arr([Str("x"), Str("y"), Str("z")]))])

  lemma EnumKeys()
    ensures Get(Some(EnumNode), "type") == Some(Str("string"))
    ensures Get(Some(EnumNode), "enum") == Some(Arr([Str("x"), Str("y"), Str("z")]))
    ensures Get(Some(EnumNode), "properties") == None
    ensures Get(Some(EnumNode), "$ref") == None
    ensures Get(Some(EnumNode), "allOf") == None
    ensures Get(Some(EnumNode), "enumNames") == None
    ensures Get(Some(EnumNode), "description") == None
  {
  }

  /** What parseObjectExpression reads of the enumeration before its switch. */
  lemma EnumShape(p: Parser)
    ensures var node := Some(EnumNode);
      && PropertiesOf(p, node).err.None?
      && !Exists(Get(node, "$ref")) && !IsArray(Get(node, "allOf")) && Exists(Get(node, "type"))
      && IsArray(Get(node, "enum")) && !IsArray(Get(node, "enumNames"))
      && Text(Get(node, "type")) == "string"
      && Elements(Get(node, "enum")) == [Str("x"), Str("y"), Str("z")]
      && Start(p, node) == Empty
  {
    EnumTexts();
    EnumStart(p);
  }

  /** The declared type and the literals of the enumeration. */
  lemma EnumTexts()
    ensures var node := Some(EnumNode);
      && !Exists(Get(node, "$ref")) && !IsArray(Get(node, "allOf")) && Exists(Get(node, "type"))
      && IsArray(Get(node, "enum")) && !IsArray(Get(node, "enumNames"))
      && Text(Get(node, "type")) == "string"
      && Elements(Get(node, "enum")) == [Str("x"), Str("y"), Str("z")]
  {
    EnumKeys();
  }

  /** The enumeration starts from the zero expression: no description, no properties. */
  lemma EnumStart(p: Parser)
    ensures PropertiesOf(p, Some(EnumNode)).err.None?
    ensures Start(p, Some(EnumNode)) == Empty
  {
    var node := Some(EnumNode);
    EnumKeys();
    assert Entries(Get(node, "properties")) == [];
    assert PropertiesOf(p, node) == Parsed([], None);
    assert DescriptionOf(node) == None;
  }

  /** {"type": "string", "enum": ["x", "y", "z"]} is an enumeration of three strings, not a base type. */
  lemma EnumOverString(p: Parser)
    ensures p.ParseObject(Some(EnumNode))
         == Parsed(Empty.(tag := Enum, typ := "string", enum := [StringValue("x"), StringValue("y"), StringValue("z")]), None)
  {
    var node := Some(EnumNode);
    EnumShape(p);
    assert EnumKind("string");
    EnumBeforeSwitch(p, node);
    var r := p.ParseObject(node);
    assert r.err.None?;
    ThreeStrings(r.value.enum);
  }

  /** Three values converted from "x", "y" and "z" under the type "string". */
  lemma ThreeStrings(values: seq<EnumValue>)
    requires |values| == 3
    requires forall j :: 0 <= j < 3 ==> values[j] == EnumValueOf("string", [Str("x"), Str("y"), Str("z")][j])
    ensures values == [StringValue("x"), StringValue("y"), StringValue("z")]
  {
    var items := [Str("x"), Str("y"), Str("z")];
    assert values[0] == EnumValueOf("string", items[0]);
    assert values[1] == EnumValueOf("string", items[1]);
    assert values[2] == EnumValueOf("string", items[2]);
  }

  /** {"type": "array"} */
  const ArrayNode: Json := Obj([Member("type", Str("array"))])

  lemma ArrayKeys()
    ensures Get(Some(ArrayNode), "type") == Some(Str("array"))
    ensures Get(Some(ArrayNode), "items") == None
    ensures Get(Some(ArrayNode), "properties") == None
    ensures Get(Some(ArrayNode), "$ref") == None
    ensures Get(Some(ArrayNode), "allOf") == None
    ensures Get(Some(ArrayNode), "enum") == None
    ensures Get(Some(ArrayNode), "description") == None
  {
  }

  /** What parseObjectExpression reads of {"type": "array"} before its switch. */
  lemma ArrayShape(p: Parser)
    ensures var node := Some(ArrayNode);
      && PropertiesOf(p, node).err.None?
      && !Exists(Get(node, "$ref")) && !IsArray(Get(node, "allOf")) && Exists(Get(node, "type"))
      && !IsArray(Get(node, "enum")) && Text(Get(node, "type")) == "array" && !Exists(Get(node, "items"))
      && Start(p, node) == Empty
  {
    var node := Some(ArrayNode);
    ArrayKeys();
    assert Entries(Get(node, "properties")) == [];
    assert PropertiesOf(p, node) == Parsed([], None);
  }

  /** {"type": "array"} fails, with the type recorded and no tag. */
  lemma ArrayWithoutItemsFails(p: Parser)
    ensures p.ParseObject(Some(ArrayNode)) == Parsed(Empty.(typ := "array"), Some(ArrayWithoutItems))
  {
    ArrayShape(p);
    ArrayNeedsItems(p, Some(ArrayNode));
  }

  /** The same two properties in the other order are not equal. */
  lemma PropertyOrderMatters()
    ensures var a, b := ObjectDefinition("a", Empty.(tag := Base, typ := "integer")), ObjectDefinition("b", Empty.(tag := Base, typ := "string"));
      EqualType(Empty.(typ := "object", properties := [a, b]), Empty.(typ := "object", properties := [b, a]), 0) == Return(false)
  {
    var a, b := ObjectDefinition("a", Empty.(tag := Base, typ := "integer")), ObjectDefinition("b", Empty.(tag := Base, typ := "string"));
    assert EqualDefinition(a, b, 0) == Return(false);
    assert EqualDefinitions([a, b], [b, a], 0) == Return(false);
  }

  /** "objects.json#/definitions/Loop" */
  const LoopPointer: string := "objects.json#/definitions/Loop"

  /** {"$ref": "objects.json#/definitions/Loop"} */
  const LoopNode: Json := Obj([Member("$ref", Str(LoopPointer))])

  /** An objects document whose definition "Loop" refers to itself. */
  const LoopDocument: Json := Obj([Member("definitions", Obj([Member("Loop", LoopNode)]))])

  /** The parser holding that document. */
  const LoopParser: Parser := Parser(Some(LoopDocument))

  /** What the parser makes of "Loop": an unresolved reference to itself. */
  const LoopExpr: ObjectExpr := Empty.(tag := Ref, ref := Some(Thunk(LoopParser, LoopPointer)))

  lemma LoopKeys()
    ensures GetPath(Some(LoopDocument), ["definitions", "Loop"]) == Some(LoopNode)
    ensures Get(Some(LoopNode), "$ref") == Some(Str(LoopPointer))
    ensures Get(Some(LoopNode), "properties") == None
    ensures Get(Some(LoopNode), "description") == None
  {
    var segs := ["definitions", "Loop"];
    assert Get(Some(LoopDocument), "definitions") == Some(Obj([Member("Loop", LoopNode)]));
    assert GetPath(Some(LoopDocument), segs) == GetPath(Get(Some(LoopDocument), "definitions"), segs[1..]);
    assert segs[1..][1..] == [];
  }

  /** "Loop" parses to LoopExpr. */
  lemma ParseLoop()
    ensures LoopParser.ParseObject(Some(LoopNode)) == Parsed(LoopExpr, None)
  {
    var node := Some(LoopNode);
    LoopKeys();
    assert Entries(Get(node, "properties")) == [];
    assert PropertiesOf(LoopParser, node) == Parsed([], None);
    assert Start(LoopParser, node) == Empty;
    RefWins(LoopParser, node);
  }

  /** The pointer has the form `file#/definitions/Name`, with segments "definitions" and "Loop". */
  lemma LoopPointerForm()
    ensures LoopPointer == "objects.json" + ['#'] + "/" + Join(["definitions", "Loop"], '/')
    ensures forall s :: s in ["definitions", "Loop"] ==> '/' !in s && '.' !in s
  {
    var segs := ["definitions", "Loop"];
    assert Join(segs, '/') == "definitions" + ['/'] + Join(segs[1..], '/');
    assert segs[1..] == ["Loop"];
  }

  /** Following the reference of "Loop" leads back to "Loop" itself. */
  lemma LoopResolvesToItself()
    ensures Deref(LoopExpr) == Return(ObjectDefinition("Loop", LoopExpr))
  {
    LoopPointerForm();
    ResolveObjectsPointer(LoopParser, '#', ["definitions", "Loop"]);
    LoopKeys();
    ParseLoop();
    assert ResolveReference(LoopParser, LoopPointer) == Return(Parsed(ObjectDefinition("Loop", LoopExpr), None));
  }

  /**
   * An expression whose reference resolves to a definition of itself never
   * settles when compared with itself: every hop spends one unit of depth
   * and leads back to the same comparison.
   */
  lemma {:induction false} SelfReferenceNeverSettles(e: ObjectExpr, name: string, fuel: nat)
    requires e.tag == Ref && e.properties == []
    requires Deref(e) == Return(ObjectDefinition(name, e))
    ensures EqualType(e, e, fuel) == OutOfFuel
  {
    var k := 0;
    SelfReferenceHop(e, name, 0);
    while k < fuel
      invariant k <= fuel && EqualType(e, e, k) == OutOfFuel
    {
      k := k + 1;
      SelfReferenceHop(e, name, k);
    }
  }

  /** One hop of that comparison: it needs a unit of depth and then starts over. */
  lemma SelfReferenceHop(e: ObjectExpr, name: string, fuel: nat)
    requires e.tag == Ref && e.properties == []
    requires Deref(e) == Return(ObjectDefinition(name, e))
    ensures EqualType(e, e, fuel) == if fuel == 0 then OutOfFuel else EqualType(e, e, fuel - 1)
  {
    var d := ObjectDefinition(name, e);
    assert EqualDefinitions(e.properties, e.properties, fuel) == Return(true);
    assert EqualType(e, e, fuel) == EqualResolved(e, Return(d), Return(d), fuel);
  }

  /**
   * Comparing "Loop" with itself never settles: whatever depth the model is
   * given, EqualType runs out of it, as the Go recursion never returns.
   */
  lemma LoopNeverSettles(fuel: nat)
    ensures EqualType(LoopExpr, LoopExpr, fuel) == OutOfFuel
  {
    LoopResolvesToItself();
    SelfReferenceNeverSettles(LoopExpr, "Loop", fuel);
  }
}
