/**
 * The type-expression model of the schema package and its parser
 * (parseObjectExpression, ParseObjects).  A schema node becomes an
 * ObjectExpr by a fixed precedence: description and properties first, then
 * "$ref", then an "allOf" array, then a missing "type", then an "enum"
 * array, and finally a switch on "type".
 *
 * Each accumulating operation is given twice: a function that specifies it
 * (ParseObject, Definitions) and a method with the loops of the Go code
 * (ParseObjectExpression, ParseObjects) proved to compute that function.
 */
module Objects {
  import opened Wrappers
  import opened Json
  import opened Outcomes

  /** The kind flag of an expression (Go: objtype); Untagged is the zero value. */
  datatype Tag = Untagged | Base | Ref | AllOf | OneOf | Enum | Array

  /** The Go ObjectType constant of a tag: 1 << iota, from Base = 1 to Array = 32. */
  function Bit(t: Tag): bv8
  {
    match t
    case Untagged => 0
    case Base => 1
    case Ref => 2
    case AllOf => 4
    case OneOf => 8
    case Enum => 16
    case Array => 32
  }

  /**
   * An enum literal after conversion by the declared type.  NumberValue
   * stands for the float64 that Float() yields; JSON numbers are integral in
   * this model, so it is exact.  Values of different kinds are never equal,
   * as reflect.DeepEqual never equates a float64 with an int64.
   */
  datatype EnumValue = StringValue(s: string) | NumberValue(x: int) | IntegerValue(i: int)

  /**
   * The parser of parser.go: it holds only the objects document, set at
   * construction and never changed.
   */
  datatype Parser = Parser(objects: Node)
  {
    /** A "$ref" is kept unresolved: the pointer and the parser that will resolve it on use. */
    function RefTo(pointer: string): Thunk
    {
      Thunk(this, pointer)
    }

    /**
     * parseObjectExpression, as a function.  The description is always the
     * node's own, whatever else fails, and only a "$ref" makes a Ref.
     */
    function ParseObject(node: Node): (r: Parsed<ObjectExpr>)
      ensures r.value.description == DescriptionOf(node)
      ensures r.err.None? ==> (r.value.tag == Ref <==> Exists(Get(node, "$ref")))
      decreases Weight(node), 2, 0
    {
      var described := Empty.(description := DescriptionOf(node));
      var props := ParseProperties(Entries(Get(node, "properties")), Weight(node));
      var expr := described.(properties := props.value);
      if props.err.Some? then Parsed(expr, props.err)
      else ParseShape(node, expr)
    }

    /**
     * The part of parseObjectExpression after the properties: "$ref",
     * "allOf", then the type.  It never changes the description or the
     * properties, and from an untagged start only a "$ref" yields a Ref.
     */
    function ParseShape(node: Node, expr: ObjectExpr): (r: Parsed<ObjectExpr>)
      ensures r.value.description == expr.description
      ensures r.value.properties == expr.properties
      ensures expr.tag == Untagged ==> (r.value.tag == Ref <==> Exists(Get(node, "$ref")))
      decreases Weight(node), 1, 1
    {
      var ref := Get(node, "$ref");
      if Exists(ref) then Parsed(expr.(tag := Ref, ref := Some(RefTo(Text(ref)))), None)
      else
        var allOf := Get(node, "allOf");
        if IsArray(allOf) then
          var items := ParseItems(Elements(allOf), Weight(node));
          if items.err.Some? then Parsed(expr.(allOf := items.value), items.err)
          else Parsed(expr.(tag := AllOf, allOf := items.value), None)
        else
          var typ := Get(node, "type");
          if !Exists(typ) then Parsed(expr, None)
          else ParseTyped(node, expr.(typ := Text(typ)))
    }

    /**
     * The part of parseObjectExpression for a node with a "type": "enum"
     * first, then the switch.  The description, the properties, the type and
     * the reference are kept; from an untagged start the tag is never Ref or
     * AllOf, and an Array always comes with its element and without error.
     */
    function ParseTyped(node: Node, expr: ObjectExpr): (r: Parsed<ObjectExpr>)
      ensures r.value.description == expr.description
      ensures r.value.properties == expr.properties
      ensures r.value.typ == expr.typ && r.value.ref == expr.ref
      ensures expr.tag == Untagged ==> r.value.tag != Ref && r.value.tag != AllOf
      ensures expr.tag == Untagged && r.value.tag == Array ==> r.err.None? && r.value.arrayOf.Some?
      decreases Weight(node), 1, 0
    {
      var typ := expr.typ;
      if IsArray(Get(node, "enum")) then ParseEnum(node, expr)
      else if IsBaseType(typ) then Parsed(expr.(tag := Base), None)
      else if typ == "object" then
        var oneOf := Get(node, "oneOf");
        if IsArray(oneOf) then
          var items := ParseItems(Elements(oneOf), Weight(node));
          if items.err.Some? then Parsed(expr.(oneOf := items.value), items.err)
          else Parsed(expr.(tag := OneOf, oneOf := items.value), None)
        else Parsed(expr, None)
      else if typ == "array" then
        var items := Get(node, "items");
        if !Exists(items) then Parsed(expr, Some(ArrayWithoutItems))
        else
          var elem := ParseObject(items);
          if elem.err.Some? then Parsed(expr, elem.err)
          else Parsed(expr.(tag := Array, arrayOf := Some(elem.value)), None)
      else Parsed(expr, None)
    }

    /** The properties loop: one definition per entry, stopping at the first error. */
    function ParseProperties(entries: seq<Member>, ghost bound: nat): Parsed<seq<ObjectDefinition>>
      requires forall k :: 0 <= k < |entries| ==> Size(entries[k].value) < bound
      decreases bound, 0, |entries|
    {
      if entries == [] then Parsed([], None)
      else
        var init := ParseProperties(entries[..|entries| - 1], bound);
        if init.err.Some? then init
        else
          var last := entries[|entries| - 1];
          var e := ParseObject(Some(last.value));
          if e.err.Some? then Parsed(init.value, e.err)
          else Parsed(init.value + [ObjectDefinition(last.key, e.value)], None)
    }

    /** The allOf and oneOf loops: one expression per item, stopping at the first error. */
    function ParseItems(items: seq<Json>, ghost bound: nat): Parsed<seq<ObjectExpr>>
      requires forall k :: 0 <= k < |items| ==> Size(items[k]) < bound
      decreases bound, 0, |items|
    {
      if items == [] then Parsed([], None)
      else
        var init := ParseItems(items[..|items| - 1], bound);
        if init.err.Some? then init
        else
          var e := ParseObject(Some(items[|items| - 1]));
          if e.err.Some? then Parsed(init.value, e.err)
          else Parsed(init.value + [e.value], None)
    }

    /** Parsing one (name, node) entry into a named definition. */
    function DefinitionStep(): Member -> Parsed<ObjectDefinition>
    {
      (m: Member) => var e := ParseObject(Some(m.value)); Parsed(ObjectDefinition(m.key, e.value), e.err)
    }

    /** DefinitionStep names the parse of an entry's node by the entry's key. */
    lemma DefinitionStepIs(m: Member, e: ObjectExpr, err: Option<Error>)
      requires Parsed(e, err) == ParseObject(Some(m.value))
      ensures DefinitionStep()(m) == Parsed(ObjectDefinition(m.key, e), err)
    {
    }

    /** Parsing one array item. */
    function ItemStep(): Json -> Parsed<ObjectExpr>
    {
      (x: Json) => ParseObject(Some(x))
    }

    /**
     * ParseObjects, as a function: the parser folded over the "definitions"
     * entries.  The definitions carry the entries' keys, in order; there is
     * one per entry exactly when no error is returned.
     */
    function Definitions(schema: Json): (r: Parsed<seq<ObjectDefinition>>)
      ensures var entries := Entries(Get(Some(schema), "definitions"));
        && |r.value| <= |entries|
        && (r.err.None? <==> |r.value| == |entries|)
        && forall j :: 0 <= j < |r.value| ==> r.value[j].name == entries[j].key
    {
      var entries := Entries(Get(Some(schema), "definitions"));
      DefinitionsNamed(entries);
      Collect(entries, DefinitionStep())
    }

    /** Folding DefinitionStep names each definition by its entry's key. */
    lemma DefinitionsNamed(entries: seq<Member>)
      ensures var r := Collect(entries, DefinitionStep());
        && |r.value| <= |entries|
        && (r.err.None? <==> |r.value| == |entries|)
        && forall j :: 0 <= j < |r.value| ==> r.value[j].name == entries[j].key
    {
      var r := Collect(entries, DefinitionStep());
      CollectStopsAtFirstFailure(entries, DefinitionStep());
      forall j | 0 <= j < |r.value| ensures r.value[j].name == entries[j].key {
        assert r.value[j] == DefinitionStep()(entries[j]).value;
      }
    }

    lemma {:induction false} PropertiesAreCollected(entries: seq<Member>, bound: nat)
      requires forall k :: 0 <= k < |entries| ==> Size(entries[k].value) < bound
      ensures ParseProperties(entries, bound) == Collect(entries, DefinitionStep())
    {
      if entries != [] {
        PropertiesAreCollected(entries[..|entries| - 1], bound);
      }
    }

    lemma {:induction false} ItemsAreCollected(items: seq<Json>, bound: nat)
      requires forall k :: 0 <= k < |items| ==> Size(items[k]) < bound
      ensures ParseItems(items, bound) == Collect(items, ItemStep())
    {
      if items != [] {
        ItemsAreCollected(items[..|items| - 1], bound);
      }
    }

    /** parseObjectExpression: the Go code's loops and early returns. */
    method ParseObjectExpression(node: Node) returns (expr: ObjectExpr, err: Option<Error>)
      ensures Parsed(expr, err) == ParseObject(node)
      decreases Weight(node), 3
    {
      expr, err := Empty, None;
      var desc := Get(node, "description");
      if Exists(desc) {
        expr := expr.(description := Some(Text(desc)));
      }
      var props;
      props, err := ParsePropertiesLoop(node, Entries(Get(node, "properties")));
      expr := expr.(properties := props);
      if err.Some? {
        return;
      }
      expr, err := ParseShapeSteps(node, expr);
    }

    /** The ForEach over "properties" with its captured error. */
    method ParsePropertiesLoop(node: Node, entries: seq<Member>)
      returns (props: seq<ObjectDefinition>, err: Option<Error>)
      requires forall m :: m in entries ==> Size(m.value) < Weight(node)
      ensures Parsed(props, err) == ParseProperties(entries, Weight(node))
      decreases Weight(node), 0
    {
      assert forall k :: 0 <= k < |entries| ==> Size(entries[k].value) < Weight(node) by {
        forall k | 0 <= k < |entries| ensures Size(entries[k].value) < Weight(node) {
          assert entries[k] in entries;
        }
      }
      PropertiesAreCollected(entries, Weight(node));
      props, err := [], None;
      var i := 0;
      while i < |entries|
        invariant i <= |entries|
        invariant Collect(entries[..i], DefinitionStep()) == Parsed(props, None)
      {
        var propExpr, propErr := ParseObjectExpression(Some(entries[i].value));
        DefinitionStepIs(entries[i], propExpr, propErr);
        CollectAdvance(entries, i, DefinitionStep(), props, Parsed(ObjectDefinition(entries[i].key, propExpr), propErr));
        if propErr.Some? {
          err := propErr;
          return;
        }
        props := props + [ObjectDefinition(entries[i].key, propExpr)];
        i := i + 1;
      }
      assert entries[..i] == entries;
    }

    /** The Go code after the properties loop. */
    method ParseShapeSteps(node: Node, start: ObjectExpr) returns (expr: ObjectExpr, err: Option<Error>)
      requires start.enum == [] && start.enumNames == []
      ensures Parsed(expr, err) == ParseShape(node, start)
      decreases Weight(node), 2
    {
      expr, err := start, None;
      var ref := Get(node, "$ref");
      if Exists(ref) {
        expr := expr.(tag := Ref, ref := Some(RefTo(Text(ref))));
        return;
      }

      var allOf := Get(node, "allOf");
      if IsArray(allOf) {
        expr, err := ParseItemsInto(node, Elements(allOf), expr, true);
        return;
      }

      var typ := Get(node, "type");
      if !Exists(typ) {
        return;
      }
      expr := expr.(typ := Text(typ));
      expr, err := ParseTypedSteps(node, expr);
    }

    /**
     * The allOf and oneOf loops: parse each item and append it to the
     * expression's AllOf (or OneOf) list, then set the tag.
     */
    method ParseItemsInto(node: Node, items: seq<Json>, start: ObjectExpr, toAllOf: bool)
      returns (expr: ObjectExpr, err: Option<Error>)
      requires forall x :: x in items ==> Size(x) < Weight(node)
      ensures var r := ParseItems(items, Weight(node));
        if toAllOf then
          Parsed(expr, err) == if r.err.Some? then Parsed(start.(allOf := r.value), r.err)
                               else Parsed(start.(tag := AllOf, allOf := r.value), None)
        else
          Parsed(expr, err) == if r.err.Some? then Parsed(start.(oneOf := r.value), r.err)
                               else Parsed(start.(tag := OneOf, oneOf := r.value), None)
      decreases Weight(node), 0
    {
      assert forall k :: 0 <= k < |items| ==> Size(items[k]) < Weight(node) by {
        forall k | 0 <= k < |items| ensures Size(items[k]) < Weight(node) {
          assert items[k] in items;
        }
      }
      ItemsAreCollected(items, Weight(node));
      var acc: seq<ObjectExpr> := [];
      err := None;
      var j := 0;
      while j < |items|
        invariant j <= |items|
        invariant Collect(items[..j], ItemStep()) == Parsed(acc, None)
      {
        var itemExpr, itemErr := ParseObjectExpression(Some(items[j]));
        CollectStep(items, j, ItemStep());
        if itemErr.Some? {
          err := itemErr;
          CollectKeepsFailure(items, j + 1, ItemStep());
          expr := if toAllOf then start.(allOf := acc) else start.(oneOf := acc);
          return;
        }
        acc := acc + [itemExpr];
        j := j + 1;
      }
      assert items[..j] == items;
      expr := if toAllOf then start.(tag := AllOf, allOf := acc) else start.(tag := OneOf, oneOf := acc);
    }

    /** The Go code for a node with a "type": the enum loop and the type switch. */
    method ParseTypedSteps(node: Node, start: ObjectExpr) returns (expr: ObjectExpr, err: Option<Error>)
      requires start.enum == [] && start.enumNames == []
      ensures Parsed(expr, err) == ParseTyped(node, start)
      decreases Weight(node), 1
    {
      expr, err := start, None;
      var typ := start.typ;
      if IsArray(Get(node, "enum")) {
        expr, err := ParseEnumSteps(node, expr);
        return;
      }

      if typ == "integer" || typ == "number" || typ == "string" || typ == "boolean" {
        expr := expr.(tag := Base);
      } else if typ == "object" {
        var oneOf := Get(node, "oneOf");
        if IsArray(oneOf) {
          expr, err := ParseItemsInto(node, Elements(oneOf), expr, false);
          return;
        }
      } else if typ == "array" {
        var items := Get(node, "items");
        if !Exists(items) {
          err := Some(ArrayWithoutItems);
          return;
        }
        var arrayType, parseErr := ParseObjectExpression(items);
        if parseErr.Some? {
          err := parseErr;
          return;
        }
        expr := expr.(tag := Array, arrayOf := Some(arrayType));
        return;
      }
    }

    /** ParseObjects: the ForEach over "definitions" with its captured error. */
    method ParseObjects(schema: Json) returns (defs: seq<ObjectDefinition>, err: Option<Error>)
      ensures Parsed(defs, err) == Definitions(schema)
    {
      var entries := Entries(Get(Some(schema), "definitions"));
      defs, err := [], None;
      var i := 0;
      while i < |entries|
        invariant i <= |entries|
        invariant Collect(entries[..i], DefinitionStep()) == Parsed(defs, None)
      {
        var expr, parseErr := ParseObjectExpression(Some(entries[i].value));
        DefinitionStepIs(entries[i], expr, parseErr);
        CollectAdvance(entries, i, DefinitionStep(), defs, Parsed(ObjectDefinition(entries[i].key, expr), parseErr));
        if parseErr.Some? {
          err := parseErr;
          return;
        }
        defs := defs + [ObjectDefinition(entries[i].key, expr)];
        i := i + 1;
      }
      assert entries[..i] == entries;
    }
  }

  /** A pointer waiting to be resolved, with the parser that captured it (Go: the Ref closure). */
  datatype Thunk = Thunk(owner: Parser, pointer: string)

  datatype ObjectExpr = ObjectExpr(
    tag: Tag,
    typ: string,
    description: Option<string>,
    ref: Option<Thunk>,
    properties: seq<ObjectDefinition>,
    allOf: seq<ObjectExpr>,
    oneOf: seq<ObjectExpr>,
    enum: seq<EnumValue>,
    enumNames: seq<string>,
    arrayOf: Option<ObjectExpr>)
  {
    /** Is: the expression's flag shares a bit with the flag of t. */
    predicate Is(t: Tag)
      ensures Is(t) <==> tag == t && t != Untagged
    {
      Bit(tag) & Bit(t) != 0
    }
  }

  datatype ObjectDefinition = ObjectDefinition(name: string, expr: ObjectExpr)

  /** The zero ObjectExpr. */
  const Empty: ObjectExpr := ObjectExpr(Untagged, "", None, None, [], [], [], [], [], None)

  /**
   * The "enum" branch of parseObjectExpression, for a node whose "enum" is
   * an array.  Only the tag and the two enum lists change; it fails exactly
   * when the declared type has no conversion and the array is not empty,
   * and then leaves the tag as it was.
   */
  function ParseEnum(node: Node, expr: ObjectExpr): (r: Parsed<ObjectExpr>)
    ensures r.value == expr.(tag := r.value.tag, enum := r.value.enum, enumNames := r.value.enumNames)
    ensures r.err.Some? <==> !EnumKind(expr.typ) && Elements(Get(node, "enum")) != []
    ensures r.err.Some? ==> r.err == Some(UnsupportedEnumType(expr.typ)) && r.value.tag == expr.tag
    ensures r.err.None? ==> r.value.tag == Enum && |r.value.enum| == |Elements(Get(node, "enum"))|
  {
    var values := EnumValues(expr.typ, Elements(Get(node, "enum")));
    if values.err.Some? then Parsed(expr.(enum := values.value), values.err)
    else
      var names := Get(node, "enumNames");
      var enumNames := if IsArray(names) then Texts(Elements(names)) else [];
      Parsed(expr.(tag := Enum, enum := values.value, enumNames := enumNames), None)
  }

  /** The enum loop of parseObjectExpression and its enumNames loop. */
  method ParseEnumSteps(node: Node, start: ObjectExpr) returns (expr: ObjectExpr, err: Option<Error>)
    requires start.enum == [] && start.enumNames == []
    ensures Parsed(expr, err) == ParseEnum(node, start)
  {
    var values;
    values, err := EnumLoop(start.typ, Elements(Get(node, "enum")));
    expr := start.(enum := values);
    if err.Some? {
      return;
    }
    var names := Get(node, "enumNames");
    if IsArray(names) {
      var enumNames := StringsOf(Elements(names));
      expr := expr.(enumNames := enumNames);
    }
    expr := expr.(tag := Enum);
  }

  /** The loop over the "enum" literals, switching on the declared type at every literal. */
  method EnumLoop(typ: string, items: seq<Json>) returns (values: seq<EnumValue>, err: Option<Error>)
    ensures Parsed(values, err) == EnumValues(typ, items)
  {
    values, err := [], None;
    var j := 0;
    while j < |items|
      invariant j <= |items|
      invariant j > 0 ==> EnumKind(typ)
      invariant |values| == j
      invariant forall k :: 0 <= k < j ==> EnumKind(typ) && values[k] == EnumValueOf(typ, items[k])
    {
      var item := Some(items[j]);
      if typ == "string" {
        values := values + [StringValue(Text(item))];
      } else if typ == "number" {
        values := values + [NumberValue(IntOf(item))];
      } else if typ == "integer" {
        values := values + [IntegerValue(IntOf(item))];
      } else {
        return values, Some(UnsupportedEnumType(typ));
      }
      j := j + 1;
    }
    if EnumKind(typ) {
      assert values == seq(|items|, k requires 0 <= k < |items| => EnumValueOf(typ, items[k]));
    }
  }

  /** The "description" of a node, when it has one. */
  function DescriptionOf(node: Node): (d: Option<string>)
    ensures d.Some? <==> Exists(Get(node, "description"))
  {
    var desc := Get(node, "description");
    if Exists(desc) then Some(Text(desc)) else None
  }

  /** NewParser: a parser over the given objects document. */
  function NewParser(objectsSchema: Json): (p: Parser)
    ensures p.objects == Some(objectsSchema)
  {
    Parser(Some(objectsSchema))
  }

  /** The scalar types of the type switch. */
  predicate IsBaseType(typ: string)
  {
    typ == "integer" || typ == "number" || typ == "string" || typ == "boolean"
  }

  /** The declared types for which enum literals are converted. */
  predicate EnumKind(typ: string)
  {
    typ == "string" || typ == "number" || typ == "integer"
  }

  /** One enum literal converted by the declared type (String(), Float() or Int()). */
  function EnumValueOf(typ: string, item: Json): (v: EnumValue)
    requires EnumKind(typ)
    ensures v.StringValue? <==> typ == "string"
    ensures v.NumberValue? <==> typ == "number"
    ensures v.IntegerValue? <==> typ == "integer"
  {
    if typ == "string" then StringValue(Text(Some(item)))
    else if typ == "number" then NumberValue(IntOf(Some(item)))
    else IntegerValue(IntOf(Some(item)))
  }

  /**
   * The enum loop: every literal converted by the declared type; under any
   * other declared type the first literal fails, so only an empty enum
   * array passes.
   */
  function EnumValues(typ: string, items: seq<Json>): (r: Parsed<seq<EnumValue>>)
    ensures r.err.None? <==> EnumKind(typ) || items == []
    ensures r.err.Some? ==> r.err == Some(UnsupportedEnumType(typ)) && r.value == []
    ensures r.err.None? ==> |r.value| == |items|
    ensures forall j :: 0 <= j < |r.value| ==> EnumKind(typ) && r.value[j] == EnumValueOf(typ, items[j])
  {
    if EnumKind(typ) then
      Parsed(seq(|items|, k requires 0 <= k < |items| => EnumValueOf(typ, items[k])), None)
    else if items == [] then Parsed([], None)
    else Parsed([], Some(UnsupportedEnumType(typ)))
  }
}
