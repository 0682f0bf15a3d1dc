/**
 * What parseObjectExpression promises, rule by rule: description and
 * properties are read first, then exactly one shape is chosen by a fixed
 * precedence ("$ref", then "allOf", then "type" with "enum" ahead of the
 * type switch), errors stop the parse at the first failing element, and
 * every successful parse yields an expression whose tag agrees with the
 * fields it fills in.
 */
module ObjectLaws {
  import opened Wrappers
  import opened Json
  import opened Outcomes
  import opened Objects

  /** The "properties" of a node: one definition per entry, in order, up to the first failure. */
  function PropertiesOf(p: Parser, node: Node): Parsed<seq<ObjectDefinition>>
  {
    Collect(Entries(Get(node, "properties")), p.DefinitionStep())
  }

  /** The expression every shape starts from: the description and the properties. */
  function Start(p: Parser, node: Node): ObjectExpr
  {
    Empty.(description := DescriptionOf(node), properties := PropertiesOf(p, node).value)
  }

  /** parseObjectExpression reads the properties before anything else and stops on their error. */
  lemma Unfold(p: Parser, node: Node)
    ensures PropertiesOf(p, node).err.Some? ==>
      p.ParseObject(node) == Parsed(Start(p, node), PropertiesOf(p, node).err)
    ensures PropertiesOf(p, node).err.None? ==>
      p.ParseObject(node) == p.ParseShape(node, Start(p, node))
  {
    p.PropertiesAreCollected(Entries(Get(node, "properties")), Weight(node));
  }

  /**
   * Properties are parsed in document order, each named by its key; the
   * first property that fails ends the parse with that property's error,
   * keeping the properties before it.
   */
  lemma PropertiesFirst(p: Parser, node: Node)
    ensures var entries := Entries(Get(node, "properties"));
      var k := FirstFailure(entries, p.DefinitionStep());
      var r := p.ParseObject(node);
      && r.value.description == DescriptionOf(node)
      && |r.value.properties| == k
      && (forall j :: 0 <= j < k ==>
            r.value.properties[j] == ObjectDefinition(entries[j].key, p.ParseObject(Some(entries[j].value)).value))
      && (k < |entries| ==> r.err.Some? && r.err == p.ParseObject(Some(entries[k].value)).err)
  {
    var entries := Entries(Get(node, "properties"));
    Unfold(p, node);
    CollectStopsAtFirstFailure(entries, p.DefinitionStep());
  }

  /** A "$ref" decides the shape alone: "allOf", "type" and "enum" are not looked at. */
  lemma RefWins(p: Parser, node: Node)
    requires PropertiesOf(p, node).err.None?
    requires Exists(Get(node, "$ref"))
    ensures p.ParseObject(node)
         == Parsed(Start(p, node).(tag := Ref, ref := Some(p.RefTo(Text(Get(node, "$ref"))))), None)
  {
    Unfold(p, node);
  }

  /**
   * Without "$ref", an "allOf" array decides the shape and "type" is not
   * looked at: its items are parsed in order, and the first failing item
   * ends the parse with its error and without the AllOf tag.
   */
  lemma AllOfBeforeType(p: Parser, node: Node)
    requires PropertiesOf(p, node).err.None?
    requires !Exists(Get(node, "$ref")) && IsArray(Get(node, "allOf"))
    ensures var items := Elements(Get(node, "allOf"));
      var k := FirstFailure(items, p.ItemStep());
      var r := p.ParseObject(node);
      && r.value == Start(p, node).(tag := r.value.tag, allOf := r.value.allOf)
      && |r.value.allOf| == k
      && (forall j :: 0 <= j < k ==> r.value.allOf[j] == p.ParseObject(Some(items[j])).value)
      && (k < |items| ==> r.value.tag == Untagged && r.err == p.ParseObject(Some(items[k])).err)
      && (k == |items| ==> r.value.tag == AllOf && r.err == None)
  {
    Unfold(p, node);
    ItemsInOrder(p, Elements(Get(node, "allOf")), Weight(node));
  }

  /** The union items are parsed in order up to the first failing one, whose error is returned. */
  lemma ItemsInOrder(p: Parser, items: seq<Json>, bound: nat)
    requires forall k :: 0 <= k < |items| ==> Size(items[k]) < bound
    ensures var k := FirstFailure(items, p.ItemStep());
      var r := p.ParseItems(items, bound);
      && |r.value| == k
      && (forall j :: 0 <= j < k ==> r.value[j] == p.ParseObject(Some(items[j])).value)
      && r.err == if k < |items| then p.ParseObject(Some(items[k])).err else None
  {
    p.ItemsAreCollected(items, bound);
    CollectStopsAtFirstFailure(items, p.ItemStep());
  }

  /** Neither "$ref", nor an "allOf" array, nor a "type": only description and properties. */
  lemma NoTypeNoShape(p: Parser, node: Node)
    requires PropertiesOf(p, node).err.None?
    requires !Exists(Get(node, "$ref")) && !IsArray(Get(node, "allOf")) && !Exists(Get(node, "type"))
    ensures p.ParseObject(node) == Parsed(Start(p, node), None)
  {
    Unfold(p, node);
  }

  /**
   * A typed node with an "enum" array is an enumeration whatever its type:
   * the literals are converted by the declared type, and only "string",
   * "number" and "integer" are accepted for a non-empty list.
   */
  lemma EnumBeforeSwitch(p: Parser, node: Node)
    requires PropertiesOf(p, node).err.None?
    requires !Exists(Get(node, "$ref")) && !IsArray(Get(node, "allOf")) && Exists(Get(node, "type"))
    requires IsArray(Get(node, "enum"))
    ensures var typ := Text(Get(node, "type"));
      var items := Elements(Get(node, "enum"));
      var names := Get(node, "enumNames");
      var r := p.ParseObject(node);
      && r.value == Start(p, node).(typ := typ, tag := r.value.tag, enum := r.value.enum, enumNames := r.value.enumNames)
      && (r.err.Some? <==> !EnumKind(typ) && items != [])
      && (r.err.Some? ==> r.err == Some(UnsupportedEnumType(typ)) && r.value.tag == Untagged && r.value.enum == [])
      && (r.err.None? ==>
            && r.value.tag == Enum
            && |r.value.enum| == |items|
            && (forall j :: 0 <= j < |items| ==> EnumKind(typ) && r.value.enum[j] == EnumValueOf(typ, items[j]))
            && r.value.enumNames == if IsArray(names) then Texts(Elements(names)) else [])
  {
    Unfold(p, node);
    var typed := Start(p, node).(typ := Text(Get(node, "type")));
    assert p.ParseShape(node, Start(p, node)) == p.ParseTyped(node, typed);
    assert p.ParseObject(node) == ParseEnum(node, typed);
    EnumSteps(node, typed);
  }

  /** The enum step keeps everything but the tag and the two enum lists. */
  lemma EnumSteps(node: Node, expr: ObjectExpr)
    requires expr.enum == [] && expr.enumNames == [] && expr.tag == Untagged
    ensures var items := Elements(Get(node, "enum"));
      var names := Get(node, "enumNames");
      var r := ParseEnum(node, expr);
      && r.value == expr.(tag := r.value.tag, enum := r.value.enum, enumNames := r.value.enumNames)
      && (r.err.Some? <==> !EnumKind(expr.typ) && items != [])
      && (r.err.Some? ==> r.err == Some(UnsupportedEnumType(expr.typ)) && r.value.tag == Untagged && r.value.enum == [])
      && (r.err.None? ==>
            && r.value.tag == Enum
            && |r.value.enum| == |items|
            && (forall j :: 0 <= j < |items| ==> EnumKind(expr.typ) && r.value.enum[j] == EnumValueOf(expr.typ, items[j]))
            && r.value.enumNames == if IsArray(names) then Texts(Elements(names)) else [])
  {
  }

  /** The scalar types without an "enum" array are base expressions. */
  lemma BaseTypes(p: Parser, node: Node)
    requires PropertiesOf(p, node).err.None?
    requires !Exists(Get(node, "$ref")) && !IsArray(Get(node, "allOf")) && Exists(Get(node, "type"))
    requires !IsArray(Get(node, "enum")) && IsBaseType(Text(Get(node, "type")))
    ensures p.ParseObject(node) == Parsed(Start(p, node).(tag := Base, typ := Text(Get(node, "type"))), None)
  {
    Unfold(p, node);
  }

  /**
   * An "object" with a "oneOf" array is a union of its items, parsed in
   * order up to the first failure; without one it is a plain object.
   */
  lemma ObjectOneOf(p: Parser, node: Node)
    requires PropertiesOf(p, node).err.None?
    requires !Exists(Get(node, "$ref")) && !IsArray(Get(node, "allOf")) && Exists(Get(node, "type"))
    requires !IsArray(Get(node, "enum")) && Text(Get(node, "type")) == "object"
    ensures var items := Elements(Get(node, "oneOf"));
      var k := FirstFailure(items, p.ItemStep());
      var r := p.ParseObject(node);
      && r.value == Start(p, node).(typ := "object", tag := r.value.tag, oneOf := r.value.oneOf)
      && (!IsArray(Get(node, "oneOf")) ==> r == Parsed(Start(p, node).(typ := "object"), None))
      && (IsArray(Get(node, "oneOf")) ==>
            && |r.value.oneOf| == k
            && (forall j :: 0 <= j < k ==> r.value.oneOf[j] == p.ParseObject(Some(items[j])).value)
            && (k < |items| ==> r.value.tag == Untagged && r.err == p.ParseObject(Some(items[k])).err)
            && (k == |items| ==> r.value.tag == OneOf && r.err == None))
  {
    Unfold(p, node);
    var typed := Start(p, node).(typ := "object");
    assert p.ParseShape(node, Start(p, node)) == p.ParseTyped(node, typed);
    TypedObject(p, node, typed);
  }

  lemma TypedObject(p: Parser, node: Node, expr: ObjectExpr)
    requires !IsArray(Get(node, "enum")) && expr.typ == "object"
    ensures var items := Elements(Get(node, "oneOf"));
      var k := FirstFailure(items, p.ItemStep());
      var r := p.ParseTyped(node, expr);
      && r.value == expr.(tag := r.value.tag, oneOf := r.value.oneOf)
      && (!IsArray(Get(node, "oneOf")) ==> r == Parsed(expr, None))
      && (IsArray(Get(node, "oneOf")) ==>
            && |r.value.oneOf| == k
            && (forall j :: 0 <= j < k ==> r.value.oneOf[j] == p.ParseObject(Some(items[j])).value)
            && (k < |items| ==> r.value.tag == expr.tag && r.err == p.ParseObject(Some(items[k])).err)
            && (k == |items| ==> r.value.tag == OneOf && r.err == None))
  {
    if IsArray(Get(node, "oneOf")) {
      ItemsInOrder(p, Elements(Get(node, "oneOf")), Weight(node));
    }
  }

  /**
   * An "array" needs "items": without it the parse fails; with it the
   * element type is parsed, and its error, if any, is the array's error.
   */
  lemma ArrayNeedsItems(p: Parser, node: Node)
    requires PropertiesOf(p, node).err.None?
    requires !Exists(Get(node, "$ref")) && !IsArray(Get(node, "allOf")) && Exists(Get(node, "type"))
    requires !IsArray(Get(node, "enum")) && Text(Get(node, "type")) == "array"
    ensures var items := Get(node, "items");
      var r := p.ParseObject(node);
      && r.value == Start(p, node).(typ := "array", tag := r.value.tag, arrayOf := r.value.arrayOf)
      && (!Exists(items) ==> r.err == Some(ArrayWithoutItems))
      && (Exists(items) ==> r.err == p.ParseObject(items).err)
      && (r.err.Some? ==> r.value.tag == Untagged && r.value.arrayOf == None)
      && (r.err.None? ==> r.value.tag == Array && r.value.arrayOf == Some(p.ParseObject(items).value))
  {
    Unfold(p, node);
    var typed := Start(p, node).(typ := "array");
    assert p.ParseShape(node, Start(p, node)) == p.ParseTyped(node, typed);
    TypedArray(p, node, typed);
  }

  lemma TypedArray(p: Parser, node: Node, expr: ObjectExpr)
    requires !IsArray(Get(node, "enum")) && expr.typ == "array"
    ensures var items := Get(node, "items");
      var r := p.ParseTyped(node, expr);
      && r.value == expr.(tag := r.value.tag, arrayOf := r.value.arrayOf)
      && (!Exists(items) ==> r.err == Some(ArrayWithoutItems))
      && (Exists(items) ==> r.err == p.ParseObject(items).err)
      && (r.err.Some? ==> r.value == expr)
      && (r.err.None? ==> r.value.tag == Array && r.value.arrayOf == Some(p.ParseObject(items).value))
  {
  }

  /** Any other type is recorded, untagged, without error. */
  lemma OtherTypes(p: Parser, node: Node)
    requires PropertiesOf(p, node).err.None?
    requires !Exists(Get(node, "$ref")) && !IsArray(Get(node, "allOf")) && Exists(Get(node, "type"))
    requires var typ := Text(Get(node, "type"));
      !IsArray(Get(node, "enum")) && !IsBaseType(typ) && typ != "object" && typ != "array"
    ensures p.ParseObject(node) == Parsed(Start(p, node).(typ := Text(Get(node, "type"))), None)
  {
    Unfold(p, node);
  }

  /**
   * An expression whose tag agrees with its fields: a reference exactly for
   * Ref, an element type exactly for Array, union members only under their
   * own tag, enum literals only for Enum, and the same for every nested
   * expression.
   */
  ghost predicate WellFormed(e: ObjectExpr)
  {
    && (e.ref.Some? <==> e.tag == Ref)
    && (e.arrayOf.Some? <==> e.tag == Array)
    && (e.tag != AllOf ==> e.allOf == [])
    && (e.tag != OneOf ==> e.oneOf == [])
    && (e.tag != Enum ==> e.enum == [] && e.enumNames == [])
    && (e.tag == Ref || e.tag == AllOf ==> e.typ == "")
    && (e.tag == Base ==> IsBaseType(e.typ))
    && (e.tag == OneOf ==> e.typ == "object")
    && (e.tag == Array ==> e.typ == "array")
    && (forall j :: 0 <= j < |e.properties| ==> WellFormed(e.properties[j].expr))
    && (forall j :: 0 <= j < |e.allOf| ==> WellFormed(e.allOf[j]))
    && (forall j :: 0 <= j < |e.oneOf| ==> WellFormed(e.oneOf[j]))
    && (e.arrayOf.Some? ==> WellFormed(e.arrayOf.value))
  }

  /** Every expression parsed without error is well formed. */
  lemma {:induction false} ParsedIsWellFormed(p: Parser, node: Node)
    ensures p.ParseObject(node).err.None? ==> WellFormed(p.ParseObject(node).value)
    decreases Weight(node), 4
  {
    if p.ParseObject(node).err.None? {
      PropertiesWellFormed(p, node);
      ShapeWellFormed(p, node);
    }
  }

  /** The properties of an expression parsed without error are well formed. */
  lemma {:induction false} PropertiesWellFormed(p: Parser, node: Node)
    requires p.ParseObject(node).err.None?
    ensures var props := p.ParseObject(node).value.properties;
      forall j :: 0 <= j < |props| ==> WellFormed(props[j].expr)
    decreases Weight(node), 3
  {
    var r := p.ParseObject(node);
    var entries := Entries(Get(node, "properties"));
    PropertiesFirst(p, node);
    assert FirstFailure(entries, p.DefinitionStep()) == |entries|;
    forall j | 0 <= j < |r.value.properties| ensures WellFormed(r.value.properties[j].expr) {
      assert entries[j] in entries;
      ParsedIsWellFormed(p, Some(entries[j].value));
    }
  }

  /** With well-formed properties, the "$ref", "allOf" and missing-type shapes are well formed. */
  lemma {:induction false} ShapeWellFormed(p: Parser, node: Node)
    requires p.ParseObject(node).err.None?
    requires var props := p.ParseObject(node).value.properties;
      forall j :: 0 <= j < |props| ==> WellFormed(props[j].expr)
    ensures WellFormed(p.ParseObject(node).value)
    decreases Weight(node), 3
  {
    var r := p.ParseObject(node);
    Unfold(p, node);
    if Exists(Get(node, "$ref")) {
      RefWins(p, node);
    } else if IsArray(Get(node, "allOf")) {
      AllOfBeforeType(p, node);
      ItemsWellFormed(p, node, Elements(Get(node, "allOf")));
    } else if !Exists(Get(node, "type")) {
      NoTypeNoShape(p, node);
    } else {
      TypedWellFormed(p, node);
    }
  }

  /** With well-formed properties, every typed shape is well formed. */
  lemma {:induction false} TypedWellFormed(p: Parser, node: Node)
    requires p.ParseObject(node).err.None?
    requires var props := p.ParseObject(node).value.properties;
      forall j :: 0 <= j < |props| ==> WellFormed(props[j].expr)
    requires PropertiesOf(p, node).err.None?
    requires !Exists(Get(node, "$ref")) && !IsArray(Get(node, "allOf")) && Exists(Get(node, "type"))
    ensures WellFormed(p.ParseObject(node).value)
    decreases Weight(node), 2
  {
    var typ := Text(Get(node, "type"));
    if IsArray(Get(node, "enum")) {
      EnumBeforeSwitch(p, node);
    } else if IsBaseType(typ) {
      BaseTypes(p, node);
    } else if typ == "object" {
      OneOfWellFormed(p, node);
    } else if typ == "array" {
      ArrayWellFormed(p, node);
    } else {
      OtherTypes(p, node);
    }
  }

  /** An "object" parsed without error is well formed, its "oneOf" members included. */
  lemma {:induction false} OneOfWellFormed(p: Parser, node: Node)
    requires p.ParseObject(node).err.None?
    requires var props := p.ParseObject(node).value.properties;
      forall j :: 0 <= j < |props| ==> WellFormed(props[j].expr)
    requires PropertiesOf(p, node).err.None?
    requires !Exists(Get(node, "$ref")) && !IsArray(Get(node, "allOf")) && Exists(Get(node, "type"))
    requires !IsArray(Get(node, "enum")) && Text(Get(node, "type")) == "object"
    ensures WellFormed(p.ParseObject(node).value)
    decreases Weight(node), 1
  {
    var r := p.ParseObject(node).value;
    var items := Elements(Get(node, "oneOf"));
    ObjectOneOf(p, node);
    ItemsWellFormed(p, node, items);
    assert r == Start(p, node).(typ := "object", tag := r.tag, oneOf := r.oneOf);
    if IsArray(Get(node, "oneOf")) {
      assert forall j :: 0 <= j < |r.oneOf| ==> r.oneOf[j] == p.ParseObject(Some(items[j])).value;
    }
    MembersWellFormed(r);
  }

  /** A plain or oneOf expression without reference, element, allOf or enum parts is well formed when its members are. */
  lemma MembersWellFormed(e: ObjectExpr)
    requires e.ref.None? && e.arrayOf.None? && e.allOf == [] && e.enum == [] && e.enumNames == []
    requires (e.tag == Untagged && e.oneOf == []) || (e.tag == OneOf && e.typ == "object")
    requires forall j :: 0 <= j < |e.properties| ==> WellFormed(e.properties[j].expr)
    requires forall j :: 0 <= j < |e.oneOf| ==> WellFormed(e.oneOf[j])
    ensures WellFormed(e)
  {
  }

  /** The union items of a node that parse before the first failure are well formed. */
  lemma {:induction false} ItemsWellFormed(p: Parser, node: Node, items: seq<Json>)
    requires forall x :: x in items ==> Size(x) < Weight(node)
    ensures forall j :: 0 <= j < FirstFailure(items, p.ItemStep()) ==> WellFormed(p.ParseObject(Some(items[j])).value)
    decreases Weight(node), 0
  {
    var k := FirstFailure(items, p.ItemStep());
    forall j | 0 <= j < k ensures WellFormed(p.ParseObject(Some(items[j])).value) {
      assert items[j] in items;
      assert p.ItemStep()(items[j]).err.None?;
      ParsedIsWellFormed(p, Some(items[j]));
    }
  }

  /** An "array" parsed without error is well formed, its element type included. */
  lemma {:induction false} ArrayWellFormed(p: Parser, node: Node)
    requires p.ParseObject(node).err.None?
    requires var props := p.ParseObject(node).value.properties;
      forall j :: 0 <= j < |props| ==> WellFormed(props[j].expr)
    requires PropertiesOf(p, node).err.None?
    requires !Exists(Get(node, "$ref")) && !IsArray(Get(node, "allOf")) && Exists(Get(node, "type"))
    requires !IsArray(Get(node, "enum")) && Text(Get(node, "type")) == "array"
    ensures WellFormed(p.ParseObject(node).value)
    decreases Weight(node), 1
  {
    ArrayNeedsItems(p, node);
    ParsedIsWellFormed(p, Get(node, "items"));
  }

  /**
   * ParseObjects: the "definitions" entries are parsed in document order,
   * each named by its key; the first failing entry ends the parse with its
   * error and the definitions before it.
   */
  lemma DefinitionsInOrder(p: Parser, schema: Json)
    ensures var entries := Entries(Get(Some(schema), "definitions"));
      var k := FirstFailure(entries, p.DefinitionStep());
      var r := p.Definitions(schema);
      && |r.value| == k
      && (forall j :: 0 <= j < k ==>
            r.value[j] == ObjectDefinition(entries[j].key, p.ParseObject(Some(entries[j].value)).value))
      && (k < |entries| ==> r.err.Some? && r.err == p.ParseObject(Some(entries[k].value)).err)
      && (k == |entries| ==> r.err == None)
  {
    var entries := Entries(Get(Some(schema), "definitions"));
    assert p.Definitions(schema) == Collect(entries, p.DefinitionStep());
    EntriesInOrder(p, entries);
  }

  /** The fold of DefinitionStep keeps the definitions before the first failure, named by their keys. */
  lemma EntriesInOrder(p: Parser, entries: seq<Member>)
    ensures var k := FirstFailure(entries, p.DefinitionStep());
      var r := Collect(entries, p.DefinitionStep());
      && |r.value| == k
      && (forall j :: 0 <= j < k ==>
            r.value[j] == ObjectDefinition(entries[j].key, p.ParseObject(Some(entries[j].value)).value))
      && (k < |entries| ==> r.err.Some? && r.err == p.ParseObject(Some(entries[k].value)).err)
      && (k == |entries| ==> r.err == None)
  {
    CollectStopsAtFirstFailure(entries, p.DefinitionStep());
  }
}
