/**
 * schema.go: recognising which of the three VK API schema documents a
 * parsed JSON value is.
 */
module Schema {
  import opened Json

  /** The SchemaType constants. */
  datatype SchemaType = MethodsSchema | ObjectsSchema | ResponsesSchema | UnknownSchema
  {
    /** The string value of the constant. */
    function Name(): (s: string)
      ensures s == "unknown" <==> this == UnknownSchema
    {
      match this
      case MethodsSchema => "methods.json"
      case ObjectsSchema => "objects.json"
      case ResponsesSchema => "responses.json"
      case UnknownSchema => "unknown"
    }
  }

  /** The four constants have four different values. */
  lemma NamesDiffer(a: SchemaType, b: SchemaType)
    requires a != b
    ensures a.Name() != b.Name()
  {
    assert "methods.json"[0] == 'm' && "objects.json"[0] == 'o' && "responses.json"[0] == 'r';
  }

  /**
   * DetectSchemaType: a "methods" array wins over any "title"; otherwise the
   * title "objects" or "responses" names the document; anything else is
   * unknown.
   */
  function DetectSchemaType(val: Node): (t: SchemaType)
    ensures t == MethodsSchema <==> IsArray(Get(val, "methods"))
    ensures t == ObjectsSchema <==>
      !IsArray(Get(val, "methods")) && Exists(Get(val, "title")) && Text(Get(val, "title")) == "objects"
    ensures t == ResponsesSchema <==>
      !IsArray(Get(val, "methods")) && Exists(Get(val, "title")) && Text(Get(val, "title")) == "responses"
  {
    var m := Get(val, "methods");
    if Exists(m) && IsArray(m) then MethodsSchema
    else
      var title := Get(val, "title");
      if Exists(title) && Text(title) == "objects" then ObjectsSchema
      else if Exists(title) && Text(title) == "responses" then ResponsesSchema
      else UnknownSchema
  }
}
