/**
 * method.go: a method definition holds the method's name, description and
 * access token types, its parameters (each the object expression of the
 * whole parameter node, named by its "name"), and its responses (one
 * object definition per key of "responses").
 *
 * The Go code calls a package-level ParseObjectExpression that is not part
 * of this model; it is taken to be the object parser, passed in as `p`.
 */
module Methods {
  import opened Wrappers
  import opened Json
  import opened Outcomes
  import opened Objects

  datatype MethodParam = MethodParam(name: string, expr: ObjectExpr)

  datatype MethodDefinition = MethodDefinition(
    name: string,
    description: Option<string>,
    accessType: seq<string>,
    parameters: seq<MethodParam>,
    responses: seq<ObjectDefinition>)

  /** Parsing one parameter node: its "name", and the whole node as an object expression. */
  function ParamStep(p: Parser): Json -> Parsed<MethodParam>
  {
    (x: Json) => var e := p.ParseObject(Some(x)); Parsed(MethodParam(Text(Get(Some(x), "name")), e.value), e.err)
  }

  /**
   * ParseMethod, as a function: name, description and access types, then
   * the parameters up to the first failure, and only when all parameters
   * parse, the responses up to the first failure.
   */
  function MethodOf(p: Parser, node: Node): (r: Parsed<MethodDefinition>)
    ensures r.value.name == Text(Get(node, "name"))
    ensures r.value.description.Some? <==> Exists(Get(node, "description"))
    ensures r.value.description.Some? ==> r.value.description.value == Text(Get(node, "description"))
    ensures var access := Elements(Get(node, "access_token_type"));
      |r.value.accessType| == |access| &&
      forall k :: 0 <= k < |access| ==> r.value.accessType[k] == Text(Some(access[k]))
  {
    var head := MethodDefinition(
      Text(Get(node, "name")),
      DescriptionOf(node),
      Texts(Elements(Get(node, "access_token_type"))),
      [], []);
    var params := Collect(Elements(Get(node, "parameters")), ParamStep(p));
    if params.err.Some? then Parsed(head.(parameters := params.value), params.err)
    else
      var responses := Collect(Entries(Get(node, "responses")), p.DefinitionStep());
      Parsed(head.(parameters := params.value, responses := responses.value), responses.err)
  }

  /**
   * Parameters are parsed in order, each named by its "name"; the first
   * failing parameter ends the parse with its error before any response is
   * read.  Otherwise responses are parsed in document order, each named by
   * its key, and the first failing one ends the parse with its error.
   */
  lemma MethodParts(p: Parser, node: Node)
    ensures var params := Elements(Get(node, "parameters"));
      var entries := Entries(Get(node, "responses"));
      var k := FirstFailure(params, ParamStep(p));
      var n := FirstFailure(entries, p.DefinitionStep());
      var r := MethodOf(p, node);
      && |r.value.parameters| == k
      && (forall j :: 0 <= j < k ==>
            r.value.parameters[j] == MethodParam(Text(Get(Some(params[j]), "name")), p.ParseObject(Some(params[j])).value))
      && (k < |params| ==> r.err == p.ParseObject(Some(params[k])).err && r.err.Some? && r.value.responses == [])
      && (k == |params| ==>
            && |r.value.responses| == n
            && (forall j :: 0 <= j < n ==>
                  r.value.responses[j] == ObjectDefinition(entries[j].key, p.ParseObject(Some(entries[j].value)).value))
            && r.err == (if n < |entries| then p.ParseObject(Some(entries[n].value)).err else None))
  {
    CollectStopsAtFirstFailure(Elements(Get(node, "parameters")), ParamStep(p));
    CollectStopsAtFirstFailure(Entries(Get(node, "responses")), p.DefinitionStep());
  }

  /** ParseMethod: fields set one by one, then the loops over access types and parameters and the ForEach over responses. */
  method ParseMethod(p: Parser, node: Node) returns (mdef: MethodDefinition, err: Option<Error>)
    ensures Parsed(mdef, err) == MethodOf(p, node)
  {
    mdef := MethodDefinition(Text(Get(node, "name")), None, [], [], []);
    var desc := Get(node, "description");
    if Exists(desc) {
      mdef := mdef.(description := Some(Text(desc)));
    }
    var access := StringsOf(Elements(Get(node, "access_token_type")));
    mdef := mdef.(accessType := access);
    var params;
    params, err := ParseParameters(p, Elements(Get(node, "parameters")));
    mdef := mdef.(parameters := params);
    if err.Some? {
      return;
    }
    var responses;
    responses, err := ParseMethodResponses(p, Entries(Get(node, "responses")));
    mdef := mdef.(responses := responses);
  }

  /** The loop over "parameters", returning at the first error. */
  method ParseParameters(p: Parser, params: seq<Json>) returns (parsed: seq<MethodParam>, err: Option<Error>)
    ensures Parsed(parsed, err) == Collect(params, ParamStep(p))
  {
    parsed, err := [], None;
    var i := 0;
    while i < |params|
      invariant i <= |params|
      invariant Collect(params[..i], ParamStep(p)) == Parsed(parsed, None)
    {
      var paramExpr, paramErr := p.ParseObjectExpression(Some(params[i]));
      CollectStep(params, i, ParamStep(p));
      if paramErr.Some? {
        CollectKeepsFailure(params, i + 1, ParamStep(p));
        return parsed, paramErr;
      }
      parsed := parsed + [MethodParam(Text(Get(Some(params[i]), "name")), paramExpr)];
      i := i + 1;
    }
    assert params[..i] == params;
  }

  /** The ForEach over "responses" with its captured error. */
  method ParseMethodResponses(p: Parser, entries: seq<Member>) returns (parsed: seq<ObjectDefinition>, err: Option<Error>)
    ensures Parsed(parsed, err) == Collect(entries, p.DefinitionStep())
  {
    parsed, err := [], None;
    var j := 0;
    while j < |entries|
      invariant j <= |entries|
      invariant Collect(entries[..j], p.DefinitionStep()) == Parsed(parsed, None)
    {
      var expr, parseErr := p.ParseObjectExpression(Some(entries[j].value));
      CollectStep(entries, j, p.DefinitionStep());
      if parseErr.Some? {
        err := parseErr;
        CollectKeepsFailure(entries, j + 1, p.DefinitionStep());
        return;
      }
      parsed := parsed + [ObjectDefinition(entries[j].key, expr)];
      j := j + 1;
    }
    assert entries[..j] == entries;
  }

  /** Parsing one element of "methods". */
  function MethodStep(p: Parser): Json -> Parsed<MethodDefinition>
  {
    (x: Json) => MethodOf(p, Some(x))
  }

  /** ParseMethods, as a function: all methods in order, or no list at all with the first error. */
  function Methods(p: Parser, doc: Node): (r: Parsed<seq<MethodDefinition>>)
    ensures r.err.Some? ==> r.value == []
  {
    var all := Collect(Elements(Get(doc, "methods")), MethodStep(p));
    if all.err.Some? then Parsed([], all.err) else all
  }

  /**
   * Every element of "methods" gives one definition, in order; the first
   * failing element makes the whole result empty, with that element's error.
   */
  lemma MethodsAllOrNothing(p: Parser, doc: Node)
    ensures var items := Elements(Get(doc, "methods"));
      var k := FirstFailure(items, MethodStep(p));
      var r := Methods(p, doc);
      && (k == |items| ==>
            r.err == None && |r.value| == |items| &&
            forall j :: 0 <= j < |items| ==> r.value[j] == MethodOf(p, Some(items[j])).value)
      && (k < |items| ==> r.err.Some? && r.err == MethodOf(p, Some(items[k])).err && r.value == [])
  {
    CollectStopsAtFirstFailure(Elements(Get(doc, "methods")), MethodStep(p));
  }

  /** ParseMethods: the loop over "methods" with its early return of a nil list. */
  method ParseMethods(p: Parser, doc: Node) returns (defs: seq<MethodDefinition>, err: Option<Error>)
    ensures Parsed(defs, err) == Methods(p, doc)
  {
    var items := Elements(Get(doc, "methods"));
    defs, err := [], None;
    var i := 0;
    while i < |items|
      invariant i <= |items|
      invariant Collect(items[..i], MethodStep(p)) == Parsed(defs, None)
    {
      var def, methodErr := ParseMethod(p, Some(items[i]));
      MethodsStep(p, items, i, defs, def, methodErr);
      if methodErr.Some? {
        return [], methodErr;
      }
      defs := defs + [def];
      i := i + 1;
    }
    assert items[..i] == items;
  }

  /** One turn of the ParseMethods loop, in terms of the fold. */
  lemma MethodsStep(p: Parser, items: seq<Json>, i: nat, defs: seq<MethodDefinition>, def: MethodDefinition, methodErr: Option<Error>)
    requires i < |items|
    requires Collect(items[..i], MethodStep(p)) == Parsed(defs, None)
    requires Parsed(def, methodErr) == MethodOf(p, Some(items[i]))
    ensures methodErr.Some? ==> Collect(items, MethodStep(p)).err == methodErr
    ensures methodErr.None? ==> Collect(items[..i + 1], MethodStep(p)) == Parsed(defs + [def], None)
  {
    assert MethodStep(p)(items[i]) == Parsed(def, methodErr);
    CollectStep(items, i, MethodStep(p));
    if methodErr.Some? {
      CollectKeepsFailure(items, i + 1, MethodStep(p));
    }
  }
}
