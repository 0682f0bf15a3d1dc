/**
 * response.go: a response definition is the object expression found under
 * "properties.response", together with the strings of that node's
 * "required" array.
 */
module Responses {
  import opened Wrappers
  import opened Json
  import opened Outcomes
  import opened Objects

  datatype ResponseExpr = ResponseExpr(objectExpr: ObjectExpr, required: seq<string>)

  datatype ResponseDefinition = ResponseDefinition(name: string, expr: ResponseExpr)

  /** The zero ResponseExpr, which parseResponseExpression returns with its errors. */
  const EmptyResponse := ResponseExpr(Empty, [])

  /** The node at the gjson path "properties.response". */
  function ResponseNode(resp: Node): Node
  {
    Get(Get(resp, "properties"), "response")
  }

  /** parseResponseExpression, as a function; it has no depth parameter because depth is never read. */
  function ResponseOf(p: Parser, resp: Node): (r: Parsed<ResponseExpr>)
    ensures r.err.Some? <==> !Exists(ResponseNode(resp)) || p.ParseObject(ResponseNode(resp)).err.Some?
    ensures !Exists(ResponseNode(resp)) ==> r.err == Some(ResponseFieldMissing)
    ensures Exists(ResponseNode(resp)) ==> r.err == p.ParseObject(ResponseNode(resp)).err
    ensures r.err.Some? ==> r.value == EmptyResponse
    ensures r.err.None? ==> r.value.objectExpr == p.ParseObject(ResponseNode(resp)).value
    ensures r.err.None? ==>
      var items := Elements(Get(ResponseNode(resp), "required"));
      && |r.value.required| == |items|
      && forall k :: 0 <= k < |items| ==> r.value.required[k] == Text(Some(items[k]))
  {
    var node := ResponseNode(resp);
    if !Exists(node) then Parsed(EmptyResponse, Some(ResponseFieldMissing))
    else
      var obj := p.ParseObject(node);
      if obj.err.Some? then Parsed(EmptyResponse, obj.err)
      else Parsed(ResponseExpr(obj.value, Texts(Elements(Get(node, "required")))), None)
  }

  /** parseResponseExpression: the early returns and the loop over "required". */
  method ParseResponseExpression(p: Parser, resp: Node, depth: int) returns (expr: ResponseExpr, err: Option<Error>)
    ensures Parsed(expr, err) == ResponseOf(p, resp)
  {
    expr := EmptyResponse;
    var r := ResponseNode(resp);
    if !Exists(r) {
      return expr, Some(ResponseFieldMissing);
    }
    var objExpr;
    objExpr, err := p.ParseObjectExpression(r);
    if err.Some? {
      return;
    }
    var required := StringsOf(Elements(Get(r, "required")));
    expr := ResponseExpr(objExpr, required);
  }

  /** Parsing one (name, node) entry of "definitions" into a named response. */
  function ResponseStep(p: Parser): Member -> Parsed<ResponseDefinition>
  {
    (m: Member) => var e := ResponseOf(p, Some(m.value)); Parsed(ResponseDefinition(m.key, e.value), e.err)
  }

  /** ResponseStep names the parse of an entry's node by the entry's key. */
  lemma ResponseStepIs(p: Parser, m: Member, e: ResponseExpr, err: Option<Error>)
    requires Parsed(e, err) == ResponseOf(p, Some(m.value))
    ensures ResponseStep(p)(m) == Parsed(ResponseDefinition(m.key, e), err)
  {
  }

  /**
   * ParseResponses, as a function: the response parser folded over the
   * "definitions" entries.  The responses carry the entries' keys, in
   * order; there is one per entry exactly when no error is returned.
   */
  function Responses(p: Parser, schema: Json): (r: Parsed<seq<ResponseDefinition>>)
    ensures var entries := Entries(Get(Some(schema), "definitions"));
      && |r.value| <= |entries|
      && (r.err.None? <==> |r.value| == |entries|)
      && forall j :: 0 <= j < |r.value| ==> r.value[j].name == entries[j].key
  {
    var entries := Entries(Get(Some(schema), "definitions"));
    CollectStopsAtFirstFailure(entries, ResponseStep(p));
    Collect(entries, ResponseStep(p))
  }

  /** ParseResponses: the ForEach over "definitions" with its captured error. */
  method ParseResponses(p: Parser, schema: Json) returns (defs: seq<ResponseDefinition>, err: Option<Error>)
    ensures Parsed(defs, err) == Responses(p, schema)
  {
    var entries := Entries(Get(Some(schema), "definitions"));
    defs, err := [], None;
    var i := 0;
    while i < |entries|
      invariant i <= |entries|
      invariant Collect(entries[..i], ResponseStep(p)) == Parsed(defs, None)
    {
      var expr, parseErr := ParseResponseExpression(p, Some(entries[i].value), 0);
      ResponseStepIs(p, entries[i], expr, parseErr);
      CollectAdvance(entries, i, ResponseStep(p), defs, Parsed(ResponseDefinition(entries[i].key, expr), parseErr));
      if parseErr.Some? {
        err := parseErr;
        return;
      }
      defs := defs + [ResponseDefinition(entries[i].key, expr)];
      i := i + 1;
    }
    assert entries[..i] == entries;
  }

  /**
   * The "definitions" entries are parsed in document order, each named by
   * its key; the first failing entry ends the parse with its error and the
   * responses before it.
   */
  lemma ResponsesInOrder(p: Parser, schema: Json)
    ensures var entries := Entries(Get(Some(schema), "definitions"));
      var k := FirstFailure(entries, ResponseStep(p));
      var r := Responses(p, schema);
      && |r.value| == k
      && (forall j :: 0 <= j < k ==>
            r.value[j] == ResponseDefinition(entries[j].key, ResponseOf(p, Some(entries[j].value)).value))
      && (k < |entries| ==> r.err.Some? && r.err == ResponseOf(p, Some(entries[k].value)).err)
      && (k == |entries| ==> r.err == None)
  {
    var entries := Entries(Get(Some(schema), "definitions"));
    assert Responses(p, schema) == Collect(entries, ResponseStep(p));
    EntriesInOrder(p, entries);
  }

  /** The fold of ResponseStep keeps the responses before the first failure, named by their keys. */
  lemma EntriesInOrder(p: Parser, entries: seq<Member>)
    ensures var k := FirstFailure(entries, ResponseStep(p));
      var r := Collect(entries, ResponseStep(p));
      && |r.value| == k
      && (forall j :: 0 <= j < k ==>
            r.value[j] == ResponseDefinition(entries[j].key, ResponseOf(p, Some(entries[j].value)).value))
      && (k < |entries| ==> r.err.Some? && r.err == ResponseOf(p, Some(entries[k].value)).err)
      && (k == |entries| ==> r.err == None)
  {
    CollectStopsAtFirstFailure(entries, ResponseStep(p));
  }
}
