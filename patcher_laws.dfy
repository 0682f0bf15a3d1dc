/**
 * What PatchStruct with a ChangeField patch promises: exactly one field of
 * exactly one declaration changes, and only its type; every failure is one
 * of five errors, each with a precise cause; declarations after the first
 * candidate are never examined; applying the same patch twice is the same
 * as applying it once.
 */
module PatcherLaws {
  import opened Wrappers
  import opened Patching

  /**
   * On success the first candidate declaration is the only one that
   * changes; in it the first field named `name` gets the parsed type, keeps
   * its names and tag, and every other field is unchanged.
   */
  lemma PatchIsolation(decls: seq<Decl>, name: string, patch: StructPatcher, parseExpr: ExprParser)
    requires Patched(decls, name, patch, parseExpr).Ok?
    ensures var ds := Patched(decls, name, patch, parseExpr).value;
      var i := FirstCandidate(decls, name);
      && i < |decls| && |ds| == |decls|
      && (forall k :: 0 <= k < |decls| && k != i ==> ds[k] == decls[k])
      && decls[i].specs[0].typ.StructType?
      && var before := decls[i].specs[0].typ.fields;
      && IsCandidate(ds[i], name) && ds[i].specs[0].typ.StructType?
      && var after := ds[i].specs[0].typ.fields;
      && |after| == |before|
      && exists j :: 0 <= j < |before|
           && before[j].names == [patch.name]
           && (forall k :: 0 <= k < j ==> Skipped(before[k], patch.name))
           && after[j] == before[j].(typ := parseExpr(patch.to).value)
           && parseExpr(patch.to).Ok?
           && (forall k :: 0 <= k < |before| && k != j ==> after[k] == before[k])
  {
    var i := FirstCandidate(decls, name);
    var before := decls[i].specs[0].typ.fields;
    var j := ScanFields(before, patch.name).index;
    assert before[j].names == [patch.name];
  }

  /**
   * Every failure, by cause: no candidate; a candidate that is not a
   * struct; a replacement type that does not parse (reported before any
   * field is looked at); a field without exactly one name reached before
   * the target; no field of that name.
   */
  lemma PatchErrors(decls: seq<Decl>, name: string, patch: StructPatcher, parseExpr: ExprParser)
    ensures var r := Patched(decls, name, patch, parseExpr);
      var i := FirstCandidate(decls, name);
      && (r == Err(StructNotFound(name)) <==> forall k :: 0 <= k < |decls| ==> !IsCandidate(decls[k], name))
      && (r == Err(NotStruct(name)) <==> i < |decls| && decls[i].specs[0].typ.OtherType?)
      && (i < |decls| && decls[i].specs[0].typ.StructType? ==>
            var fields := decls[i].specs[0].typ.fields;
            && (parseExpr(patch.to).Err? ==> r == Err(PatchFailed(InvalidExpr(parseExpr(patch.to).error))))
            && (parseExpr(patch.to).Ok? ==>
                  && (r == Err(PatchFailed(FieldNotFound(patch.name))) <==>
                        forall k :: 0 <= k < |fields| ==> Skipped(fields[k], patch.name))
                  && (r == Err(PatchFailed(BadFieldName)) <==>
                        exists k :: 0 <= k < |fields| && |fields[k].names| != 1 &&
                          forall m :: 0 <= m < k ==> Skipped(fields[m], patch.name))))
  {
    var i := FirstCandidate(decls, name);
    if i == |decls| {
    } else if i < |decls| && decls[i].specs[0].typ.StructType? && parseExpr(patch.to).Ok? {
      var fields := decls[i].specs[0].typ.fields;
      var s := ScanFields(fields, patch.name);
      if s.BadFieldAt? {
        assert |fields[s.index].names| != 1;
      }
      if exists k :: 0 <= k < |fields| && |fields[k].names| != 1 && forall m :: 0 <= m < k ==> Skipped(fields[m], patch.name) {
        var k :| 0 <= k < |fields| && |fields[k].names| != 1 && forall m :: 0 <= m < k ==> Skipped(fields[m], patch.name);
        ScanStopsAt(fields, patch.name, k);
      }
    }
  }

  /**
   * Declarations after the first candidate are never examined: appending
   * declarations changes neither the outcome nor the patched part.
   */
  lemma LaterDeclarationsIgnored(decls: seq<Decl>, extra: seq<Decl>, name: string, patch: StructPatcher, parseExpr: ExprParser)
    requires FirstCandidate(decls, name) < |decls|
    ensures var r, r' := Patched(decls, name, patch, parseExpr), Patched(decls + extra, name, patch, parseExpr);
      && (r.Err? ==> r' == r)
      && (r.Ok? ==> r' == Ok(r.value + extra))
  {
    CandidateOfPrefix(decls, extra, name);
    var i := FirstCandidate(decls, name);
    assert (decls + extra)[i] == decls[i];
    var c := PatchedCandidate(decls[i], name, patch, parseExpr);
    if c.Ok? {
      assert (decls + extra)[i := c.value] == decls[i := c.value] + extra;
    }
  }

  lemma {:induction false} CandidateOfPrefix(decls: seq<Decl>, extra: seq<Decl>, name: string)
    requires FirstCandidate(decls, name) < |decls|
    ensures FirstCandidate(decls + extra, name) == FirstCandidate(decls, name)
  {
    if !IsCandidate(decls[0], name) {
      assert (decls + extra)[1..] == decls[1..] + extra;
      CandidateOfPrefix(decls[1..], extra, name);
    }
  }

  /** The first candidate is found again after it was patched. */
  lemma {:induction false} CandidateKept(decls: seq<Decl>, name: string, i: nat, d: Decl)
    requires i == FirstCandidate(decls, name) && i < |decls| && IsCandidate(d, name)
    ensures FirstCandidate(decls[i := d], name) == i
  {
    if i > 0 {
      assert decls[i := d][1..] == decls[1..][i - 1 := d];
      CandidateKept(decls[1..], name, i - 1, d);
    }
  }

  /** Applying the same patch a second time changes nothing more. */
  lemma PatchIdempotent(decls: seq<Decl>, name: string, patch: StructPatcher, parseExpr: ExprParser)
    requires Patched(decls, name, patch, parseExpr).Ok?
    ensures var ds := Patched(decls, name, patch, parseExpr).value;
      Patched(ds, name, patch, parseExpr) == Ok(ds)
  {
    var ds := Patched(decls, name, patch, parseExpr).value;
    var i := FirstCandidate(decls, name);
    var before := decls[i].specs[0].typ.fields;
    var j := ScanFields(before, patch.name).index;
    CandidateKept(decls, name, i, ds[i]);
    var after := ds[i].specs[0].typ.fields;
    assert after == before[j := before[j].(typ := parseExpr(patch.to).value)];
    assert !Skipped(after[j], patch.name);
    ScanStopsAt(after, patch.name, j);
    assert after[j := after[j].(typ := parseExpr(patch.to).value)] == after;
    assert ds[i := ds[i].(specs := [ds[i].specs[0].(typ := StructType(after))])] == ds;
  }

  /**
   * Changing field X of a two-field struct from int to string leaves field
   * Y, the other declarations and the rest of field X as they were.
   */
  lemma ChangeOneOfTwoFields(parseExpr: ExprParser)
    requires parseExpr("string") == Ok(Expr("string"))
    ensures var x, y := Field(["X"], Expr("int"), None), Field(["Y"], Expr("int"), Some("json:\"y\""));
      var decls := [FuncDecl("init"), GenDecl([TypeSpec("Foo", StructType([x, y]))]), GenDecl([TypeSpec("Foo", OtherType(Expr("int")))])];
      Patched(decls, "Foo", ChangeField("X", "string"), parseExpr)
        == Ok([decls[0], GenDecl([TypeSpec("Foo", StructType([x.(typ := Expr("string")), y]))]), decls[2]])
  {
    var x, y := Field(["X"], Expr("int"), None), Field(["Y"], Expr("int"), Some("json:\"y\""));
    var decls := [FuncDecl("init"), GenDecl([TypeSpec("Foo", StructType([x, y]))]), GenDecl([TypeSpec("Foo", OtherType(Expr("int")))])];
    assert FirstCandidate(decls, "Foo") == 1 by {
      assert !IsCandidate(decls[0], "Foo") && IsCandidate(decls[1], "Foo");
      assert decls[1..][0] == decls[1];
    }
    assert ScanFields([x, y], "X") == FoundAt(0);
    var changed := [x, y][0 := x.(typ := Expr("string"))];
    assert changed == [x.(typ := Expr("string")), y];
    assert ChangedFields([x, y], ChangeField("X", "string"), parseExpr) == Ok(changed);
    var spec := TypeSpec("Foo", StructType([x, y]));
    var patched := GenDecl([TypeSpec("Foo", StructType(changed))]);
    assert decls[1].specs[0] == spec;
    assert decls[1].(specs := [spec.(typ := StructType(changed))]) == patched;
    assert Patched(decls, "Foo", ChangeField("X", "string"), parseExpr) == Ok(decls[1 := patched]);
    assert decls[1 := patched] == [decls[0], patched, decls[2]];
  }

  /**
   * A grouped declaration is never patched, even when it holds a struct of
   * that name.
   */
  lemma GroupedDeclarationSkipped(parseExpr: ExprParser)
    ensures var s := TypeSpec("Foo", StructType([Field(["X"], Expr("int"), None)]));
      Patched([GenDecl([s, s])], "Foo", ChangeField("X", "string"), parseExpr) == Err(StructNotFound("Foo"))
  {
  }
}
