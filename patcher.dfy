/**
 * patcher.go: finding a struct type declaration by name in a parsed Go file
 * and replacing the type of one of its fields.
 *
 * The Go syntax tree is modelled by the parts the patcher reads: a file is a
 * list of declarations, a general declaration holds specs, a type spec
 * names a type, a struct type holds fields, and a field has its names, a
 * type expression and a tag.  Type expressions are kept as source text; the
 * Go expression parser is a parameter of the patcher that either yields an
 * expression or fails with a message.
 */
module Patching {
  import opened Wrappers

  datatype Expr = Expr(text: string)

  /** A struct field: no names when embedded, several in "a, b int". */
  datatype Field = Field(names: seq<string>, typ: Expr, tag: Option<string>)

  datatype TypeNode = StructType(fields: seq<Field>) | OtherType(expr: Expr)

  datatype Spec = TypeSpec(name: string, typ: TypeNode) | ValueSpec(names: seq<string>) | ImportSpec(path: string)

  datatype Decl = GenDecl(specs: seq<Spec>) | FuncDecl(name: string) | BadDecl

  /** What go/parser.ParseExpr does with a text: an expression, or a syntax error message. */
  type ExprParser = string -> Result<Expr, string>

  datatype Error =
    | NotStruct(name: string)
    | PatchFailed(cause: Error)
    | StructNotFound(name: string)
    | BadFieldName
    | FieldNotFound(name: string)
    | InvalidExpr(reason: string)
  {
    /** The text of the Go error. */
    function Message(): string
    {
      match this
      case NotStruct(name) => name + " is not struct type"
      case PatchFailed(cause) => "patch struct: " + cause.Message()
      case StructNotFound(name) => "struct with name " + name + " not found"
      case BadFieldName => "bad field name"
      case FieldNotFound(name) => "field with name " + name + " not found"
      case InvalidExpr(reason) => reason
    }
  }

  /** The only StructPatcher the source builds: ChangeField(name, to). */
  datatype StructPatcher = ChangeField(name: string, to: string)

  /** The declarations PatchStruct looks at: a general declaration with exactly one spec, a type spec of that name. */
  predicate IsCandidate(d: Decl, name: string)
  {
    d.GenDecl? && |d.specs| == 1 && d.specs[0].TypeSpec? && d.specs[0].name == name
  }

  /** The position of the first candidate, or |decls| when there is none. */
  function FirstCandidate(decls: seq<Decl>, name: string): (i: nat)
    ensures i <= |decls|
    ensures forall k :: 0 <= k < i ==> !IsCandidate(decls[k], name)
    ensures i < |decls| ==> IsCandidate(decls[i], name)
  {
    if decls == [] then 0
    else if IsCandidate(decls[0], name) then 0
    else 1 + FirstCandidate(decls[1..], name)
  }

  /** Where the field loop of ChangeField stops. */
  datatype Scan = FoundAt(index: nat) | BadFieldAt(index: nat) | NoField

  /** A field the loop accepts: exactly one name, which is not the wanted one. */
  predicate Skipped(f: Field, name: string)
  {
    |f.names| == 1 && f.names[0] != name
  }

  /** The field loop: the first field that has not exactly one name, or whose name is the wanted one. */
  function ScanFields(fields: seq<Field>, name: string): (s: Scan)
    ensures s.NoField? <==> forall k :: 0 <= k < |fields| ==> Skipped(fields[k], name)
    ensures s.FoundAt? ==> s.index < |fields| && fields[s.index].names == [name]
    ensures s.BadFieldAt? ==> s.index < |fields| && |fields[s.index].names| != 1
    ensures !s.NoField? ==> forall k :: 0 <= k < s.index ==> Skipped(fields[k], name)
  {
    if fields == [] then NoField
    else if |fields[0].names| != 1 then BadFieldAt(0)
    else if fields[0].names[0] == name then FoundAt(0)
    else match ScanFields(fields[1..], name)
      case FoundAt(j) => FoundAt(j + 1)
      case BadFieldAt(j) => BadFieldAt(j + 1)
      case NoField => NoField
  }

  /**
   * The closure ChangeField returns, applied to a struct's fields.  It
   * succeeds exactly when the new type parses and the loop finds the field;
   * then only that field's type changes, to the parsed expression.
   */
  function ChangedFields(fields: seq<Field>, patch: StructPatcher, parseExpr: ExprParser): (r: Result<seq<Field>, Error>)
    ensures r.Ok? <==> parseExpr(patch.to).Ok? && ScanFields(fields, patch.name).FoundAt?
    ensures r.Ok? ==> |r.value| == |fields|
    ensures r.Ok? ==> forall k :: 0 <= k < |fields| ==>
      r.value[k] == if k == ScanFields(fields, patch.name).index
                    then fields[k].(typ := parseExpr(patch.to).value) else fields[k]
  {
    match parseExpr(patch.to)
    case Err(reason) => Err(InvalidExpr(reason))
    case Ok(ex) =>
      match ScanFields(fields, patch.name)
      case FoundAt(j) => Ok(fields[j := fields[j].(typ := ex)])
      case BadFieldAt(_) => Err(BadFieldName)
      case NoField => Err(FieldNotFound(patch.name))
  }

  /**
   * PatchStruct, on the declarations: the new declarations, or the error.
   * On success only the first candidate changes, and it stays a candidate.
   */
  function Patched(decls: seq<Decl>, name: string, patch: StructPatcher, parseExpr: ExprParser): (r: Result<seq<Decl>, Error>)
    ensures r.Ok? ==> FirstCandidate(decls, name) < |decls| && |r.value| == |decls|
    ensures r.Ok? ==> forall k :: 0 <= k < |decls| && k != FirstCandidate(decls, name) ==> r.value[k] == decls[k]
    ensures r.Ok? ==> IsCandidate(r.value[FirstCandidate(decls, name)], name)
    ensures FirstCandidate(decls, name) == |decls| ==> r == Err(StructNotFound(name))
  {
    var i := FirstCandidate(decls, name);
    if i == |decls| then Err(StructNotFound(name))
    else
      match PatchedCandidate(decls[i], name, patch, parseExpr)
      case Err(e) => Err(e)
      case Ok(d) => Ok(decls[i := d])
  }

  /**
   * The patch applied to the candidate declaration itself: it must hold a
   * struct type, whose fields ChangeField rewrites; the result is again a
   * candidate of the same name.
   */
  function PatchedCandidate(d: Decl, name: string, patch: StructPatcher, parseExpr: ExprParser): (r: Result<Decl, Error>)
    requires IsCandidate(d, name)
    ensures r.Ok? ==> IsCandidate(r.value, name) && r.value.specs[0].typ.StructType?
    ensures r.Err? <==> d.specs[0].typ.OtherType? || ChangedFields(d.specs[0].typ.fields, patch, parseExpr).Err?
  {
    var spec := d.specs[0];
    match spec.typ
    case OtherType(_) => Err(NotStruct(name))
    case StructType(fields) =>
      match ChangedFields(fields, patch, parseExpr)
      case Err(e) => Err(PatchFailed(e))
      case Ok(changed) => Ok(d.(specs := [spec.(typ := StructType(changed))]))
  }

  /** The Patcher: the declarations of the parsed file, and the expression parser. */
  class Patcher {
    var decls: seq<Decl>
    const parseExpr: ExprParser

    constructor (decls: seq<Decl>, parseExpr: ExprParser)
      ensures this.decls == decls && this.parseExpr == parseExpr
    {
      this.decls := decls;
      this.parseExpr := parseExpr;
    }

    /**
     * PatchStruct: the loop over the declarations; the first candidate
     * decides.  The declarations change only on success.
     */
    method PatchStruct(name: string, patch: StructPatcher) returns (err: Option<Error>)
      modifies this
      ensures match Patched(old(decls), name, patch, parseExpr)
        case Ok(ds) => err == None && decls == ds
        case Err(e) => err == Some(e) && decls == old(decls)
    {
      var i := 0;
      while i < |decls|
        invariant i <= |decls|
        invariant forall k :: 0 <= k < i ==> !IsCandidate(decls[k], name)
        invariant decls == old(decls)
      {
        var decl := decls[i];
        if !IsCandidate(decl, name) {
          i := i + 1;
          continue;
        }
        assert FirstCandidate(decls, name) == i;
        var typeSpec := decl.specs[0];
        if !typeSpec.typ.StructType? {
          return Some(NotStruct(name));
        }
        var changed, patchErr := ApplyPatch(patch, typeSpec.typ.fields);
        if patchErr.Some? {
          return Some(PatchFailed(patchErr.value));
        }
        decls := decls[i := decl.(specs := [typeSpec.(typ := StructType(changed))])];
        return None;
      }
      return Some(StructNotFound(name));
    }

    /** The ChangeField closure: parse the new type, then the loop over the fields. */
    method ApplyPatch(patch: StructPatcher, fields: seq<Field>) returns (result: seq<Field>, err: Option<Error>)
      ensures err.None? ==> ChangedFields(fields, patch, parseExpr) == Ok(result)
      ensures err.Some? ==> ChangedFields(fields, patch, parseExpr) == Err(err.value) && result == fields
    {
      result := fields;
      var ex := parseExpr(patch.to);
      if ex.Err? {
        return result, Some(InvalidExpr(ex.error));
      }
      var i := 0;
      while i < |fields|
        invariant i <= |fields|
        invariant forall k :: 0 <= k < i ==> Skipped(fields[k], patch.name)
      {
        var field := fields[i];
        if |field.names| != 1 {
          assert ScanFields(fields, patch.name) == BadFieldAt(i) by {
            ScanStopsAt(fields, patch.name, i);
          }
          return result, Some(BadFieldName);
        }
        if field.names[0] != patch.name {
          i := i + 1;
          continue;
        }
        assert ScanFields(fields, patch.name) == FoundAt(i) by {
          ScanStopsAt(fields, patch.name, i);
        }
        result := fields[i := field.(typ := ex.value)];
        return result, None;
      }
      return result, Some(FieldNotFound(patch.name));
    }
  }

  /** The scan stops at the first field that is not skipped. */
  lemma {:induction false} ScanStopsAt(fields: seq<Field>, name: string, i: nat)
    requires i < |fields| && !Skipped(fields[i], name)
    requires forall k :: 0 <= k < i ==> Skipped(fields[k], name)
    ensures ScanFields(fields, name) == if |fields[i].names| != 1 then BadFieldAt(i) else FoundAt(i)
  {
    if i > 0 {
      ScanStopsAt(fields[1..], name, i - 1);
    }
  }
}
