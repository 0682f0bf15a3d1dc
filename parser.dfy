/**
 * resolveReference: a pointer such as "objects.json#/definitions/Foo" is cut
 * into a file name, a lookup path and a final name, and then resolved by file:
 * an objects.json pointer re-parses the node it names in the parser's
 * objects document, a responses.json pointer yields a definition carrying
 * only the name, and any other file aborts (Go: panic).
 */
module References {
  import opened Wrappers
  import opened Json
  import opened Utils
  import opened Outcomes
  import opened Objects

  /** A pointer as resolveReference cuts it. */
  datatype Pointer = Pointer(file: string, path: seq<string>, name: string)

  /**
   * The slicing at the head of resolveReference.  The file name is the text
   * before the first '/' minus its last character (the '#'); the lookup path
   * is the text after the first '/', with each '/' turned into the '.' that
   * separates gjson path segments; the name is the text after the last '/'.
   * None when the first '/' is missing or at index 0: there the Go slice
   * refpath[:i-1] is out of range and panics.
   */
  function SplitPointer(refpath: string): (r: Option<Pointer>)
    ensures r.Some? <==> IndexOf(refpath, '/') >= 1
    ensures r.Some? ==>
      && '/' !in r.value.file
      && |r.value.file| + 1 < |refpath|
      && refpath[..|r.value.file|] == r.value.file
      && refpath[|r.value.file| + 1] == '/'
    ensures r.Some? ==> Join(r.value.path, '.') == ReplaceAll(refpath[IndexOf(refpath, '/') + 1..], '/', '.')
    ensures r.Some? ==> forall s :: s in r.value.path ==> '/' !in s && '.' !in s
    ensures r.Some? ==> r.value.name == ResolveReferenceName(refpath)
  {
    var filenamePrefixIndex := IndexOf(refpath, '/');
    if filenamePrefixIndex < 1 then None
    else
      var filename := refpath[..filenamePrefixIndex - 1];
      var objectNameIndex := LastIndexOf(refpath, '/');
      var objectName := refpath[objectNameIndex + 1..];
      var gjsonPath := ReplaceAll(refpath[filenamePrefixIndex + 1..], '/', '.');
      var path := Split(gjsonPath, '.');
      assert forall s :: s in path ==> '/' !in s by {
        forall s | s in path ensures '/' !in s {
          SegmentOfReplaced(refpath[filenamePrefixIndex + 1..], path, s);
        }
      }
      assert forall k :: 0 <= k < |filename| ==> filename[k] == refpath[k];
      Some(Pointer(filename, path, objectName))
  }

  /** A part of the '.'-split of a text whose '/' were all replaced holds no '/'. */
  lemma SegmentOfReplaced(text: string, parts: seq<string>, s: string)
    requires parts == Split(ReplaceAll(text, '/', '.'), '.')
    requires s in parts
    ensures '/' !in s
  {
    var replaced := ReplaceAll(text, '/', '.');
    assert '/' !in replaced by {
      forall k | 0 <= k < |replaced| ensures replaced[k] != '/' { }
    }
    SegmentsOfJoin(parts, '.', s);
  }

  /** Every part of a list is a piece of the list's join. */
  lemma {:induction false} SegmentsOfJoin(parts: seq<string>, sep: char, s: string)
    requires s in parts
    ensures forall c :: c in s ==> c in Join(parts, sep)
  {
    if |parts| > 1 && s != parts[0] {
      SegmentsOfJoin(parts[1..], sep, s);
      var tail := Join(parts[1..], sep);
      assert Join(parts, sep) == parts[0] + [sep] + tail;
      forall c | c in s ensures c in Join(parts, sep) {
        var k :| 0 <= k < |tail| && tail[k] == c;
        assert Join(parts, sep)[|parts[0]| + 1 + k] == c;
      }
    }
  }

  /**
   * Pointers of the form `file#/definitions/Name`, generalised to a file
   * name, one marker character, '/', and '/'-separated segments without '.',
   * are cut back into exactly that file name, those segments and the last
   * segment as the name.
   */
  lemma PointerRoundTrip(file: string, marker: char, segments: seq<string>)
    requires '/' !in file && marker != '/'
    requires |segments| >= 1
    requires forall s :: s in segments ==> '/' !in s && '.' !in s
    ensures SplitPointer(file + [marker] + "/" + Join(segments, '/'))
         == Some(Pointer(file, segments, segments[|segments| - 1]))
  {
    var head := file + [marker];
    var rest := Join(segments, '/');
    var refpath := head + "/" + rest;
    FirstSlash(head, rest);
    assert refpath[..|head| - 1] == file;
    assert refpath[|head| + 1..] == rest;
    ReplaceJoin(segments, '/', '.');
    SplitJoin(segments, '.');
    NameOfJoinedSegments(head, segments);
  }

  /** The first '/' of head + "/" + rest is the one after head when head has none. */
  lemma FirstSlash(head: string, rest: string)
    requires '/' !in head
    ensures IndexOf(head + "/" + rest, '/') == |head|
  {
    var s := head + "/" + rest;
    assert s[|head|] == '/';
    forall k | 0 <= k < |head| ensures s[k] != '/' {
      assert s[k] == head[k];
    }
  }

  /** The name of head + "/" + the '/'-join of segments is the last segment. */
  lemma NameOfJoinedSegments(head: string, segments: seq<string>)
    requires |segments| >= 1
    requires forall s :: s in segments ==> '/' !in s
    ensures ResolveReferenceName(head + "/" + Join(segments, '/')) == segments[|segments| - 1]
  {
    var last := segments[|segments| - 1];
    assert last in segments;
    var joined := Join(segments, '/');
    SlashJoinEndsWithLast(segments);
    SlashSuffixExtends(head, "/" + joined, last);
    assert head + ("/" + joined) == head + "/" + joined;
    NameOfSuffix(head + "/" + joined, last);
  }

  /** '/' followed by the '/'-join of segments ends with '/' and the last segment. */
  lemma SlashJoinEndsWithLast(segments: seq<string>)
    requires |segments| >= 1
    ensures EndsWithSegment("/" + Join(segments, '/'), segments[|segments| - 1])
  {
    var joined := Join(segments, '/');
    if |segments| == 1 {
      assert joined == segments[0];
      assert ("/" + joined)[1..] == joined;
    } else {
      JoinEndsWithSegment(segments);
      SlashSuffixExtends("/", joined, segments[|segments| - 1]);
    }
  }

  /** A '/'-join of several segments ends with '/' and the last segment. */
  lemma JoinEndsWithSegment(segments: seq<string>)
    requires |segments| >= 2
    ensures EndsWithSegment(Join(segments, '/'), segments[|segments| - 1])
  {
    JoinEndsWithLast(segments, '/');
  }

  /** s ends with '/' followed by last. */
  predicate EndsWithSegment(s: string, last: string)
  {
    |last| < |s| && s[|s| - |last| - 1] == '/' && s[|s| - |last|..] == last
  }

  /** Putting text in front keeps the final segment. */
  lemma SlashSuffixExtends(x: string, s: string, last: string)
    requires EndsWithSegment(s, last)
    ensures EndsWithSegment(x + s, last)
  {
    var t := x + s;
    assert t[|t| - |last| - 1] == s[|s| - |last| - 1];
    assert t[|t| - |last|..] == s[|s| - |last|..];
  }

  /** The '/'-join of segments ends with the last one, after a '/' when there are several. */
  lemma {:induction false} JoinEndsWithLast(segments: seq<string>, sep: char)
    requires |segments| >= 1
    ensures var j, last := Join(segments, sep), segments[|segments| - 1];
      && |last| <= |j| && j[|j| - |last|..] == last
      && (|segments| >= 2 ==> |last| < |j| && j[|j| - |last| - 1] == sep)
  {
    if |segments| >= 2 {
      JoinLast(segments, sep);
    }
  }

  /** A text ending in '/' + last, where last has no '/', is named last. */
  lemma NameOfSuffix(s: string, last: string)
    requires '/' !in last
    requires EndsWithSegment(s, last)
    ensures ResolveReferenceName(s) == last
  {
    forall k | |s| - |last| <= k < |s| ensures s[k] != '/' {
      assert s[k] == last[k - (|s| - |last|)];
    }
    assert LastIndexOf(s, '/') == |s| - |last| - 1;
  }

  /** The file names resolveReference accepts. */
  predicate KnownFile(file: string)
  {
    file == "objects.json" || file == "responses.json"
  }

  /**
   * resolveReference.  The result is the Go pair (definition, error), or a
   * panic for a malformed pointer or an unsupported file.
   */
  function ResolveReference(p: Parser, refpath: string): (r: Outcome<Parsed<ObjectDefinition>>)
    ensures r.OutOfFuel? == false
    ensures r.Panic? <==> IndexOf(refpath, '/') < 1 || !KnownFile(refpath[..IndexOf(refpath, '/') - 1])
    ensures r.Return? ==> r.value.value.name == ResolveReferenceName(refpath)
  {
    match SplitPointer(refpath)
    case None => Panic("slice bounds out of range")
    case Some(ptr) =>
      if ptr.file == "objects.json" then
        var expr := p.ParseObject(GetPath(p.objects, ptr.path));
        Return(Parsed(ObjectDefinition(ptr.name, expr.value), expr.err))
      else if ptr.file == "responses.json" then
        Return(Parsed(ObjectDefinition(ptr.name, Empty), None))
      else
        Panic("unsupported resolving file: " + ptr.file)
  }

  /** The two known file names hold no '/' and differ. */
  lemma FileNames()
    ensures '/' !in "objects.json" && '/' !in "responses.json"
    ensures "objects.json" != "responses.json"
  {
    assert "objects.json"[0] != "responses.json"[0];
  }

  /**
   * An objects.json pointer yields the parse of the node at its path in the
   * objects document, named by its last segment, with the parse error.
   */
  lemma ResolveObjectsPointer(p: Parser, marker: char, segments: seq<string>)
    requires marker != '/' && |segments| >= 1
    requires forall s :: s in segments ==> '/' !in s && '.' !in s
    ensures var e := p.ParseObject(GetPath(p.objects, segments));
      ResolveReference(p, "objects.json" + [marker] + "/" + Join(segments, '/'))
        == Return(Parsed(ObjectDefinition(segments[|segments| - 1], e.value), e.err))
  {
    var refpath := "objects.json" + [marker] + "/" + Join(segments, '/');
    FileNames();
    PointerParts("objects.json", marker, segments);
    ReplaceJoin(segments, '/', '.');
    SplitJoin(segments, '.');
    ObjectsFile(p, refpath, segments);
  }

  /** Any pointer into objects.json resolves to the parse of the node at its path. */
  lemma ObjectsFile(p: Parser, refpath: string, segments: seq<string>)
    requires IndexOf(refpath, '/') >= 1
    requires refpath[..IndexOf(refpath, '/') - 1] == "objects.json"
    requires Split(ReplaceAll(refpath[IndexOf(refpath, '/') + 1..], '/', '.'), '.') == segments
    ensures var e := p.ParseObject(GetPath(p.objects, segments));
      ResolveReference(p, refpath) == Return(Parsed(ObjectDefinition(ResolveReferenceName(refpath), e.value), e.err))
  {
  }

  /**
   * A responses.json pointer yields the empty expression under the
   * pointer's last segment, with no error, whatever the parser holds; the
   * segments may hold '.', since this branch never reads the path.
   */
  lemma ResolveResponsesPointer(p: Parser, marker: char, segments: seq<string>)
    requires marker != '/' && |segments| >= 1
    requires forall s :: s in segments ==> '/' !in s
    ensures ResolveReference(p, "responses.json" + [marker] + "/" + Join(segments, '/'))
         == Return(Parsed(ObjectDefinition(segments[|segments| - 1], Empty), None))
  {
    var refpath := "responses.json" + [marker] + "/" + Join(segments, '/');
    FileNames();
    PointerParts("responses.json", marker, segments);
    ResponsesFile(p, refpath);
  }

  /** The file name and the name resolveReference cuts from a pointer built of parts. */
  lemma PointerParts(file: string, marker: char, segments: seq<string>)
    requires '/' !in file && marker != '/' && |segments| >= 1
    requires forall s :: s in segments ==> '/' !in s
    ensures var refpath := file + [marker] + "/" + Join(segments, '/');
      && IndexOf(refpath, '/') == |file| + 1
      && refpath[..IndexOf(refpath, '/') - 1] == file
      && ResolveReferenceName(refpath) == segments[|segments| - 1]
      && refpath[IndexOf(refpath, '/') + 1..] == Join(segments, '/')
  {
    var head := file + [marker];
    var refpath := head + "/" + Join(segments, '/');
    FirstSlash(head, Join(segments, '/'));
    NameOfJoinedSegments(head, segments);
    assert refpath[..|head| - 1] == file;
  }

  /** Any pointer into responses.json resolves to its name alone. */
  lemma ResponsesFile(p: Parser, refpath: string)
    requires IndexOf(refpath, '/') >= 1
    requires refpath[..IndexOf(refpath, '/') - 1] == "responses.json"
    ensures ResolveReference(p, refpath)
         == Return(Parsed(ObjectDefinition(ResolveReferenceName(refpath), Empty), None))
  {
    FileNames();
  }
}
