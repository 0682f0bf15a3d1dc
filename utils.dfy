/**
 * String helpers: the parts of Go's strings package the schema package uses
 * (Index, LastIndex and ReplaceAll for a one-character pattern), splitting
 * and joining on a separator, and resolveReferenceName.
 */
module Utils {

  /** strings.Index(s, c): the first position of c in s, or -1. */
  function IndexOf(s: string, c: char): (i: int)
    ensures -1 <= i < |s|
    ensures i >= 0 ==> s[i] == c
    ensures forall k :: 0 <= k < |s| && (i < 0 || k < i) ==> s[k] != c
  {
    if s == [] then -1
    else if s[0] == c then 0
    else
      var i := IndexOf(s[1..], c);
      if i < 0 then -1 else i + 1
  }

  /** strings.LastIndex(s, c): the last position of c in s, or -1. */
  function LastIndexOf(s: string, c: char): (i: int)
    ensures -1 <= i < |s|
    ensures i >= 0 ==> s[i] == c
    ensures forall k :: i < k < |s| ==> s[k] != c
  {
    if s == [] then -1
    else if s[|s| - 1] == c then |s| - 1
    else LastIndexOf(s[..|s| - 1], c)
  }

  /** strings.ReplaceAll(s, from, to) for one-character strings. */
  function ReplaceAll(s: string, from: char, to: char): (r: string)
    ensures |r| == |s|
    ensures forall k :: 0 <= k < |s| ==> r[k] == if s[k] == from then to else s[k]
  {
    seq(|s|, k requires 0 <= k < |s| => if s[k] == from then to else s[k])
  }

  /** The parts joined with sep between consecutive parts. */
  function Join(parts: seq<string>, sep: char): string
  {
    if parts == [] then ""
    else if |parts| == 1 then parts[0]
    else parts[0] + [sep] + Join(parts[1..], sep)
  }

  /** s cut at every occurrence of sep; there is always at least one part. */
  function Split(s: string, sep: char): (parts: seq<string>)
    ensures |parts| >= 1
    ensures forall p :: p in parts ==> sep !in p
    ensures Join(parts, sep) == s
    decreases |s|
  {
    var i := IndexOf(s, sep);
    if i < 0 then [s]
    else
      var rest := Split(s[i + 1..], sep);
      assert s == s[..i] + [sep] + s[i + 1..];
      [s[..i]] + rest
  }

  /** Splitting undoes joining when no part contains the separator. */
  lemma {:induction false} SplitJoin(parts: seq<string>, sep: char)
    requires |parts| >= 1
    requires forall p :: p in parts ==> sep !in p
    ensures Split(Join(parts, sep), sep) == parts
  {
    if |parts| > 1 {
      var s := Join(parts, sep);
      assert s == parts[0] + [sep] + Join(parts[1..], sep);
      assert parts[0] in parts;
      assert s[..|parts[0]|] == parts[0];
      assert s[|parts[0]|] == sep;
      assert IndexOf(s, sep) == |parts[0]|;
      assert s[|parts[0]| + 1..] == Join(parts[1..], sep);
      SplitJoin(parts[1..], sep);
    } else {
      assert parts[0] in parts;
    }
  }

  /** Replacing the separator of a joined list replaces it between the parts only. */
  lemma {:induction false} ReplaceJoin(parts: seq<string>, from: char, to: char)
    requires forall p :: p in parts ==> from !in p
    ensures ReplaceAll(Join(parts, from), from, to) == Join(parts, to)
  {
    if |parts| > 1 {
      ReplaceJoin(parts[1..], from, to);
      var s, t := Join(parts, from), Join(parts, to);
      assert s == parts[0] + [from] + Join(parts[1..], from);
      assert t == parts[0] + [to] + Join(parts[1..], to);
      var n := |parts[0]|;
      assert parts[0] in parts;
      forall k | 0 <= k < |s| ensures ReplaceAll(s, from, to)[k] == t[k] {
        if k < n {
          assert s[k] == parts[0][k] && t[k] == parts[0][k];
        } else if k > n {
          assert s[k] == Join(parts[1..], from)[k - n - 1];
          assert t[k] == Join(parts[1..], to)[k - n - 1];
        }
      }
    } else if |parts| == 1 {
      assert parts[0] in parts;
    }
  }

  /** A joined list ends with its last part, after a separator when there are several parts. */
  lemma {:induction false} JoinLast(parts: seq<string>, sep: char)
    requires |parts| >= 2
    ensures Join(parts, sep) == Join(parts[..|parts| - 1], sep) + [sep] + parts[|parts| - 1]
  {
    if |parts| > 2 {
      JoinLast(parts[1..], sep);
      assert parts[1..][..|parts| - 2] == parts[..|parts| - 1][1..];
    }
  }

  /**
   * resolveReferenceName: the text after the last '/' of a pointer, or the
   * whole pointer when it has no '/'.
   */
  function ResolveReferenceName(refpath: string): (name: string)
    ensures '/' !in name
    ensures |name| <= |refpath| && refpath[|refpath| - |name|..] == name
    ensures '/' !in refpath ==> name == refpath
    ensures '/' in refpath ==> |name| < |refpath| && refpath[|refpath| - |name| - 1] == '/'
  {
    var objectNameIndex := LastIndexOf(refpath, '/');
    refpath[objectNameIndex + 1..]
  }

  /** The name of a pointer whose final segment has no '/' is that segment. */
  lemma NameOfLastSegment(prefix: string, last: string)
    requires '/' !in last
    ensures ResolveReferenceName(prefix + "/" + last) == last
  {
    var s := prefix + "/" + last;
    assert s[|prefix|] == '/';
    forall k | |prefix| < k < |s| ensures s[k] != '/' {
      assert s[k] == last[k - |prefix| - 1];
    }
    assert LastIndexOf(s, '/') == |prefix|;
    assert s[|prefix| + 1..] == last;
  }
}
