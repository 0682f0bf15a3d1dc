/**
 * JSON documents and the few gjson queries the schema package makes on them.
 * An object keeps its members in document order, so iteration follows the
 * document.  A lookup yields a Node: a value, or nothing when the key or path
 * does not exist (gjson reports a missing path as a result that does not
 * exist, never as an error).
 */
module Json {
  import opened Wrappers

  datatype Json =
    | Null
    | Bool(b: bool)
    | Num(n: int)
    | Str(s: string)
    | Arr(items: seq<Json>)
    | Obj(members: seq<Member>)

  datatype Member = Member(key: string, value: Json)

  /** A gjson.Result: a JSON value, or a result that does not exist. */
  type Node = Option<Json>

  // Sizes, used to show that the recursive descent terminates.

  function Size(j: Json): nat
  {
    match j
    case Arr(items) => 1 + ItemsSize(items)
    case Obj(members) => 1 + MembersSize(members)
    case _ => 1
  }

  function ItemsSize(items: seq<Json>): nat
  {
    if items == [] then 0 else Size(items[0]) + ItemsSize(items[1..])
  }

  function MembersSize(members: seq<Member>): nat
  {
    if members == [] then 0 else Size(members[0].value) + MembersSize(members[1..])
  }

  function Weight(n: Node): nat
  {
    if n.Some? then Size(n.value) else 0
  }

  lemma {:induction false} ItemBelow(items: seq<Json>, i: nat)
    requires i < |items|
    ensures Size(items[i]) <= ItemsSize(items)
  {
    if i > 0 { ItemBelow(items[1..], i - 1); }
  }

  lemma {:induction false} MemberBelow(members: seq<Member>, i: nat)
    requires i < |members|
    ensures Size(members[i].value) <= MembersSize(members)
  {
    if i > 0 { MemberBelow(members[1..], i - 1); }
  }

  // Lookups.

  /** The position of the first member with the given key, or |members| if there is none. */
  function KeyIndex(members: seq<Member>, key: string): (i: nat)
    ensures i <= |members|
    ensures i < |members| ==> members[i].key == key
    ensures forall j :: 0 <= j < i ==> members[j].key != key
  {
    if members == [] then 0
    else if members[0].key == key then 0
    else 1 + KeyIndex(members[1..], key)
  }

  /**
   * Get(n, key): the value of the first member named key when n is an object;
   * nothing otherwise (also when n itself does not exist).
   */
  function Get(n: Node, key: string): (r: Node)
    ensures r.Some? ==> Weight(r) < Weight(n)
    ensures r.Some? <==> n.Some? && n.value.Obj? && exists m :: m in n.value.members && m.key == key
  {
    if n.Some? && n.value.Obj? then
      var members := n.value.members;
      var i := KeyIndex(members, key);
      if i < |members| then
        MemberBelow(members, i);
        Some(members[i].value)
      else None
    else None
  }

  /** A path query: one Get per segment. */
  function GetPath(n: Node, path: seq<string>): Node
    decreases path
  {
    if path == [] then n else GetPath(Get(n, path[0]), path[1..])
  }

  predicate Exists(n: Node)
  {
    n.Some?
  }

  predicate IsArray(n: Node)
  {
    n.Some? && n.value.Arr?
  }

  /**
   * gjson's Array(): the items of an array; nothing for a null or a missing
   * node; a one-element list holding the node itself for any other value.
   */
  function Elements(n: Node): (r: seq<Json>)
    ensures forall x :: x in r ==> Size(x) <= Weight(n)
    ensures IsArray(n) ==> r == n.value.items
    ensures !Exists(n) ==> r == []
  {
    match n
    case None => []
    case Some(Null) => []
    case Some(Arr(items)) =>
      assert forall x :: x in items ==> Size(x) <= ItemsSize(items) by {
        forall x | x in items ensures Size(x) <= ItemsSize(items) {
          var i :| 0 <= i < |items| && items[i] == x;
          ItemBelow(items, i);
        }
      }
      items
    case Some(v) => [v]
  }

  /**
   * The (key, value) pairs gjson's ForEach visits: the members of an object
   * in order; the items of an array, each with an empty key; a scalar (null
   * included) once, with an empty key; nothing for a missing node.
   */
  function Entries(n: Node): (r: seq<Member>)
    ensures forall m :: m in r ==> Size(m.value) <= Weight(n)
    ensures n.Some? && n.value.Obj? ==> r == n.value.members
    ensures !Exists(n) ==> r == []
  {
    match n
    case None => []
    case Some(Obj(members)) =>
      assert forall m :: m in members ==> Size(m.value) <= MembersSize(members) by {
        forall m | m in members ensures Size(m.value) <= MembersSize(members) {
          var i :| 0 <= i < |members| && members[i] == m;
          MemberBelow(members, i);
        }
      }
      members
    case Some(Arr(items)) =>
      var r := seq(|items|, i requires 0 <= i < |items| => Member("", items[i]));
      assert forall m :: m in r ==> Size(m.value) <= ItemsSize(items) by {
        forall m | m in r ensures Size(m.value) <= ItemsSize(items) {
          var i :| 0 <= i < |r| && r[i] == m;
          ItemBelow(items, i);
        }
      }
      r
    case Some(v) => [Member("", v)]
  }

  // Conversions.

  /** Decimal digits of a natural number. */
  function Digits(n: nat): string
  {
    if n < 10 then [(48 + n) as char] else Digits(n / 10) + [(48 + n % 10) as char]
  }

  /** The decimal text of an integer, with a leading '-' when it is negative. */
  function Decimal(n: int): string
  {
    if n < 0 then "-" + Digits(-n) else Digits(n)
  }

  /** gjson's String(): the text of a string, the literal of a number or a boolean, "" otherwise. */
  function Text(n: Node): string
  {
    match n
    case Some(Str(s)) => s
    case Some(Num(k)) => Decimal(k)
    case Some(Bool(b)) => if b then "true" else "false"
    case _ => ""
  }

  /** The value of a string of decimal digits. */
  function DigitsValue(s: string): nat
    requires AllDigits(s)
  {
    if s == [] then 0 else 10 * DigitsValue(s[..|s| - 1]) + (s[|s| - 1] as int - 48)
  }

  predicate AllDigits(s: string)
  {
    forall i :: 0 <= i < |s| ==> '0' <= s[i] <= '9'
  }

  /** An optional '-' followed by at least one digit, as an integer; 0 for any other text. */
  function ParseInt(s: string): int
  {
    if |s| > 0 && s[0] == '-' then
      if |s| > 1 && AllDigits(s[1..]) then 0 - DigitsValue(s[1..]) else 0
    else if |s| > 0 && AllDigits(s) then DigitsValue(s)
    else 0
  }

  /** gjson's Int(): a number's value, 1 for true, a parsed string, 0 otherwise. */
  function IntOf(n: Node): int
  {
    match n
    case Some(Num(k)) => k
    case Some(Bool(b)) => if b then 1 else 0
    case Some(Str(s)) => ParseInt(s)
    case _ => 0
  }

  /** The String() of every element, in order. */
  function Texts(xs: seq<Json>): (r: seq<string>)
    ensures |r| == |xs|
    ensures forall k :: 0 <= k < |xs| ==> r[k] == Text(Some(xs[k]))
  {
    seq(|xs|, k requires 0 <= k < |xs| => Text(Some(xs[k])))
  }

  /** The loop that appends the String() of every element of an array, in order. */
  method StringsOf(items: seq<Json>) returns (strs: seq<string>)
    ensures strs == Texts(items)
  {
    strs := [];
    var i := 0;
    while i < |items|
      invariant i <= |items| && |strs| == i
      invariant forall k :: 0 <= k < i ==> strs[k] == Text(Some(items[k]))
    {
      strs := strs + [Text(Some(items[i]))];
      i := i + 1;
    }
  }
}
