/**
 * The specification of the flattener: the writes a depth-first walk of a
 * JSON tree makes into the configuration dictionary, and the effect of
 * making them.
 */
module Flattening {
  import opened Wrappers
  import opened Json
  import opened ConfigurationData

  /** Why flattening fails. */
  datatype ParseError =
    | DuplicateKey(key: string)  // a scalar met a key already present
    | NotAnObject                // the root handed to the flattener is not an object

  /**
   * One write into the dictionary: a scalar's rendered text, which is
   * checked against the keys present, or the null recorded for an empty
   * container, which is not.
   */
  datatype Write = Put(key: string, text: string) | SetNull(key: string)

  function WrittenValue(w: Write): Option<string>
  {
    match w
    case Put(_, text) => Some(text)
    case SetNull(_) => None
  }

  /** The full key of a child: its bare segment at top level, else the parent's key, `:` and the segment. */
  function Child(parent: Option<string>, segment: string): string
  {
    match parent
    case None => segment
    case Some(p) => p + KeyDelimiter + segment
  }

  function Digit(d: nat): char
    requires d < 10
  {
    ('0' as int + d) as char
  }

  /** The invariant-culture decimal text of an array index (its digits are stated by a lemma). */
  function Decimal(n: nat): (r: string)
    ensures |r| > 0
  {
    if n < 10 then [Digit(n)] else Decimal(n / 10) + [Digit(n % 10)]
  }

  /** The number a string denotes when read as decimal digits. */
  function DecimalValue(s: string): int
  {
    if s == [] then 0 else DecimalValue(s[..|s| - 1]) * 10 + (s[|s| - 1] as int - '0' as int)
  }

  /** The writes made while visiting `v` whose full key is `key`. */
  function Writes(key: string, v: Value): seq<Write>
    decreases v, 2, 0
  {
    match v
    case Object(_) => ObjectWrites(Some(key), v)
    case Array(_) => ArrayWrites(Some(key), v)
    case Scalar(_, text) => [Put(key, text)]
  }

  /**
   * The writes made while visiting an object whose key is `prefix` (None
   * for the root): its members in order, then a null for its own key if it
   * has no members and is not the root.
   */
  function ObjectWrites(prefix: Option<string>, v: Value): seq<Write>
    requires v.Object?
    decreases v, 1, 0
  {
    MemberWrites(prefix, v, |v.members|)
      + (if |v.members| == 0 && prefix.Some? then [SetNull(prefix.value)] else [])
  }

  /** The writes made by the first `n` members of an object. */
  function MemberWrites(prefix: Option<string>, v: Value, n: nat): seq<Write>
    requires v.Object? && n <= |v.members|
    decreases v, 0, n
  {
    if n == 0 then []
    else MemberWrites(prefix, v, n - 1) + Writes(Child(prefix, v.members[n - 1].0), v.members[n - 1].1)
  }

  /** The writes made while visiting an array: its elements in order, then a null if it is empty. */
  function ArrayWrites(prefix: Option<string>, v: Value): seq<Write>
    requires v.Array?
    decreases v, 1, 0
  {
    ElementWrites(prefix, v, |v.elements|)
      + (if |v.elements| == 0 && prefix.Some? then [SetNull(prefix.value)] else [])
  }

  /** The writes made by the first `n` elements of an array, element i keyed by its index. */
  function ElementWrites(prefix: Option<string>, v: Value, n: nat): seq<Write>
    requires v.Array? && n <= |v.elements|
    decreases v, 0, n
  {
    if n == 0 then []
    else ElementWrites(prefix, v, n - 1) + Writes(Child(prefix, Decimal(n - 1)), v.elements[n - 1])
  }

  /** One write: a scalar fails on a key already present; an empty container's null overwrites. */
  function Step(d: Dict, w: Write): (r: Result<Dict, ParseError>)
    ensures r.Failure? <==> w.Put? && ContainsKey(d, w.key)
    ensures r.Failure? ==> r.error == DuplicateKey(w.key)
    ensures r.Success? ==> r.value == Set(d, w.key, WrittenValue(w))
  {
    match w
    case Put(key, text) =>
      if ContainsKey(d, key) then Failure(DuplicateKey(key)) else Success(Set(d, key, Some(text)))
    case SetNull(key) => Success(Set(d, key, None))
  }

  /** The writes made in order, stopping at the first failure. */
  function Apply(d: Dict, ws: seq<Write>): Result<Dict, ParseError>
    decreases |ws|
  {
    if ws == [] then Success(d)
    else match Step(d, ws[0])
      case Failure(e) => Failure(e)
      case Success(d') => Apply(d', ws[1..])
  }

  /** Continue a partial result with more writes. */
  function Then(r: Result<Dict, ParseError>, ws: seq<Write>): Result<Dict, ParseError>
  {
    match r
    case Failure(e) => Failure(e)
    case Success(d) => Apply(d, ws)
  }

  /** The folded keys of a sequence of writes. */
  function FoldedKeys(ws: seq<Write>): set<string>
  {
    set w | w in ws :: Fold(w.key)
  }

  /** The whole flattener: the root must be an object, and gets no entry of its own. */
  function Flatten(root: Value): Result<Dict, ParseError>
  {
    if root.Object? then Apply(map[], ObjectWrites(None, root)) else Failure(NotAnObject)
  }

  /**
   * An independent description of what the flattened dictionary holds: the
   * path of segments `p` leads from `v` to a scalar, whose value is its
   * text, or to an empty object or array, whose value is null.
   */
  ghost predicate LeafValue(v: Value, p: seq<string>, value: Option<string>)
    decreases |p|
  {
    if p == [] then
      match v
      case Object(ms) => ms == [] && value == None
      case Array(es) => es == [] && value == None
      case Scalar(_, text) => value == Some(text)
    else match v
      case Object(ms) => exists i :: 0 <= i < |ms| && ms[i].0 == p[0] && LeafValue(ms[i].1, p[1..], value)
      case Array(es) => exists i :: 0 <= i < |es| && Decimal(i) == p[0] && LeafValue(es[i], p[1..], value)
      case Scalar(_, _) => false
  }

  /** What gets a key: a path that leads from `v` to a scalar or to an empty object or array. */
  ghost predicate IsLeafPath(v: Value, p: seq<string>)
  {
    exists value :: LeafValue(v, p, value)
  }

  /** The full key reached by following the segments `p` from the key `prefix`. */
  function Extend(prefix: Option<string>, p: seq<string>): (r: Option<string>)
    ensures prefix.Some? || p != [] ==> r.Some?
    decreases |p|
  {
    if p == [] then prefix else Extend(Some(Child(prefix, p[0])), p[1..])
  }
}
