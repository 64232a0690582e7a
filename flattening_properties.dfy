/** What the flattener's specification guarantees. */
module FlatteningProperties {
  import opened Wrappers
  import opened Json
  import opened ConfigurationData
  import opened Flattening

  // ---- Array index segments ----

  /** An index segment is made only of decimal digits. */
  lemma {:induction false} DecimalDigits(n: nat)
    ensures forall i :: 0 <= i < |Decimal(n)| ==> '0' <= Decimal(n)[i] <= '9'
  {
    if n >= 10 {
      DecimalDigits(n / 10);
    }
  }

  /** An index segment has no leading zero: only index 0 is written "0". */
  lemma {:induction false} DecimalNoLeadingZero(n: nat)
    ensures Decimal(n)[0] == '0' <==> n == 0
  {
    if n >= 10 {
      DecimalNoLeadingZero(n / 10);
      assert Decimal(n)[0] == Decimal(n / 10)[0];
    }
  }

  /** Index segments read back as the index: distinct elements get distinct segments. */
  lemma {:induction false} DecimalRoundTrip(n: nat)
    ensures DecimalValue(Decimal(n)) == n
  {
    if n >= 10 {
      var s := Decimal(n);
      assert s[..|s| - 1] == Decimal(n / 10);
      DecimalRoundTrip(n / 10);
    }
  }

  // ---- Applying writes ----

  /** Making `a` then `b` is making `a + b`. */
  lemma {:induction false} ApplyAppend(d: Dict, a: seq<Write>, b: seq<Write>)
    ensures Apply(d, a + b) == Then(Apply(d, a), b)
    decreases |a|
  {
    if a == [] {
      assert a + b == b;
    } else {
      assert (a + b)[0] == a[0];
      assert (a + b)[1..] == a[1..] + b;
      match Step(d, a[0])
      case Failure(_) =>
      case Success(d') => ApplyAppend(d', a[1..], b);
    }
  }

  /** A failure among the first writes is the failure of the whole. */
  lemma ApplyPrefixFailure(d: Dict, a: seq<Write>, b: seq<Write>)
    requires a <= b && Apply(d, a).Failure?
    ensures Apply(d, b) == Apply(d, a)
  {
    assert b == a + b[|a|..];
    ApplyAppend(d, a, b[|a|..]);
  }

  lemma FoldedKeysCons(ws: seq<Write>)
    requires ws != []
    ensures FoldedKeys(ws) == {Fold(ws[0].key)} + FoldedKeys(ws[1..])
  {
  }

  /** On success, the keys present are those present before plus the folded key of every write. */
  lemma {:induction false} ApplyKeys(d: Dict, ws: seq<Write>, r: Dict)
    requires Apply(d, ws) == Success(r)
    ensures r.Keys == d.Keys + FoldedKeys(ws)
    decreases |ws|
  {
    if ws != [] {
      var d' := Step(d, ws[0]).value;
      ApplyKeys(d', ws[1..], r);
      FoldedKeysCons(ws);
    }
  }

  /** Keys no write touches keep their entries. */
  lemma {:induction false} ApplyFrame(d: Dict, ws: seq<Write>, r: Dict, f: string)
    requires Apply(d, ws) == Success(r) && f !in FoldedKeys(ws)
    ensures f in r <==> f in d
    ensures f in d ==> r[f] == d[f]
    decreases |ws|
  {
    if ws != [] {
      FoldedKeysCons(ws);
      ApplyFrame(Step(d, ws[0]).value, ws[1..], r, f);
    }
  }

  /** On success, a key holds the value of the last write to it. */
  lemma {:induction false} ApplyLastWriteWins(d: Dict, ws: seq<Write>, r: Dict, j: int)
    requires Apply(d, ws) == Success(r) && 0 <= j < |ws|
    requires forall i :: j < i < |ws| ==> Fold(ws[i].key) != Fold(ws[j].key)
    ensures Fold(ws[j].key) in r && r[Fold(ws[j].key)].value == WrittenValue(ws[j])
    decreases |ws|
  {
    var d' := Step(d, ws[0]).value;
    if j == 0 {
      var rest := ws[1..];
      forall w | w in rest ensures Fold(w.key) != Fold(ws[0].key) {
        var i :| 0 <= i < |rest| && rest[i] == w;
        assert ws[i + 1] == w;
      }
      ApplyFrame(d', rest, r, Fold(ws[0].key));
    } else {
      ApplyLastWriteWins(d', ws[1..], r, j - 1);
    }
  }

  /** On success, every entry is filed under the fold of the key it stores. */
  lemma {:induction false} ApplyValid(d: Dict, ws: seq<Write>, r: Dict)
    requires Valid(d) && Apply(d, ws) == Success(r)
    ensures Valid(r)
    decreases |ws|
  {
    if ws != [] {
      ApplyValid(Step(d, ws[0]).value, ws[1..], r);
    }
  }

  /**
   * Write `j` fails: it is a scalar whose key, ignoring case, is already in
   * the dictionary or was written by an earlier write.
   */
  ghost predicate Clashes(d: Dict, ws: seq<Write>, j: int)
    requires 0 <= j < |ws|
  {
    ws[j].Put? && (Fold(ws[j].key) in d || exists i :: 0 <= i < j && Fold(ws[i].key) == Fold(ws[j].key))
  }

  /**
   * After a first write that does not fail, write `j` clashes exactly when
   * it clashes among the remaining writes against the updated dictionary.
   */
  lemma ClashShift(d: Dict, ws: seq<Write>, j: int)
    requires 1 <= j < |ws| && Step(d, ws[0]).Success?
    ensures Clashes(d, ws, j) <==> Clashes(Step(d, ws[0]).value, ws[1..], j - 1)
  {
  }

  /** Applying writes fails exactly when some scalar write meets its key already present. */
  lemma {:induction false} ApplyFailsIffClash(d: Dict, ws: seq<Write>)
    ensures Apply(d, ws).Failure? <==> exists j :: 0 <= j < |ws| && Clashes(d, ws, j)
    decreases |ws|
  {
    if ws != [] {
      if Step(d, ws[0]).Failure? {
        assert Clashes(d, ws, 0);
      } else {
        var d', rest := Step(d, ws[0]).value, ws[1..];
        ApplyFailsIffClash(d', rest);
        assert !Clashes(d, ws, 0);
        if exists j :: 0 <= j < |ws| && Clashes(d, ws, j) {
          var j :| 0 <= j < |ws| && Clashes(d, ws, j);
          ClashShift(d, ws, j);
        }
        if exists j :: 0 <= j < |rest| && Clashes(d', rest, j) {
          var j :| 0 <= j < |rest| && Clashes(d', rest, j);
          ClashShift(d, ws, j + 1);
        }
      }
    }
  }

  /** A failure names the key of a scalar write that clashes. */
  lemma {:induction false} ApplyFailureNamesClash(d: Dict, ws: seq<Write>, e: ParseError)
    requires Apply(d, ws) == Failure(e)
    ensures exists j :: 0 <= j < |ws| && Clashes(d, ws, j) && e == DuplicateKey(ws[j].key)
    decreases |ws|
  {
    if Step(d, ws[0]).Failure? {
      assert Clashes(d, ws, 0);
    } else {
      ApplyFailureNamesClash(Step(d, ws[0]).value, ws[1..], e);
      var j :| 0 <= j < |ws| - 1 && Clashes(Step(d, ws[0]).value, ws[1..], j) && e == DuplicateKey(ws[1..][j].key);
      ClashShift(d, ws, j + 1);
    }
  }

  /** Among the writes from `j` on to the key of write `j`, ignoring case, there is a last one. */
  lemma {:induction false} LastWriteTo(ws: seq<Write>, j: int)
    requires 0 <= j < |ws|
    ensures exists k ::
              j <= k < |ws| && Fold(ws[k].key) == Fold(ws[j].key)
              && forall i :: k < i < |ws| ==> Fold(ws[i].key) != Fold(ws[j].key)
    decreases |ws| - j
  {
    if exists i :: j < i < |ws| && Fold(ws[i].key) == Fold(ws[j].key) {
      var i :| j < i < |ws| && Fold(ws[i].key) == Fold(ws[j].key);
      LastWriteTo(ws, i);
    } else {
      assert forall i :: j < i < |ws| ==> Fold(ws[i].key) != Fold(ws[j].key);
    }
  }

  /** On success, every later write to a key already written, ignoring case, is a null. */
  lemma OnlyNullsFollow(d: Dict, ws: seq<Write>, r: Dict, i: int, k: int)
    requires Apply(d, ws) == Success(r) && 0 <= i < k < |ws| && Fold(ws[i].key) == Fold(ws[k].key)
    ensures ws[k].SetNull?
  {
    ApplyFailsIffClash(d, ws);
    if ws[k].Put? {
      assert Clashes(d, ws, k);
    }
  }

  // ---- Write prefixes (used by the imperative parser) ----

  lemma {:induction false} MemberWritesPrefix(prefix: Option<string>, v: Value, m: nat, n: nat)
    requires v.Object? && m <= n <= |v.members|
    ensures MemberWrites(prefix, v, m) <= MemberWrites(prefix, v, n)
    decreases n
  {
    if m < n {
      MemberWritesPrefix(prefix, v, m, n - 1);
    }
  }

  lemma {:induction false} ElementWritesPrefix(prefix: Option<string>, v: Value, m: nat, n: nat)
    requires v.Array? && m <= n <= |v.elements|
    ensures ElementWrites(prefix, v, m) <= ElementWrites(prefix, v, n)
    decreases n
  {
    if m < n {
      ElementWritesPrefix(prefix, v, m, n - 1);
    }
  }

  // ---- Key structure ----

  /**
   * Following segments from a key gives that key itself or a key that
   * starts with it and the delimiter.
   */
  lemma {:induction false} ExtendKeepsPrefix(key: string, p: seq<string>)
    ensures Extend(Some(key), p).value == key || key + KeyDelimiter <= Extend(Some(key), p).value
    decreases |p|
  {
    if p != [] {
      var child := Child(Some(key), p[0]);
      ExtendKeepsPrefix(child, p[1..]);
      assert key + KeyDelimiter <= child;
    }
  }

  // ---- Every write is at a leaf path and writes its value (soundness) ----

  lemma {:induction false} WritesSound(key: string, v: Value, w: Write)
    requires w in Writes(key, v)
    ensures exists p :: LeafValue(v, p, WrittenValue(w)) && Extend(Some(key), p) == Some(w.key)
    decreases v, 2, 0
  {
    match v
    case Object(_) => ObjectWritesSound(Some(key), v, w);
    case Array(_) => ArrayWritesSound(Some(key), v, w);
    case Scalar(_, _) => assert LeafValue(v, [], WrittenValue(w));
  }

  lemma {:induction false} ObjectWritesSound(prefix: Option<string>, v: Value, w: Write)
    requires v.Object? && w in ObjectWrites(prefix, v)
    ensures exists p :: LeafValue(v, p, WrittenValue(w)) && (prefix.Some? || p != []) && Extend(prefix, p) == Some(w.key)
    decreases v, 1, 0
  {
    if w in MemberWrites(prefix, v, |v.members|) {
      MemberWritesSound(prefix, v, |v.members|, w);
    } else {
      assert v == Object([]) && w == SetNull(prefix.value);
      assert LeafValue(v, [], WrittenValue(w));
    }
  }

  lemma {:induction false} MemberWritesSound(prefix: Option<string>, v: Value, n: nat, w: Write)
    requires v.Object? && n <= |v.members| && w in MemberWrites(prefix, v, n)
    ensures exists p :: LeafValue(v, p, WrittenValue(w)) && p != [] && Extend(prefix, p) == Some(w.key)
    decreases v, 0, n
  {
    var (name, child) := v.members[n - 1];
    if w in MemberWrites(prefix, v, n - 1) {
      MemberWritesSound(prefix, v, n - 1, w);
    } else {
      var key := Child(prefix, name);
      WritesSound(key, child, w);
      var q :| LeafValue(child, q, WrittenValue(w)) && Extend(Some(key), q) == Some(w.key);
      var p := [name] + q;
      assert p[0] == name && p[1..] == q;
      assert v.members[n - 1].0 == p[0] && LeafValue(v.members[n - 1].1, p[1..], WrittenValue(w));
      assert LeafValue(v, p, WrittenValue(w));
    }
  }

  lemma {:induction false} ArrayWritesSound(prefix: Option<string>, v: Value, w: Write)
    requires v.Array? && w in ArrayWrites(prefix, v)
    ensures exists p :: LeafValue(v, p, WrittenValue(w)) && (prefix.Some? || p != []) && Extend(prefix, p) == Some(w.key)
    decreases v, 1, 0
  {
    if w in ElementWrites(prefix, v, |v.elements|) {
      ElementWritesSound(prefix, v, |v.elements|, w);
    } else {
      assert v == Array([]) && w == SetNull(prefix.value);
      assert LeafValue(v, [], WrittenValue(w));
    }
  }

  lemma {:induction false} ElementWritesSound(prefix: Option<string>, v: Value, n: nat, w: Write)
    requires v.Array? && n <= |v.elements| && w in ElementWrites(prefix, v, n)
    ensures exists p :: LeafValue(v, p, WrittenValue(w)) && p != [] && Extend(prefix, p) == Some(w.key)
    decreases v, 0, n
  {
    var child := v.elements[n - 1];
    if w in ElementWrites(prefix, v, n - 1) {
      ElementWritesSound(prefix, v, n - 1, w);
    } else {
      var key := Child(prefix, Decimal(n - 1));
      WritesSound(key, child, w);
      var q :| LeafValue(child, q, WrittenValue(w)) && Extend(Some(key), q) == Some(w.key);
      var p := [Decimal(n - 1)] + q;
      assert p[0] == Decimal(n - 1) && p[1..] == q;
      assert LeafValue(v.elements[n - 1], p[1..], WrittenValue(w));
      assert LeafValue(v, p, WrittenValue(w));
    }
  }

  // ---- Every leaf is written with its value (completeness) ----

  lemma {:induction false} WritesComplete(key: string, v: Value, p: seq<string>, value: Option<string>)
    requires LeafValue(v, p, value)
    ensures exists w :: w in Writes(key, v) && Extend(Some(key), p) == Some(w.key) && WrittenValue(w) == value
    decreases v, 2, 0
  {
    match v
    case Object(_) => ObjectWritesComplete(Some(key), v, p, value);
    case Array(_) => ArrayWritesComplete(Some(key), v, p, value);
    case Scalar(_, text) => assert Put(key, text) in Writes(key, v);
  }

  lemma {:induction false} ObjectWritesComplete(prefix: Option<string>, v: Value, p: seq<string>, value: Option<string>)
    requires v.Object? && LeafValue(v, p, value) && (prefix.Some? || p != [])
    ensures exists w :: w in ObjectWrites(prefix, v) && Extend(prefix, p) == Some(w.key) && WrittenValue(w) == value
    decreases v, 1, 0
  {
    if p == [] {
      assert SetNull(prefix.value) in ObjectWrites(prefix, v);
    } else {
      var i :| 0 <= i < |v.members| && v.members[i].0 == p[0] && LeafValue(v.members[i].1, p[1..], value);
      MemberWritesComplete(prefix, v, |v.members|, i, p[1..], value);
    }
  }

  lemma {:induction false} MemberWritesComplete(prefix: Option<string>, v: Value, n: nat, i: nat, q: seq<string>, value: Option<string>)
    requires v.Object? && i < n <= |v.members| && LeafValue(v.members[i].1, q, value)
    ensures exists w ::
              w in MemberWrites(prefix, v, n) && Extend(Some(Child(prefix, v.members[i].0)), q) == Some(w.key)
              && WrittenValue(w) == value
    decreases v, 0, n
  {
    if i < n - 1 {
      MemberWritesComplete(prefix, v, n - 1, i, q, value);
    } else {
      WritesComplete(Child(prefix, v.members[i].0), v.members[i].1, q, value);
    }
  }

  lemma {:induction false} ArrayWritesComplete(prefix: Option<string>, v: Value, p: seq<string>, value: Option<string>)
    requires v.Array? && LeafValue(v, p, value) && (prefix.Some? || p != [])
    ensures exists w :: w in ArrayWrites(prefix, v) && Extend(prefix, p) == Some(w.key) && WrittenValue(w) == value
    decreases v, 1, 0
  {
    if p == [] {
      assert SetNull(prefix.value) in ArrayWrites(prefix, v);
    } else {
      var i :| 0 <= i < |v.elements| && Decimal(i) == p[0] && LeafValue(v.elements[i], p[1..], value);
      ElementWritesComplete(prefix, v, |v.elements|, i, p[1..], value);
    }
  }

  lemma {:induction false} ElementWritesComplete(prefix: Option<string>, v: Value, n: nat, i: nat, q: seq<string>, value: Option<string>)
    requires v.Array? && i < n <= |v.elements| && LeafValue(v.elements[i], q, value)
    ensures exists w ::
              w in ElementWrites(prefix, v, n) && Extend(Some(Child(prefix, Decimal(i))), q) == Some(w.key)
              && WrittenValue(w) == value
    decreases v, 0, n
  {
    if i < n - 1 {
      ElementWritesComplete(prefix, v, n - 1, i, q, value);
    } else {
      WritesComplete(Child(prefix, Decimal(i)), v.elements[i], q, value);
    }
  }

  // ---- The flattener as a whole ----

  /** A root object with no members flattens to the empty map: the root never gets an entry. */
  lemma FlattenEmptyRoot()
    ensures Flatten(Object([])) == Success(map[])
  {
  }

  /** On success, every key of the map is the folded full key of a non-root path ending at a leaf. */
  lemma FlattenKeysSound(root: Value, r: Dict, f: string)
    requires Flatten(root) == Success(r) && f in r
    ensures exists p :: p != [] && IsLeafPath(root, p) && Fold(Extend(None, p).value) == f
  {
    var ws := ObjectWrites(None, root);
    ApplyKeys(map[], ws, r);
    assert f in FoldedKeys(ws);
    var w :| w in ws && Fold(w.key) == f;
    ObjectWritesSound(None, root, w);
    var p :| LeafValue(root, p, WrittenValue(w)) && p != [] && Extend(None, p) == Some(w.key);
    assert IsLeafPath(root, p) && Fold(Extend(None, p).value) == f;
  }

  /** On success, the folded full key of every non-root path ending at a leaf is in the map. */
  lemma FlattenKeysComplete(root: Value, r: Dict, p: seq<string>)
    requires Flatten(root) == Success(r) && p != [] && IsLeafPath(root, p)
    ensures Fold(Extend(None, p).value) in r
  {
    var ws := ObjectWrites(None, root);
    ApplyKeys(map[], ws, r);
    var value :| LeafValue(root, p, value);
    ObjectWritesComplete(None, root, p, value);
    var w :| w in ws && Extend(None, p) == Some(w.key);
    assert Fold(w.key) in FoldedKeys(ws);
  }

  /** `f` is the folded full key of some non-root path of `root` that ends at a leaf. */
  ghost predicate IsLeafKey(root: Value, f: string)
  {
    exists p :: p != [] && IsLeafPath(root, p) && Fold(Extend(None, p).value) == f
  }

  /**
   * On success, the key set of the map is exactly the set of folded full
   * keys of the non-root paths that end at a scalar or an empty container.
   */
  lemma FlattenKeys(root: Value, r: Dict)
    requires Flatten(root) == Success(r)
    ensures forall f :: f in r <==> IsLeafKey(root, f)
  {
    forall f ensures f in r <==> IsLeafKey(root, f) {
      if f in r {
        FlattenKeysSound(root, r, f);
      }
      if IsLeafKey(root, f) {
        var p :| p != [] && IsLeafPath(root, p) && Fold(Extend(None, p).value) == f;
        FlattenKeysComplete(root, r, p);
      }
    }
  }

  /** On success, every entry stores a key that folds to the key it is filed under. */
  lemma FlattenValid(root: Value, r: Dict)
    requires Flatten(root) == Success(r)
    ensures Valid(r)
  {
    ApplyValid(map[], ObjectWrites(None, root), r);
  }

  /**
   * Flattening fails exactly when the root is not an object or some scalar
   * write meets a key, equal ignoring case, written before it in the walk.
   */
  lemma FlattenFailsIffDuplicate(root: Value)
    ensures Flatten(root).Failure? <==>
      !root.Object? || exists j :: 0 <= j < |ObjectWrites(None, root)| && Clashes(map[], ObjectWrites(None, root), j)
  {
    if root.Object? {
      ApplyFailsIffClash(map[], ObjectWrites(None, root));
    }
  }

  /**
   * On success, every entry holds the value of some non-root path ending at
   * a leaf whose full key folds to the entry's key: a scalar's text or the
   * null of an empty container.
   */
  lemma FlattenValuesSound(root: Value, r: Dict, f: string)
    requires Flatten(root) == Success(r) && f in r
    ensures exists p :: p != [] && LeafValue(root, p, r[f].value) && Fold(Extend(None, p).value) == f
  {
    var ws := ObjectWrites(None, root);
    ApplyKeys(map[], ws, r);
    assert f in FoldedKeys(ws);
    var w :| w in ws && Fold(w.key) == f;
    var j :| 0 <= j < |ws| && ws[j] == w;
    LastWriteTo(ws, j);
    var k :| j <= k < |ws| && Fold(ws[k].key) == f && forall i :: k < i < |ws| ==> Fold(ws[i].key) != f;
    ApplyLastWriteWins(map[], ws, r, k);
    ObjectWritesSound(None, root, ws[k]);
    var p :| LeafValue(root, p, WrittenValue(ws[k])) && p != [] && Extend(None, p) == Some(ws[k].key);
    assert Fold(Extend(None, p).value) == f;
  }

  /** The last write to the folded key `f` writes `value`, or a null follows the write `j`. */
  lemma LastWriteValue(root: Value, r: Dict, j: int) returns (k: int)
    requires Flatten(root) == Success(r)
    requires 0 <= j < |ObjectWrites(None, root)|
    ensures var ws := ObjectWrites(None, root);
      j <= k < |ws| && Fold(ws[k].key) == Fold(ws[j].key) && Fold(ws[j].key) in r
      && r[Fold(ws[j].key)].value == WrittenValue(ws[k]) && (k == j || ws[k].SetNull?)
  {
    var ws := ObjectWrites(None, root);
    LastWriteTo(ws, j);
    k :| j <= k < |ws| && Fold(ws[k].key) == Fold(ws[j].key)
      && forall i :: k < i < |ws| ==> Fold(ws[i].key) != Fold(ws[j].key);
    ApplyLastWriteWins(map[], ws, r, k);
    if k != j {
      OnlyNullsFollow(map[], ws, r, j, k);
    }
  }

  /** On success, the key of every non-root empty object or array holds null. */
  lemma FlattenEmptyContainerIsNull(root: Value, r: Dict, p: seq<string>)
    requires Flatten(root) == Success(r) && p != [] && LeafValue(root, p, None)
    ensures Fold(Extend(None, p).value) in r && r[Fold(Extend(None, p).value)].value == None
  {
    var ws := ObjectWrites(None, root);
    ObjectWritesComplete(None, root, p, None);
    var w :| w in ws && Extend(None, p) == Some(w.key) && WrittenValue(w) == None;
    var j :| 0 <= j < |ws| && ws[j] == w;
    var k := LastWriteValue(root, r, j);
  }

  /**
   * On success, the key of every non-root scalar holds its text, unless an
   * empty object or array elsewhere has a full key equal to it ignoring
   * case, whose null then overwrote the text.
   */
  lemma FlattenScalarIsText(root: Value, r: Dict, p: seq<string>, text: string)
    requires Flatten(root) == Success(r) && p != [] && LeafValue(root, p, Some(text))
    ensures Fold(Extend(None, p).value) in r
    ensures r[Fold(Extend(None, p).value)].value == Some(text)
      || exists q :: q != [] && LeafValue(root, q, None) && Fold(Extend(None, q).value) == Fold(Extend(None, p).value)
  {
    var ws := ObjectWrites(None, root);
    ObjectWritesComplete(None, root, p, Some(text));
    var w :| w in ws && Extend(None, p) == Some(w.key) && WrittenValue(w) == Some(text);
    var j :| 0 <= j < |ws| && ws[j] == w;
    var k := LastWriteValue(root, r, j);
    if k != j {
      ObjectWritesSound(None, root, ws[k]);
      var q :| LeafValue(root, q, None) && q != [] && Extend(None, q) == Some(ws[k].key);
      assert Fold(Extend(None, q).value) == Fold(Extend(None, p).value);
    }
  }
}
