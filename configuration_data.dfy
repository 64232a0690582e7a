/**
 * The flat configuration map: a dictionary from `:`-delimited keys to an
 * optional string, whose keys compare case-insensitively.
 */
module ConfigurationData {
  import opened Wrappers

  /** The separator between path segments of a configuration key. */
  const KeyDelimiter: string := ":"

  /** Case folding of one character (ASCII letters only). */
  function FoldChar(c: char): char
  {
    if 'a' <= c <= 'z' then (c as int - 32) as char else c
  }

  /** The form in which two keys are compared: equal folds mean "the same key". */
  function Fold(s: string): (r: string)
    ensures |r| == |s|
  {
    seq(|s|, i requires 0 <= i < |s| => FoldChar(s[i]))
  }

  /** A stored entry: the key as first inserted, and its value (None is null). */
  datatype Entry = Entry(key: string, value: Option<string>)

  /** The dictionary, indexed by folded key. */
  type Dict = map<string, Entry>

  /** Every entry is filed under the fold of the key it stores. */
  ghost predicate Valid(d: Dict)
  {
    forall f :: f in d ==> Fold(d[f].key) == f
  }

  /** Whether some stored key equals `key`, ignoring case. */
  predicate ContainsKey(d: Dict, key: string): (b: bool)
    ensures Valid(d) ==> (b <==> exists f :: f in d && Fold(d[f].key) == Fold(key))
  {
    Fold(key) in d
  }

  /**
   * The dictionary's indexer assignment `d[key] = value`: it replaces the
   * value of a key already present (keeping that key's stored spelling)
   * and otherwise adds the key; no other entry changes.
   */
  function Set(d: Dict, key: string, value: Option<string>): (r: Dict)
    ensures r.Keys == d.Keys + {Fold(key)}
    ensures r[Fold(key)] == Entry(if ContainsKey(d, key) then d[Fold(key)].key else key, value)
    ensures forall f :: f in d && f != Fold(key) ==> r[f] == d[f]
    ensures Valid(d) ==> Valid(r)
  {
    var f := Fold(key);
    d[f := Entry(if f in d then d[f].key else key, value)]
  }
}
