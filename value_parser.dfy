/**
 * The flattener as the C# parser writes it: an object holding the dictionary
 * being filled and a stack of full keys, walking the tree depth-first.
 */
module ConfigurationValueParser {
  import opened Wrappers
  import opened Json
  import opened ConfigurationData
  import opened Flattening
  import FlatteningProperties

  /** How a visit ends: normally, or with the error it raises. */
  datatype Outcome = Pass | Fail(error: ParseError)

  /** The key on top of the stack, if any. */
  function Top(paths: seq<string>): Option<string>
  {
    if paths == [] then None else Some(paths[|paths| - 1])
  }

  /** A visit ended as the specification says: with its dictionary, or with its error. */
  ghost predicate Agrees(out: Outcome, data: Dict, spec: Result<Dict, ParseError>)
  {
    match spec
    case Success(d) => out == Pass && data == d
    case Failure(e) => out == Fail(e)
  }

  /** The writes of the first `n` members of `element`, made from `d0` under the key `prefix`, give `d`. */
  ghost predicate MembersMade(d0: Dict, prefix: Option<string>, element: Value, n: nat, d: Dict)
  {
    element.Object? && n <= |element.members| && Apply(d0, MemberWrites(prefix, element, n)) == Success(d)
  }

  /** The same for the first `n` elements of an array. */
  ghost predicate ElementsMade(d0: Dict, prefix: Option<string>, element: Value, n: nat, d: Dict)
  {
    element.Array? && n <= |element.elements| && Apply(d0, ElementWrites(prefix, element, n)) == Success(d)
  }

  /**
   * One member visited: if the visit passed, the writes of the first i + 1
   * members succeed with the new dictionary; if it failed, the whole object
   * fails with the same error.
   */
  lemma MemberVisited(d0: Dict, prefix: Option<string>, element: Value, i: nat, d: Dict, out: Outcome, d': Dict)
    requires MembersMade(d0, prefix, element, i, d) && i < |element.members|
    requires Agrees(out, d', Apply(d, Writes(Child(prefix, element.members[i].0), element.members[i].1)))
    ensures out.Pass? ==> MembersMade(d0, prefix, element, i + 1, d')
    ensures out.Fail? ==> Agrees(out, d', Apply(d0, ObjectWrites(prefix, element)))
  {
    FlatteningProperties.ApplyAppend(d0, MemberWrites(prefix, element, i),
      Writes(Child(prefix, element.members[i].0), element.members[i].1));
    if out.Fail? {
      FlatteningProperties.MemberWritesPrefix(prefix, element, i + 1, |element.members|);
      FlatteningProperties.ApplyPrefixFailure(d0, MemberWrites(prefix, element, i + 1), ObjectWrites(prefix, element));
    }
  }

  /** All members visited: the null for an empty non-root object completes the object's writes. */
  lemma MembersDone(d0: Dict, prefix: Option<string>, element: Value, d: Dict)
    requires element.Object? && MembersMade(d0, prefix, element, |element.members|, d)
    ensures Apply(d0, ObjectWrites(prefix, element)) ==
      Success(if |element.members| == 0 && prefix.Some? then Set(d, prefix.value, None) else d)
  {
    FlatteningProperties.ApplyAppend(d0, MemberWrites(prefix, element, |element.members|),
      if |element.members| == 0 && prefix.Some? then [SetNull(prefix.value)] else []);
  }

  /** One element visited, as for members. */
  lemma ElementVisited(d0: Dict, prefix: Option<string>, element: Value, i: nat, d: Dict, out: Outcome, d': Dict)
    requires ElementsMade(d0, prefix, element, i, d) && i < |element.elements|
    requires Agrees(out, d', Apply(d, Writes(Child(prefix, Decimal(i)), element.elements[i])))
    ensures out.Pass? ==> ElementsMade(d0, prefix, element, i + 1, d')
    ensures out.Fail? ==> Agrees(out, d', Apply(d0, ArrayWrites(prefix, element)))
  {
    FlatteningProperties.ApplyAppend(d0, ElementWrites(prefix, element, i),
      Writes(Child(prefix, Decimal(i)), element.elements[i]));
    if out.Fail? {
      FlatteningProperties.ElementWritesPrefix(prefix, element, i + 1, |element.elements|);
      FlatteningProperties.ApplyPrefixFailure(d0, ElementWrites(prefix, element, i + 1), ArrayWrites(prefix, element));
    }
  }

  /** All elements visited, as for members. */
  lemma ElementsDone(d0: Dict, prefix: Option<string>, element: Value, d: Dict)
    requires element.Array? && ElementsMade(d0, prefix, element, |element.elements|, d)
    ensures Apply(d0, ArrayWrites(prefix, element)) ==
      Success(if |element.elements| == 0 && prefix.Some? then Set(d, prefix.value, None) else d)
  {
    FlatteningProperties.ApplyAppend(d0, ElementWrites(prefix, element, |element.elements|),
      if |element.elements| == 0 && prefix.Some? then [SetNull(prefix.value)] else []);
  }

  class ValueParser {
    /** The case-insensitive dictionary being filled. */
    var data: Dict
    /** The stack of full keys; its last element is the top. */
    var paths: seq<string>

    constructor ()
      ensures data == map[] && paths == []
    {
      data := map[];
      paths := [];
    }

    /** Flatten a document: visit its root as an object, with an empty stack. */
    static method Parse(element: Value) returns (r: Result<Dict, ParseError>)
      ensures r == Flatten(element)
    {
      var parser := new ValueParser();
      var out := parser.VisitObjectElement(element);
      if out.Fail? {
        return Failure(out.error);
      }
      return Success(parser.data);
    }

    /** Visit the members of an object in order, then record null for it if it has none. */
    method VisitObjectElement(element: Value) returns (out: Outcome)
      modifies this
      ensures !element.Object? ==> out == Fail(NotAnObject)
      ensures element.Object? ==> Agrees(out, data, Apply(old(data), ObjectWrites(Top(old(paths)), element)))
      ensures out.Pass? ==> paths == old(paths)
      decreases element, 1
    {
      if !element.Object? {
        // enumerating the members of a value that is not an object fails
        return Fail(NotAnObject);
      }
      ghost var d0, prefix := data, Top(paths);
      var isEmpty := true;
      for i := 0 to |element.members|
        invariant paths == old(paths)
        invariant isEmpty == (i == 0)
        invariant MembersMade(d0, prefix, element, i, data)
      {
        isEmpty := false;
        ghost var d := data;
        var property := element.members[i];
        EnterContext(property.0);
        out := VisitValue(property.1, Child(prefix, property.0));
        MemberVisited(d0, prefix, element, i, d, out, data);
        if out.Fail? {
          return;
        }
        ExitContext();
      }
      MembersDone(d0, prefix, element, data);
      SetNullIfElementIsEmpty(isEmpty);
      out := Pass;
    }

    /** Visit the elements of an array in order, keyed by index, then record null for it if it has none. */
    method VisitArrayElement(element: Value) returns (out: Outcome)
      requires element.Array?
      modifies this
      ensures Agrees(out, data, Apply(old(data), ArrayWrites(Top(old(paths)), element)))
      ensures out.Pass? ==> paths == old(paths)
      decreases element, 1
    {
      ghost var d0, prefix := data, Top(paths);
      var elements := element.elements;
      for index := 0 to |elements|
        invariant paths == old(paths)
        invariant ElementsMade(d0, prefix, element, index, data)
      {
        ghost var d := data;
        EnterContext(Decimal(index));
        out := VisitValue(elements[index], Child(prefix, Decimal(index)));
        ElementVisited(d0, prefix, element, index, d, out, data);
        if out.Fail? {
          return;
        }
        ExitContext();
      }
      ElementsDone(d0, prefix, element, data);
      // the C# parser's running index ends at the number of elements
      SetNullIfElementIsEmpty(|elements| == 0);
      out := Pass;
    }

    /** Record null for the current key when the container just visited was empty, unless it is the root. */
    method SetNullIfElementIsEmpty(isEmpty: bool)
      modifies this
      ensures paths == old(paths)
      ensures data == if isEmpty && paths != [] then Set(old(data), paths[|paths| - 1], None) else old(data)
    {
      if isEmpty && |paths| > 0 {
        data := Set(data, paths[|paths| - 1], None);
      }
    }

    /** Visit a value under the key on top of the stack, which is `key`. */
    method VisitValue(value: Value, ghost key: string) returns (out: Outcome)
      requires paths != [] && paths[|paths| - 1] == key
      modifies this
      ensures Agrees(out, data, Apply(old(data), Writes(key, value)))
      ensures out.Pass? ==> paths == old(paths)
      decreases value, 2
    {
      match value
      case Object(_) =>
        out := VisitObjectElement(value);
      case Array(_) =>
        out := VisitArrayElement(value);
      case Scalar(_, text) =>
        var top := paths[|paths| - 1];
        if ContainsKey(data, top) {
          return Fail(DuplicateKey(top));
        }
        data := Set(data, top, Some(text));
        out := Pass;
    }

    /** Push the full key of a child: the segment alone at top level, else the current key, `:` and the segment. */
    method EnterContext(context: string)
      modifies this
      ensures paths == old(paths) + [Child(Top(old(paths)), context)]
      ensures data == old(data)
    {
      paths := paths + [if |paths| > 0 then paths[|paths| - 1] + KeyDelimiter + context else context];
    }

    /** Pop the current key. */
    method ExitContext()
      requires paths != []
      modifies this
      ensures paths == old(paths)[..|old(paths)| - 1]
      ensures data == old(data)
    {
      paths := paths[..|paths| - 1];
    }
  }
}
