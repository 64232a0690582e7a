/** Worked inputs that pin down the flattener's observable behaviour. */
module FlatteningExamples {
  import opened Wrappers
  import opened Json
  import opened ConfigurationData
  import opened Flattening

  lemma FoldLetters()
    ensures Fold("a") == "A" && Fold("A") == "A" && Fold("b") == "B"
  {
  }

  /** The writes of a root object with two members, in member order. */
  lemma TwoMemberWrites(n0: string, v0: Value, n1: string, v1: Value)
    ensures ObjectWrites(None, Object([(n0, v0), (n1, v1)])) == Writes(n0, v0) + Writes(n1, v1)
  {
    var v := Object([(n0, v0), (n1, v1)]);
    assert MemberWrites(None, v, 1) == Writes(n0, v0);
  }

  /** Two writes in a row. */
  lemma ApplyTwo(d: Dict, w0: Write, w1: Write)
    ensures Apply(d, [w0, w1]) == Then(Step(d, w0), [w1])
  {
  }

  /** Sibling members `A` and `a` both holding scalars: the second one fails as a duplicate. */
  lemma SiblingCaseCollision()
    ensures Flatten(Object([("A", Scalar(Number, "1")), ("a", Scalar(Number, "2"))]))
         == Failure(DuplicateKey("a"))
  {
    FoldLetters();
    TwoMemberWrites("A", Scalar(Number, "1"), "a", Scalar(Number, "2"));
    ApplyTwo(map[], Put("A", "1"), Put("a", "2"));
    assert ContainsKey(Set(map[], "A", Some("1")), "a");
  }

  /** A scalar then an empty container under the same key, ignoring case: the null silently replaces the text. */
  lemma ScalarThenEmptyOverwrites()
    ensures Flatten(Object([("A", Scalar(Number, "1")), ("a", Object([]))]))
         == Success(map["A" := Entry("A", None)])
  {
    FoldLetters();
    TwoMemberWrites("A", Scalar(Number, "1"), "a", Object([]));
    assert Writes("a", Object([])) == [SetNull("a")];
    ApplyTwo(map[], Put("A", "1"), SetNull("a"));
    assert Set(Set(map[], "A", Some("1")), "a", None) == map["A" := Entry("A", None)];
  }

  /** The same two members in the other order: the scalar meets the null's key and fails. */
  lemma EmptyThenScalarFails()
    ensures Flatten(Object([("a", Object([])), ("A", Scalar(Number, "1"))]))
         == Failure(DuplicateKey("A"))
  {
    FoldLetters();
    TwoMemberWrites("a", Object([]), "A", Scalar(Number, "1"));
    assert Writes("a", Object([])) == [SetNull("a")];
    ApplyTwo(map[], SetNull("a"), Put("A", "1"));
    assert ContainsKey(Set(map[], "a", None), "A");
  }

  /** Array elements are keyed by the parent key, `:` and their zero-based index. */
  lemma ArrayIndexing()
    ensures Flatten(Object([("a", Array([Scalar(Number, "10"), Scalar(Number, "20")]))]))
         == Success(map["A:0" := Entry("a:0", Some("10")), "A:1" := Entry("a:1", Some("20"))])
  {
    var arr := Array([Scalar(Number, "10"), Scalar(Number, "20")]);
    var root := Object([("a", arr)]);
    assert Decimal(0) == "0" && Decimal(1) == "1";
    assert Child(Some("a"), "0") == "a:0" && Child(Some("a"), "1") == "a:1";
    assert ElementWrites(Some("a"), arr, 0) == [];
    assert ElementWrites(Some("a"), arr, 1) == [Put("a:0", "10")];
    assert Writes("a", arr) == [Put("a:0", "10"), Put("a:1", "20")];
    assert ObjectWrites(None, root) == [Put("a:0", "10"), Put("a:1", "20")] by {
      assert MemberWrites(None, root, 1) == Writes("a", arr);
    }
    assert Fold("a:0") == "A:0" by {
      assert Fold("a:0")[0] == 'A';
    }
    assert Fold("a:1") == "A:1" by {
      assert Fold("a:1")[0] == 'A';
    }
    ApplyTwo(map[], Put("a:0", "10"), Put("a:1", "20"));
    assert !ContainsKey(Set(map[], "a:0", Some("10")), "a:1");
  }

  /** Empty nested containers map their own keys to null. */
  lemma EmptyContainersAreNull()
    ensures Flatten(Object([("a", Object([])), ("b", Array([]))]))
         == Success(map["A" := Entry("a", None), "B" := Entry("b", None)])
  {
    FoldLetters();
    TwoMemberWrites("a", Object([]), "b", Array([]));
    assert Writes("a", Object([])) == [SetNull("a")];
    assert Writes("b", Array([])) == [SetNull("b")];
    ApplyTwo(map[], SetNull("a"), SetNull("b"));
  }

  /**
   * A member name holding the delimiter can collide with a nested key even
   * when the spelling matches exactly: `a:b` and `a` / `b`.
   */
  lemma DelimiterInNameCollides()
    ensures Flatten(Object([("a:b", Scalar(Number, "1")), ("a", Object([("b", Scalar(Number, "2"))]))]))
         == Failure(DuplicateKey("a:b"))
  {
    var inner := Object([("b", Scalar(Number, "2"))]);
    TwoMemberWrites("a:b", Scalar(Number, "1"), "a", inner);
    assert Child(Some("a"), "b") == "a:b";
    assert MemberWrites(Some("a"), inner, 0) == [];
    assert Writes("a", inner) == [Put("a:b", "2")];
    ApplyTwo(map[], Put("a:b", "1"), Put("a:b", "2"));
  }
}
