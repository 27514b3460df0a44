/** `flatten`: the leaves of a nested structure, left to right. Any value
    that can be iterated is descended into, except text and byte strings,
    which stay whole. */
module Flatten {

  /** A Python value as `flatten` sees it: a non-iterable leaf, a `str`, a
      `bytes`, or some other iterable with its elements in iteration order. */
  datatype Value<A> = Leaf(a: A) | Text(s: string) | Bytes(b: seq<bv8>) | Nested(items: seq<Value<A>>)

  /** What `flatten` yields as it is: everything but a nested iterable. */
  predicate IsAtom<A>(v: Value<A>)
  {
    !v.Nested?
  }

  /** The values `flatten(l)` yields, in order. */
  function Flatten<A>(l: seq<Value<A>>): (r: seq<Value<A>>)
    ensures forall i :: 0 <= i < |r| ==> IsAtom(r[i])
    decreases l
  {
    if l == [] then []
    else
      match l[0]
      case Nested(items) => Flatten(items) + Flatten(l[1..])
      case _ => [l[0]] + Flatten(l[1..])
  }

  /** `x` is an atom reached by descending into `l`. */
  predicate Occurs<A(==)>(x: Value<A>, l: seq<Value<A>>)
    decreases l
  {
    exists i :: 0 <= i < |l| && (if l[i].Nested? then Occurs(x, l[i].items) else l[i] == x)
  }

  /** Flattening two lists one after the other is flattening their
      concatenation: the leaves keep their left-to-right order. */
  lemma {:induction false} FlattenConcat<A>(l: seq<Value<A>>, l2: seq<Value<A>>)
    ensures Flatten(l + l2) == Flatten(l) + Flatten(l2)
    decreases l
  {
    if l == [] {
      assert l + l2 == l2;
    } else {
      assert (l + l2)[0] == l[0];
      assert (l + l2)[1..] == l[1..] + l2;
      FlattenConcat(l[1..], l2);
    }
  }

  /** A list with no nested iterable in it, strings and bytes included, is
      yielded unchanged. */
  lemma {:induction false} FlatListUnchanged<A>(l: seq<Value<A>>)
    requires forall i :: 0 <= i < |l| ==> IsAtom(l[i])
    ensures Flatten(l) == l
    decreases l
  {
    if l != [] {
      FlatListUnchanged(l[1..]);
    }
  }

  /** Flattening twice is flattening once. */
  lemma FlattenIdempotent<A>(l: seq<Value<A>>)
    ensures Flatten(Flatten(l)) == Flatten(l)
  {
    FlatListUnchanged(Flatten(l));
  }

  /** Wrapping a list in one more level of nesting changes nothing. */
  lemma FlattenNested<A>(l: seq<Value<A>>)
    ensures Flatten([Nested(l)]) == Flatten(l)
  {
    assert [Nested(l)][1..] == [];
  }

  /** The values yielded are exactly the atoms reached by descending into
      the list. */
  lemma {:induction false} FlattenMembers<A>(x: Value<A>, l: seq<Value<A>>)
    ensures x in Flatten(l) <==> Occurs(x, l)
    decreases l
  {
    if l != [] {
      FlattenMembers(x, l[1..]);
      if l[0].Nested? {
        FlattenMembers(x, l[0].items);
      }
      assert Occurs(x, l) <==> (if l[0].Nested? then Occurs(x, l[0].items) else l[0] == x) || Occurs(x, l[1..]) by {
        if Occurs(x, l[1..]) {
          var i :| 0 <= i < |l[1..]| && (if l[1..][i].Nested? then Occurs(x, l[1..][i].items) else l[1..][i] == x);
          assert l[i + 1] == l[1..][i];
        }
        if Occurs(x, l) {
          var i :| 0 <= i < |l| && (if l[i].Nested? then Occurs(x, l[i].items) else l[i] == x);
          if i > 0 {
            assert l[1..][i - 1] == l[i];
          }
        }
      }
    }
  }

  /** The example of nested lists with a string inside: the string is one
      leaf, not its characters. */
  lemma MixedExample()
    ensures Flatten([Leaf(1), Nested([Text("ab"), Nested([Leaf(2)])]), Leaf(3)])
         == [Leaf(1), Text("ab"), Leaf(2), Leaf(3)]
  {
    var inner: seq<Value<int>> := [Leaf(2)];
    var mid: seq<Value<int>> := [Text("ab"), Nested(inner)];
    assert Flatten(inner) == [Leaf(2)];
    assert mid[1..] == [Nested(inner)];
    assert Flatten(mid[1..]) == [Leaf(2)];
    assert Flatten(mid) == [Text("ab"), Leaf(2)];
    var l: seq<Value<int>> := [Leaf(1), Nested(mid), Leaf(3)];
    assert l[1..] == [Nested(mid), Leaf(3)];
    assert l[1..][1..] == [Leaf(3)];
    assert Flatten([Leaf(3)]) == [Leaf(3)];
  }
}
