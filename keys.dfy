/** Filename keys in the order pandas gives them. `groupby` lists each
    distinct key once, sorted; Python compares strings code point by code
    point, which is Dafny's order on `char`. An outer `merge` without
    `sort=True` lists each distinct key once in order of first appearance,
    the left table's keys before the right table's. */
module Keys {

  /** Strict lexicographic order on strings (Python's `<` on `str`). */
  predicate Less(a: string, b: string)
  {
    if |a| == 0 then |b| > 0
    else if |b| == 0 then false
    else if a[0] == b[0] then Less(a[1..], b[1..])
    else a[0] < b[0]
  }

  lemma {:induction false} LessIrreflexive(a: string)
    ensures !Less(a, a)
  {
    if |a| > 0 {
      LessIrreflexive(a[1..]);
    }
  }

  lemma {:induction false} LessTransitive(a: string, b: string, c: string)
    requires Less(a, b) && Less(b, c)
    ensures Less(a, c)
  {
    if |a| > 0 && |b| > 0 && |c| > 0 && a[0] == b[0] && b[0] == c[0] {
      LessTransitive(a[1..], b[1..], c[1..]);
    }
  }

  lemma {:induction false} LessTotal(a: string, b: string)
    requires a != b
    ensures Less(a, b) || Less(b, a)
  {
    if |a| > 0 && |b| > 0 && a[0] == b[0] {
      assert a == [a[0]] + a[1..] && b == [b[0]] + b[1..];
      LessTotal(a[1..], b[1..]);
    }
  }

  /** The keys listed in `s`. */
  function KeySet(s: seq<string>): set<string>
  {
    set k | k in s
  }

  /** Every key is strictly below every later key, so there are no repeats. */
  predicate StrictlySorted(s: seq<string>)
  {
    forall i, j :: 0 <= i < j < |s| ==> Less(s[i], s[j])
  }

  /** Inserts `x` into a sorted key list unless it is already there. */
  function Insert(x: string, s: seq<string>): (r: seq<string>)
    requires StrictlySorted(s)
    ensures StrictlySorted(r)
    ensures KeySet(r) == KeySet(s) + {x}
  {
    if s == [] then [x]
    else if x == s[0] then s
    else if Less(x, s[0]) then
      assert forall j :: 0 < j < |s| ==> Less(x, s[j]) by {
        forall j | 0 < j < |s| ensures Less(x, s[j]) {
          LessTransitive(x, s[0], s[j]);
        }
      }
      KeySetCons(x, s);
      [x] + s
    else
      LessTotal(x, s[0]);
      TailSorted(s);
      var rest := Insert(x, s[1..]);
      KeySetCons(s[0], s[1..]);
      assert s == [s[0]] + s[1..];
      HeadBelowRest(s, x, rest);
      KeySetCons(s[0], rest);
      [s[0]] + rest
  }

  /** The keys of `[h] + t` are `h` and the keys of `t`. */
  lemma KeySetCons(h: string, t: seq<string>)
    ensures KeySet([h] + t) == {h} + KeySet(t)
  {
    forall k ensures k in KeySet([h] + t) <==> k in {h} + KeySet(t) {
      assert k in [h] + t <==> k == h || k in t;
    }
  }

  lemma TailSorted(s: seq<string>)
    requires StrictlySorted(s) && s != []
    ensures StrictlySorted(s[1..])
  {
    forall i, j | 0 <= i < j < |s[1..]| ensures Less(s[1..][i], s[1..][j]) {
      assert s[1..][i] == s[i + 1] && s[1..][j] == s[j + 1];
    }
  }

  /** Putting the old head in front of the insertion into the tail keeps the
      list sorted. */
  lemma HeadBelowRest(s: seq<string>, x: string, rest: seq<string>)
    requires StrictlySorted(s) && s != [] && Less(s[0], x)
    requires StrictlySorted(rest) && KeySet(rest) == KeySet(s[1..]) + {x}
    ensures StrictlySorted([s[0]] + rest)
  {
    forall k | k in rest ensures Less(s[0], k) {
      assert k in KeySet(rest);
      if k != x {
        assert k in KeySet(s[1..]);
        var j :| 0 <= j < |s[1..]| && s[1..][j] == k;
        assert s[j + 1] == k;
      }
    }
    var r := [s[0]] + rest;
    forall i, j | 0 <= i < j < |r| ensures Less(r[i], r[j]) {
      if i == 0 {
        assert r[j] == rest[j - 1];
        assert r[j] in rest;
      } else {
        assert r[i] == rest[i - 1] && r[j] == rest[j - 1];
      }
    }
  }

  /** The distinct keys of `names`, sorted. */
  function SortedKeys(names: seq<string>): (r: seq<string>)
    ensures StrictlySorted(r)
    ensures KeySet(r) == KeySet(names)
  {
    if names == [] then []
    else
      var init := names[..|names| - 1];
      assert names == init + [names[|names| - 1]];
      Insert(names[|names| - 1], SortedKeys(init))
  }

  /** No value occurs twice. */
  predicate Distinct<T(==)>(xs: seq<T>)
  {
    forall i, j :: 0 <= i < j < |xs| ==> xs[i] != xs[j]
  }

  /** The first occurrence of each value, in order: `drop_duplicates`, and
      the key order of a `merge` that does not sort. A list without repeats
      comes back unchanged. */
  function Unique<T(==,!new)>(xs: seq<T>): (r: seq<T>)
    ensures Distinct(r)
    ensures forall x :: x in r <==> x in xs
    ensures Distinct(xs) ==> r == xs
  {
    if xs == [] then []
    else
      var init := xs[..|xs| - 1];
      var last := xs[|xs| - 1];
      assert xs == init + [last];
      assert Distinct(xs) ==> Distinct(init) && last !in init;
      var d := Unique(init);
      if last in d then d else d + [last]
  }

  /** Values appended after `xs` only ever add keys after those of `xs`:
      the first occurrences in `xs` are a prefix of those in `xs + ys`. */
  lemma {:induction false} UniqueConcat<T(!new)>(xs: seq<T>, ys: seq<T>)
    ensures |Unique(xs)| <= |Unique(xs + ys)|
    ensures Unique(xs + ys)[..|Unique(xs)|] == Unique(xs)
    decreases |ys|
  {
    if ys == [] {
      assert xs + ys == xs;
    } else {
      var init := ys[..|ys| - 1];
      UniqueConcat(xs, init);
      assert xs + ys == (xs + init) + [ys[|ys| - 1]];
      assert (xs + ys)[..|xs + ys| - 1] == xs + init;
    }
  }

  /** A strictly sorted list holds each key once. */
  lemma SortedIsDistinct(s: seq<string>)
    requires StrictlySorted(s)
    ensures Distinct(s)
  {
    forall i, j | 0 <= i < j < |s| ensures s[i] != s[j] {
      LessIrreflexive(s[i]);
    }
  }
}
