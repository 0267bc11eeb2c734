/** Small shared vocabulary: optional values, error results, sorting and least elements. */
module Support {

  datatype Option<+T> = None | Some(value: T)

  datatype Result<+T, +E> = Ok(value: T) | Err(error: E)

  function Elements<T(==)>(s: seq<T>): set<T> {
    set x | x in s
  }

  ghost predicate Distinct<T>(s: seq<T>) {
    forall i, j :: 0 <= i < j < |s| ==> s[i] != s[j]
  }

  /** Two extensions of a sequence that the solver does not see on its own. */
  lemma ElementsSnoc<T>(s: seq<T>, x: T)
    ensures Elements(s + [x]) == Elements(s) + {x}
  {
    assert forall y :: y in s + [x] <==> y in s || y == x;
  }

  lemma {:induction false} DistinctCount<T>(s: seq<T>)
    requires Distinct(s)
    ensures |Elements(s)| == |s|
  {
    if |s| > 0 {
      var front, x := s[..|s| - 1], s[|s| - 1];
      assert s == front + [x];
      ElementsSnoc(front, x);
      DistinctCount(front);
      assert x !in front;
    }
  }

  lemma {:induction false} ElementsCount<T>(s: seq<T>)
    ensures |Elements(s)| <= |s|
  {
    if |s| > 0 {
      var front, x := s[..|s| - 1], s[|s| - 1];
      assert s == front + [x];
      ElementsSnoc(front, x);
      ElementsCount(front);
    }
  }

  lemma DistinctIffCount<T>(s: seq<T>)
    ensures Distinct(s) <==> |Elements(s)| == |s|
  {
    if Distinct(s) {
      DistinctCount(s);
    } else {
      var i, j :| 0 <= i < j < |s| && s[i] == s[j];
      var rest := s[..j] + s[j + 1..];
      forall x ensures x in s <==> x in rest {
        if x in s {
          var k :| 0 <= k < |s| && s[k] == x;
          assert rest[if k == j then i else if k < j then k else k - 1] == x;
        }
      }
      assert Elements(s) == Elements(rest);
      ElementsCount(rest);
    }
  }

  /** A sequence over a set that is longer than the set repeats an element. */
  lemma Pigeonhole<T>(s: seq<T>, pool: set<T>) returns (i: nat, j: nat)
    requires Elements(s) <= pool
    requires |s| > |pool|
    ensures i < j < |s| && s[i] == s[j]
  {
    if Distinct(s) {
      DistinctCount(s);
      SubsetCount(Elements(s), pool);
      assert false;
    }
    i, j :| 0 <= i < j < |s| && s[i] == s[j];
  }

  lemma SubsetCount<T>(a: set<T>, b: set<T>)
    requires a <= b
    ensures |a| <= |b|
  {
    assert b == a + (b - a);
    assert |a + (b - a)| == |a| + |b - a|;
  }

  lemma SubsetSameCount<T>(a: set<T>, b: set<T>)
    requires a <= b && |a| == |b|
    ensures a == b
  {
    assert b == a + (b - a);
    assert |a + (b - a)| == |a| + |b - a|;
  }

  /** m with each key set to its value, in order. */
  function Overlay<K, V>(m: map<K, V>, keys: seq<K>, values: seq<V>): map<K, V>
    requires |keys| == |values|
  {
    if keys == [] then m
    else
      var k := |keys| - 1;
      Overlay(m, keys[..k], values[..k])[keys[k] := values[k]]
  }

  lemma OverlayNext<K, V>(m: map<K, V>, keys: seq<K>, values: seq<V>, i: nat)
    requires i < |keys| == |values|
    ensures Overlay(m, keys[..i + 1], values[..i + 1]) == Overlay(m, keys[..i], values[..i])[keys[i] := values[i]]
  {
    assert keys[..i + 1][..i] == keys[..i] && values[..i + 1][..i] == values[..i];
  }

  /** With distinct keys, each key gets exactly its own value and nothing else changes. */
  lemma {:induction false} OverlayAt<K, V>(m: map<K, V>, keys: seq<K>, values: seq<V>, x: K)
    requires |keys| == |values| && Distinct(keys)
    ensures forall i :: 0 <= i < |keys| && keys[i] == x ==> x in Overlay(m, keys, values) && Overlay(m, keys, values)[x] == values[i]
    ensures x !in keys ==> (x in Overlay(m, keys, values) <==> x in m)
    ensures x !in keys && x in m ==> Overlay(m, keys, values)[x] == m[x]
  {
    if keys != [] {
      var k := |keys| - 1;
      OverlayAt(m, keys[..k], values[..k], x);
      assert x in keys[..k] ==> x in keys;
    }
  }

  // ---------------------------------------------------------------- least elements

  ghost predicate IsLeast(s: set<nat>, x: nat) {
    x in s && forall y :: y in s ==> x <= y
  }

  lemma {:induction false} LeastExists(s: set<nat>) returns (x: nat)
    requires s != {}
    ensures IsLeast(s, x)
  {
    x :| x in s;
    if s - {x} != {} {
      var m := LeastExists(s - {x});
      forall y | y in s ensures y == x || m <= y {
        if y != x { assert y in s - {x}; }
      }
      x := if x <= m then x else m;
    } else {
      assert s == {x} + (s - {x});
    }
  }

  function Least(s: set<nat>): (m: nat)
    requires s != {}
    ensures m in s && forall y :: y in s ==> m <= y
  {
    assert exists x :: IsLeast(s, x) by {
      var x := LeastExists(s);
    }
    var x :| x in s && forall y :: y in s ==> x <= y;
    x
  }

  // ---------------------------------------------------------------- sorting

  /** A total order, given as its less-or-equal relation. */
  ghost predicate TotalOrder<T(!new)>(leq: (T, T) -> bool) {
    && (forall x, y :: leq(x, y) || leq(y, x))
    && (forall x, y, z :: leq(x, y) && leq(y, z) ==> leq(x, z))
  }

  ghost predicate SortedBy<T>(leq: (T, T) -> bool, s: seq<T>) {
    forall i, j :: 0 <= i < j < |s| ==> leq(s[i], s[j])
  }

  function Insert<T>(leq: (T, T) -> bool, x: T, s: seq<T>): seq<T> {
    if s == [] || leq(x, s[0]) then [x] + s else [s[0]] + Insert(leq, x, s[1..])
  }

  function Sort<T>(leq: (T, T) -> bool, s: seq<T>): seq<T> {
    if s == [] then [] else Insert(leq, s[0], Sort(leq, s[1..]))
  }

  lemma {:induction false} InsertPermutes<T>(leq: (T, T) -> bool, x: T, s: seq<T>)
    ensures multiset(Insert(leq, x, s)) == multiset{x} + multiset(s)
  {
    if s == [] || leq(x, s[0]) {
    } else {
      InsertPermutes(leq, x, s[1..]);
      assert s == [s[0]] + s[1..];
    }
  }

  lemma {:induction false} SortPermutes<T>(leq: (T, T) -> bool, s: seq<T>)
    ensures multiset(Sort(leq, s)) == multiset(s)
  {
    if s != [] {
      SortPermutes(leq, s[1..]);
      InsertPermutes(leq, s[0], Sort(leq, s[1..]));
      assert s == [s[0]] + s[1..];
    }
  }

  lemma {:induction false} InsertSorts<T(!new)>(leq: (T, T) -> bool, x: T, s: seq<T>)
    requires TotalOrder(leq) && SortedBy(leq, s)
    ensures SortedBy(leq, Insert(leq, x, s))
  {
    if s == [] || leq(x, s[0]) {
    } else {
      InsertSorts(leq, x, s[1..]);
      InsertPermutes(leq, x, s[1..]);
      var rest := Insert(leq, x, s[1..]);
      forall j | 0 <= j < |rest| ensures leq(s[0], rest[j]) {
        assert rest[j] in multiset(rest);
        assert rest[j] == x || rest[j] in s[1..];
      }
    }
  }

  lemma {:induction false} SortSorts<T(!new)>(leq: (T, T) -> bool, s: seq<T>)
    requires TotalOrder(leq)
    ensures SortedBy(leq, Sort(leq, s))
  {
    if s != [] {
      SortSorts(leq, s[1..]);
      InsertSorts(leq, s[0], Sort(leq, s[1..]));
    }
  }

  lemma SortMembers<T>(leq: (T, T) -> bool, s: seq<T>)
    ensures |Sort(leq, s)| == |s|
    ensures forall x :: x in Sort(leq, s) <==> x in s
  {
    SortPermutes(leq, s);
    assert forall x :: x in Sort(leq, s) <==> x in multiset(Sort(leq, s));
    assert forall x :: x in s <==> x in multiset(s);
    assert |Sort(leq, s)| == |multiset(Sort(leq, s))| == |multiset(s)| == |s|;
  }

  lemma {:induction false} DistinctMultiplicity<T>(s: seq<T>, x: T)
    requires Distinct(s)
    ensures multiset(s)[x] <= 1
  {
    if |s| > 0 {
      DistinctMultiplicity(s[1..], x);
      assert s == [s[0]] + s[1..];
      assert s[0] !in multiset(s[1..]) by {
        assert s[0] !in s[1..];
      }
    }
  }

  lemma DistinctMultiset<T>(s: seq<T>, t: seq<T>)
    requires multiset(s) == multiset(t) && Distinct(s)
    ensures Distinct(t)
  {
    forall i, j | 0 <= i < j < |t| ensures t[i] != t[j] {
      DistinctMultiplicity(s, t[i]);
      assert t == t[..i] + [t[i]] + t[i + 1..j] + [t[j]] + t[j + 1..];
      assert t[i] == t[j] ==> multiset(t)[t[i]] >= 2;
    }
  }

  predicate NatLeq(a: nat, b: nat) {
    a <= b
  }

  /** The elements of a set in ascending order. */
  function SortedElements(s: set<nat>): (r: seq<nat>)
    ensures Elements(r) == s && Distinct(r) && SortedBy(NatLeq, r)
  {
    if s == {} then [] else
      var v := Least(s);
      var rest := SortedElements(s - {v});
      assert forall x :: x in rest <==> x in Elements(rest);
      assert forall x :: x in [v] + rest <==> x == v || x in rest;
      [v] + rest
  }
}
