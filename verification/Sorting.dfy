/**
 sort.Sort and the two sorted key extractions. Go's library sort touches its data
 only through Less and Swap; `Sort` is such a sort, for any comparator. What the rest
 of the model may use is a permutation always, and order when the comparator is a
 strict weak order on the elements at hand.
 */
module Sorting {
  import opened Text

  // ---- sort.Sort ----

  /** `less` is a strict weak order on the elements of `m`. */
  ghost predicate StrictWeak<T>(less: (T, T) -> bool, m: multiset<T>) {
    && (forall x, y :: x in m && y in m && less(x, y) ==> !less(y, x))
    && (forall x, y, z :: x in m && y in m && z in m && !less(x, y) && !less(y, z) ==> !less(x, z))
  }

  /** No later element is less than an earlier one. */
  ghost predicate Sorted<T>(s: seq<T>, less: (T, T) -> bool) {
    forall i, j :: 0 <= i < j < |s| ==> !less(s[j], s[i])
  }

  /** Exchanges two elements in place. */
  method Swap<T>(a: array<T>, i: nat, j: nat)
    requires i < a.Length && j < a.Length
    modifies a
    ensures a[..] == old(a[..])[i := old(a[j])][j := old(a[i])]
    ensures multiset(a[..]) == multiset(old(a[..]))
  {
    a[i], a[j] := a[j], a[i];
  }

  /** Everything at or before `i` is in order, except that position `j` is still to be placed. */
  ghost predicate SortedBut<T>(s: seq<T>, i: nat, j: nat, less: (T, T) -> bool)
    requires i < |s|
  {
    forall p, q :: 0 <= p < q <= i && q != j ==> !less(s[q], s[p])
  }

  lemma SwapDown<T>(s: seq<T>, t: seq<T>, i: nat, j: nat, less: (T, T) -> bool)
    requires 0 < j <= i < |s| && t == s[j := s[j - 1]][j - 1 := s[j]]
    requires StrictWeak(less, multiset(s)) && SortedBut(s, i, j, less) && less(s[j], s[j - 1])
    ensures SortedBut(t, i, j - 1, less)
  {
    assert s[j] in multiset(s) && s[j - 1] in multiset(s);
    forall p, q | 0 <= p < q <= i && q != j - 1 ensures !less(t[q], t[p]) {
      var p' := if p == j then j - 1 else if p == j - 1 then j else p;
      if q != j { assert !less(s[q], s[p']); }
    }
  }

  lemma Placed<T>(s: seq<T>, i: nat, j: nat, less: (T, T) -> bool)
    requires j <= i < |s|
    requires StrictWeak(less, multiset(s)) && SortedBut(s, i, j, less)
    requires j > 0 ==> !less(s[j], s[j - 1])
    ensures Sorted(s[..i + 1], less)
  {
    forall p | 0 <= p < j ensures !less(s[j], s[p]) {
      if p < j - 1 {
        assert !less(s[j - 1], s[p]);
        var x, y, z := s[j], s[j - 1], s[p];
        assert x in multiset(s) && y in multiset(s) && z in multiset(s);
      }
    }
    forall p, q | 0 <= p < q <= i ensures !less(s[q], s[p]) {}
  }

  /** Lets the element at `i` sink to its place among those before it. */
  method Insert<T>(a: array<T>, i: nat, less: (T, T) -> bool)
    requires i < a.Length
    requires StrictWeak(less, multiset(a[..])) ==> Sorted(a[..i], less)
    modifies a
    ensures multiset(a[..]) == multiset(old(a[..]))
    ensures StrictWeak(less, multiset(a[..])) ==> Sorted(a[..i + 1], less)
  {
    ghost var m := multiset(a[..]);
    var j := i;
    while j > 0 && less(a[j], a[j - 1])
      invariant 0 <= j <= i
      invariant multiset(a[..]) == m
      invariant StrictWeak(less, m) ==> SortedBut(a[..], i, j, less)
    {
      ghost var before := a[..];
      Swap(a, j, j - 1);
      if StrictWeak(less, m) { SwapDown(before, a[..], i, j, less); }
      j := j - 1;
    }
    if StrictWeak(less, m) {
      Placed(a[..], i, j, less);
      assert a[..][..i + 1] == a[..i + 1];
    }
  }

  method Sort<T>(a: array<T>, less: (T, T) -> bool)
    modifies a
    ensures multiset(a[..]) == multiset(old(a[..]))
    ensures StrictWeak(less, multiset(old(a[..]))) ==> Sorted(a[..], less)
  {
    for i := 0 to a.Length
      invariant multiset(a[..]) == multiset(old(a[..]))
      invariant StrictWeak(less, multiset(old(a[..]))) ==> Sorted(a[..i], less)
    {
      Insert(a, i, less);
    }
    assert a[..a.Length] == a[..];
  }

  // ---- any other swap sort ----

  /** What a list of exchanges makes of a slice. */
  ghost function ApplySwaps<T>(s: seq<T>, swaps: seq<(nat, nat)>): (t: seq<T>)
    requires forall w :: w in swaps ==> w.0 < |s| && w.1 < |s|
    ensures |t| == |s|
    decreases swaps
  {
    if swaps == [] then s
    else
      var (i, j) := swaps[0];
      assert (i, j) in swaps;
      ApplySwaps(s[i := s[j]][j := s[i]], swaps[1..])
  }

  /** Whatever its comparator answers, a sort that only exchanges elements permutes them. */
  lemma {:induction false} SwapsPermute<T>(s: seq<T>, swaps: seq<(nat, nat)>)
    requires forall w :: w in swaps ==> w.0 < |s| && w.1 < |s|
    ensures multiset(ApplySwaps(s, swaps)) == multiset(s)
    decreases swaps
  {
    if swaps != [] {
      var (i, j) := swaps[0];
      assert (i, j) in swaps;
      var t := s[i := s[j]][j := s[i]];
      assert multiset(t) == multiset(s);
      SwapsPermute(t, swaps[1..]);
    }
  }

  // ---- sorted key lists ----

  ghost predicate Increasing(s: seq<string>) {
    forall i, j :: 0 <= i < j < |s| ==> Less(s[i], s[j])
  }

  ghost function Elements(s: seq<string>): set<string> { set x | x in s }

  lemma ElementsAppend(a: seq<string>, b: seq<string>)
    ensures Elements(a + b) == Elements(a) + Elements(b)
  {
    forall x ensures x in a + b <==> x in a || x in b {}
  }

  /** A set has at most one strictly increasing enumeration. */
  lemma {:induction false} IncreasingUnique(a: seq<string>, b: seq<string>)
    requires Increasing(a) && Increasing(b) && Elements(a) == Elements(b)
    ensures a == b
  {
    assert a != [] ==> a[0] in Elements(a);
    assert b != [] ==> b[0] in Elements(b);
    if a != [] && b != [] {
      LessOrder();
      assert a[0] == b[0];
      assert forall x :: x in a[1..] <==> x in Elements(a) && x != a[0];
      assert forall x :: x in b[1..] <==> x in Elements(b) && x != b[0];
      assert Elements(a[1..]) == Elements(b[1..]);
      IncreasingUnique(a[1..], b[1..]);
      assert a == [a[0]] + a[1..] && b == [b[0]] + b[1..];
    }
  }

  ghost function Least(keys: set<string>): (m: string)
    requires keys != {}
    ensures m in keys && forall k :: k in keys && k != m ==> Less(m, k)
  {
    LessOrder();
    var x :| x in keys;
    if keys == {x} then x
    else
      var m := Least(keys - {x});
      if Less(x, m) then x else m
  }

  ghost function Greatest(keys: set<string>): (m: string)
    requires keys != {}
    ensures m in keys && forall k :: k in keys && k != m ==> Less(k, m)
  {
    LessOrder();
    var x :| x in keys;
    if keys == {x} then x
    else
      var m := Greatest(keys - {x});
      if Less(m, x) then x else m
  }

  /** The strictly increasing enumeration of a key set. */
  ghost function Ordered(keys: set<string>): seq<string> {
    if keys == {} then [] else [Least(keys)] + Ordered(keys - {Least(keys)})
  }

  lemma {:induction false} OrderedIsIncreasing(keys: set<string>)
    ensures Increasing(Ordered(keys)) && Elements(Ordered(keys)) == keys
  {
    if keys != {} {
      var m := Least(keys);
      OrderedIsIncreasing(keys - {m});
      LeastFirst(m, Ordered(keys - {m}), keys);
    }
  }

  lemma LeastFirst(m: string, rest: seq<string>, keys: set<string>)
    requires m in keys && forall k :: k in keys && k != m ==> Less(m, k)
    requires Increasing(rest) && Elements(rest) == keys - {m}
    ensures Increasing([m] + rest) && Elements([m] + rest) == keys
  {
    assert forall x :: x in rest <==> x in Elements(rest);
    forall i, j | 0 <= i < j < |rest| + 1 ensures Less(([m] + rest)[i], ([m] + rest)[j]) {
      if i == 0 { assert rest[j - 1] in Elements(rest); }
    }
  }

  ghost predicate Distinct(s: seq<string>) {
    forall p, q :: 0 <= p < q < |s| ==> s[p] != s[q]
  }

  lemma Appended(s: seq<string>, x: string)
    requires Distinct(s) && x !in Elements(s)
    ensures Distinct(s + [x]) && Elements(s + [x]) == Elements(s) + {x}
  {
    assert forall p :: 0 <= p < |s| ==> s[p] in Elements(s);
  }

  /** Ranging over a map: every key once, in whatever order the runtime picks. */
  method RangeKeys<V>(m: map<string, V>) returns (s: array<string>)
    ensures fresh(s)
    ensures Distinct(s[..]) && Elements(s[..]) == m.Keys
  {
    s := new string[|m|](_ => "");
    var todo := m.Keys;
    var i := 0;
    while todo != {}
      invariant todo <= m.Keys && i + |todo| == |m.Keys| == s.Length
      invariant Distinct(s[..i]) && Elements(s[..i]) == m.Keys - todo
      decreases todo
    {
      var key :| key in todo;
      ghost var before := s[..i];
      Appended(before, key);
      assert m.Keys - todo + {key} == m.Keys - (todo - {key});
      s[i] := key;
      i := i + 1;
      todo := todo - {key};
      assert s[..i] == before + [key];
    }
    assert s[..i] == s[..];
  }

  /** SortedVhostsKeys and SortedStrStrKeys: range over the map, then sort the slice in place. */
  method SortedKeys<V>(m: map<string, V>) returns (keys: seq<string>)
    ensures keys == Ordered(m.Keys)
  {
    var s := RangeKeys(m);
    ghost var before := s[..];
    Sort(s, Less);
    keys := s[..];
    SortedDistinct(before, keys);
    OrderedIsIncreasing(m.Keys);
    IncreasingUnique(keys, Ordered(m.Keys));
  }

  lemma LessStrictWeak(m: multiset<string>)
    ensures StrictWeak(Less, m)
  {
    forall x, y | Less(x, y) ensures !Less(y, x) {
      if Less(y, x) { LessTransitive(x, y, x); LessIrreflexive(x); }
    }
    forall x, y, z | !Less(x, y) && !Less(y, z) ensures !Less(x, z) {
      LessTotal(x, y);
      LessTotal(y, z);
      if Less(x, z) {
        if x != y { LessTransitive(y, x, z); }
      }
    }
  }

  lemma SortedDistinct(before: seq<string>, after: seq<string>)
    requires multiset(before) == multiset(after)
    requires Distinct(before)
    requires StrictWeak(Less, multiset(before)) ==> Sorted(after, Less)
    ensures Increasing(after) && Elements(after) == Elements(before)
  {
    LessStrictWeak(multiset(before));
    forall x ensures x in before <==> x in after {
      assert x in before <==> x in multiset(before);
      assert x in after <==> x in multiset(after);
    }
    forall i, j | 0 <= i < j < |after| ensures Less(after[i], after[j]) {
      LessTotal(after[i], after[j]);
      if after[i] == after[j] {
        Twice(after, i, j);
        Once(before, after[i]);
      }
    }
  }

  lemma Twice(s: seq<string>, i: nat, j: nat)
    requires i < j < |s| && s[i] == s[j]
    ensures multiset(s)[s[i]] >= 2
  {
    assert s == s[..j] + [s[j]] + s[j + 1..];
    assert s[i] in s[..j];
  }

  lemma {:induction false} Once(s: seq<string>, x: string)
    requires Distinct(s)
    ensures multiset(s)[x] <= 1
  {
    if s != [] {
      var n := |s| - 1;
      assert s == s[..n] + [s[n]];
      Once(s[..n], x);
      if x == s[n] { assert x !in s[..n]; }
    }
  }
}
