/** A stable sort into non-increasing order of a numeric key: what
    `Array.prototype.sort` does with the comparator `(a, b) => key(b) - key(a)`
    (the ECMAScript 2019 edition requires the sort to be stable). */
module StableSort {

  /** Non-increasing in `key`. */
  ghost predicate Sorted<T(!new)>(s: seq<T>, key: T -> real)
  {
    forall i, j :: 0 <= i < j < |s| ==> key(s[i]) >= key(s[j])
  }

  /** The elements of key `k`, in their order in `s`. */
  function WithKey<T(!new)>(s: seq<T>, key: T -> real, k: real): (r: seq<T>)
    ensures |r| <= |s|
  {
    if s == [] then []
    else (if key(s[0]) == k then [s[0]] else []) + WithKey(s[1..], key, k)
  }

  /** `WithKey` holds exactly the elements of `s` whose key is `k`. */
  lemma {:induction false} WithKeyMembers<T(!new)>(s: seq<T>, key: T -> real, k: real)
    ensures forall x :: x in WithKey(s, key, k) <==> x in s && key(x) == k
  {
    if s != [] {
      WithKeyMembers(s[1..], key, k);
      assert s == [s[0]] + s[1..];
    }
  }

  /** Places `x` after every element of `s` whose key is not below its own,
      scanning from the end as an insertion sort does. */
  function Insert<T(!new)>(s: seq<T>, x: T, key: T -> real): (r: seq<T>)
    ensures |r| == |s| + 1
    decreases |s|
  {
    if s == [] then [x]
    else if key(s[|s| - 1]) < key(x) then Insert(s[..|s| - 1], x, key) + [s[|s| - 1]]
    else s + [x]
  }

  /** Inserting adds exactly `x`. */
  lemma {:induction false} InsertMultiset<T(!new)>(s: seq<T>, x: T, key: T -> real)
    ensures multiset(Insert(s, x, key)) == multiset(s) + multiset{x}
    decreases |s|
  {
    if s != [] && key(s[|s| - 1]) < key(x) {
      InsertMultiset(s[..|s| - 1], x, key);
      assert s == s[..|s| - 1] + [s[|s| - 1]];
    }
  }

  /** The stable sort: insert each element in input order. */
  function Sort<T(!new)>(s: seq<T>, key: T -> real): (r: seq<T>)
    ensures |r| == |s|
    ensures multiset(r) == multiset(s)
  {
    if s == [] then []
    else
      assert s == s[..|s| - 1] + [s[|s| - 1]];
      InsertMultiset(Sort(s[..|s| - 1], key), s[|s| - 1], key);
      Insert(Sort(s[..|s| - 1], key), s[|s| - 1], key)
  }

  lemma {:induction false} WithKeyAppend<T(!new)>(a: seq<T>, b: seq<T>, key: T -> real, k: real)
    ensures WithKey(a + b, key, k) == WithKey(a, key, k) + WithKey(b, key, k)
  {
    if a != [] {
      assert (a + b)[0] == a[0];
      assert (a + b)[1..] == a[1..] + b;
      var head := if key(a[0]) == k then [a[0]] else [];
      assert WithKey(a + b, key, k) == head + WithKey(a[1..] + b, key, k);
      assert WithKey(a, key, k) == head + WithKey(a[1..], key, k);
      WithKeyAppend(a[1..], b, key, k);
    } else {
      assert a + b == b;
    }
  }

  lemma WithKeySingle<T(!new)>(x: T, key: T -> real, k: real)
    ensures WithKey([x], key, k) == if key(x) == k then [x] else []
  {
    assert [x][1..] == [];
  }

  lemma {:induction false} InsertSorted<T(!new)>(s: seq<T>, x: T, key: T -> real)
    requires Sorted(s, key)
    ensures Sorted(Insert(s, x, key), key)
    decreases |s|
  {
    if s != [] {
      var init, last := s[..|s| - 1], s[|s| - 1];
      if key(last) < key(x) {
        InsertSorted(init, x, key);
        var r := Insert(init, x, key);
        assert Insert(s, x, key) == r + [last];
        InsertMultiset(init, x, key);
        forall y | y in r
          ensures key(y) >= key(last)
        {
          assert y in multiset(r);
          if y != x {
            assert y in multiset(init);
            var i :| 0 <= i < |init| && init[i] == y;
            assert s[i] == y;
          }
        }
        var t := r + [last];
        forall i, j | 0 <= i < j < |t|
          ensures key(t[i]) >= key(t[j])
        {
          assert t[i] == r[i];
          assert r[i] in r;
          if j < |r| {
            assert t[j] == r[j];
          }
        }
      }
    }
  }

  lemma {:induction false} InsertStable<T(!new)>(s: seq<T>, x: T, key: T -> real, k: real)
    ensures WithKey(Insert(s, x, key), key, k) == WithKey(s, key, k) + (if key(x) == k then [x] else [])
    decreases |s|
  {
    WithKeySingle(x, key, k);
    if s != [] {
      var init, last := s[..|s| - 1], s[|s| - 1];
      assert s == init + [last];
      WithKeySingle(last, key, k);
      WithKeyAppend(init, [last], key, k);
      if key(last) < key(x) {
        var r := Insert(init, x, key);
        assert Insert(s, x, key) == r + [last];
        InsertStable(init, x, key, k);
        WithKeyAppend(r, [last], key, k);
      } else {
        assert Insert(s, x, key) == s + [x];
        WithKeyAppend(s, [x], key, k);
      }
    }
  }

  lemma {:induction false} SortSorted<T(!new)>(s: seq<T>, key: T -> real)
    ensures Sorted(Sort(s, key), key)
  {
    if s != [] {
      SortSorted(s[..|s| - 1], key);
      InsertSorted(Sort(s[..|s| - 1], key), s[|s| - 1], key);
    }
  }

  lemma {:induction false} SortStable<T(!new)>(s: seq<T>, key: T -> real, k: real)
    ensures WithKey(Sort(s, key), key, k) == WithKey(s, key, k)
  {
    if s != [] {
      var init, last := s[..|s| - 1], s[|s| - 1];
      SortStable(init, key, k);
      InsertStable(Sort(init, key), last, key, k);
      assert s == init + [last];
      WithKeyAppend(init, [last], key, k);
      WithKeySingle(last, key, k);
    }
  }

  /** `t` is non-increasing in the key and holds, for every key, exactly the
      elements of `s` of that key in their order in `s`. */
  ghost predicate StablyOrders<T(!new)>(t: seq<T>, s: seq<T>, key: T -> real)
  {
    Sorted(t, key) && forall k :: WithKey(t, key, k) == WithKey(s, key, k)
  }

  lemma HeadsAgree<T(!new)>(t: seq<T>, u: seq<T>, key: T -> real)
    requires Sorted(t, key) && Sorted(u, key)
    requires forall k :: WithKey(t, key, k) == WithKey(u, key, k)
    requires t != [] || u != []
    ensures t != [] && u != [] && t[0] == u[0]
  {
    if t != [] {
      WithKeyMembers(t, key, key(t[0]));
      WithKeyMembers(u, key, key(t[0]));
    }
    if u != [] {
      WithKeyMembers(t, key, key(u[0]));
      WithKeyMembers(u, key, key(u[0]));
    }
    assert t != [] ==> t[0] in WithKey(u, key, key(t[0]));
    assert u != [] ==> u[0] in WithKey(t, key, key(u[0]));
    var kt, ku := key(t[0]), key(u[0]);
    var i :| 0 <= i < |u| && u[i] == t[0];
    assert ku >= kt by { if i > 0 { assert key(u[0]) >= key(u[i]); } }
    var j :| 0 <= j < |t| && t[j] == u[0];
    assert kt >= ku by { if j > 0 { assert key(t[0]) >= key(t[j]); } }
    assert WithKey(t, key, kt) == [t[0]] + WithKey(t[1..], key, kt);
    assert WithKey(u, key, kt) == [u[0]] + WithKey(u[1..], key, kt);
    assert t[0] == WithKey(t, key, kt)[0] == WithKey(u, key, kt)[0] == u[0];
  }

  lemma TailsAgree<T(!new)>(t: seq<T>, u: seq<T>, key: T -> real)
    requires t != [] && u != [] && t[0] == u[0]
    requires forall k :: WithKey(t, key, k) == WithKey(u, key, k)
    ensures forall k :: WithKey(t[1..], key, k) == WithKey(u[1..], key, k)
  {
    forall k
      ensures WithKey(t[1..], key, k) == WithKey(u[1..], key, k)
    {
      var h := if key(t[0]) == k then [t[0]] else [];
      var wt, wu := WithKey(t[1..], key, k), WithKey(u[1..], key, k);
      assert h + wt == WithKey(t, key, k) == WithKey(u, key, k) == h + wu;
      assert wt == (h + wt)[|h|..];
      assert wu == (h + wu)[|h|..];
    }
  }

  /** Two sorted sequences that agree on the elements of every key, in order,
      are equal: a stable sort has exactly one possible result. */
  lemma {:induction false} StableSortUnique<T(!new)>(t: seq<T>, u: seq<T>, key: T -> real)
    requires Sorted(t, key) && Sorted(u, key)
    requires forall k :: WithKey(t, key, k) == WithKey(u, key, k)
    ensures t == u
    decreases |t|
  {
    if t != [] || u != [] {
      HeadsAgree(t, u, key);
      TailsAgree(t, u, key);
      assert Sorted(t[1..], key) && Sorted(u[1..], key);
      StableSortUnique(t[1..], u[1..], key);
      assert t == [t[0]] + t[1..];
      assert u == [u[0]] + u[1..];
    }
  }

  /** What a stable descending sort promises, characterised independently of how
      it is computed: `t` is `Sort(s)` if and only if `t` is non-increasing in the
      key and keeps, for every key, the elements of that key in their original
      order. It is then a permutation of `s`. */
  lemma SortCharacterised<T(!new)>(s: seq<T>, t: seq<T>, key: T -> real)
    ensures t == Sort(s, key) <==> StablyOrders(t, s, key)
    ensures t == Sort(s, key) ==> multiset(t) == multiset(s)
  {
    SortSorted(s, key);
    forall k
      ensures WithKey(Sort(s, key), key, k) == WithKey(s, key, k)
    {
      SortStable(s, key, k);
    }
    assert StablyOrders(Sort(s, key), s, key);
    if StablyOrders(t, s, key) {
      StableSortUnique(t, Sort(s, key), key);
    }
  }

  /** Inserting after the last element whose key is not below that of `x`. */
  lemma {:induction false} InsertAt<T(!new)>(p: seq<T>, q: seq<T>, x: T, key: T -> real)
    requires forall i :: 0 <= i < |q| ==> key(q[i]) < key(x)
    requires p == [] || key(p[|p| - 1]) >= key(x)
    ensures Insert(p + q, x, key) == p + [x] + q
    decreases |q|
  {
    if q == [] {
      assert p + q == p;
    } else {
      var q', last := q[..|q| - 1], q[|q| - 1];
      var pq := p + q;
      assert pq[|pq| - 1] == last && key(last) < key(x);
      assert pq[..|pq| - 1] == p + q';
      assert Insert(pq, x, key) == Insert(p + q', x, key) + [last];
      InsertAt(p, q', x, key);
      assert p + [x] + q == (p + [x] + q') + [last];
    }
  }

  /** Swapping positions `j - 1` and `j` moves the element at `j` one place
      down and keeps the others of `s[..i + 1]` in order, and `s[i + 1..]` as it is. */
  lemma SwapDown<T>(before: seq<T>, after: seq<T>, j: int, i: int)
    requires 0 < j <= i < |before|
    requires after == before[j - 1 := before[j]][j := before[j - 1]]
    ensures after[..j - 1] + after[j..i + 1] == before[..j] + before[j + 1..i + 1]
    ensures after[i + 1..] == before[i + 1..]
  {
    assert after[..j - 1] == before[..j - 1];
    assert after[j..i + 1] == [before[j - 1]] + before[j + 1..i + 1];
    assert before[..j] == before[..j - 1] + [before[j - 1]];
  }

  /** A prefix read as the part before `j`, the element at `j`, and the rest. */
  lemma PrefixAround<T>(s: seq<T>, j: int, i: int)
    requires 0 <= j <= i < |s|
    ensures s[..i + 1] == s[..j] + [s[j]] + s[j + 1..i + 1]
  {
  }

  /** One step of the insertion sort: moves `a[i]` down into the sorted prefix
      `a[..i]` by swapping it with each greater-keyed neighbour. */
  method InsertInPlace<T(!new)>(a: array<T>, i: nat, key: T -> real)
    requires i < a.Length
    modifies a
    ensures a[..i + 1] == Insert(old(a[..i]), old(a[i]), key)
    ensures a[i + 1..] == old(a[i + 1..])
  {
    ghost var sorted, rest := a[..i], a[i + 1..];
    var x := a[i];
    var j := i;
    while j > 0 && key(a[j - 1]) < key(x)
      invariant 0 <= j <= i
      invariant a[j] == x
      invariant a[..j] + a[j + 1..i + 1] == sorted
      invariant forall m :: j < m <= i ==> key(a[m]) < key(x)
      invariant a[i + 1..] == rest
    {
      ghost var before := a[..];
      a[j - 1], a[j] := a[j], a[j - 1];
      SwapDown(before, a[..], j, i);
      j := j - 1;
    }
    ghost var p, q := a[..j], a[j + 1..i + 1];
    InsertAt(p, q, x, key);
    PrefixAround(a[..], j, i);
  }

  /** The sort in place on an array, as an insertion sort. */
  method SortInPlace<T(!new)>(a: array<T>, key: T -> real)
    modifies a
    ensures a[..] == Sort(old(a[..]), key)
  {
    ghost var input := a[..];
    var i := 0;
    while i < a.Length
      invariant 0 <= i <= a.Length
      invariant a[..i] == Sort(input[..i], key)
      invariant a[i..] == input[i..]
    {
      assert Sort(input[..i + 1], key) == Insert(Sort(input[..i], key), input[i], key) by {
        assert input[..i + 1][..i] == input[..i];
      }
      assert a[i] == input[i] && a[i + 1..] == input[i + 1..] by {
        assert a[i..][0] == a[i] && a[i..][1..] == a[i + 1..];
      }
      InsertInPlace(a, i, key);
      i := i + 1;
    }
    assert input[..a.Length] == input;
  }
}
