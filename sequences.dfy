/** Joining strings with a separator (JavaScript `Array.prototype.join`),
    splitting them again (`String.prototype.split` on one character), and
    subsequences picked at increasing positions, the shape of a row filter. */
module Sequences {

  /** `parts.join(sep)`: the parts with one separator between neighbours. */
  function Join(parts: seq<string>, sep: char): string
  {
    if |parts| == 0 then ""
    else if |parts| == 1 then parts[0]
    else parts[0] + [sep] + Join(parts[1..], sep)
  }

  /** `s.split(sep)`: the maximal separator-free pieces, always at least one. */
  function Split(s: string, sep: char): (parts: seq<string>)
    ensures |parts| >= 1
  {
    if s == [] then [""]
    else if s[0] == sep then [""] + Split(s[1..], sep)
    else
      var rest := Split(s[1..], sep);
      [[s[0]] + rest[0]] + rest[1..]
  }

  /** A piece that holds no separator splits to itself. */
  lemma {:induction false} SplitNoSeparator(s: string, sep: char)
    requires sep !in s
    ensures Split(s, sep) == [s]
  {
    if s != [] {
      assert s[0] != sep;
      SplitNoSeparator(s[1..], sep);
      assert [s[0]] + s[1..] == s;
    }
  }

  /** Splitting `a + [sep] + rest` yields `a` followed by the pieces of `rest`. */
  lemma {:induction false} SplitAfterPiece(a: string, sep: char, rest: string)
    requires sep !in a
    ensures Split(a + [sep] + rest, sep) == [a] + Split(rest, sep)
  {
    if a == [] {
      assert a + [sep] + rest == [sep] + rest;
    } else {
      assert (a + [sep] + rest)[1..] == a[1..] + [sep] + rest;
      assert (a + [sep] + rest)[0] == a[0] != sep;
      SplitAfterPiece(a[1..], sep, rest);
      assert [a[0]] + a[1..] == a;
    }
  }

  /** Splitting undoes joining whenever no part contains the separator. */
  lemma {:induction false} SplitJoin(parts: seq<string>, sep: char)
    requires |parts| >= 1
    requires forall i :: 0 <= i < |parts| ==> sep !in parts[i]
    ensures Split(Join(parts, sep), sep) == parts
  {
    if |parts| == 1 {
      SplitNoSeparator(parts[0], sep);
    } else {
      SplitJoin(parts[1..], sep);
      SplitAfterPiece(parts[0], sep, Join(parts[1..], sep));
      assert [parts[0]] + parts[1..] == parts;
    }
  }

  /** Every character of a joined string is the separator or comes from a part. */
  lemma {:induction false} JoinCharacters(parts: seq<string>, sep: char, c: char)
    requires c in Join(parts, sep)
    ensures c == sep || exists i :: 0 <= i < |parts| && c in parts[i]
  {
    if |parts| > 1 {
      if c in parts[0] {
      } else if c != sep {
        JoinCharacters(parts[1..], sep, c);
        var i :| 0 <= i < |parts[1..]| && c in parts[1..][i];
        assert c in parts[i + 1];
      }
    }
  }

  /** `kept` lists the elements of `s` at the strictly increasing positions
      `idx`: it is a subsequence of `s`, in the order of `s`. */
  predicate Picks<T(==)>(kept: seq<T>, s: seq<T>, idx: seq<int>)
  {
    && |idx| == |kept|
    && (forall j :: 0 <= j < |idx| ==> 0 <= idx[j] < |s| && kept[j] == s[idx[j]])
    && (forall j, k :: 0 <= j < k < |idx| ==> idx[j] < idx[k])
  }

  /** Every position moved one further on. */
  function Shifted(idx: seq<int>): (r: seq<int>)
    ensures |r| == |idx|
    ensures forall j :: 0 <= j < |idx| ==> r[j] == idx[j] + 1
  {
    seq(|idx|, j requires 0 <= j < |idx| => idx[j] + 1)
  }

  lemma ShiftedHas(idx: seq<int>, i: int)
    ensures i in Shifted(idx) <==> i - 1 in idx
  {
    if i - 1 in idx {
      var j :| 0 <= j < |idx| && idx[j] == i - 1;
      assert Shifted(idx)[j] == i;
    }
  }

  /** Positions picked from a tail of length `n`, moved one further on: 0 is
      not among them, and `i` is exactly when `i - 1` was. */
  lemma PickedAfterHead(idx: seq<int>, i: int, n: int)
    requires forall j :: 0 <= j < |idx| ==> 0 <= idx[j] < n
    ensures i in Shifted(idx) <==> i - 1 in idx
    ensures 0 !in Shifted(idx)
  {
    ShiftedHas(idx, i);
    ShiftedHas(idx, 0);
  }

  /** A pick from the tail of a sequence is a pick from the whole one position
      further on, and the head may be picked in front of it. */
  lemma PicksCons<T>(x: T, rest: seq<T>, kept: seq<T>, idx: seq<int>)
    requires Picks(kept, rest, idx)
    ensures Picks(kept, [x] + rest, Shifted(idx))
    ensures Picks([x] + kept, [x] + rest, [0] + Shifted(idx))
  {
    var s := [x] + rest;
    forall j | 0 <= j < |idx|
      ensures s[Shifted(idx)[j]] == kept[j]
    {
      assert s[idx[j] + 1] == rest[idx[j]];
    }
  }

  /** Strictly increasing positions are distinct, so there are as many
      positions as entries. */
  lemma {:induction false} PositionsCount(idx: seq<int>)
    requires forall j, k :: 0 <= j < k < |idx| ==> idx[j] < idx[k]
    ensures |set j | j in idx| == |idx|
  {
    if idx != [] {
      PositionsCount(idx[1..]);
      assert (set j | j in idx) == {idx[0]} + (set j | j in idx[1..]);
      assert idx[0] !in (set j | j in idx[1..]);
    }
  }
}
