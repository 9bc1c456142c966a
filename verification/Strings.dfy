/** Byte-wise string order, sorting and compaction, as the Go slices package defines them. */
module Strings {

  /** a <= b in byte-wise lexicographic order. */
  predicate Leq(a: string, b: string) {
    a == "" || (b != "" && (a[0] < b[0] || (a[0] == b[0] && Leq(a[1..], b[1..]))))
  }

  lemma {:induction false} LeqReflexive(a: string)
    ensures Leq(a, a)
  {
    if a != "" {
      LeqReflexive(a[1..]);
    }
  }

  lemma {:induction false} LeqTotal(a: string, b: string)
    ensures Leq(a, b) || Leq(b, a)
  {
    if a != "" && b != "" && a[0] == b[0] {
      LeqTotal(a[1..], b[1..]);
    }
  }

  lemma {:induction false} LeqAntisymmetric(a: string, b: string)
    requires Leq(a, b) && Leq(b, a)
    ensures a == b
  {
    if a != "" {
      LeqAntisymmetric(a[1..], b[1..]);
      assert a == [a[0]] + a[1..] && b == [b[0]] + b[1..];
    }
  }

  lemma {:induction false} LeqTransitive(a: string, b: string, c: string)
    requires Leq(a, b) && Leq(b, c)
    ensures Leq(a, c)
  {
    if a != "" && a[0] == b[0] == c[0] {
      LeqTransitive(a[1..], b[1..], c[1..]);
    }
  }

  predicate Less(a: string, b: string) { Leq(a, b) && a != b }

  ghost predicate Sorted(xs: seq<string>) {
    forall i, j :: 0 <= i <= j < |xs| ==> Leq(xs[i], xs[j])
  }

  ghost predicate StrictlyIncreasing(xs: seq<string>) {
    forall i, j :: 0 <= i < j < |xs| ==> Less(xs[i], xs[j])
  }

  ghost function Elements<T>(xs: seq<T>): set<T> { set x | x in xs }

  // ---------------------------------------------------------------- slices.Sort

  function Insert(x: string, xs: seq<string>): (r: seq<string>)
    ensures multiset(r) == multiset{x} + multiset(xs)
  {
    if xs == [] then [x]
    else if Leq(x, xs[0]) then [x] + xs
    else
      assert xs == [xs[0]] + xs[1..];
      [xs[0]] + Insert(x, xs[1..])
  }

  /** The sorted permutation of xs; it is unique, so any sorting algorithm computes it. */
  function Sort(xs: seq<string>): (r: seq<string>)
    ensures multiset(r) == multiset(xs)
  {
    if xs == [] then []
    else
      assert xs == [xs[0]] + xs[1..];
      Insert(xs[0], Sort(xs[1..]))
  }

  lemma {:induction false} InsertSorts(x: string, xs: seq<string>)
    requires Sorted(xs)
    ensures Sorted(Insert(x, xs))
  {
    if xs == [] {
      LeqReflexive(x);
    } else {
      LeqTotal(x, xs[0]);
      var r := Insert(x, xs);
      if Leq(x, xs[0]) {
        LeqReflexive(x);
        forall j | 0 <= j < |xs| ensures Leq(x, xs[j]) {
          LeqTransitive(x, xs[0], xs[j]);
        }
      } else {
        InsertSorts(x, xs[1..]);
        forall j | 0 <= j < |r| ensures Leq(r[0], r[j]) {
          if j == 0 { LeqReflexive(r[0]); }
          else {
            var t := Insert(x, xs[1..]);
            assert r[j] == t[j - 1] && t[j - 1] in multiset(t);
            if t[j - 1] != x {
              assert t[j - 1] in multiset(xs[1..]);
              var k :| 0 <= k < |xs[1..]| && xs[1..][k] == t[j - 1];
              assert xs[k + 1] == r[j];
            }
          }
        }
      }
    }
  }

  lemma {:induction false} SortSorts(xs: seq<string>)
    ensures Sorted(Sort(xs))
    ensures Elements(Sort(xs)) == Elements(xs)
  {
    if xs != [] {
      SortSorts(xs[1..]);
      InsertSorts(xs[0], Sort(xs[1..]));
    }
    forall x ensures x in Sort(xs) <==> x in xs {
      assert x in multiset(Sort(xs)) <==> x in multiset(xs);
    }
  }

  // ---------------------------------------------------------------- slices.Compact

  /** Drops each element equal to the one before it. */
  function Compact(xs: seq<string>): (r: seq<string>)
    ensures |xs| > 0 ==> |r| > 0 && r[0] == xs[0]
  {
    if |xs| <= 1 then xs
    else if xs[0] == xs[1] then Compact(xs[1..])
    else [xs[0]] + Compact(xs[1..])
  }

  lemma {:induction false} CompactKeepsElements(xs: seq<string>)
    ensures Elements(Compact(xs)) == Elements(xs)
  {
    if |xs| > 1 {
      CompactKeepsElements(xs[1..]);
      assert xs == [xs[0]] + xs[1..];
      assert Elements(xs) == {xs[0]} + Elements(xs[1..]);
      if xs[0] == xs[1] {
        assert xs[0] == xs[1..][0];
      } else {
        assert Elements(Compact(xs)) == {xs[0]} + Elements(Compact(xs[1..]));
      }
    }
  }

  lemma {:induction false} CompactIncreases(xs: seq<string>)
    requires Sorted(xs)
    ensures StrictlyIncreasing(Compact(xs))
  {
    if |xs| > 1 {
      CompactIncreases(xs[1..]);
      if xs[0] != xs[1] {
        var t := Compact(xs[1..]);
        CompactKeepsElements(xs[1..]);
        forall j | 0 <= j < |t| ensures Less(xs[0], t[j]) {
          assert t[j] in Elements(xs[1..]);
          var k :| 0 <= k < |xs[1..]| && xs[1..][k] == t[j];
          assert Leq(xs[0], xs[k + 1]);
          if t[j] == xs[0] {
            assert Leq(xs[1], xs[k + 1]) && Leq(xs[0], xs[1]);
            LeqAntisymmetric(xs[0], xs[1]);
          }
        }
      }
    }
  }

  /** A strictly increasing sequence is determined by its elements. */
  lemma {:induction false} IncreasingUnique(xs: seq<string>, ys: seq<string>)
    requires StrictlyIncreasing(xs) && StrictlyIncreasing(ys)
    requires Elements(xs) == Elements(ys)
    ensures xs == ys
  {
    assert ys != [] ==> ys[0] in Elements(ys);
    if xs == [] {
      assert Elements(xs) == {};
    } else {
      assert xs[0] in Elements(ys);
      var i :| 0 <= i < |ys| && ys[i] == xs[0];
      assert ys[0] in Elements(xs);
      var j :| 0 <= j < |xs| && xs[j] == ys[0];
      if i > 0 && j > 0 {
        assert Less(ys[0], ys[i]) && Less(xs[0], xs[j]);
        LeqAntisymmetric(xs[0], ys[0]);
        assert false;
      }
      assert xs[0] == ys[0];
      TailElements(xs);
      TailElements(ys);
      IncreasingUnique(xs[1..], ys[1..]);
      assert xs == [xs[0]] + xs[1..] && ys == [ys[0]] + ys[1..];
    }
  }

  lemma TailElements(xs: seq<string>)
    requires |xs| > 0 && StrictlyIncreasing(xs)
    ensures StrictlyIncreasing(xs[1..])
    ensures Elements(xs[1..]) == Elements(xs) - {xs[0]}
  {
    assert xs == [xs[0]] + xs[1..];
    forall x | x in Elements(xs) - {xs[0]} ensures x in xs[1..] {
      var i :| 0 <= i < |xs| && xs[i] == x;
      assert xs[1..][i - 1] == x;
    }
    forall x | x in xs[1..] ensures x in Elements(xs) - {xs[0]} {
      var i :| 0 <= i < |xs[1..]| && xs[1..][i] == x;
      assert Less(xs[0], xs[i + 1]);
    }
  }

  lemma {:induction false} IncreasingSize(xs: seq<string>)
    requires StrictlyIncreasing(xs)
    ensures |Elements(xs)| == |xs|
  {
    if xs != [] {
      TailElements(xs);
      IncreasingSize(xs[1..]);
      assert Elements(xs) == Elements(xs[1..]) + {xs[0]};
    }
  }

  // ---------------------------------------------------------------- the order itself

  /** The strings differ at i for the first time, and a has the smaller byte there, or ends. */
  ghost predicate DiffersAt(a: string, b: string, i: nat) {
    && i <= |a| && i < |b| && a[..i] == b[..i] && (i == |a| || a[i] < b[i])
  }

  lemma DiffersLater(a: string, b: string, i: nat)
    requires DiffersAt(a, b, i) && i > 0
    ensures a != "" && b != "" && a[0] == b[0]
  {
    assert a[..i][0] == a[0] && b[..i][0] == b[0];
  }

  /** Leq is the order of bytes: equal, or smaller where the strings first differ, a prefix being smaller. */
  lemma {:induction false} LeqIsLexicographic(a: string, b: string)
    ensures Leq(a, b) <==> a == b || exists i: nat :: DiffersAt(a, b, i)
  {
    if a != "" && b != "" && a[0] == b[0] {
      LeqIsLexicographic(a[1..], b[1..]);
      assert a == [a[0]] + a[1..] && b == [b[0]] + b[1..];
      if i: nat :| DiffersAt(a[1..], b[1..], i) {
        assert a[..i + 1] == [a[0]] + a[1..][..i] && b[..i + 1] == [b[0]] + b[1..][..i];
        assert DiffersAt(a, b, i + 1);
      }
      if i: nat :| DiffersAt(a, b, i) {
        assert i > 0;
        assert a[1..][..i - 1] == a[..i][1..] && b[1..][..i - 1] == b[..i][1..];
        assert DiffersAt(a[1..], b[1..], i - 1);
      }
    } else {
      if i: nat :| DiffersAt(a, b, i) && i > 0 {
        DiffersLater(a, b, i);
      }
      if Leq(a, b) && a != b {
        assert DiffersAt(a, b, 0);
      }
    }
  }
}
