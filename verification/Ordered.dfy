/** Finite sets of numbers in ascending order: the iteration order of a sorted directory
    listing and of a `BTreeMap`. */
module Ordered {

  ghost predicate Ascends(q: seq<int>) {
    forall i, j :: 0 <= i < j < |q| ==> q[i] < q[j]
  }

  ghost predicate IsLeast(m: int, s: set<int>) {
    m in s && forall x :: x in s ==> m <= x
  }

  lemma EmptyOrInhabited(s: set<int>)
    ensures s == {} || exists x :: x in s
  {
    if !(exists x :: x in s) { assert s == {}; }
  }

  lemma {:induction false} LeastExists(s: set<int>) returns (m: int)
    requires s != {}
    ensures IsLeast(m, s)
  {
    EmptyOrInhabited(s);
    var x :| x in s;
    var rest := s - {x};
    m := x;
    if rest != {} {
      var r := LeastExists(rest);
      if r < x { m := r; }
    }
    forall y | y in s ensures m <= y {
      if y != x { assert y in rest; }
    }
  }

  ghost function Least(s: set<int>): (m: int)
    requires s != {}
    ensures IsLeast(m, s)
  {
    assert exists m :: IsLeast(m, s) by { var w := LeastExists(s); }
    var m :| IsLeast(m, s);
    m
  }

  /** The elements of `s` in ascending order. */
  ghost function Ascending(s: set<int>): (q: seq<int>)
    ensures |q| == |s|
    ensures Lists(q, s)
    ensures Ascends(q)
  {
    if s == {} then []
    else
      var m := Least(s);
      [m] + Ascending(s - {m})
  }

  lemma AscendingCons(s: set<int>, m: int)
    requires IsLeast(m, s)
    ensures Ascending(s) == [m] + Ascending(s - {m})
  {
    assert m == Least(s);
  }

  ghost predicate Lists(q: seq<int>, s: set<int>) {
    forall x :: x in q <==> x in s
  }

  lemma FirstIsLeast(q: seq<int>, s: set<int>)
    requires Ascends(q) && Lists(q, s) && q != []
    ensures IsLeast(q[0], s)
  {
    assert q[0] in q;
    forall x | x in s ensures q[0] <= x {
      assert x in q;
      var i :| 0 <= i < |q| && q[i] == x;
    }
  }

  lemma RestLists(q: seq<int>, s: set<int>)
    requires Ascends(q) && Lists(q, s) && q != []
    ensures Ascends(q[1..]) && Lists(q[1..], s - {q[0]})
  {
    forall x ensures x in q[1..] <==> x in s - {q[0]} {
      if x in q[1..] {
        var i :| 1 <= i < |q| && q[i] == x;
        assert x in q;
      }
      if x in s - {q[0]} {
        assert x in q;
        var i :| 0 <= i < |q| && q[i] == x;
        assert q[1..][i - 1] == x;
      }
    }
  }

  /** There is only one ascending sequence with given elements. */
  lemma {:induction false} AscendingUnique(q: seq<int>, s: set<int>)
    requires Ascends(q) && Lists(q, s)
    ensures q == Ascending(s)
  {
    if q == [] {
      forall x ensures x !in s { assert x !in q; }
      assert s == {};
    } else {
      FirstIsLeast(q, s);
      RestLists(q, s);
      AscendingUnique(q[1..], s - {q[0]});
      AscendingCons(s, q[0]);
    }
  }

  lemma AppendAscends(a: seq<int>, b: seq<int>)
    requires Ascends(a) && Ascends(b)
    requires forall i, j :: 0 <= i < |a| && 0 <= j < |b| ==> a[i] < b[j]
    ensures Ascends(a + b)
  {
    var q := a + b;
    forall i, j | 0 <= i < j < |q| ensures q[i] < q[j] {
      if i < |a| <= j {
        assert a[i] < b[j - |a|];
      }
    }
  }

  /** Elements below a bound come before the others. */
  lemma AscendingSplit(low: set<int>, high: set<int>)
    requires forall x, y :: x in low && y in high ==> x < y
    ensures Ascending(low + high) == Ascending(low) + Ascending(high)
  {
    var a, b := Ascending(low), Ascending(high);
    forall i, j | 0 <= i < |a| && 0 <= j < |b| ensures a[i] < b[j] {
      assert a[i] in a && b[j] in b;
    }
    AppendAscends(a, b);
    forall x ensures x in a + b <==> x in low + high {
      assert x in a + b <==> x in a || x in b;
    }
    AscendingUnique(a + b, low + high);
  }

  /** The numbers from `from` up, `n` of them. */
  function Range(from: int, n: nat): (q: seq<int>)
    ensures |q| == n
    ensures forall i :: 0 <= i < n ==> q[i] == from + i
  {
    seq(n, i => from + i)
  }

  lemma AscendingRange(from: int, n: nat, s: set<int>)
    requires forall x :: x in s <==> from <= x < from + n
    ensures Ascending(s) == Range(from, n)
  {
    var q := Range(from, n);
    forall x ensures x in q <==> x in s {
      if x in s { assert q[x - from] == x; }
    }
    AscendingUnique(q, s);
  }

  /** Every number moved up by `off`. */
  function Shift(q: seq<int>, off: int): (r: seq<int>)
    ensures |r| == |q|
    ensures forall k :: 0 <= k < |q| ==> r[k] == q[k] + off
  {
    seq(|q|, k requires 0 <= k < |q| => q[k] + off)
  }

  /** `t` is `s` moved up by `off`. */
  ghost predicate Shifted(s: set<int>, off: int, t: set<int>) {
    forall y :: y in t <==> y - off in s
  }

  lemma AscendingShift(s: set<int>, off: int, t: set<int>)
    requires Shifted(s, off, t)
    ensures Ascending(t) == Shift(Ascending(s), off)
  {
    var q := Ascending(s);
    var r := Shift(q, off);
    forall y ensures y in r <==> y in t { ShiftMember(q, s, off, t, y); }
    ShiftAscends(q, off);
    AscendingUnique(r, t);
  }

  lemma ShiftAscends(q: seq<int>, off: int)
    requires Ascends(q)
    ensures Ascends(Shift(q, off))
  {
  }

  lemma ShiftMember(q: seq<int>, s: set<int>, off: int, t: set<int>, y: int)
    requires Shifted(s, off, t) && Lists(q, s)
    ensures y in Shift(q, off) <==> y in t
  {
    hide Shifted;
    assert y in t <==> y - off in s by { ShiftedAt(s, off, t, y); }
    assert y - off in s <==> y - off in q;
    var r := Shift(q, off);
    if y in r {
      var k :| 0 <= k < |r| && r[k] == y;
      assert q[k] == y - off;
    }
    if y - off in q {
      var k :| 0 <= k < |q| && q[k] == y - off;
      assert r[k] == y;
    }
  }

  lemma ShiftedAt(s: set<int>, off: int, t: set<int>, y: int)
    requires Shifted(s, off, t)
    ensures y in t <==> y - off in s
  {
  }
}
