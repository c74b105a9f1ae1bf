/** Scans over a row of yes/no marks, and positions moved along a text. Splitting an
    archive is a scan of where the split pattern matches; these lemmas say how such a
    scan behaves when the text is extended in front. */
module Scans {
  /** Concatenation regroups freely; stated once for every element type. */
  lemma AppendAssoc<T>(a: seq<T>, b: seq<T>, c: seq<T>)
    ensures (a + b) + c == a + (b + c)
  {
  }

  /** Positions moved `d` further on. */
  function Shift(ps: seq<nat>, d: nat): (r: seq<nat>)
    ensures |r| == |ps|
  {
    if ps == [] then [] else [ps[0] + d] + Shift(ps[1..], d)
  }

  lemma {:induction false} ShiftAt(ps: seq<nat>, d: nat)
    ensures forall k :: 0 <= k < |ps| ==> Shift(ps, d)[k] == ps[k] + d
    decreases |ps|
  {
    if ps != [] {
      ShiftAt(ps[1..], d);
    }
  }

  lemma ShiftCons(x: nat, ps: seq<nat>, d: nat)
    ensures Shift([x] + ps, d) == [x + d] + Shift(ps, d)
  {
    assert ([x] + ps)[1..] == ps;
  }

  /** The marks `f(i)`, ..., `f(n - 1)`. */
  function Tabulate(f: nat -> bool, i: nat, n: nat): seq<bool>
    requires i <= n
    decreases n - i
  {
    if i == n then [] else [f(i)] + Tabulate(f, i + 1, n)
  }

  lemma {:induction false} TabulateAt(f: nat -> bool, i: nat, n: nat)
    requires i <= n
    ensures |Tabulate(f, i, n)| == n - i
    ensures forall k :: 0 <= k < n - i ==> Tabulate(f, i, n)[k] == f(i + k)
    decreases n - i
  {
    if i < n {
      var rest := Tabulate(f, i + 1, n);
      assert Tabulate(f, i, n) == [f(i)] + rest;
      TabulateAt(f, i + 1, n);
      forall k | 0 < k < n - i
        ensures Tabulate(f, i, n)[k] == f(i + k)
      {
        assert rest[k - 1] == f(i + 1 + (k - 1));
      }
    }
  }

  /** The positions from `i` on that are marked, in increasing order. */
  function Marked(x: seq<bool>, i: nat): seq<nat>
    requires i <= |x|
    decreases |x| - i
  {
    if i == |x| then [] else (if x[i] then [i] else []) + Marked(x, i + 1)
  }

  /** Unmarked positions contribute nothing. */
  lemma {:induction false} MarkedSkip(x: seq<bool>, i: nat, j: nat)
    requires i <= j <= |x| && forall p :: i <= p < j ==> !x[p]
    ensures Marked(x, i) == Marked(x, j)
    decreases j - i
  {
    if i < j {
      assert !x[i];
      assert Marked(x, i) == [] + Marked(x, i + 1);
      MarkedSkip(x, i + 1, j);
    }
  }

  /** Where `x` repeats `y` from `d` on, its marked positions there are those of `y`,
      moved by `d`. */
  lemma {:induction false} MarkedShift(x: seq<bool>, y: seq<bool>, d: nat, i: nat)
    requires |x| == |y| + d && i <= |y|
    requires forall p :: i <= p < |y| ==> x[p + d] == y[p]
    ensures Marked(x, i + d) == Shift(Marked(y, i), d)
    decreases |y| - i
  {
    if i < |y| {
      MarkedShift(x, y, d, i + 1);
      var rest := Marked(y, i + 1);
      assert Marked(x, i + d) == (if y[i] then [i + d] else []) + Shift(rest, d);
      assert Marked(y, i) == (if y[i] then [i] else []) + rest;
      if y[i] {
        ShiftCons(i, rest, d);
      } else {
        assert Marked(y, i) == rest;
      }
    }
  }

  /** A row marked at 0, unmarked up to `d`, then repeating `y`. */
  predicate ConsShape(x: seq<bool>, y: seq<bool>, d: nat) {
    && 0 < d && |x| == |y| + d && x[0]
    && (forall p :: 0 < p < d ==> !x[p])
    && (forall p :: 0 <= p < |y| ==> x[p + d] == y[p])
  }

  /** Its marks are 0 followed by those of `y`, moved by `d`. */
  lemma MarkedCons(x: seq<bool>, y: seq<bool>, d: nat)
    requires ConsShape(x, y, d)
    ensures Marked(x, 0) == [0] + Shift(Marked(y, 0), d)
  {
    MarkedSkip(x, 1, d);
    MarkedShift(x, y, d, 0);
  }
}
