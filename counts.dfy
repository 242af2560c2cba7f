/** Occurrence counts, sums and the two per-class count tables of the classifier datasets. */
module Counts {

  /** Number of occurrences of `x` in `s` (Python's `Counter(s)[x]`). */
  function CountOf<T(==)>(s: seq<T>, x: T): (n: nat)
    ensures n <= |s|
    ensures n > 0 <==> x in s
  {
    if s == [] then 0
    else
      assert s == s[..|s| - 1] + [s[|s| - 1]];
      CountOf(s[..|s| - 1], x) + (if s[|s| - 1] == x then 1 else 0)
  }

  /** The positions at which `x` occurs in `s`. */
  function Positions<T(==)>(s: seq<T>, x: T): set<nat> {
    set k: nat | k < |s| && s[k] == x
  }

  /** Counting occurrences is counting the positions that hold the value. */
  lemma {:induction false} CountOfPositions<T>(s: seq<T>, x: T)
    ensures CountOf(s, x) == |Positions(s, x)|
  {
    if s != [] {
      var init := s[..|s| - 1];
      CountOfPositions(init, x);
      var last := |s| - 1;
      assert Positions(s, x) == Positions(init, x) + (if s[last] == x then {last} else {});
      assert last !in Positions(init, x);
    }
  }

  function Sum(s: seq<int>): int {
    if s == [] then 0 else Sum(s[..|s| - 1]) + s[|s| - 1]
  }

  /** Plain histogram: entry `c` is the number of labels equal to `c`. */
  function Histogram(labels: seq<nat>, n: nat): seq<nat> {
    seq(n, (c: nat) => CountOf(labels, c))
  }

  /** A count table floored at one: classes never seen count as one sample. */
  function Floored(h: seq<nat>): seq<nat> {
    seq(|h|, c requires 0 <= c < |h| => if h[c] > 0 then h[c] else 1)
  }

  lemma {:induction false} SumOfZeros(s: seq<int>)
    requires forall c :: 0 <= c < |s| ==> s[c] == 0
    ensures Sum(s) == 0
  {
    if s != [] {
      SumOfZeros(s[..|s| - 1]);
    }
  }

  /** Adding `d` to one entry adds `d` to the sum. */
  lemma {:induction false} SumOfUpdate(s: seq<int>, c: nat, d: int)
    requires c < |s|
    ensures Sum(s[c := s[c] + d]) == Sum(s) + d
  {
    var t := s[c := s[c] + d];
    if c == |s| - 1 {
      assert t[..|t| - 1] == s[..|s| - 1];
    } else {
      assert t[..|t| - 1] == s[..|s| - 1][c := s[c] + d];
      SumOfUpdate(s[..|s| - 1], c, d);
    }
  }

  /** Appending one in-range label bumps exactly its own histogram entry. */
  lemma HistogramSnoc(labels: seq<nat>, l: nat, n: nat)
    requires l < n
    ensures Histogram(labels + [l], n) == Histogram(labels, n)[l := CountOf(labels, l) + 1]
  {
    var ls := labels + [l];
    assert ls[..|ls| - 1] == labels;
    forall c | 0 <= c < n
      ensures Histogram(ls, n)[c] == Histogram(labels, n)[l := CountOf(labels, l) + 1][c]
    {
      assert CountOf(ls, c) == CountOf(labels, c) + (if l == c then 1 else 0);
    }
  }

  /** When every label names a class, the histogram's entries add up to the number of labels. */
  lemma {:induction false} HistogramSum(labels: seq<nat>, n: nat)
    requires forall j :: 0 <= j < |labels| ==> labels[j] < n
    ensures Sum(Histogram(labels, n)) == |labels|
  {
    if labels == [] {
      SumOfZeros(Histogram(labels, n));
    } else {
      var init, l := labels[..|labels| - 1], labels[|labels| - 1];
      assert labels == init + [l];
      HistogramSum(init, n);
      HistogramSnoc(init, l, n);
      SumOfUpdate(Histogram(init, n), l, 1);
    }
  }

  /** Flooring adds one sample for each empty class and nothing else. */
  lemma {:induction false} FlooredSum(h: seq<nat>)
    ensures Sum(Floored(h)) == Sum(h) + CountOf(h, 0)
  {
    if h != [] {
      var init := h[..|h| - 1];
      assert Floored(h)[..|h| - 1] == Floored(init);
      FlooredSum(init);
    }
  }

  /** Two sequences that agree, position by position, on "is `x`" and "is `y`" count them equally often. */
  lemma {:induction false} CountOfTransfer<A, B>(a: seq<A>, x: A, b: seq<B>, y: B)
    requires |a| == |b|
    requires forall j :: 0 <= j < |a| ==> (a[j] == x <==> b[j] == y)
    ensures CountOf(a, x) == CountOf(b, y)
  {
    if a != [] {
      CountOfTransfer(a[..|a| - 1], x, b[..|b| - 1], y);
    }
  }

  /**
   * The two count tables side by side: the histogram adds up to the number of labels; the
   * floored table adds one for every empty class, is never below one, and differs from the
   * histogram exactly at the classes no label names.
   */
  lemma CountTablesCompared(labels: seq<nat>, n: nat)
    requires forall j :: 0 <= j < |labels| ==> labels[j] < n
    ensures Sum(Histogram(labels, n)) == |labels|
    ensures Sum(Floored(Histogram(labels, n))) == |labels| + CountOf(Histogram(labels, n), 0)
    ensures forall c :: 0 <= c < n ==> Floored(Histogram(labels, n))[c] >= 1
    ensures forall c :: 0 <= c < n ==>
              && Floored(Histogram(labels, n))[c] >= Histogram(labels, n)[c]
              && (Floored(Histogram(labels, n))[c] == Histogram(labels, n)[c] <==> c in labels)
  {
    HistogramSum(labels, n);
    FlooredSum(Histogram(labels, n));
    forall c: nat | c < n ensures Histogram(labels, n)[c] == CountOf(labels, c) {}
  }
}
