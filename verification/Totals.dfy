/** Sums over lists of rows. Every balance of the platform is one of these. */
module Totals {

  function Total<T>(xs: seq<T>, f: T -> real): real
  {
    if xs == [] then 0.0 else Total(xs[..|xs| - 1], f) + f(xs[|xs| - 1])
  }

  /** The rows of a table that a `where` clause keeps, in table order. */
  function Select<T>(xs: seq<T>, keep: T -> bool): seq<T>
  {
    if xs == [] then []
    else
      var rest := Select(xs[..|xs| - 1], keep);
      if keep(xs[|xs| - 1]) then rest + [xs[|xs| - 1]] else rest
  }

  function Map<T, U>(xs: seq<T>, f: T -> U): (ys: seq<U>)
    ensures |ys| == |xs| && forall i :: 0 <= i < |xs| ==> ys[i] == f(xs[i])
  {
    seq(|xs|, i requires 0 <= i < |xs| => f(xs[i]))
  }

  lemma {:induction false} TotalConcat<T>(xs: seq<T>, ys: seq<T>, f: T -> real)
    ensures Total(xs + ys, f) == Total(xs, f) + Total(ys, f)
  {
    if ys == [] {
      assert xs + ys == xs;
    } else {
      assert (xs + ys)[..|xs + ys| - 1] == xs + ys[..|ys| - 1];
      TotalConcat(xs, ys[..|ys| - 1], f);
    }
  }

  lemma {:induction false} TotalDominated<T, U>(xs: seq<T>, f: T -> real, ys: seq<U>, g: U -> real)
    requires |xs| == |ys|
    requires forall i :: 0 <= i < |xs| ==> f(xs[i]) <= g(ys[i])
    ensures Total(xs, f) <= Total(ys, g)
  {
    if xs != [] {
      TotalDominated(xs[..|xs| - 1], f, ys[..|ys| - 1], g);
    }
  }

  /** A table that only grows, row by row and at its end, has a growing total. */
  lemma {:induction false} TotalGrows<T, U>(xs: seq<T>, f: T -> real, ys: seq<U>, g: U -> real)
    requires |xs| <= |ys|
    requires forall i :: 0 <= i < |xs| ==> f(xs[i]) <= g(ys[i])
    requires forall i :: |xs| <= i < |ys| ==> 0.0 <= g(ys[i])
    ensures Total(xs, f) <= Total(ys, g)
  {
    if |xs| == |ys| {
      TotalDominated(xs, f, ys, g);
    } else {
      TotalGrows(xs, f, ys[..|ys| - 1], g);
    }
  }

  lemma {:induction false} TotalSame<T, U>(xs: seq<T>, f: T -> real, ys: seq<U>, g: U -> real)
    requires |xs| == |ys|
    requires forall i :: 0 <= i < |xs| ==> f(xs[i]) == g(ys[i])
    ensures Total(xs, f) == Total(ys, g)
  {
    TotalDominated(xs, f, ys, g);
    TotalDominated(ys, g, xs, f);
  }

  lemma {:induction false} TotalPlus<T>(xs: seq<T>, f: T -> real, g: T -> real, h: T -> real)
    requires forall i :: 0 <= i < |xs| ==> f(xs[i]) == g(xs[i]) + h(xs[i])
    ensures Total(xs, f) == Total(xs, g) + Total(xs, h)
  {
    if xs != [] {
      TotalPlus(xs[..|xs| - 1], f, g, h);
    }
  }

  lemma {:induction false} TotalOfSign<T>(xs: seq<T>, f: T -> real)
    ensures (forall i :: 0 <= i < |xs| ==> f(xs[i]) == 0.0) ==> Total(xs, f) == 0.0
    ensures (forall i :: 0 <= i < |xs| ==> f(xs[i]) <= 0.0) ==>
              Total(xs, f) <= 0.0 && (Total(xs, f) == 0.0 <==> forall i :: 0 <= i < |xs| ==> f(xs[i]) == 0.0)
  {
    if xs != [] {
      var init := xs[..|xs| - 1];
      TotalOfSign(init, f);
      assert forall i :: 0 <= i < |init| ==> init[i] == xs[i];
    }
  }

  /** Replacing one row moves the total by exactly the difference of its two contributions. */
  lemma {:induction false} TotalReplaced<T>(xs: seq<T>, ys: seq<T>, f: T -> real, k: nat)
    requires k < |xs| == |ys|
    requires forall i :: 0 <= i < |xs| && i != k ==> f(xs[i]) == f(ys[i])
    ensures Total(ys, f) == Total(xs, f) - f(xs[k]) + f(ys[k])
  {
    if k == |xs| - 1 {
      TotalSame(xs[..k], f, ys[..k], f);
    } else {
      TotalReplaced(xs[..|xs| - 1], ys[..|xs| - 1], f, k);
    }
  }

  /** Summing a filtered and projected list is summing the whole table with the other rows counted as zero. */
  lemma {:induction false} TotalSelected<T, U>(xs: seq<T>, keep: T -> bool, project: T -> U, f: U -> real, g: T -> real)
    requires forall i :: 0 <= i < |xs| ==> g(xs[i]) == if keep(xs[i]) then f(project(xs[i])) else 0.0
    ensures Total(Map(Select(xs, keep), project), f) == Total(xs, g)
  {
    if xs != [] {
      var init, last := xs[..|xs| - 1], xs[|xs| - 1];
      TotalSelected(init, keep, project, f, g);
      if keep(last) {
        assert Map(Select(xs, keep), project) == Map(Select(init, keep), project) + [project(last)];
      }
    }
  }

  lemma {:induction false} SelectMembers<T>(xs: seq<T>, keep: T -> bool)
    ensures forall x :: x in Select(xs, keep) <==> x in xs && keep(x)
  {
    if xs != [] {
      SelectMembers(xs[..|xs| - 1], keep);
      assert xs == xs[..|xs| - 1] + [xs[|xs| - 1]];
    }
  }

  // ---------- Counting ----------

  function Count<T>(xs: seq<T>, p: T -> bool): nat
  {
    if xs == [] then 0 else Count(xs[..|xs| - 1], p) + if p(xs[|xs| - 1]) then 1 else 0
  }

  lemma {:induction false} CountIsZeroExactly<T>(xs: seq<T>, p: T -> bool)
    ensures Count(xs, p) == 0 <==> forall i :: 0 <= i < |xs| ==> !p(xs[i])
  {
    if xs != [] {
      var init := xs[..|xs| - 1];
      CountIsZeroExactly(init, p);
      assert forall i :: 0 <= i < |init| ==> init[i] == xs[i];
    }
  }

  lemma {:induction false} CountIsAtMostLength<T>(xs: seq<T>, p: T -> bool)
    ensures Count(xs, p) <= |xs|
  {
    if xs != [] {
      CountIsAtMostLength(xs[..|xs| - 1], p);
    }
  }

  lemma {:induction false} CountDominated<T, U>(xs: seq<T>, p: T -> bool, ys: seq<U>, q: U -> bool)
    requires |xs| == |ys|
    requires forall i :: 0 <= i < |xs| && p(xs[i]) ==> q(ys[i])
    ensures Count(xs, p) <= Count(ys, q)
  {
    if xs != [] {
      CountDominated(xs[..|xs| - 1], p, ys[..|ys| - 1], q);
    }
  }

  lemma {:induction false} CountConcat<T>(xs: seq<T>, ys: seq<T>, p: T -> bool)
    ensures Count(xs + ys, p) == Count(xs, p) + Count(ys, p)
  {
    if ys == [] {
      assert xs + ys == xs;
    } else {
      assert (xs + ys)[..|xs + ys| - 1] == xs + ys[..|ys| - 1];
      CountConcat(xs, ys[..|ys| - 1], p);
    }
  }

  lemma {:induction false} CountReplaced<T>(xs: seq<T>, k: nat, y: T, p: T -> bool)
    requires k < |xs|
    ensures Count(xs[k := y], p) == Count(xs, p) - (if p(xs[k]) then 1 else 0) + if p(y) then 1 else 0
  {
    var n := |xs| - 1;
    if k == n {
      assert xs[k := y][..n] == xs[..n];
    } else {
      assert xs[k := y][..n] == xs[..n][k := y];
      CountReplaced(xs[..n], k, y, p);
    }
  }

  lemma {:induction false} CountOfDistinct<T>(xs: seq<T>, p: T -> bool)
    requires forall i, j :: 0 <= i < j < |xs| ==> !(p(xs[i]) && p(xs[j]))
    ensures Count(xs, p) <= 1
  {
    if xs != [] {
      var init := xs[..|xs| - 1];
      CountOfDistinct(init, p);
      CountIsZeroExactly(init, p);
    }
  }
}
