/** Finite sums of reals over a sequence, and the exchange laws the graph metrics rest on. */
module Sums {

  ghost predicate Distinct<T>(xs: seq<T>) {
    forall i, j :: 0 <= i < j < |xs| ==> xs[i] != xs[j]
  }

  lemma HeadIn<T>(xs: seq<T>)
    ensures xs == [] || xs[0] in xs
  {
  }

  /** The sum of f over xs. It recurses on the last element, so that appending adds one term. */
  ghost function Sum<T>(xs: seq<T>, f: T -> real): real {
    if xs == [] then 0.0 else Sum(xs[..|xs| - 1], f) + f(xs[|xs| - 1])
  }

  ghost function Product<T>(xs: seq<T>, f: T -> real): real {
    if xs == [] then 1.0 else Product(xs[..|xs| - 1], f) * f(xs[|xs| - 1])
  }

  lemma ProductSnoc<T>(xs: seq<T>, x: T, f: T -> real)
    ensures Product(xs + [x], f) == Product(xs, f) * f(x)
  {
    assert (xs + [x])[..|xs|] == xs;
  }

  lemma {:induction false} ProductCongr<T>(xs: seq<T>, f: T -> real, g: T -> real)
    requires forall x :: x in xs ==> f(x) == g(x)
    ensures Product(xs, f) == Product(xs, g)
  {
    if xs != [] { ProductCongr(xs[..|xs| - 1], f, g); }
  }

  lemma SumSnoc<T>(xs: seq<T>, x: T, f: T -> real)
    ensures Sum(xs + [x], f) == Sum(xs, f) + f(x)
  {
    assert (xs + [x])[..|xs|] == xs;
  }

  lemma SumPrefix<T>(xs: seq<T>, i: nat, f: T -> real)
    requires i < |xs|
    ensures Sum(xs[..i + 1], f) == Sum(xs[..i], f) + f(xs[i])
  {
    assert xs[..i + 1] == xs[..i] + [xs[i]];
    SumSnoc(xs[..i], xs[i], f);
  }

  lemma {:induction false} SumCongr<T>(xs: seq<T>, f: T -> real, g: T -> real)
    requires forall x :: x in xs ==> f(x) == g(x)
    ensures Sum(xs, f) == Sum(xs, g)
  {
    if xs != [] { SumCongr(xs[..|xs| - 1], f, g); }
  }

  lemma {:induction false} SumLe<T>(xs: seq<T>, f: T -> real, g: T -> real)
    requires forall x :: x in xs ==> f(x) <= g(x)
    ensures Sum(xs, f) <= Sum(xs, g)
  {
    if xs != [] { SumLe(xs[..|xs| - 1], f, g); }
  }

  /** Sums that are equal although no term of the first is larger have equal terms. */
  lemma {:induction false} SumTight<T>(xs: seq<T>, f: T -> real, g: T -> real)
    requires forall x :: x in xs ==> f(x) <= g(x)
    ensures Sum(xs, f) == Sum(xs, g) <==> forall x :: x in xs ==> f(x) == g(x)
  {
    if xs != [] {
      var init, last := xs[..|xs| - 1], xs[|xs| - 1];
      SumTight(init, f, g);
      SumLe(init, f, g);
      assert forall x :: x in xs <==> x in init || x == last;
    }
  }

  lemma {:induction false} SumAdd<T>(xs: seq<T>, f: T -> real, g: T -> real, h: T -> real)
    requires forall x :: x in xs ==> h(x) == f(x) + g(x)
    ensures Sum(xs, h) == Sum(xs, f) + Sum(xs, g)
  {
    if xs != [] { SumAdd(xs[..|xs| - 1], f, g, h); }
  }

  lemma {:induction false} SumScale<T>(xs: seq<T>, c: real, f: T -> real, h: T -> real)
    requires forall x :: x in xs ==> h(x) == c * f(x)
    ensures Sum(xs, h) == c * Sum(xs, f)
  {
    if xs != [] { SumScale(xs[..|xs| - 1], c, f, h); }
  }

  lemma SumAffine<T>(xs: seq<T>, a: real, f: T -> real, b: real, g: T -> real, h: T -> real)
    requires forall x :: x in xs ==> h(x) == a * f(x) + b * g(x)
    ensures Sum(xs, h) == a * Sum(xs, f) + b * Sum(xs, g)
  {
    var left, right: T -> real := x => a * f(x), x => b * g(x);
    SumScale(xs, a, f, left);
    SumScale(xs, b, g, right);
    SumAdd(xs, left, right, h);
  }

  lemma {:induction false} SumConst<T>(xs: seq<T>, c: real, f: T -> real)
    requires forall x :: x in xs ==> f(x) == c
    ensures Sum(xs, f) == c * |xs| as real
  {
    if xs != [] { SumConst(xs[..|xs| - 1], c, f); }
  }

  lemma SumZero<T>(xs: seq<T>, f: T -> real)
    requires forall x :: x in xs ==> f(x) == 0.0
    ensures Sum(xs, f) == 0.0
  {
    SumConst(xs, 0.0, f);
  }

  lemma {:induction false} SumNonNegative<T>(xs: seq<T>, f: T -> real)
    requires forall x :: x in xs ==> 0.0 <= f(x)
    ensures 0.0 <= Sum(xs, f)
    ensures forall x :: x in xs ==> f(x) <= Sum(xs, f)
  {
    if xs != [] { SumNonNegative(xs[..|xs| - 1], f); }
  }

  /** Changing a summand at one element changes the sum by that difference. */
  lemma {:induction false} SumPoint<T>(xs: seq<T>, f: T -> real, g: T -> real, y: T)
    requires Distinct(xs) && y in xs
    requires forall x :: x in xs && x != y ==> f(x) == g(x)
    ensures Sum(xs, g) == Sum(xs, f) + g(y) - f(y)
  {
    var init := xs[..|xs| - 1];
    if xs[|xs| - 1] == y {
      SumCongr(init, f, g);
    } else {
      SumPoint(init, f, g, y);
    }
  }

  /** A sum whose terms vanish except at one element. */
  lemma SumSingle<T>(xs: seq<T>, f: T -> real, y: T)
    requires Distinct(xs) && y in xs
    requires forall x :: x in xs && x != y ==> f(x) == 0.0
    ensures Sum(xs, f) == f(y)
  {
    var zero: T -> real := _ => 0.0;
    SumZero(xs, zero);
    SumPoint(xs, zero, f, y);
  }

  /** Exchange of a double sum; f gives the row sums and g the column sums of the table h. */
  lemma {:induction false} SumSwap<T, U>(xs: seq<T>, ys: seq<U>, f: T -> real, g: U -> real, h: (T, U) -> real)
    requires forall x :: x in xs ==> f(x) == Sum(ys, y => h(x, y))
    requires forall y :: y in ys ==> g(y) == Sum(xs, x => h(x, y))
    ensures Sum(xs, f) == Sum(ys, g)
  {
    if xs == [] {
      SumZero(ys, g);
    } else {
      var init, last := xs[..|xs| - 1], xs[|xs| - 1];
      var rest: U -> real := y => Sum(init, x => h(x, y));
      var row: U -> real := y => h(last, y);
      SumSwap(init, ys, f, rest, h);
      forall y | y in ys ensures g(y) == rest(y) + row(y) {
        var column: T -> real := x => h(x, y);
        SumCongr(xs, column, x => h(x, y));
        SumCongr(init, column, x => h(x, y));
      }
      SumAdd(ys, rest, row, g);
      SumCongr(ys, row, y => h(last, y));
    }
  }

  /** Exchange inside a composition: the sum over v of a(v) times a row sum is a sum of column sums. */
  lemma SumCompose<T>(xs: seq<T>, e: T -> bool, a: T -> real, b: (T, T) -> real, f: T -> real, g: T -> real)
    requires forall v :: v in xs ==> f(v) == a(v) * Sum(xs, u => if e(u) then b(v, u) else 0.0)
    requires forall u :: u in xs ==> g(u) == if e(u) then Sum(xs, v => a(v) * b(v, u)) else 0.0
    ensures Sum(xs, f) == Sum(xs, g)
  {
    var table := (v: T, u: T) => if e(u) then a(v) * b(v, u) else 0.0;
    forall v | v in xs ensures f(v) == Sum(xs, u => table(v, u)) {
      SumScale(xs, a(v), u => if e(u) then b(v, u) else 0.0, u => table(v, u));
    }
    forall u | u in xs ensures g(u) == Sum(xs, v => table(v, u)) {
      if e(u) {
        SumCongr(xs, v => a(v) * b(v, u), v => table(v, u));
      } else {
        SumZero(xs, v => table(v, u));
      }
    }
    SumSwap(xs, xs, f, g, table);
  }

  /** Two duplicate-free lists that cover the same non-zero terms have the same sum. */
  lemma {:induction false} SumSupport<T>(xs: seq<T>, ys: seq<T>, f: T -> real, g: T -> real)
    requires Distinct(xs) && Distinct(ys)
    requires forall y :: y in ys ==> y in xs && g(y) == f(y)
    requires forall x :: x in xs && x !in ys ==> f(x) == 0.0
    ensures Sum(xs, f) == Sum(ys, g)
  {
    if ys == [] {
      SumZero(xs, f);
    } else {
      var init, last := ys[..|ys| - 1], ys[|ys| - 1];
      var f' := (x: T) => if x == last then 0.0 else f(x);
      SumSupport(xs, init, f', g);
      SumPoint(xs, f', f, last);
    }
  }

  lemma {:induction false} DistinctCard<T>(xs: seq<T>, s: set<T>)
    requires Distinct(xs) && (forall x :: x in s <==> x in xs)
    ensures |s| == |xs|
  {
    if xs != [] {
      var init, last := xs[..|xs| - 1], xs[|xs| - 1];
      assert forall x :: x in init ==> x in xs && x != last;
      assert forall x :: x in xs ==> x in init || x == last;
      DistinctCard(init, s - {last});
    } else {
      assert s == {};
    }
  }

  lemma DistinctLength<T>(xs: seq<T>, ys: seq<T>)
    requires Distinct(xs) && Distinct(ys) && forall x :: x in xs ==> x in ys
    ensures |xs| <= |ys|
  {
    var a, b := set x | x in xs, set y | y in ys;
    DistinctCard(xs, a);
    DistinctCard(ys, b);
    assert b == a + (b - a);
  }

  /** Counting the members of a subset through an indicator sum. */
  lemma {:induction false} SumIndicator<T>(xs: seq<T>, s: set<T>, c: real, f: T -> real)
    requires Distinct(xs) && forall x :: x in s ==> x in xs
    requires forall x :: x in xs ==> f(x) == if x in s then c else 0.0
    ensures Sum(xs, f) == c * |s| as real
    decreases |s|
  {
    if s == {} {
      SumZero(xs, f);
    } else {
      var y :| y in s;
      var f' := (x: T) => if x in s - {y} then c else 0.0;
      SumIndicator(xs, s - {y}, c, f');
      SumPoint(xs, f', f, y);
      assert |s| == |s - {y}| + 1;
    }
  }
}
