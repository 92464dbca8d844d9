/** Ruby Array operations the card code uses: `uniq`, `&` and `delete`. */
module Seqs {

  predicate Distinct<T(==)>(xs: seq<T>) {
    forall i, j :: 0 <= i < j < |xs| ==> xs[i] != xs[j]
  }

  /** Index of the first occurrence of `x` in `xs`. */
  function FirstIndex<T(==)>(xs: seq<T>, x: T): (k: nat)
    requires x in xs
    ensures k < |xs| && xs[k] == x && x !in xs[..k]
  {
    if xs[0] == x then 0 else 1 + FirstIndex(xs[1..], x)
  }

  /** The elements of `xs` come from `ys` and stand in the order of their
      first occurrences there. */
  predicate InOrderOf<T(==)>(xs: seq<T>, ys: seq<T>) {
    forall i, j :: 0 <= i < j < |xs| ==>
      xs[i] in ys && xs[j] in ys && FirstIndex(ys, xs[i]) < FirstIndex(ys, xs[j])
  }

  /** Appending leaves the first occurrence of an earlier element alone. */
  lemma FirstIndexSnoc<T>(xs: seq<T>, x: T, y: T)
    requires y in xs
    ensures y in xs + [x] && FirstIndex(xs + [x], y) == FirstIndex(xs, y)
  {
    var ys := xs + [x];
    var k := FirstIndex(ys, y);
    var k' := FirstIndex(xs, y);
    assert forall i :: 0 <= i < k ==> ys[i] != y by {
      forall i | 0 <= i < k ensures ys[i] != y { assert ys[i] == ys[..k][i]; }
    }
    assert forall i :: 0 <= i < k' ==> xs[i] != y by {
      forall i | 0 <= i < k' ensures xs[i] != y { assert xs[i] == xs[..k'][i]; }
    }
    assert ys[k'] == xs[k'];
    assert k <= k';
    assert xs[k] == ys[k];
  }

  /** `Array#uniq`: the first occurrence of each element, in order. */
  function Dedup<T(==,!new)>(xs: seq<T>): (r: seq<T>)
    ensures Distinct(r)
    ensures forall x :: x in r <==> x in xs
    ensures forall i, j :: 0 <= i < j < |r| ==> FirstIndex(xs, r[i]) < FirstIndex(xs, r[j])
  {
    if |xs| == 0 then []
    else
      var p := xs[..|xs| - 1];
      var x := xs[|xs| - 1];
      assert xs == p + [x];
      var d := Dedup(p);
      if x in d then
        forall i, j | 0 <= i < j < |d|
          ensures FirstIndex(xs, d[i]) < FirstIndex(xs, d[j])
        {
          FirstIndexSnoc(p, x, d[i]);
          FirstIndexSnoc(p, x, d[j]);
        }
        d
      else
        var r := d + [x];
        assert FirstIndex(xs, x) == |p|;
        forall i, j | 0 <= i < j < |r|
          ensures FirstIndex(xs, r[i]) < FirstIndex(xs, r[j])
        {
          FirstIndexSnoc(p, x, r[i]);
          if j < |d| { FirstIndexSnoc(p, x, r[j]); }
        }
        r
  }

  /** A list without repeats is its own `uniq`. */
  lemma {:induction false} DedupDistinct<T(!new)>(xs: seq<T>)
    requires Distinct(xs)
    ensures Dedup(xs) == xs
  {
    if |xs| > 0 {
      var p := xs[..|xs| - 1];
      assert xs == p + [xs[|xs| - 1]];
      DedupDistinct(p);
    }
  }

  /** Appending an element already present leaves `uniq` unchanged. */
  lemma DedupRepeat<T(!new)>(xs: seq<T>, x: T)
    requires x in xs
    ensures Dedup(xs + [x]) == Dedup(xs)
  {
    var ys := xs + [x];
    assert ys[..|ys| - 1] == xs;
  }

  /** The elements of `xs` that occur in `ys`, in the order of `xs`. */
  function Filter<T(==,!new)>(xs: seq<T>, ys: seq<T>): (r: seq<T>)
    ensures forall x :: x in r <==> x in xs && x in ys
  {
    if |xs| == 0 then []
    else if xs[0] in ys then [xs[0]] + Filter(xs[1..], ys)
    else Filter(xs[1..], ys)
  }

  lemma {:induction false} FilterAppend<T(!new)>(a: seq<T>, b: seq<T>, ys: seq<T>)
    ensures Filter(a + b, ys) == Filter(a, ys) + Filter(b, ys)
  {
    if |a| > 0 {
      assert (a + b)[1..] == a[1..] + b;
      FilterAppend(a[1..], b, ys);
    } else {
      assert a + b == b;
    }
  }

  lemma {:induction false} FilterAllIn<T(!new)>(xs: seq<T>, ys: seq<T>)
    requires forall x :: x in xs ==> x in ys
    ensures Filter(xs, ys) == xs
  {
    if |xs| > 0 {
      FilterAllIn(xs[1..], ys);
    }
  }

  lemma {:induction false} FilterNoneIn<T(!new)>(xs: seq<T>, ys: seq<T>)
    requires forall x :: x in xs ==> x !in ys
    ensures Filter(xs, ys) == []
  {
    if |xs| > 0 {
      FilterNoneIn(xs[1..], ys);
    }
  }

  /** Ruby `xs & ys`: the elements of `xs` that are in `ys`, in the order
      of `xs`, each once. */
  function Intersect<T(==,!new)>(xs: seq<T>, ys: seq<T>): (r: seq<T>)
    ensures Distinct(r)
    ensures forall x :: x in r <==> x in xs && x in ys
    ensures forall i, j :: 0 <= i < j < |r| ==> r[i] in xs && r[j] in xs && FirstIndex(xs, r[i]) < FirstIndex(xs, r[j])
  {
    var f := Filter(xs, ys);
    var r := Dedup(f);
    forall i, j | 0 <= i < j < |r|
      ensures FirstIndex(xs, r[i]) < FirstIndex(xs, r[j])
    {
      FilterOrder(xs, ys, r[i], r[j]);
    }
    r
  }

  /** Filtering keeps the relative order of first occurrences. */
  lemma {:induction false} FilterOrder<T(!new)>(xs: seq<T>, ys: seq<T>, a: T, b: T)
    requires a in Filter(xs, ys) && b in Filter(xs, ys)
    requires FirstIndex(Filter(xs, ys), a) < FirstIndex(Filter(xs, ys), b)
    ensures FirstIndex(xs, a) < FirstIndex(xs, b)
  {
    var f := Filter(xs, ys);
    if xs[0] in ys {
      assert f == [xs[0]] + Filter(xs[1..], ys);
      if xs[0] == a {
      } else {
        assert xs[0] != b;
        assert FirstIndex(f, a) == 1 + FirstIndex(Filter(xs[1..], ys), a);
        assert FirstIndex(f, b) == 1 + FirstIndex(Filter(xs[1..], ys), b);
        FilterOrder(xs[1..], ys, a, b);
      }
    } else {
      assert xs[0] != a && xs[0] != b;
      FilterOrder(xs[1..], ys, a, b);
    }
  }

  /** `Array#delete(x)`: every occurrence of `x` removed, order kept. */
  function Without<T(==)>(xs: seq<T>, x: T): (r: seq<T>)
    ensures multiset(r) == multiset(xs)[x := 0]
  {
    if |xs| == 0 then []
    else
      assert xs == [xs[0]] + xs[1..];
      if xs[0] == x then Without(xs[1..], x) else [xs[0]] + Without(xs[1..], x)
  }

  /** Deleting distributes over concatenation, so order is kept. */
  lemma {:induction false} WithoutAppend<T>(a: seq<T>, b: seq<T>, x: T)
    ensures Without(a + b, x) == Without(a, x) + Without(b, x)
  {
    if |a| > 0 {
      assert (a + b)[1..] == a[1..] + b;
      WithoutAppend(a[1..], b, x);
    } else {
      assert a + b == b;
    }
  }

  /** `Array#delete` of an absent element changes nothing. */
  lemma {:induction false} WithoutAbsent<T>(xs: seq<T>, x: T)
    requires x !in xs
    ensures Without(xs, x) == xs
  {
    if |xs| > 0 {
      WithoutAbsent(xs[1..], x);
      assert xs == [xs[0]] + xs[1..];
    }
  }

  /** Deleting the one occurrence of `x` between `a` and `b` leaves `a + b`. */
  lemma WithoutMiddle<T>(a: seq<T>, x: T, b: seq<T>)
    requires x !in a && x !in b
    ensures Without(a + [x] + b, x) == a + b
  {
    WithoutAppend(a + [x], b, x);
    WithoutAppend(a, [x], x);
    WithoutAbsent(a, x);
    WithoutAbsent(b, x);
    assert [x][1..] == [];
    assert Without([x], x) == [];
    assert Without(a + [x], x) == a;
  }
}
