/** What every module needs: options, results, and selecting the elements of a list that
    pass a test, in order. */
module Lists {
  datatype Option<T> = None | Some(value: T)

  datatype Result<T, E> = Ok(value: T) | Err(error: E)

  function Min(a: nat, b: nat): nat { if a <= b then a else b }

  function Keep<T>(xs: seq<T>, f: T -> bool): (ys: seq<T>)
    ensures |ys| <= |xs|
  {
    if xs == [] then []
    else if f(xs[0]) then [xs[0]] + Keep(xs[1..], f)
    else Keep(xs[1..], f)
  }

  lemma {:induction false} KeepMembers<T(!new)>(xs: seq<T>, f: T -> bool)
    ensures forall y :: y in Keep(xs, f) <==> y in xs && f(y)
  {
    if xs != [] {
      KeepMembers(xs[1..], f);
      assert forall x :: x in xs <==> x == xs[0] || x in xs[1..];
    }
  }

  lemma Associates<T>(a: seq<T>, b: seq<T>, c: seq<T>)
    ensures a + b + c == a + (b + c)
  {
  }

  lemma KeepCons<T>(xs: seq<T>, f: T -> bool)
    requires xs != []
    ensures Keep(xs, f) == (if f(xs[0]) then [xs[0]] else []) + Keep(xs[1..], f)
  {
  }

  lemma {:induction false} KeepConcat<T>(a: seq<T>, b: seq<T>, f: T -> bool)
    ensures Keep(a + b, f) == Keep(a, f) + Keep(b, f)
  {
    if a == [] {
      assert a + b == b;
    } else {
      hide Keep;
      KeepConcat(a[1..], b, f);
      assert (a + b)[1..] == a[1..] + b && (a + b)[0] == a[0];
      KeepCons(a, f);
      KeepCons(a + b, f);
    }
  }

  /** Two complementary tests split a list into two parts that together are the list. */
  lemma {:induction false} KeepSplits<T(!new)>(xs: seq<T>, f: T -> bool, g: T -> bool)
    requires forall x :: f(x) != g(x)
    ensures multiset(Keep(xs, f)) + multiset(Keep(xs, g)) == multiset(xs)
  {
    if xs != [] {
      KeepSplits(xs[1..], f, g);
      hide Keep;
      KeepHead(xs, f);
      KeepHead(xs, g);
      MultisetCons(xs[0], xs[1..]);
      assert xs == [xs[0]] + xs[1..];
    }
  }

  lemma KeepHead<T>(xs: seq<T>, f: T -> bool)
    requires xs != []
    ensures multiset(Keep(xs, f)) == (if f(xs[0]) then multiset{xs[0]} else multiset{}) + multiset(Keep(xs[1..], f))
  {
    if f(xs[0]) { MultisetCons(xs[0], Keep(xs[1..], f)); }
  }

  lemma MultisetCons<T>(x: T, xs: seq<T>)
    ensures multiset([x] + xs) == multiset{x} + multiset(xs)
  {
  }

  lemma {:induction false} KeepAll<T>(xs: seq<T>, f: T -> bool)
    requires forall i :: 0 <= i < |xs| ==> f(xs[i])
    ensures Keep(xs, f) == xs
  {
    if xs != [] {
      KeepAll(xs[1..], f);
      assert xs == [xs[0]] + xs[1..];
    }
  }

  lemma {:induction false} KeepNone<T>(xs: seq<T>, f: T -> bool)
    requires forall i :: 0 <= i < |xs| ==> !f(xs[i])
    ensures Keep(xs, f) == []
  {
    if xs != [] { KeepNone(xs[1..], f); }
  }

  lemma KeepSnoc<T>(xs: seq<T>, x: T, f: T -> bool)
    ensures Keep(xs + [x], f) == if f(x) then Keep(xs, f) + [x] else Keep(xs, f)
  {
    KeepConcat(xs, [x], f);
    assert Keep([x], f) == if f(x) then [x] else [] by { assert [x][1..] == []; }
  }

  /** A coarser test applied afterwards does not see the finer one. */
  lemma {:induction false} KeepThrough<T>(xs: seq<T>, f: T -> bool, g: T -> bool)
    requires forall i :: 0 <= i < |xs| && g(xs[i]) ==> f(xs[i])
    ensures Keep(Keep(xs, f), g) == Keep(xs, g)
  {
    if xs != [] {
      var n := |xs| - 1;
      assert xs == xs[..n] + [xs[n]];
      KeepThrough(xs[..n], f, g);
      KeepSnoc(xs[..n], xs[n], f);
      KeepSnoc(xs[..n], xs[n], g);
      KeepSnoc(Keep(xs[..n], f), xs[n], g);
    }
  }
}
