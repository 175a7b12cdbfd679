/** The list comprehension both developer tools are made of:
    `[f(x) for x in xs if keep(x)]`, and what it keeps. */
module Lists {

  /** `[f(x) for x in xs if keep(x)]`. */
  function FilterMap<T, U>(xs: seq<T>, keep: T -> bool, f: T -> U): (ys: seq<U>)
    ensures |ys| <= |xs|
  {
    if |xs| == 0 then []
    else (if keep(xs[0]) then [f(xs[0])] else []) + FilterMap(xs[1..], keep, f)
  }

  /** The comprehension over two stretches is the comprehension over the
      first followed by that over the second: what is kept keeps its
      order. */
  lemma {:induction false} FilterMapAppend<T, U>(a: seq<T>, b: seq<T>, keep: T -> bool, f: T -> U)
    ensures FilterMap(a + b, keep, f) == FilterMap(a, keep, f) + FilterMap(b, keep, f)
  {
    if |a| > 0 {
      var head := if keep(a[0]) then [f(a[0])] else [];
      assert FilterMap(a + b, keep, f) == head + FilterMap(a[1..] + b, keep, f) by {
        assert (a + b)[0] == a[0];
        assert (a + b)[1..] == a[1..] + b;
      }
      FilterMapAppend(a[1..], b, keep, f);
    } else {
      assert a + b == b;
    }
  }

  /** Every result comes from a kept element. */
  lemma {:induction false} ResultHasSource<T, U>(xs: seq<T>, keep: T -> bool, f: T -> U, y: U)
    requires y in FilterMap(xs, keep, f)
    ensures exists i :: 0 <= i < |xs| && keep(xs[i]) && f(xs[i]) == y
  {
    var rest := xs[1..];
    var head := if keep(xs[0]) then [f(xs[0])] else [];
    assert FilterMap(xs, keep, f) == head + FilterMap(rest, keep, f);
    if y in head {
      assert keep(xs[0]) && f(xs[0]) == y;
    } else {
      ResultHasSource(rest, keep, f, y);
      var k :| 0 <= k < |rest| && keep(rest[k]) && f(rest[k]) == y;
      assert xs[k + 1] == rest[k];
    }
  }

  /** Every kept element yields a result. */
  lemma {:induction false} SourceHasResult<T, U>(xs: seq<T>, keep: T -> bool, f: T -> U, i: nat)
    requires i < |xs| && keep(xs[i])
    ensures f(xs[i]) in FilterMap(xs, keep, f)
  {
    var rest := xs[1..];
    var head := if keep(xs[0]) then [f(xs[0])] else [];
    assert FilterMap(xs, keep, f) == head + FilterMap(rest, keep, f);
    if i > 0 {
      assert rest[i - 1] == xs[i];
      SourceHasResult(rest, keep, f, i - 1);
    }
  }

  /** Membership in the comprehension, both ways. */
  lemma FilterMapMember<T, U>(xs: seq<T>, keep: T -> bool, f: T -> U, y: U)
    ensures y in FilterMap(xs, keep, f) <==> exists i :: 0 <= i < |xs| && keep(xs[i]) && f(xs[i]) == y
  {
    if y in FilterMap(xs, keep, f) {
      ResultHasSource(xs, keep, f, y);
    }
    if exists i :: 0 <= i < |xs| && keep(xs[i]) && f(xs[i]) == y {
      var i :| 0 <= i < |xs| && keep(xs[i]) && f(xs[i]) == y;
      SourceHasResult(xs, keep, f, i);
    }
  }

  /** Keeping every element and changing none gives the list back. */
  lemma {:induction false} KeepAll<T>(xs: seq<T>, keep: T -> bool, f: T -> T)
    requires forall i :: 0 <= i < |xs| ==> keep(xs[i]) && f(xs[i]) == xs[i]
    ensures FilterMap(xs, keep, f) == xs
  {
    if |xs| > 0 {
      KeepAll(xs[1..], keep, f);
      assert [xs[0]] + xs[1..] == xs;
    }
  }
}
