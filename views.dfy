/**
 * The records the web client receives from the API, and the array
 * operations (`find`, `filter`, `some`) the client applies to
 * them, as recursive functions over sequences.
 */
module Views {
  import opened Common

  datatype MovieView = MovieView(id: nat, title: string, description: string, duration: int)
  datatype CinemaView = CinemaView(id: nat, name: string, location: string)
  datatype ScreenView = ScreenView(id: nat, cinemaId: nat, name: string)
  datatype ShowView = ShowView(id: nat, movieId: nat, screenId: nat, startTime: int)

  /** `xs.find(p)`: the first element satisfying `p`, if any. */
  function Find<T>(xs: seq<T>, p: T -> bool): Option<T>
  {
    if xs == [] then None
    else if p(xs[0]) then Some(xs[0])
    else Find(xs[1..], p)
  }

  /** `find` succeeds exactly when some element satisfies `p`, and then yields the first such element. */
  lemma {:induction false} FindFirst<T>(xs: seq<T>, p: T -> bool)
    ensures Find(xs, p).Some? <==> exists i :: 0 <= i < |xs| && p(xs[i])
    ensures Find(xs, p).Some? ==>
              exists i :: 0 <= i < |xs| && xs[i] == Find(xs, p).value && p(xs[i])
                          && forall j :: 0 <= j < i ==> !p(xs[j])
  {
    if xs != [] && !p(xs[0]) {
      FindFirst(xs[1..], p);
      if Find(xs, p).Some? {
        var i :| 0 <= i < |xs[1..]| && xs[1..][i] == Find(xs, p).value && p(xs[1..][i])
                 && forall j :: 0 <= j < i ==> !p(xs[1..][j]);
        assert xs[i + 1] == xs[1..][i];
        assert forall j :: 1 <= j < i + 1 ==> xs[j] == xs[1..][j - 1];
      } else {
        forall i | 0 <= i < |xs| ensures !p(xs[i]) {
          if i > 0 {
            assert xs[i] == xs[1..][i - 1];
          }
        }
      }
    }
  }

  /** Two tests that agree on every element find the same element. */
  lemma {:induction false} FindAgrees<T>(xs: seq<T>, p: T -> bool, q: T -> bool)
    requires forall i :: 0 <= i < |xs| ==> p(xs[i]) == q(xs[i])
    ensures Find(xs, p) == Find(xs, q)
  {
    if xs != [] {
      assert p(xs[0]) == q(xs[0]);
      forall i | 0 <= i < |xs[1..]| ensures p(xs[1..][i]) == q(xs[1..][i]) {
        assert xs[1..][i] == xs[i + 1];
      }
      FindAgrees(xs[1..], p, q);
    }
  }

  /** `xs.filter(p)`: the elements satisfying `p`, in their order. */
  function Filter<T(!new)>(xs: seq<T>, p: T -> bool): (r: seq<T>)
    ensures |r| <= |xs|
    ensures forall x :: x in r <==> x in xs && p(x)
  {
    if xs == [] then []
    else (if p(xs[0]) then [xs[0]] else []) + Filter(xs[1..], p)
  }

  /** Filtering keeps every element exactly when every element passes. */
  lemma {:induction false} FilterAll<T(!new)>(xs: seq<T>, p: T -> bool)
    requires forall x :: x in xs ==> p(x)
    ensures Filter(xs, p) == xs
  {
    if xs != [] {
      FilterAll(xs[1..], p);
      assert [xs[0]] + xs[1..] == xs;
    }
  }

  /** Filtering a list whose head fails and whose tail all passes yields the tail. */
  lemma FilterDropsHead<T(!new)>(xs: seq<T>, p: T -> bool)
    requires xs != [] && !p(xs[0])
    requires forall j :: 1 <= j < |xs| ==> p(xs[j])
    ensures Filter(xs, p) == xs[1..]
  {
    var t := xs[1..];
    assert forall x :: x in t ==> p(x);
    FilterAll(t, p);
  }

  /** Filtering out exactly one position removes that element and keeps the others in order. */
  lemma {:induction false} FilterDropsOne<T(!new)>(xs: seq<T>, p: T -> bool, k: nat)
    requires k < |xs| && !p(xs[k])
    requires forall j :: 0 <= j < |xs| && j != k ==> p(xs[j])
    ensures Filter(xs, p) == xs[..k] + xs[k + 1..]
    decreases k
  {
    if k == 0 {
      FilterDropsHead(xs, p);
      assert xs[..k] + xs[k + 1..] == xs[1..];
    } else {
      var t := xs[1..];
      assert p(xs[0]);
      assert forall j :: 0 <= j < |t| && j != k - 1 ==> t[j] == xs[j + 1];
      FilterDropsOne(t, p, k - 1);
      SpliceAfterHead(xs, k);
    }
  }

  /** Cutting position k out of a list is keeping its head and cutting position k - 1 out of its tail. */
  lemma SpliceAfterHead<T>(xs: seq<T>, k: nat)
    requires 0 < k < |xs|
    ensures xs[..k] + xs[k + 1..] == [xs[0]] + (xs[1..][..k - 1] + xs[1..][k..])
  {
    assert xs[..k] == [xs[0]] + xs[1..][..k - 1];
    assert xs[k + 1..] == xs[1..][k..];
  }

  /** `xs.some(p)`. */
  function Any<T(!new)>(xs: seq<T>, p: T -> bool): (r: bool)
    ensures r <==> exists x :: x in xs && p(x)
  {
    if xs == [] then false
    else p(xs[0]) || Any(xs[1..], p)
  }
}
