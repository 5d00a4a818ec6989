/** Byte-wise text order, and stable sorting by a comparison that need only be
    an order on the elements at hand. */
module Order {

  /** Rust's order on `str`: the first differing character decides, a proper prefix is smaller. */
  predicate Less(a: string, b: string) {
    b != [] && (a == [] || a[0] < b[0] || (a[0] == b[0] && Less(a[1..], b[1..])))
  }

  predicate Leq(a: string, b: string) {
    !Less(b, a)
  }

  lemma {:induction false} LessTotal(a: string, b: string)
    ensures Less(a, b) || Less(b, a) || a == b
    ensures !(Less(a, b) && Less(b, a))
    ensures !Less(a, a)
  {
    if a != [] {
      LessTotal(a[1..], a[1..]);
      if b != [] {
        LessTotal(a[1..], b[1..]);
        assert a[0] == b[0] && a[1..] == b[1..] ==> a == [a[0]] + a[1..] == b;
      }
    }
  }

  lemma {:induction false} LessTransitive(a: string, b: string, c: string)
    requires Less(a, b) && Less(b, c)
    ensures Less(a, c)
  {
    if a != [] && a[0] == b[0] == c[0] {
      LessTransitive(a[1..], b[1..], c[1..]);
    }
  }

  /** A shared prefix does not matter. */
  lemma {:induction false} LessAfterPrefix(p: string, a: string, b: string)
    ensures Less(p + a, p + b) <==> Less(a, b)
  {
    if p == [] {
      assert p + a == a && p + b == b;
    } else {
      assert (p + a)[1..] == p[1..] + a && (p + b)[1..] == p[1..] + b;
      LessAfterPrefix(p[1..], a, b);
    }
  }

  /** The first difference decides, whatever follows. */
  lemma {:induction false} LessAt(a: string, b: string, i: nat)
    requires i < |a| && i < |b| && a[..i] == b[..i] && a[i] < b[i]
    ensures Less(a, b)
  {
    if i > 0 {
      assert a[0] == a[..i][0] == b[..i][0] == b[0];
      assert a[1..][..i - 1] == a[..i][1..] == b[..i][1..] == b[1..][..i - 1];
      LessAt(a[1..], b[1..], i - 1);
    }
  }

  lemma LessExtension(a: string, b: string)
    requires b != []
    ensures Less(a, a + b)
  {
    LessAfterPrefix(a, [], b);
    assert a + [] == a;
  }

  /** Where two ordered texts differ: at an index, or by one extending the other. */
  lemma {:induction false} LessWitness(a: string, b: string) returns (i: nat)
    requires Less(a, b)
    ensures i <= |a| && i < |b| && a[..i] == b[..i] && (i < |a| ==> a[i] < b[i])
  {
    if a == [] || a[0] < b[0] {
      i := 0;
    } else {
      var j := LessWitness(a[1..], b[1..]);
      i := j + 1;
      assert a[..i] == [a[0]] + a[1..][..j] == [b[0]] + b[1..][..j] == b[..i];
    }
  }

  lemma SuffixKeepsOrder(p: string, q: string, s: string, t: string)
    requires |p| == |q| && Less(p, q)
    ensures Less(p + s, q + t)
  {
    var i := LessWitness(p, q);
    assert (p + s)[..i] == p[..i] && (q + t)[..i] == q[..i];
    LessAt(p + s, q + t, i);
  }

  // ----- stable sorting -----

  /** `leq` orders the elements of `xs`, up to ties. */
  ghost predicate PreorderOn<T>(xs: seq<T>, leq: (T, T) -> bool) {
    && (forall x, y | x in xs && y in xs :: leq(x, y) || leq(y, x))
    && (forall x, y, z | x in xs && y in xs && z in xs && leq(x, y) && leq(y, z) :: leq(x, z))
  }

  ghost predicate Sorted<T>(xs: seq<T>, leq: (T, T) -> bool) {
    forall i, j | 0 <= i < j < |xs| :: leq(xs[i], xs[j])
  }

  /** The elements that tie with `x`, in their order. */
  function Ties<T>(x: T, xs: seq<T>, leq: (T, T) -> bool): seq<T> {
    if xs == [] then []
    else (if leq(x, xs[0]) && leq(xs[0], x) then [xs[0]] else []) + Ties(x, xs[1..], leq)
  }

  /** What a stable sort promises: a sorted rearrangement in which ties keep their order. */
  ghost predicate StableSortOf<T>(xs: seq<T>, r: seq<T>, leq: (T, T) -> bool) {
    && multiset(r) == multiset(xs)
    && Sorted(r, leq)
    && forall x | x in xs :: Ties(x, r, leq) == Ties(x, xs, leq)
  }

  function Insert<T>(x: T, xs: seq<T>, leq: (T, T) -> bool): seq<T> {
    if xs == [] || leq(x, xs[0]) then [x] + xs
    else [xs[0]] + Insert(x, xs[1..], leq)
  }

  /** The stable sort. */
  function Sort<T>(xs: seq<T>, leq: (T, T) -> bool): seq<T> {
    if xs == [] then [] else Insert(xs[0], Sort(xs[1..], leq), leq)
  }

  lemma {:induction false} InsertElements<T>(x: T, xs: seq<T>, leq: (T, T) -> bool)
    ensures multiset(Insert(x, xs, leq)) == multiset{x} + multiset(xs)
  {
    if xs != [] {
      assert xs == [xs[0]] + xs[1..];
      if !leq(x, xs[0]) {
        InsertElements(x, xs[1..], leq);
      }
    }
  }

  lemma {:induction false} SortElements<T>(xs: seq<T>, leq: (T, T) -> bool)
    ensures multiset(Sort(xs, leq)) == multiset(xs)
    ensures |Sort(xs, leq)| == |xs|
    ensures forall x :: x in Sort(xs, leq) <==> x in xs
  {
    if xs != [] {
      SortElements(xs[1..], leq);
      InsertElements(xs[0], Sort(xs[1..], leq), leq);
      TailElements(xs);
    }
    SameElements(Sort(xs, leq), xs);
  }

  lemma SameElements<T>(r: seq<T>, xs: seq<T>)
    requires multiset(r) == multiset(xs)
    ensures |r| == |xs| && forall x :: x in r <==> x in xs
  {
    assert |multiset(r)| == |r| && |multiset(xs)| == |xs|;
    forall x ensures x in r <==> x in xs {
      assert x in r <==> x in multiset(r);
      assert x in xs <==> x in multiset(xs);
    }
  }

  lemma {:induction false} InsertSorted<T>(x: T, xs: seq<T>, leq: (T, T) -> bool)
    requires PreorderOn([x] + xs, leq) && Sorted(xs, leq)
    ensures Sorted(Insert(x, xs, leq), leq)
  {
    var all := [x] + xs;
    assert x == all[0] && forall y :: y in xs ==> y in all;
    if xs == [] {
    } else if leq(x, xs[0]) {
      forall j | 0 <= j < |xs| ensures leq(x, xs[j]) {
        assert xs[0] in all && xs[j] in all;
        assert j == 0 || leq(xs[0], xs[j]);
      }
    } else {
      var rest := Insert(x, xs[1..], leq);
      forall y | y in [x] + xs[1..] ensures y in all {}
      InsertSorted(x, xs[1..], leq);
      InsertElements(x, xs[1..], leq);
      forall j | 0 <= j < |rest| ensures leq(xs[0], rest[j]) {
        assert rest[j] in multiset(rest);
        assert rest[j] == x || rest[j] in xs[1..];
        assert x in all && xs[0] in all;
      }
    }
  }

  lemma {:induction false} InsertTies<T>(x: T, xs: seq<T>, y: T, leq: (T, T) -> bool)
    requires PreorderOn([x] + xs, leq) && y in [x] + xs
    ensures Ties(y, Insert(x, xs, leq), leq) == Ties(y, [x] + xs, leq)
  {
    var all := [x] + xs;
    assert all[1..] == xs && x in all && forall z :: z in xs ==> z in all;
    if xs != [] && !leq(x, xs[0]) {
      var r := Insert(x, xs[1..], leq);
      assert ([xs[0]] + r)[1..] == r && xs[0] in all;
      assert ([x] + xs[1..])[1..] == xs[1..];
      // x and xs[0] do not tie, so not both tie with y
      var h := xs[0];
      assert leq(y, x) && leq(x, y) ==> !leq(y, h) || !leq(h, y);
      if y in [x] + xs[1..] {
        forall z | z in [x] + xs[1..] ensures z in all {}
        InsertTies(x, xs[1..], y, leq);
      } else {
        assert y == xs[0];
        TiesInsertOther(x, xs[1..], y, leq);
      }
    }
  }

  /** Inserting an element that does not tie with `y` leaves the ties of `y` alone. */
  lemma {:induction false} TiesInsertOther<T>(x: T, xs: seq<T>, y: T, leq: (T, T) -> bool)
    requires !(leq(y, x) && leq(x, y))
    ensures Ties(y, Insert(x, xs, leq), leq) == Ties(y, xs, leq) == Ties(y, [x] + xs, leq)
  {
    assert ([x] + xs)[1..] == xs;
    if xs != [] && !leq(x, xs[0]) {
      TiesInsertOther(x, xs[1..], y, leq);
      assert ([xs[0]] + Insert(x, xs[1..], leq))[1..] == Insert(x, xs[1..], leq);
    }
  }

  lemma PreorderOnPart<T>(all: seq<T>, part: seq<T>, leq: (T, T) -> bool)
    requires PreorderOn(all, leq) && forall x | x in part :: x in all
    ensures PreorderOn(part, leq)
  {
  }

  lemma {:induction false} SortIsStable<T>(xs: seq<T>, leq: (T, T) -> bool)
    requires PreorderOn(xs, leq)
    ensures StableSortOf(xs, Sort(xs, leq), leq)
  {
    SortElements(xs, leq);
    if xs != [] {
      PreorderOnPart(xs, xs[1..], leq);
      SortIsStable(xs[1..], leq);
      SortStep(xs, Sort(xs[1..], leq), leq);
    }
  }

  lemma SortStep<T>(xs: seq<T>, rest: seq<T>, leq: (T, T) -> bool)
    requires xs != [] && PreorderOn(xs, leq) && StableSortOf(xs[1..], rest, leq)
    ensures Sorted(Insert(xs[0], rest, leq), leq)
    ensures forall y | y in xs :: Ties(y, Insert(xs[0], rest, leq), leq) == Ties(y, xs, leq)
  {
    var x, tail := xs[0], xs[1..];
    forall z | z in [x] + rest ensures z in xs {
      if z in rest {
        assert z in multiset(rest);
        assert z in tail;
      }
    }
    PreorderOnPart(xs, [x] + rest, leq);
    InsertSorted(x, rest, leq);
    forall y | y in xs ensures Ties(y, Insert(x, rest, leq), leq) == Ties(y, xs, leq) {
      assert xs == [x] + tail;
      if y in tail {
        assert y in multiset(tail);
        assert y in multiset(rest);
      }
      assert y in [x] + rest;
      InsertTies(x, rest, y, leq);
      assert ([x] + rest)[1..] == rest;
      PreorderOnPart(xs, [y] + tail, leq);
      TiesOfEqual(y, rest, tail, leq);
    }
  }

  /** Stability for an element outside the list: an element of the list ties with it, or none does. */
  lemma {:induction false} TiesOfEqual<T>(y: T, r: seq<T>, xs: seq<T>, leq: (T, T) -> bool)
    requires PreorderOn([y] + xs, leq) && StableSortOf(xs, r, leq)
    ensures Ties(y, r, leq) == Ties(y, xs, leq)
  {
    var all := [y] + xs;
    assert y in all && forall z :: z in xs ==> z in all;
    assert forall z :: z in r ==> z in multiset(r);
    if z :| z in xs && leq(y, z) && leq(z, y) {
      TiesTransfer(y, z, xs, all, leq);
      TiesTransfer(y, z, r, all, leq);
    } else {
      NoTies(y, xs, leq);
      NoTies(y, r, leq);
    }
  }

  lemma {:induction false} TiesTransfer<T>(y: T, z: T, xs: seq<T>, all: seq<T>, leq: (T, T) -> bool)
    requires PreorderOn(all, leq) && y in all && z in all && leq(y, z) && leq(z, y)
    requires forall x | x in xs :: x in all
    ensures Ties(y, xs, leq) == Ties(z, xs, leq)
  {
    if xs != [] {
      assert xs[0] in xs;
      assert forall x | x in xs[1..] :: x in xs;
      TiesTransfer(y, z, xs[1..], all, leq);
    }
  }

  lemma {:induction false} NoTies<T>(y: T, xs: seq<T>, leq: (T, T) -> bool)
    requires forall z | z in xs :: !(leq(y, z) && leq(z, y))
    ensures Ties(y, xs, leq) == []
  {
    if xs != [] {
      NoTies(y, xs[1..], leq);
    }
  }

  lemma {:induction false} FirstTie<T>(x: T, r: seq<T>, leq: (T, T) -> bool)
    requires r != [] && leq(x, r[0]) && leq(r[0], x)
    ensures Ties(x, r, leq) == [r[0]] + Ties(x, r[1..], leq)
  {
  }

  /** A stable sort is unique, so every stable sorting algorithm computes `Sort`. */
  lemma {:induction false} StableSortUnique<T>(xs: seq<T>, r: seq<T>, r': seq<T>, leq: (T, T) -> bool)
    requires PreorderOn(xs, leq)
    requires StableSortOf(xs, r, leq) && StableSortOf(xs, r', leq)
    ensures r == r'
  {
    forall x | x in r ensures x in xs && Ties(x, r, leq) == Ties(x, r', leq) {
      assert x in multiset(r);
    }
    StableTwins(r, r', leq);
  }

  /** Both start with the least element, of which stability says which it is. */
  lemma SameFirst<T>(r: seq<T>, r': seq<T>, leq: (T, T) -> bool)
    requires r != [] && r' != [] && r[0] in r' && r'[0] in r && leq(r[0], r[0]) && leq(r'[0], r'[0])
    requires Sorted(r, leq) && Sorted(r', leq)
    requires Ties(r[0], r, leq) == Ties(r[0], r', leq)
    ensures r[0] == r'[0]
  {
    var a, b := r[0], r'[0];
    assert leq(a, b) && leq(b, a) by {
      var i :| 0 <= i < |r'| && r'[i] == a;
      var j :| 0 <= j < |r| && r[j] == b;
      assert i == 0 || leq(r'[0], r'[i]);
      assert j == 0 || leq(r[0], r[j]);
    }
    FirstTie(a, r, leq);
    FirstTie(a, r', leq);
    assert Ties(a, r, leq)[0] == a && Ties(a, r', leq)[0] == b;
  }

  lemma TiesOfTail<T>(x: T, r: seq<T>, r': seq<T>, leq: (T, T) -> bool)
    requires r != [] && r' != [] && r[0] == r'[0] && Ties(x, r, leq) == Ties(x, r', leq)
    ensures Ties(x, r[1..], leq) == Ties(x, r'[1..], leq)
  {
    var here := if leq(x, r[0]) && leq(r[0], x) then [r[0]] else [];
    assert Ties(x, r, leq)[|here|..] == Ties(x, r[1..], leq);
    assert Ties(x, r', leq)[|here|..] == Ties(x, r'[1..], leq);
  }

  lemma TailElements<T>(r: seq<T>)
    requires r != []
    ensures multiset(r) == multiset{r[0]} + multiset(r[1..])
  {
    assert r == [r[0]] + r[1..];
  }

  lemma TailTies<T>(r: seq<T>, r': seq<T>, leq: (T, T) -> bool)
    requires r != [] && r' != [] && r[0] == r'[0] && multiset(r) == multiset(r')
    requires forall x | x in r :: Ties(x, r, leq) == Ties(x, r', leq)
    ensures multiset(r[1..]) == multiset(r'[1..])
    ensures forall x | x in r[1..] :: x in r && Ties(x, r[1..], leq) == Ties(x, r'[1..], leq)
  {
    TailElements(r);
    TailElements(r');
    assert multiset(r[1..]) == multiset(r) - multiset{r[0]} == multiset(r'[1..]);
    forall x | x in r[1..] ensures x in r && Ties(x, r[1..], leq) == Ties(x, r'[1..], leq) {
      assert x in r;
      TiesOfTail(x, r, r', leq);
    }
  }

  lemma {:induction false} StableTwins<T>(r: seq<T>, r': seq<T>, leq: (T, T) -> bool)
    requires Sorted(r, leq) && Sorted(r', leq) && multiset(r) == multiset(r')
    requires forall x | x in r :: leq(x, x) && Ties(x, r, leq) == Ties(x, r', leq)
    ensures r == r'
  {
    assert |r| == |multiset(r)| == |multiset(r')| == |r'|;
    if r != [] {
      SameElements(r, r');
      assert leq(r[0], r[0]) && leq(r'[0], r'[0]);
      SameFirst(r, r', leq);
      TailTies(r, r', leq);
      StableTwins(r[1..], r'[1..], leq);
      assert r == [r[0]] + r[1..] && r' == [r'[0]] + r'[1..];
    }
  }
}
