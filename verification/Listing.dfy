/** Objects listed by sort key, then identity, and placing a new one among them. */
module Listing {
  import opened Wrappers
  import opened Order
  import SortKey

  type Id = string

  datatype Keyed = Keyed(sort: string, id: Id)

  datatype Place = First | After(sibling: Id) | Last

  /** By sort key, then identity. */
  predicate Precedes(a: Keyed, b: Keyed) {
    Less(a.sort, b.sort) || (a.sort == b.sort && Less(a.id, b.id))
  }

  predicate Ascending(s: seq<Keyed>) {
    forall i, j | 0 <= i < j < |s| :: Precedes(s[i], s[j])
  }

  function Elements(s: seq<Keyed>): set<Keyed> {
    set x | x in s
  }

  lemma PrecedesTotal(a: Keyed, b: Keyed)
    ensures Precedes(a, b) || Precedes(b, a) || a == b
    ensures !(Precedes(a, b) && Precedes(b, a)) && !Precedes(a, a)
  {
    LessTotal(a.sort, b.sort);
    LessTotal(a.id, b.id);
  }

  lemma PrecedesTransitive(a: Keyed, b: Keyed, c: Keyed)
    requires Precedes(a, b) && Precedes(b, c)
    ensures Precedes(a, c)
  {
    if Less(a.sort, b.sort) && Less(b.sort, c.sort) {
      LessTransitive(a.sort, b.sort, c.sort);
    } else if a.sort == b.sort == c.sort {
      LessTransitive(a.id, b.id, c.id);
    }
  }

  predicate IsLeast(x: Keyed, all: set<Keyed>) {
    x in all && forall y | y in all :: y == x || Precedes(x, y)
  }

  lemma {:induction false} LeastExists(all: set<Keyed>) returns (x: Keyed)
    requires all != {}
    ensures IsLeast(x, all)
  {
    var y :| y in all;
    if all == {y} {
      x := y;
    } else {
      var rest := all - {y};
      var z := LeastExists(rest);
      PrecedesTotal(y, z);
      if Precedes(y, z) {
        x := y;
        forall w | w in all ensures w == x || Precedes(x, w) {
          if w in rest && w != z { PrecedesTransitive(y, z, w); }
        }
      } else {
        x := z;
      }
    }
  }

  lemma LeastUnique(all: set<Keyed>, x: Keyed, y: Keyed)
    requires IsLeast(x, all) && IsLeast(y, all)
    ensures x == y
  {
    PrecedesTotal(x, y);
  }

  function Least(all: set<Keyed>): (x: Keyed)
    requires all != {}
    ensures IsLeast(x, all)
  {
    assert exists x :: x in all && IsLeast(x, all) by { var x := LeastExists(all); }
    assert forall x, y | IsLeast(x, all) && IsLeast(y, all) :: x == y by {
      forall x, y | IsLeast(x, all) && IsLeast(y, all) ensures x == y { LeastUnique(all, x, y); }
    }
    var x :| x in all && IsLeast(x, all);
    x
  }

  lemma LeastFirst(x: Keyed, rest: seq<Keyed>, all: set<Keyed>)
    requires IsLeast(x, all) && Ascending(rest) && Elements(rest) == all - {x}
    ensures Ascending([x] + rest) && Elements([x] + rest) == all
  {
    forall i | 0 <= i < |rest| ensures Precedes(x, rest[i]) {
      assert rest[i] in Elements(rest);
    }
    assert Elements([x] + rest) == {x} + Elements(rest);
  }

  /** The objects in order. */
  function Listed(all: set<Keyed>): seq<Keyed> {
    if all == {} then [] else var x := Least(all); [x] + Listed(all - {x})
  }

  lemma {:induction false} ListedHolds(all: set<Keyed>)
    ensures Ascending(Listed(all)) && Elements(Listed(all)) == all && |Listed(all)| == |all|
  {
    if all != {} {
      var x := Least(all);
      ListedHolds(all - {x});
      LeastFirst(x, Listed(all - {x}), all);
    }
  }

  /** Of two listed objects the first has the smaller key, or the same key and the smaller identity. */
  lemma ListedByKeys(all: set<Keyed>, i: nat, j: nat)
    requires i < j < |Listed(all)|
    ensures var x, y := Listed(all)[i], Listed(all)[j];
            Less(x.sort, y.sort) || (x.sort == y.sort && Less(x.id, y.id))
  {
    ListedHolds(all);
    assert Precedes(Listed(all)[i], Listed(all)[j]);
  }

  /** An ascending list is determined by what it holds. */
  lemma {:induction false} ListedUnique(s: seq<Keyed>)
    requires Ascending(s)
    ensures s == Listed(Elements(s))
  {
    ListedHolds(Elements(s));
    AscendingTwins(s, Listed(Elements(s)));
  }

  lemma {:induction false} AscendingTwins(s: seq<Keyed>, t: seq<Keyed>)
    requires Ascending(s) && Ascending(t) && Elements(s) == Elements(t)
    ensures s == t
  {
    forall x ensures x in s <==> x in t {
      assert x in s <==> x in Elements(s);
      assert x in t <==> x in Elements(t);
    }
    assert |t| > 0 ==> t[0] in t;
    if s != [] {
      assert s[0] in t;
      SameHead(s, t);
      TailOf(s);
      TailOf(t);
      AscendingTwins(s[1..], t[1..]);
      assert s == [s[0]] + s[1..] && t == [t[0]] + t[1..];
    }
  }

  lemma SameHead(s: seq<Keyed>, t: seq<Keyed>)
    requires Ascending(s) && Ascending(t) && Elements(s) == Elements(t) && s != [] && t != []
    ensures s[0] == t[0]
  {
    assert s[0] in Elements(t) && t[0] in Elements(s);
    PrecedesTotal(s[0], t[0]);
  }

  lemma TailOf(s: seq<Keyed>)
    requires s != [] && Ascending(s)
    ensures Ascending(s[1..]) && Elements(s[1..]) == Elements(s) - {s[0]}
  {
    forall x | x in s[1..] ensures x != s[0] {
      PrecedesTotal(s[0], x);
    }
    forall x | x in s && x != s[0] ensures x in s[1..] {
      assert s == [s[0]] + s[1..];
    }
  }

  function InsertAt<T>(s: seq<T>, i: nat, x: T): seq<T>
    requires i <= |s|
  {
    s[..i] + [x] + s[i..]
  }

  function RemoveAt<T>(s: seq<T>, i: nat): seq<T>
    requires i < |s|
  {
    s[..i] + s[i + 1..]
  }

  /** `i` splits what precedes `x` from what does not. */
  predicate SplitsAt(s: seq<Keyed>, x: Keyed, i: nat) {
    i <= |s| && (forall k | 0 <= k < i :: Precedes(s[k], x)) && (forall k | i <= k < |s| :: !Precedes(s[k], x))
  }

  lemma InsertListed(s: seq<Keyed>, x: Keyed, i: nat)
    requires Ascending(s) && x !in s && SplitsAt(s, x, i)
    ensures Ascending(InsertAt(s, i, x))
    ensures InsertAt(s, i, x) == Listed(Elements(s) + {x})
  {
    var r := InsertAt(s, i, x);
    forall k | i <= k < |s| ensures Precedes(x, s[k]) {
      assert s[k] in s;
      PrecedesTotal(x, s[k]);
    }
    assert forall k | 0 <= k < |r| :: r[k] == if k < i then s[k] else if k == i then x else s[k - 1];
    assert Elements(r) == Elements(s) + {x};
    ListedUnique(r);
  }

  lemma RemoveListed(s: seq<Keyed>, i: nat)
    requires Ascending(s) && i < |s|
    ensures Ascending(RemoveAt(s, i))
    ensures RemoveAt(s, i) == Listed(Elements(s) - {s[i]})
  {
    var r := RemoveAt(s, i);
    assert forall k | 0 <= k < |r| :: r[k] == if k < i then s[k] else s[k + 1];
    forall x | x in s && x != s[i] ensures x in r {
      var k :| 0 <= k < |s| && s[k] == x;
      assert x == r[if k < i then k else k - 1];
    }
    forall x | x in r ensures x in s && x != s[i] {
      var k :| 0 <= k < |r| && r[k] == x;
      PrecedesTotal(x, s[i]);
    }
    assert Elements(r) == Elements(s) - {s[i]};
    ListedUnique(r);
  }

  // ----- placing -----

  function Position(s: seq<Keyed>, id: Id): (i: nat)
    ensures i <= |s|
    ensures i < |s| ==> s[i].id == id
    ensures forall k | 0 <= k < i :: s[k].id != id
  {
    if s == [] || s[0].id == id then 0
    else
      var i := Position(s[1..], id);
      assert forall k | 0 < k < i + 1 :: s[k] == s[1..][k - 1];
      i + 1
  }

  /** Where a place is among the siblings, or none if it names no sibling. */
  function PlaceIndex(s: seq<Keyed>, place: Place): (i: Option<nat>)
    ensures i.Some? ==> i.value <= |s|
  {
    match place
    case First => Some(0)
    case After(sibling) => var i := Position(s, sibling); if i < |s| then Some(i + 1) else None
    case Last => Some(|s|)
  }

  /** The object comes first, last, or directly after the sibling named. */
  predicate StandsAs(s: seq<Keyed>, place: Place, x: Keyed) {
    match place
    case First => s != [] && s[0] == x
    case After(sibling) => exists k | 0 < k < |s| :: s[k - 1].id == sibling && s[k] == x
    case Last => s != [] && s[|s| - 1] == x
  }

  /** Inserting at a place's index puts the object there; there is none exactly if no sibling has the name. */
  lemma InsertedWhere(s: seq<Keyed>, place: Place, x: Keyed)
    ensures match PlaceIndex(s, place)
            case Some(i) => StandsAs(InsertAt(s, i, x), place, x)
            case None => place.After? && forall k | 0 <= k < |s| :: s[k].id != place.sibling
  {
    if place.After? && PlaceIndex(s, place).Some? {
      var i := PlaceIndex(s, place).value;
      assert InsertAt(s, i, x)[i - 1].id == place.sibling && InsertAt(s, i, x)[i] == x;
    }
  }

  function KeyOf(s: seq<Keyed>, i: int): Option<string> {
    if 0 <= i < |s| then Some(s[i].sort) else None
  }

  /** Draws a key between two neighbours; `SortKey.Between` is the one in use. */
  type KeyFunction = (Option<string>, Option<string>) -> string

  /** The sort key of an object placed among the siblings. */
  function PlaceKey(s: seq<Keyed>, place: Place, between: KeyFunction): Option<string> {
    var i := PlaceIndex(s, place);
    if i.None? then None
    else Some(between(KeyOf(s, i.value - 1), KeyOf(s, i.value)))
  }

  /** Every key drawn is valid and lies between its neighbours. */
  ghost predicate Suitable(between: KeyFunction) {
    forall before, after :: SortKey.Suits(before, after, between(before, after))
  }

  lemma BetweenIsSuitable()
    ensures Suitable(SortKey.Between)
  {
    forall before, after ensures SortKey.Suits(before, after, SortKey.Between(before, after)) {
      SortKey.BetweenFits(before, after);
    }
  }

  predicate ValidKeys(s: seq<Keyed>) {
    forall i | 0 <= i < |s| :: SortKey.Valid(s[i].sort)
  }

  predicate DistinctKeys(s: seq<Keyed>) {
    forall i, j | 0 <= i < j < |s| :: Less(s[i].sort, s[j].sort)
  }

  /** The siblings on both sides of a place have different keys. */
  predicate RoomAt(s: seq<Keyed>, i: nat) {
    0 < i < |s| ==> s[i - 1].sort != s[i].sort
  }

  /** The siblings on both sides of a place have valid keys. */
  predicate ValidAround(s: seq<Keyed>, i: nat) {
    (0 < i <= |s| ==> SortKey.Valid(s[i - 1].sort)) && (i < |s| ==> SortKey.Valid(s[i].sort))
  }

  /** Between siblings with valid keys an object gets a valid key, and is listed exactly at its place
      if and only if the two keys differ. */
  lemma PlacedAmongValid(s: seq<Keyed>, place: Place, id: Id, between: KeyFunction)
    requires Suitable(between) && Ascending(s) && PlaceKey(s, place, between).Some?
    requires ValidAround(s, PlaceIndex(s, place).value)
    ensures var x, i := Keyed(PlaceKey(s, place, between).value, id), PlaceIndex(s, place).value;
            SortKey.Valid(x.sort) &&
            (Listed(Elements(s) + {x}) == InsertAt(s, i, x) <==> RoomAt(s, i))
  {
    PlaceKeyFits(s, place, between);
    FitsExactly(s, PlaceIndex(s, place).value, Keyed(PlaceKey(s, place, between).value, id));
  }

  /** The object stands between the siblings on both sides of a place. */
  predicate StandsAt(s: seq<Keyed>, i: nat, x: Keyed) {
    (0 < i <= |s| ==> Precedes(s[i - 1], x)) && (i < |s| ==> Precedes(x, s[i]))
  }

  lemma PlacedIfBetween(s: seq<Keyed>, i: nat, x: Keyed)
    requires Ascending(s) && i <= |s|
    ensures Listed(Elements(s) + {x}) == InsertAt(s, i, x) <==> StandsAt(s, i, x)
  {
    var r := InsertAt(s, i, x);
    if StandsAt(s, i, x) {
      StandsSplits(s, i, x);
      InsertListed(s, x, i);
    } else {
      ListedHolds(Elements(s) + {x});
      assert r[i] == x && (i > 0 ==> r[i - 1] == s[i - 1]) && (i < |s| ==> r[i + 1] == s[i]);
    }
  }

  lemma StandsSplits(s: seq<Keyed>, i: nat, x: Keyed)
    requires Ascending(s) && i <= |s| && StandsAt(s, i, x)
    ensures SplitsAt(s, x, i) && x !in s
  {
    forall k | 0 <= k < i ensures Precedes(s[k], x) && s[k] != x {
      if k < i - 1 { PrecedesTransitive(s[k], s[i - 1], x); }
      PrecedesTotal(s[k], x);
    }
    forall k | i <= k < |s| ensures !Precedes(s[k], x) && s[k] != x {
      if i < k { PrecedesTransitive(x, s[i], s[k]); }
      PrecedesTotal(x, s[k]);
    }
  }

  predicate IsValid(key: Option<string>) {
    key.Some? && SortKey.Valid(key.value)
  }

  /** The keys of the siblings on both sides of a place leave room for a new one, whether they are valid
      or not: two valid keys that differ; a valid one and an invalid one on the far side of the key
      next to it; or invalid ones on the right sides of the very first key. */
  predicate LeavesRoom(left: Option<string>, right: Option<string>) {
    if IsValid(left) && IsValid(right) then left != right
    else if IsValid(left) then right.Some? ==> Less(SortKey.KeyAfter(left.value), right.value)
    else if IsValid(right) then left.Some? ==> Less(left.value, SortKey.KeyBefore(right.value))
    else (left.Some? ==> Less(left.value, "a0")) && (right.Some? ==> Less("a0", right.value))
  }

  /** Whatever the keys of its siblings are, an object gets a valid key, and is listed exactly at its
      place if and only if the two keys there leave room. */
  lemma PlacedExactly(s: seq<Keyed>, place: Place, id: Id)
    requires Ascending(s) && PlaceIndex(s, place).Some?
    ensures var x, i := Keyed(PlaceKey(s, place, SortKey.Between).value, id), PlaceIndex(s, place).value;
            SortKey.Valid(x.sort) &&
            (Listed(Elements(s) + {x}) == InsertAt(s, i, x) <==> LeavesRoom(KeyOf(s, i - 1), KeyOf(s, i)))
  {
    var x := Keyed(PlaceKey(s, place, SortKey.Between).value, id);
    PlaceKeyIs(s, place, SortKey.Between);
    PlacedAt(s, PlaceIndex(s, place).value, x);
  }

  lemma PlaceKeyIs(s: seq<Keyed>, place: Place, between: KeyFunction)
    requires PlaceIndex(s, place).Some?
    ensures var i: int := PlaceIndex(s, place).value;
            PlaceKey(s, place, between) == Some(between(KeyOf(s, i - 1), KeyOf(s, i)))
  {
  }

  lemma PlacedAt(s: seq<Keyed>, i: nat, x: Keyed)
    requires Ascending(s) && i <= |s| && x.sort == SortKey.Between(KeyOf(s, i - 1), KeyOf(s, i))
    ensures SortKey.Valid(x.sort)
    ensures Listed(Elements(s) + {x}) == InsertAt(s, i, x) <==> LeavesRoom(KeyOf(s, i - 1), KeyOf(s, i))
  {
    SortKey.BetweenFits(KeyOf(s, i - 1), KeyOf(s, i));
    assert StandsAt(s, i, x) <==> LeavesRoom(KeyOf(s, i - 1), KeyOf(s, i)) by {
      assert 0 < i < |s| ==> Precedes(s[i - 1], s[i]);
      StandsIfRoom(s, i, x);
    }
    PlacedIfBetween(s, i, x);
  }

  lemma StandsIfRoom(s: seq<Keyed>, i: nat, x: Keyed)
    requires i <= |s| && (0 < i < |s| ==> Precedes(s[i - 1], s[i]))
    requires x.sort == SortKey.Between(KeyOf(s, i - 1), KeyOf(s, i))
    requires SortKey.Suits(KeyOf(s, i - 1), KeyOf(s, i), x.sort)
    ensures StandsAt(s, i, x) <==> LeavesRoom(KeyOf(s, i - 1), KeyOf(s, i))
  {
    var left, right := KeyOf(s, i - 1), KeyOf(s, i);
    SortKey.BetweenIgnoresInvalid(left, right);
    if left.Some? { LessTotal(left.value, x.sort); }
    if right.Some? { LessTotal(x.sort, right.value); }
    if left.Some? && right.Some? { LessTotal(left.value, right.value); }
  }

  /** After a sibling whose key is not valid: the new object gets the very first key, and stands before. */
  lemma InvalidKeyMisplaces()
    ensures var s := [Keyed("zz", "p")]; var x := Keyed(PlaceKey(s, After("p"), SortKey.Between).value, "x");
            Listed(Elements(s) + {x}) != InsertAt(s, 1, x)
  {
    var s := [Keyed("zz", "p")];
    assert PlaceIndex(s, After("p")) == Some(1);
    assert SortKey.Integer("zz").None?;
    LessAt("a0", "zz", 0);
    LessTotal("zz", "a0");
    PlacedExactly(s, After("p"), "x");
  }

  /** Before a sibling whose key is not valid: the new object gets the next whole key, and stands after. */
  lemma InvalidNextMisplaces()
    ensures var s := [Keyed("a0", "p"), Keyed("a0_", "q")];
            var x := Keyed(PlaceKey(s, After("p"), SortKey.Between).value, "x");
            s[0].sort != s[1].sort && Listed(Elements(s) + {x}) != InsertAt(s, 1, x)
  {
    var s := [Keyed("a0", "p"), Keyed("a0_", "q")];
    assert PlaceIndex(s, After("p")) == Some(1);
    SortKey.FirstKeyIsValid();
    assert "a0_" == "a0" + "_";
    LessExtension("a0", "_");
    assert SortKey.Integer("a0_").None? by { assert "a0_"[1..][1] == '_'; }
    assert SortKey.KeyAfter("a0") == "a1" by { SortKey.NextOfFirst(); }
    LessAt("a0_", "a1", 1);
    LessTotal("a0_", "a1");
    PlacedExactly(s, After("p"), "x");
  }

  /** Two siblings with one key, as two devices can make them: nothing can be placed between. */
  lemma EqualKeysMisplace()
    ensures var s := [Keyed("a0", "p"), Keyed("a0", "q")];
            var x := Keyed(PlaceKey(s, After("p"), SortKey.Between).value, "x");
            Listed(Elements(s) + {x}) != InsertAt(s, 1, x)
  {
    var s := [Keyed("a0", "p"), Keyed("a0", "q")];
    SortKey.FirstKeyIsValid();
    LessAt("p", "q", 0);
    assert PlaceIndex(s, After("p")) == Some(1);
    PlacedExactly(s, After("p"), "x");
  }

  lemma PlaceKeyFits(s: seq<Keyed>, place: Place, between: KeyFunction)
    requires Suitable(between) && PlaceKey(s, place, between).Some? && ValidAround(s, PlaceIndex(s, place).value)
    ensures SortKey.Valid(PlaceKey(s, place, between).value)
    ensures Fits(s, PlaceIndex(s, place).value, PlaceKey(s, place, between).value)
  {
    var i: int := PlaceIndex(s, place).value;
    assert SortKey.Suits(KeyOf(s, i - 1), KeyOf(s, i), between(KeyOf(s, i - 1), KeyOf(s, i)));
    SuitsFits(s, i, PlaceKey(s, place, between).value);
  }

  lemma SuitsFits(s: seq<Keyed>, i: nat, sort: string)
    requires ValidAround(s, i) && i <= |s| && SortKey.Suits(KeyOf(s, i - 1), KeyOf(s, i), sort)
    ensures Fits(s, i, sort)
  {
  }

  /** A key after the left neighbour that is before the right one if the two are in order. */
  predicate Fits(s: seq<Keyed>, i: nat, sort: string) {
    && i <= |s|
    && (i > 0 ==> Less(s[i - 1].sort, sort))
    && (i < |s| ==> (Less(sort, s[i].sort) <==> (i > 0 ==> Less(s[i - 1].sort, s[i].sort))))
  }

  lemma FitsExactly(s: seq<Keyed>, i: nat, x: Keyed)
    requires Ascending(s) && Fits(s, i, x.sort)
    ensures Listed(Elements(s) + {x}) == InsertAt(s, i, x) <==> RoomAt(s, i)
  {
    PlacedIfBetween(s, i, x);
    if 0 < i < |s| {
      assert Precedes(s[i - 1], s[i]);
      LessTotal(s[i - 1].sort, s[i].sort);
      LessTotal(x.sort, s[i].sort);
    }
  }

  /** Distinct valid keys leave room everywhere and stay distinct and valid. */
  lemma PlacedAmongDistinct(s: seq<Keyed>, place: Place, id: Id, between: KeyFunction)
    requires Suitable(between) && Ascending(s) && ValidKeys(s) && DistinctKeys(s) && PlaceKey(s, place, between).Some?
    ensures var x, i := Keyed(PlaceKey(s, place, between).value, id), PlaceIndex(s, place).value;
            var r := Listed(Elements(s) + {x});
            r == InsertAt(s, i, x) && ValidKeys(r) && DistinctKeys(r)
  {
    var i, x := PlaceIndex(s, place).value, Keyed(PlaceKey(s, place, between).value, id);
    PlacedAmongValid(s, place, id, between);
    PlaceKeyFits(s, place, between);
    DistinctLeavesRoom(s, i);
    DistinctAfterInsert(s, i, x);
    ValidAfterInsert(s, i, x);
  }

  lemma DistinctLeavesRoom(s: seq<Keyed>, i: nat)
    requires DistinctKeys(s)
    ensures RoomAt(s, i)
  {
    if 0 < i < |s| {
      LessTotal(s[i - 1].sort, s[i].sort);
    }
  }

  lemma ValidAfterInsert(s: seq<Keyed>, i: nat, x: Keyed)
    requires ValidKeys(s) && i <= |s| && SortKey.Valid(x.sort)
    ensures ValidKeys(InsertAt(s, i, x))
  {
    var r := InsertAt(s, i, x);
    forall k | 0 <= k < |r| ensures SortKey.Valid(r[k].sort) {
      assert r[k] == if k < i then s[k] else if k == i then x else s[k - 1];
    }
  }

  lemma DistinctAfterInsert(s: seq<Keyed>, i: nat, x: Keyed)
    requires DistinctKeys(s) && Fits(s, i, x.sort)
    ensures DistinctKeys(InsertAt(s, i, x))
  {
    forall k | 0 <= k < i ensures Less(s[k].sort, x.sort) {
      if k < i - 1 { LessTransitive(s[k].sort, s[i - 1].sort, x.sort); }
    }
    forall k | i <= k < |s| ensures Less(x.sort, s[k].sort) {
      if i < k { LessTransitive(x.sort, s[i].sort, s[k].sort); }
    }
    var r := InsertAt(s, i, x);
    assert forall k | 0 <= k < |r| :: r[k] == if k < i then s[k] else if k == i then x else s[k - 1];
  }

  lemma DistinctAfterRemove(s: seq<Keyed>, i: nat)
    requires ValidKeys(s) && DistinctKeys(s) && i < |s|
    ensures ValidKeys(RemoveAt(s, i)) && DistinctKeys(RemoveAt(s, i))
  {
    var r := RemoveAt(s, i);
    assert forall k | 0 <= k < |r| :: r[k] == if k < i then s[k] else s[k + 1];
  }
}
