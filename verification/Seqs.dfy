/** Picking elements out of a sequence, in order. */
module Seqs {

  function Filter<T>(s: seq<T>, f: T -> bool): seq<T> {
    if s == [] then [] else (if f(s[0]) then [s[0]] else []) + Filter(s[1..], f)
  }

  lemma FilterCons<T>(x: T, s: seq<T>, f: T -> bool)
    ensures Filter([x] + s, f) == (if f(x) then [x] else []) + Filter(s, f)
  {
    assert ([x] + s)[1..] == s;
  }

  lemma {:induction false} FilterConcat<T>(a: seq<T>, b: seq<T>, f: T -> bool)
    ensures Filter(a + b, f) == Filter(a, f) + Filter(b, f)
  {
    if a == [] {
      assert a + b == b;
    } else {
      ConcatStep(a, b, f);
      FilterConcat(a[1..], b, f);
      hide Filter;
    }
  }

  /** What the first element contributes. */
  function Head<T>(s: seq<T>, f: T -> bool): seq<T>
    requires s != []
  {
    if f(s[0]) then [s[0]] else []
  }

  lemma ConcatStep<T>(a: seq<T>, b: seq<T>, f: T -> bool)
    requires a != []
    ensures Filter(a, f) == Head(a, f) + Filter(a[1..], f)
    ensures Filter(a + b, f) == Head(a, f) + Filter(a[1..] + b, f)
  {
    assert a + b == [a[0]] + (a[1..] + b);
    FilterCons(a[0], a[1..] + b, f);
  }

  lemma FilterSnoc<T>(s: seq<T>, x: T, f: T -> bool)
    ensures Filter(s + [x], f) == Filter(s, f) + (if f(x) then [x] else [])
  {
    FilterConcat(s, [x], f);
    assert [x][1..] == [];
  }

  lemma {:induction false} FilterMembers<T(!new)>(s: seq<T>, f: T -> bool)
    ensures forall x :: x in Filter(s, f) <==> x in s && f(x)
  {
    if s != [] {
      FilterMembers(s[1..], f);
      assert forall x :: x in s <==> x == s[0] || x in s[1..];
    }
  }

  lemma {:induction false} FilterAll<T>(s: seq<T>, f: T -> bool)
    requires forall x | x in s :: f(x)
    ensures Filter(s, f) == s
  {
    if s != [] {
      assert s[0] in s;
      FilterAll(s[1..], f);
    }
  }

  lemma {:induction false} FilterNone<T>(s: seq<T>, f: T -> bool)
    requires forall x | x in s :: !f(x)
    ensures Filter(s, f) == []
  {
    if s != [] {
      assert s[0] in s;
      FilterNone(s[1..], f);
    }
  }

  /** Two pickings commute. */
  lemma {:induction false} FilterCommutes<T>(s: seq<T>, f: T -> bool, g: T -> bool)
    ensures Filter(Filter(s, f), g) == Filter(Filter(s, g), f)
  {
    if s != [] {
      FilterCommutes(s[1..], f, g);
      FilterHead(s, f);
      FilterHead(s, g);
      FilterCons(s[0], Filter(s[1..], f), g);
      FilterCons(s[0], Filter(s[1..], g), f);
    }
  }

  /** Picking twice is picking what satisfies both. */
  lemma {:induction false} FilterTwice<T>(s: seq<T>, f: T -> bool, g: T -> bool, both: T -> bool)
    requires forall x | x in s :: both(x) <==> f(x) && g(x)
    ensures Filter(Filter(s, f), g) == Filter(s, both)
  {
    if s != [] {
      assert s[0] in s && forall x | x in s[1..] :: x in s;
      FilterTwice(s[1..], f, g, both);
      FilterHead(s, f);
      FilterHead(s, both);
      FilterCons(s[0], Filter(s[1..], f), g);
      hide Filter;
    }
  }

  lemma FilterHead<T>(s: seq<T>, f: T -> bool)
    requires s != []
    ensures Filter(s, f) == if f(s[0]) then [s[0]] + Filter(s[1..], f) else Filter(s[1..], f)
  {}

  /** The places are in order and within bounds. */
  ghost predicate Ascending(places: seq<nat>, bound: nat) {
    && (forall k | 0 <= k < |places| :: places[k] < bound)
    && (forall j, k | 0 <= j < k < |places| :: places[j] < places[k])
  }

  /** out lists the elements of s at the places. */
  ghost predicate Picked<T>(out: seq<T>, s: seq<T>, places: seq<nat>) {
    Ascending(places, |s|) && |out| == |places| && forall k | 0 <= k < |out| :: out[k] == s[places[k]]
  }

  /** One more element of s, picked or not. */
  lemma PickedMore<T>(out: seq<T>, s: seq<T>, places: seq<nat>, pick: bool) returns (places': seq<nat>)
    requires s != [] && Picked(out, s[..|s| - 1], places)
    ensures Picked(out + (if pick then [s[|s| - 1]] else []), s, places')
    ensures forall i | 0 <= i < |s| :: i in places' <==> if i == |s| - 1 then pick else i in places
  {
    var n := |s| - 1;
    places' := places + (if pick then [n] else []);
    assert n !in places;
    assert forall i :: i in places' <==> i in places || (pick && i == n);
  }

  /** What picking picks: the elements that satisfy f, each in its place in the order. */
  lemma {:induction false} FilterPlaces<T>(s: seq<T>, f: T -> bool) returns (places: seq<nat>)
    ensures Picked(Filter(s, f), s, places)
    ensures forall i | 0 <= i < |s| :: i in places <==> f(s[i])
  {
    if s == [] {
      places := [];
    } else {
      var n := |s| - 1;
      var front := FilterPlaces(s[..n], f);
      assert s == s[..n] + [s[n]];
      FilterSnoc(s[..n], s[n], f);
      hide Filter, Picked;
      places := PickedMore(Filter(s[..n], f), s, front, f(s[n]));
    }
  }
}
