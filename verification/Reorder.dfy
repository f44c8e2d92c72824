/** internal/handler/management_handler.go: rearranging the outbounds by a requested list of
    tags, which may repeat tags, name unknown ones, or miss some. */
module Reorder {
  import opened Json
  import opened Seqs

  /** The places of a tag, in order. */
  function Places(items: seq<Json>, tag: string): seq<nat> {
    if items == [] then []
    else
      var n := |items| - 1;
      Places(items[..n], tag) + (if TagOf(items[n]) == tag then [n] else [])
  }

  function Count(tags: seq<string>, tag: string): nat {
    if tags == [] then 0
    else Count(tags[..|tags| - 1], tag) + (if tags[|tags| - 1] == tag then 1 else 0)
  }

  /** The places picked: the k-th request of a tag picks its k-th place, if it has that many. */
  function Picks(items: seq<Json>, tags: seq<string>): seq<nat> {
    if tags == [] then []
    else
      var front, tag := tags[..|tags| - 1], tags[|tags| - 1];
      var k := Count(front, tag);
      Picks(items, front) + (if tag != "" && k < |Places(items, tag)| then [Places(items, tag)[k]] else [])
  }

  /** The items at the given places. */
  function Gather(items: seq<Json>, places: seq<nat>): seq<Json>
    requires forall j | 0 <= j < |places| :: places[j] < |items|
  {
    seq(|places|, j requires 0 <= j < |places| => items[places[j]])
  }

  /** The items at all other places, in their order. */
  function Remaining(items: seq<Json>, used: set<nat>): seq<Json> {
    if items == [] then []
    else
      var n := |items| - 1;
      Remaining(items[..n], used) + (if n in used then [] else [items[n]])
  }

  /** The list of places is increasing and lists the places of the tag. */
  lemma {:induction false} PlacesOrdered(items: seq<Json>, tag: string)
    ensures forall j | 0 <= j < |Places(items, tag)| ::
              Places(items, tag)[j] < |items| && TagOf(items[Places(items, tag)[j]]) == tag
    ensures forall j, k | 0 <= j < k < |Places(items, tag)| :: Places(items, tag)[j] < Places(items, tag)[k]
  {
    if items != [] {
      var n := |items| - 1;
      PlacesOrdered(items[..n], tag);
      var before, ps := Places(items[..n], tag), Places(items, tag);
      assert ps == before + (if TagOf(items[n]) == tag then [n] else []);
      assert forall j | 0 <= j < |before| :: ps[j] == before[j] && items[..n][before[j]] == items[before[j]];
      assert forall j | |before| <= j < |ps| :: ps[j] == n && TagOf(items[n]) == tag;
    }
  }

  /** Different tags have different places, and so have different positions in one list. */
  lemma PlacesApart(items: seq<Json>, tag: string, j: nat, tag': string, k: nat)
    requires j < |Places(items, tag)| && k < |Places(items, tag')|
    ensures Places(items, tag)[j] == Places(items, tag')[k] <==> tag == tag' && j == k
  {
    PlacesOrdered(items, tag);
    PlacesOrdered(items, tag');
  }

  lemma {:induction false} PicksInRange(items: seq<Json>, tags: seq<string>)
    ensures forall j | 0 <= j < |Picks(items, tags)| :: Picks(items, tags)[j] < |items|
  {
    if tags != [] {
      var front, last := tags[..|tags| - 1], tags[|tags| - 1];
      PicksInRange(items, front);
      PlacesOrdered(items, last);
      var before, ps := Picks(items, front), Picks(items, tags);
      assert forall j | 0 <= j < |before| :: ps[j] == before[j];
    }
  }

  /** A place is picked exactly when its tag is requested more often than it occurs before. */
  lemma {:induction false} PickedIff(items: seq<Json>, tags: seq<string>, tag: string, k: nat)
    requires k < |Places(items, tag)|
    ensures Places(items, tag)[k] in Picks(items, tags) <==> tag != "" && k < Count(tags, tag)
  {
    if tags != [] {
      var front, last := tags[..|tags| - 1], tags[|tags| - 1];
      var n := Count(front, last);
      PickedIff(items, front, tag, k);
      if last != "" && n < |Places(items, last)| {
        PlacesApart(items, tag, k, last, n);
      }
    }
  }

  lemma {:induction false} PicksDistinct(items: seq<Json>, tags: seq<string>)
    ensures forall j, k | 0 <= j < k < |Picks(items, tags)| :: Picks(items, tags)[j] != Picks(items, tags)[k]
  {
    if tags != [] {
      var front, last := tags[..|tags| - 1], tags[|tags| - 1];
      var n := Count(front, last);
      PicksDistinct(items, front);
      if last != "" && n < |Places(items, last)| {
        PickedIff(items, front, last, n);
        assert forall j | 0 <= j < |Picks(items, front)| :: Picks(items, front)[j] in Picks(items, front);
      }
    }
  }

  lemma {:induction false} RemoveOne(items: seq<Json>, used: set<nat>, i: nat)
    requires i < |items| && i !in used
    ensures multiset(Remaining(items, used)) == multiset(Remaining(items, used + {i})) + multiset{items[i]}
  {
    var n := |items| - 1;
    var own := Last(items, used);
    RemainingSnoc(items, used);
    RemainingSnoc(items, used + {i});
    if i < n {
      RemoveOne(items[..n], used, i);
      hide Remaining;
      assert Last(items, used + {i}) == own && items[..n][i] == items[i];
      MultisetExtend(Remaining(items[..n], used), Remaining(items[..n], used + {i}), items[i], own);
    } else {
      SameBelow(items[..n], used, used + {i});
      hide Remaining;
      assert own == [items[i]] && Last(items, used + {i}) == [];
      MultisetSnoc(Remaining(items[..n], used), items[i]);
    }
  }

  /** What the last item contributes. */
  function Last(items: seq<Json>, used: set<nat>): seq<Json>
    requires items != []
  {
    if |items| - 1 in used then [] else [items[|items| - 1]]
  }

  lemma RemainingSnoc(items: seq<Json>, used: set<nat>)
    requires items != []
    ensures Remaining(items, used) == Remaining(items[..|items| - 1], used) + Last(items, used)
  {}

  lemma MultisetSnoc(a: seq<Json>, x: Json)
    ensures multiset(a + [x]) == multiset(a + []) + multiset{x}
  {
    assert a + [] == a;
  }

  lemma MultisetExtend(a: seq<Json>, b: seq<Json>, x: Json, more: seq<Json>)
    requires multiset(a) == multiset(b) + multiset{x}
    ensures multiset(a + more) == multiset(b + more) + multiset{x}
  {
    assert multiset(a + more) == multiset(a) + multiset(more);
    assert multiset(b + more) == multiset(b) + multiset(more);
  }

  lemma {:induction false} SameBelow(items: seq<Json>, used: set<nat>, used': set<nat>)
    requires forall i | 0 <= i < |items| :: i in used <==> i in used'
    ensures Remaining(items, used) == Remaining(items, used')
  {
    if items != [] {
      SameBelow(items[..|items| - 1], used, used');
    }
  }

  lemma {:induction false} NothingUsed(items: seq<Json>)
    ensures Remaining(items, {}) == items
  {
    if items != [] {
      NothingUsed(items[..|items| - 1]);
    }
  }

  ghost predicate DistinctPlaces(items: seq<Json>, places: seq<nat>) {
    && (forall j | 0 <= j < |places| :: places[j] < |items|)
    && (forall j, k | 0 <= j < k < |places| :: places[j] != places[k])
  }

  function SetOf(places: seq<nat>): set<nat> {
    set i | i in places
  }

  lemma SetOfSnoc(places: seq<nat>)
    requires places != []
    ensures SetOf(places) == SetOf(places[..|places| - 1]) + {places[|places| - 1]}
  {
    assert places == places[..|places| - 1] + [places[|places| - 1]];
  }

  lemma GatherSnoc(items: seq<Json>, places: seq<nat>)
    requires places != [] && forall j | 0 <= j < |places| :: places[j] < |items|
    ensures var front, p := places[..|places| - 1], places[|places| - 1];
            && Gather(items, places) == Gather(items, front) + [items[p]]
            && multiset(Gather(items, places)) == multiset(Gather(items, front)) + multiset{items[p]}
  {
    var front, p := places[..|places| - 1], places[|places| - 1];
    assert Gather(items, places) == Gather(items, front) + [items[p]];
  }

  lemma {:induction false} GatherAndRest(items: seq<Json>, places: seq<nat>)
    requires DistinctPlaces(items, places)
    ensures multiset(Gather(items, places)) + multiset(Remaining(items, SetOf(places))) == multiset(items)
  {
    if places == [] {
      NothingUsed(items);
      assert SetOf(places) == {};
    } else {
      var front, p := places[..|places| - 1], places[|places| - 1];
      GatherAndRest(items, front);
      assert p !in SetOf(front);
      SetOfSnoc(places);
      RemoveOne(items, SetOf(front), p);
      GatherSnoc(items, places);
    }
  }

  function Reordered(items: seq<Json>, tags: seq<string>): seq<Json> {
    PicksInRange(items, tags);
    Gather(items, Picks(items, tags)) + Remaining(items, SetOf(Picks(items, tags)))
  }

  /** Whatever tags are requested, the result is a permutation of the outbounds. */
  lemma ReorderPermutes(items: seq<Json>, tags: seq<string>)
    ensures multiset(Reordered(items, tags)) == multiset(items)
  {
    PicksInRange(items, tags);
    PicksDistinct(items, tags);
    GatherAndRest(items, Picks(items, tags));
  }

  /** The picked items come first, in the order of their requests: the j-th request, if it is for
      the item whose tag was requested as often before as it occurs before the item, puts that item
      right behind those of the requests before it. */
  lemma ServedInOrder(items: seq<Json>, tags: seq<string>, j: nat, i: nat)
    requires j < |tags| && i < |items| && TagOf(items[i]) == tags[j] != ""
    requires |Places(items[..i], tags[j])| == Count(tags[..j], tags[j])
    ensures |Picks(items, tags[..j])| < |Picks(items, tags[..j + 1])| <= |Picks(items, tags)|
    ensures |Picks(items, tags)| <= |Reordered(items, tags)|
    ensures Reordered(items, tags)[|Picks(items, tags[..j])|] == items[i]
  {
    PlaceRank(items, i);
    PicksInRange(items, tags);
    assert tags[..j + 1][..j] == tags[..j];
    PicksGrow(items, tags, j + 1);
    assert Picks(items, tags[..j + 1])[|Picks(items, tags[..j])|] == i;
  }

  lemma {:induction false} PicksGrow(items: seq<Json>, tags: seq<string>, j: nat)
    requires j <= |tags|
    ensures Picks(items, tags[..j]) <= Picks(items, tags)
  {
    if j < |tags| {
      var n := |tags| - 1;
      assert tags[..n][..j] == tags[..j];
      PicksGrow(items, tags[..n], j);
    } else {
      assert tags[..j] == tags;
    }
  }

  /** Behind them are all items that are not picked, in their order. */
  lemma RestInOrder(items: seq<Json>, tags: seq<string>) returns (places: seq<nat>)
    ensures |Picks(items, tags)| <= |Reordered(items, tags)|
    ensures Picked(Reordered(items, tags)[|Picks(items, tags)|..], items, places)
    ensures forall i | 0 <= i < |items| :: i in places <==> i !in SetOf(Picks(items, tags))
  {
    PicksInRange(items, tags);
    places := RemainingPlaces(items, SetOf(Picks(items, tags)));
    assert Reordered(items, tags)[|Picks(items, tags)|..] == Remaining(items, SetOf(Picks(items, tags)));
  }

  lemma {:induction false} RemainingPlaces(items: seq<Json>, used: set<nat>) returns (places: seq<nat>)
    ensures Picked(Remaining(items, used), items, places)
    ensures forall i | 0 <= i < |items| :: i in places <==> i !in used
  {
    places := [];
    if items != [] {
      var n := |items| - 1;
      var front := RemainingPlaces(items[..n], used);
      RemainingSnoc(items, used);
      hide Remaining, Picked;
      places := PickedMore(Remaining(items[..n], used), items, front, n !in used);
    }
  }

  /** An item is moved to the front exactly when its tag is non-empty and is requested more
      often than it occurs before that item. */
  lemma MovedExactlyWhen(items: seq<Json>, tags: seq<string>, i: nat)
    requires i < |items|
    ensures i in SetOf(Picks(items, tags)) <==>
            TagOf(items[i]) != "" && |Places(items[..i], TagOf(items[i]))| < Count(tags, TagOf(items[i]))
  {
    var tag := TagOf(items[i]);
    PlaceRank(items, i);
    PickedIff(items, tags, tag, |Places(items[..i], tag)|);
  }

  lemma {:induction false} PlaceRank(items: seq<Json>, i: nat)
    requires i < |items|
    ensures var tag := TagOf(items[i]);
            var k := |Places(items[..i], tag)|;
            k < |Places(items, tag)| && Places(items, tag)[k] == i
  {
    var n := |items| - 1;
    if i < n {
      assert items[..n][..i] == items[..i];
      PlaceRank(items[..n], i);
    }
  }

  // ----- the same with the queues of the source -----

  function Queue(m: map<string, seq<nat>>, tag: string): seq<nat> {
    if tag in m then m[tag] else []
  }

  /** The places of a tag that the requests served so far have not taken. */
  function Untaken(items: seq<Json>, served: seq<string>, tag: string): seq<nat> {
    if Count(served, tag) <= |Places(items, tag)| then Places(items, tag)[Count(served, tag)..] else []
  }

  lemma UntakenStep(items: seq<Json>, served: seq<string>, tag: string, t: string)
    ensures var left := Untaken(items, served, t);
            Untaken(items, served + [tag], t) == if t == tag && left != [] then left[1..] else left
  {
    CountSnoc(served, tag, t);
    hide Count, Places;
  }

  ghost predicate Queues(m: map<string, seq<nat>>, items: seq<Json>, served: seq<string>) {
    (forall t | t in m :: t != "") && (forall t | t != "" :: Queue(m, t) == Untaken(items, served, t))
  }

  ghost predicate Filled(m: map<string, seq<nat>>, items: seq<Json>) {
    (forall t | t in m :: t != "") && (forall t | t != "" :: Queue(m, t) == Places(items, t))
  }

  lemma FillOne(m: map<string, seq<nat>>, items: seq<Json>, j: Json)
    requires Filled(m, items)
    ensures Filled(if TagOf(j) == "" then m else m[TagOf(j) := Queue(m, TagOf(j)) + [|items|]], items + [j])
  {
    var m' := if TagOf(j) == "" then m else m[TagOf(j) := Queue(m, TagOf(j)) + [|items|]];
    hide TagOf, Places;
    forall t | t != "" ensures Queue(m', t) == Places(items + [j], t) {
      PlacesSnoc(items, j, t);
    }
  }

  lemma PlacesSnoc(items: seq<Json>, j: Json, tag: string)
    ensures Places(items + [j], tag) == Places(items, tag) + (if TagOf(j) == tag then [|items|] else [])
  {
    assert (items + [j])[..|items|] == items;
  }

  lemma FilledIsQueues(m: map<string, seq<nat>>, items: seq<Json>)
    requires Filled(m, items)
    ensures Queues(m, items, [])
  {}

  method BuildQueues(items: seq<Json>) returns (indicesByTag: map<string, seq<nat>>)
    ensures Queues(indicesByTag, items, [])
  {
    indicesByTag := map[];
    for i := 0 to |items|
      invariant Filled(indicesByTag, items[..i])
    {
      assert items[..i + 1] == items[..i] + [items[i]];
      FillOne(indicesByTag, items[..i], items[i]);
      hide Filled;
      if items[i].Obj? {
        var tag := StrField(items[i].fields, "tag");
        if tag != "" {
          indicesByTag := indicesByTag[tag := Queue(indicesByTag, tag) + [i]];
        }
      }
    }
    assert items[..|items|] == items;
    FilledIsQueues(indicesByTag, items);
  }

  /** The queues after the first place of the tag, if there is one, was handed out. */
  function Served(m: map<string, seq<nat>>, tag: string): map<string, seq<nat>> {
    if Queue(m, tag) == [] then m else m[tag := Queue(m, tag)[1..]]
  }

  lemma ServeOne(m: map<string, seq<nat>>, items: seq<Json>, served: seq<string>, tag: string)
    requires Queues(m, items, served)
    ensures Queues(Served(m, tag), items, served + [tag])
    ensures Picks(items, served + [tag])
            == Picks(items, served) + (if Queue(m, tag) == [] then [] else [Queue(m, tag)[0]])
  {
    PickOne(m, items, served, tag);
    hide Untaken, Picks;
    forall t | t != "" ensures Queue(Served(m, tag), t) == Untaken(items, served + [tag], t) {
      UntakenStep(items, served, tag, t);
    }
  }

  lemma PickOne(m: map<string, seq<nat>>, items: seq<Json>, served: seq<string>, tag: string)
    requires Queues(m, items, served)
    ensures var q := Queue(m, tag);
            Picks(items, served + [tag]) == Picks(items, served) + (if q == [] then [] else [q[0]])
  {
    assert (served + [tag])[..|served|] == served;
    hide Places, Count;
  }

  lemma CountSnoc(served: seq<string>, tag: string, t: string)
    ensures Count(served + [tag], t) == Count(served, t) + (if t == tag then 1 else 0)
  {
    assert (served + [tag])[..|served|] == served;
  }

  /** The places handed out so far and the items gathered from them. */
  ghost predicate Taken(items: seq<Json>, served: seq<string>, reordered: seq<Json>, used: set<nat>) {
    var picks := Picks(items, served);
    used == SetOf(picks) && (forall j | 0 <= j < |picks| :: picks[j] < |items|) && reordered == Gather(items, picks)
  }

  lemma TakeOne(items: seq<Json>, served: seq<string>, tag: string, reordered: seq<Json>, used: set<nat>, i: nat)
    requires Taken(items, served, reordered, used)
    requires Picks(items, served + [tag]) == Picks(items, served) + [i]
    ensures i < |items| && i !in used
    ensures Taken(items, served + [tag], reordered + [items[i]], used + {i})
  {
    var before, after := Picks(items, served), Picks(items, served + [tag]);
    PicksInRange(items, served + [tag]);
    PicksDistinct(items, served + [tag]);
    hide Picks;
    assert after[|before|] == i;
    assert after[..|after| - 1] == before;
    assert forall k | 0 <= k < |before| :: after[k] == before[k];
    SetOfSnoc(after);
    GatherSnoc(items, after);
  }

  /** Serves the requests in order.  A place is in one queue only, so it is never met twice. */
  method TakeRequested(items: seq<Json>, tags: seq<string>) returns (reordered: seq<Json>, used: set<nat>)
    ensures Taken(items, tags, reordered, used)
  {
    var indicesByTag := BuildQueues(items);
    reordered, used := [], {};
    for j := 0 to |tags|
      invariant Queues(indicesByTag, items, tags[..j])
      invariant Taken(items, tags[..j], reordered, used)
    {
      assert tags[..j + 1] == tags[..j] + [tags[j]];
      ServeOne(indicesByTag, items, tags[..j], tags[j]);
      hide Queues, Picks, Taken;
      var queue := Queue(indicesByTag, tags[j]);
      if queue != [] {
        var i := queue[0];
        indicesByTag := indicesByTag[tags[j] := queue[1..]];
        TakeOne(items, tags[..j], tags[j], reordered, used, i);
        reordered := reordered + [items[i]];
        used := used + {i};
      } else {
        SamePicks(items, tags[..j], tags[..j + 1], reordered, used);
      }
    }
    assert tags[..|tags|] == tags;
  }

  lemma SamePicks(items: seq<Json>, served: seq<string>, served': seq<string>, reordered: seq<Json>, used: set<nat>)
    requires Taken(items, served, reordered, used) && Picks(items, served') == Picks(items, served)
    ensures Taken(items, served', reordered, used)
  {}

  method ReorderOutbounds(items: seq<Json>, tags: seq<string>) returns (reordered: seq<Json>)
    ensures reordered == Reordered(items, tags)
    ensures multiset(reordered) == multiset(items)
  {
    var used;
    reordered, used := TakeRequested(items, tags);
    for i := 0 to |items|
      invariant reordered == Gather(items, Picks(items, tags)) + Remaining(items[..i], used)
    {
      assert items[..i + 1][..i] == items[..i];
      if i !in used {
        reordered := reordered + [items[i]];
      }
    }
    assert items[..|items|] == items;
    ReorderPermutes(items, tags);
  }
}
