/** internal/handler/external_xray.go: merging a configuration fragment into the inbounds or
    outbounds of the main config, item by item and in place. */
module Takeover {
  import opened Json
  import opened Wrappers

  /** The last item with this tag. */
  function LastTag(items: seq<Json>, tag: string): Option<nat> {
    if items == [] then None
    else if TagOf(items[|items| - 1]) == tag then Some(|items| - 1)
    else LastTag(items[..|items| - 1], tag)
  }

  lemma {:induction false} LastTagFinds(items: seq<Json>, tag: string)
    ensures match LastTag(items, tag)
            case None => forall i | 0 <= i < |items| :: TagOf(items[i]) != tag
            case Some(i) =>
              i < |items| && TagOf(items[i]) == tag && forall j | i < j < |items| :: TagOf(items[j]) != tag
  {
    if items != [] {
      LastTagFinds(items[..|items| - 1], tag);
    }
  }

  function Put(items: seq<Json>, e: Json): seq<Json> {
    LastTagFinds(items, TagOf(e));
    if TagOf(e) != "" && LastTag(items, TagOf(e)).Some? then items[LastTag(items, TagOf(e)).value := e]
    else items + [e]
  }

  function Overlaid(items: seq<Json>, overlay: seq<Json>): seq<Json> {
    if overlay == [] then items
    else Put(Overlaid(items, overlay[..|overlay| - 1]), overlay[|overlay| - 1])
  }

  lemma AppendEffect(items: seq<Json>, e: Json, tag: string)
    ensures LastTag(items + [e], tag) == if TagOf(e) == tag then Some(|items|) else LastTag(items, tag)
  {
    assert (items + [e])[..|items|] == items;
  }

  lemma {:induction false} SameTags(a: seq<Json>, b: seq<Json>, tag: string)
    requires |a| == |b| && forall i | 0 <= i < |a| :: TagOf(a[i]) == TagOf(b[i])
    ensures LastTag(a, tag) == LastTag(b, tag)
  {
    if a != [] {
      SameTags(a[..|a| - 1], b[..|b| - 1], tag);
    }
  }

  /** One item put: which places change, and where every tag is found afterwards. */
  lemma PutEffect(items: seq<Json>, e: Json, tag: string)
    requires tag != ""
    ensures var out := Put(items, e);
            && |items| <= |out|
            && (forall i | 0 <= i < |items| :: TagOf(out[i]) == TagOf(items[i]))
            && |out| == (if TagOf(e) == "" || LastTag(items, TagOf(e)).None? then |items| + 1 else |items|)
            && LastTag(out, tag)
               == if tag == TagOf(e) && LastTag(items, tag).None? then Some(|items|) else LastTag(items, tag)
  {
    LastTagFinds(items, TagOf(e));
    if TagOf(e) != "" && LastTag(items, TagOf(e)).Some? {
      SameTags(items, Put(items, e), tag);
    } else {
      AppendEffect(items, e, tag);
    }
  }

  /** Where a tag is after the merge: where it last was in the base, or appended. */
  lemma {:induction false} TagPlaces(items: seq<Json>, overlay: seq<Json>, tag: string)
    requires tag != ""
    ensures var out := Overlaid(items, overlay);
            && |items| <= |out|
            && (forall i | 0 <= i < |items| :: TagOf(out[i]) == TagOf(items[i]))
            && (LastTag(items, tag).Some? ==> LastTag(out, tag) == LastTag(items, tag))
            && (LastTag(out, tag).Some? <==> LastTag(items, tag).Some? || LastTag(overlay, tag).Some?)
  {
    if overlay != [] {
      var front, e := overlay[..|overlay| - 1], overlay[|overlay| - 1];
      TagPlaces(items, front, tag);
      PutEffect(Overlaid(items, front), e, tag);
      LastTagFinds(overlay, tag);
    }
  }

  lemma PutHere(items: seq<Json>, e: Json)
    requires TagOf(e) != ""
    ensures var out := Put(items, e);
            var at := LastTag(out, TagOf(e));
            at.Some? && at.value < |out| && out[at.value] == e
  {
    PutEffect(items, e, TagOf(e));
    LastTagFinds(items, TagOf(e));
  }

  lemma PutElsewhere(items: seq<Json>, e: Json, tag: string)
    requires tag != "" && tag != TagOf(e) && LastTag(items, tag).Some?
    ensures var out := Put(items, e);
            var at := LastTag(items, tag);
            LastTag(out, tag) == at && at.value < |items| <= |out| && out[at.value] == items[at.value]
  {
    PutEffect(items, e, tag);
    LastTagFinds(items, TagOf(e));
    LastTagFinds(items, tag);
  }

  /** The item that ends up under a tag of the overlay is the overlay's last one with it. */
  lemma {:induction false} OverlayWins(items: seq<Json>, overlay: seq<Json>, tag: string)
    requires tag != "" && LastTag(overlay, tag).Some?
    ensures var out := Overlaid(items, overlay);
            && LastTag(out, tag).Some? && LastTag(out, tag).value < |out|
            && LastTag(overlay, tag).value < |overlay|
            && out[LastTag(out, tag).value] == overlay[LastTag(overlay, tag).value]
  {
    var front, e := overlay[..|overlay| - 1], overlay[|overlay| - 1];
    if TagOf(e) == tag {
      PutHere(Overlaid(items, front), e);
    } else {
      OverlayWins(items, front, tag);
      PutElsewhere(Overlaid(items, front), e, tag);
    }
  }

  /** Every item of the base keeps its place: it is replaced by the overlay's last item of its
      tag if it is the base's last item of that tag, and is itself otherwise. */
  lemma {:induction false} BaseKeepsPlaces(items: seq<Json>, overlay: seq<Json>, i: nat)
    requires i < |items|
    ensures var out, tag := Overlaid(items, overlay), TagOf(items[i]);
            && i < |out|
            && (tag != "" && LastTag(items, tag) == Some(i) && LastTag(overlay, tag).Some? ==>
                  LastTag(overlay, tag).value < |overlay| && out[i] == overlay[LastTag(overlay, tag).value])
            && (tag == "" || LastTag(items, tag) != Some(i) || LastTag(overlay, tag).None? ==> out[i] == items[i])
  {
    if overlay != [] {
      var front, e := overlay[..|overlay| - 1], overlay[|overlay| - 1];
      var before := Overlaid(items, front);
      BaseKeepsPlaces(items, front, i);
      LastTagFinds(items, TagOf(e));
      LastTagFinds(before, TagOf(e));
      LastTagFinds(items, TagOf(items[i]));
      if TagOf(e) != "" {
        TagPlaces(items, front, TagOf(e));
      }
    }
  }

  /** The items of the overlay that get a new place: those without a tag and the first of each
      tag that the base does not have. */
  function NewItems(items: seq<Json>, overlay: seq<Json>): nat {
    if overlay == [] then 0
    else
      var front, e := overlay[..|overlay| - 1], overlay[|overlay| - 1];
      NewItems(items, front)
      + (if TagOf(e) == "" || (LastTag(items, TagOf(e)).None? && LastTag(front, TagOf(e)).None?) then 1 else 0)
  }

  lemma {:induction false} OverlaidLength(items: seq<Json>, overlay: seq<Json>)
    ensures |Overlaid(items, overlay)| == |items| + NewItems(items, overlay)
  {
    if overlay != [] {
      var front, e := overlay[..|overlay| - 1], overlay[|overlay| - 1];
      OverlaidLength(items, front);
      if TagOf(e) != "" {
        TagPlaces(items, front, TagOf(e));
        PutEffect(Overlaid(items, front), e, TagOf(e));
      }
    }
  }

  /** The overlay's item j gets a new place: it has no tag, or is the first of a tag that the base
      does not have. */
  ghost predicate IsNew(items: seq<Json>, overlay: seq<Json>, j: nat)
    requires j < |overlay|
  {
    TagOf(overlay[j]) == ""
    || ((forall i | 0 <= i < |items| :: TagOf(items[i]) != TagOf(overlay[j]))
        && (forall i | 0 <= i < j :: TagOf(overlay[i]) != TagOf(overlay[j])))
  }

  lemma PutKeepsUntagged(items: seq<Json>, e: Json, at: nat)
    requires at < |items| && TagOf(items[at]) == ""
    ensures at < |Put(items, e)| && Put(items, e)[at] == items[at]
  {
    LastTagFinds(items, TagOf(e));
  }

  lemma LastPut(items: seq<Json>, overlay: seq<Json>)
    requires overlay != []
    ensures Overlaid(items, overlay) == Put(Overlaid(items, overlay[..|overlay| - 1]), overlay[|overlay| - 1])
    ensures |Overlaid(items, overlay[..|overlay| - 1])| == |items| + NewItems(items, overlay[..|overlay| - 1])
  {
    OverlaidLength(items, overlay[..|overlay| - 1]);
  }

  /** An item without a tag stands where it was appended. */
  lemma {:induction false} UntaggedPlace(items: seq<Json>, overlay: seq<Json>, j: nat, at: nat)
    requires j < |overlay| && TagOf(overlay[j]) == "" && at == |items| + NewItems(items, overlay[..j])
    ensures at < |Overlaid(items, overlay)| && Overlaid(items, overlay)[at] == overlay[j]
  {
    hide Overlaid, NewItems, TagOf;
    var n := |overlay| - 1;
    var front := overlay[..n];
    LastPut(items, overlay);
    if j < n {
      assert front[..j] == overlay[..j] && front[j] == overlay[j];
      UntaggedPlace(items, front, j, at);
      hide Put;
      PutKeepsUntagged(Overlaid(items, front), overlay[n], at);
    } else {
      assert overlay[..j] == front;
    }
  }

  /** A new tag is found where its first item was appended. */
  lemma {:induction false} NewTagPlace(items: seq<Json>, overlay: seq<Json>, j: nat, at: nat)
    requires j < |overlay| && TagOf(overlay[j]) != "" && IsNew(items, overlay, j)
    requires at == |items| + NewItems(items, overlay[..j])
    ensures LastTag(Overlaid(items, overlay), TagOf(overlay[j])) == Some(at)
  {
    hide Overlaid, NewItems, TagOf, LastTag, Put;
    var n, tag := |overlay| - 1, TagOf(overlay[j]);
    var front := overlay[..n];
    var before := Overlaid(items, front);
    LastPut(items, overlay);
    PutEffect(before, overlay[n], tag);
    if j < n {
      assert front[..j] == overlay[..j] && front[j] == overlay[j];
      assert IsNew(items, front, j);
      NewTagPlace(items, front, j, at);
    } else {
      assert overlay[..j] == front;
      TagPlaces(items, front, tag);
      LastTagFinds(front, tag);
      LastTagFinds(items, tag);
    }
  }

  /** Where it is, counting those before it, and what stands there: itself without a tag, the
      overlay's last item of its tag with one. */
  lemma NewItemPlace(items: seq<Json>, overlay: seq<Json>, j: nat, at: nat)
    requires j < |overlay| && IsNew(items, overlay, j) && at == |items| + NewItems(items, overlay[..j])
    ensures at < |Overlaid(items, overlay)|
    ensures TagOf(overlay[j]) == "" ==> Overlaid(items, overlay)[at] == overlay[j]
    ensures TagOf(overlay[j]) != "" ==>
              && LastTag(overlay, TagOf(overlay[j])).Some? && LastTag(overlay, TagOf(overlay[j])).value < |overlay|
              && Overlaid(items, overlay)[at] == overlay[LastTag(overlay, TagOf(overlay[j])).value]
  {
    if TagOf(overlay[j]) == "" {
      UntaggedPlace(items, overlay, j, at);
    } else {
      LastTagFinds(overlay, TagOf(overlay[j]));
      NewTagPlace(items, overlay, j, at);
      OverlayWins(items, overlay, TagOf(overlay[j]));
    }
  }

  /** How many get a new place. */
  lemma {:induction false} NewItemsStep(items: seq<Json>, overlay: seq<Json>)
    requires overlay != []
    ensures NewItems(items, overlay)
            == NewItems(items, overlay[..|overlay| - 1]) + (if IsNew(items, overlay, |overlay| - 1) then 1 else 0)
  {
    var front, e := overlay[..|overlay| - 1], overlay[|overlay| - 1];
    LastTagFinds(items, TagOf(e));
    LastTagFinds(front, TagOf(e));
    assert forall i | 0 <= i < |front| :: front[i] == overlay[i];
  }

  lemma {:induction false} NothingNew(items: seq<Json>, overlay: seq<Json>)
    requires forall i | 0 <= i < |overlay| && TagOf(overlay[i]) != "" :: LastTag(items, TagOf(overlay[i])).Some?
    ensures NewItems(items, overlay) == 0 <==> AllTagged(overlay)
  {
    if overlay != [] {
      var front, e := overlay[..|overlay| - 1], overlay[|overlay| - 1];
      assert forall i | 0 <= i < |front| :: front[i] == overlay[i];
      assert overlay == front + [e];
      NothingNew(items, front);
    }
  }

  /** Merging the same fragment again changes nothing exactly when all its items have tags. */
  lemma OverlayIdempotentIff(items: seq<Json>, overlay: seq<Json>)
    ensures var once := Overlaid(items, overlay);
            Overlaid(once, overlay) == once <==> AllTagged(overlay)
  {
    var once := Overlaid(items, overlay);
    var twice := Overlaid(once, overlay);
    forall i | 0 <= i < |overlay| && TagOf(overlay[i]) != ""
      ensures LastTag(once, TagOf(overlay[i])).Some?
    {
      LastTagFinds(overlay, TagOf(overlay[i]));
      TagPlaces(items, overlay, TagOf(overlay[i]));
    }
    NothingNew(once, overlay);
    OverlaidLength(once, overlay);
    if AllTagged(overlay) {
      forall i | 0 <= i < |once| ensures twice[i] == once[i] {
        BaseKeepsPlaces(once, overlay, i);
        var tag := TagOf(once[i]);
        if tag != "" && LastTag(overlay, tag).Some? {
          OverlayWins(items, overlay, tag);
        }
      }
    }
  }

  // ----- the same with the index table of the source -----

  ghost predicate Indexes(tagIdx: map<string, nat>, items: seq<Json>) {
    && (forall t :: t in tagIdx <==> t != "" && LastTag(items, t).Some?)
    && (forall t | t in tagIdx :: LastTag(items, t) == Some(tagIdx[t]))
  }

  method IndexTags(items: seq<Json>) returns (tagIdx: map<string, nat>)
    ensures Indexes(tagIdx, items)
  {
    tagIdx := map[];
    for i := 0 to |items|
      invariant Indexes(tagIdx, items[..i])
    {
      assert items[..i + 1] == items[..i] + [items[i]];
      forall t ensures LastTag(items[..i + 1], t) == if TagOf(items[i]) == t then Some(i) else LastTag(items[..i], t) {
        AppendEffect(items[..i], items[i], t);
      }
      if items[i].Obj? {
        var t := StrField(items[i].fields, "tag");
        if t != "" {
          tagIdx := tagIdx[t := i];
        }
      }
    }
    assert items[..|items|] == items;
  }

  method PutItem(items: seq<Json>, tagIdx: map<string, nat>, e: Json)
    returns (items': seq<Json>, tagIdx': map<string, nat>)
    requires Indexes(tagIdx, items)
    ensures items' == Put(items, e) && Indexes(tagIdx', items')
  {
    forall t | t != ""
      ensures LastTag(Put(items, e), t)
              == if t == TagOf(e) && LastTag(items, t).None? then Some(|items|) else LastTag(items, t)
    {
      PutEffect(items, e, t);
    }
    if !e.Obj? {
      return items + [e], tagIdx;
    }
    var t := StrField(e.fields, "tag");
    if t == "" {
      return items + [e], tagIdx;
    }
    if t in tagIdx {
      LastTagFinds(items, t);
      return items[tagIdx[t] := e], tagIdx;
    }
    return items + [e], tagIdx[t := |items|];
  }

  method MergeTaggedArray(main: seq<Json>, overlay: seq<Json>) returns (items: seq<Json>)
    ensures items == Overlaid(main, overlay)
  {
    items := main;
    var tagIdx := IndexTags(main);
    for j := 0 to |overlay|
      invariant items == Overlaid(main, overlay[..j])
      invariant Indexes(tagIdx, items)
    {
      assert overlay[..j + 1][..j] == overlay[..j];
      items, tagIdx := PutItem(items, tagIdx, overlay[j]);
    }
    assert overlay[..|overlay|] == overlay;
  }
}
