/** cmd/mmw-agent/main.go: merging the template into the existing Xray config, as every restart
    of the agent does. */
module ConfigMerge {
  import opened Json
  import opened Seqs
  import opened Routing

  // ----- inbounds and outbounds, by tag -----

  function Tags(items: seq<Json>): set<string> {
    set j | j in items && TagOf(j) != "" :: TagOf(j)
  }

  lemma TagsSnoc(items: seq<Json>, j: Json)
    ensures Tags(items + [j]) == Tags(items) + (if TagOf(j) == "" then {} else {TagOf(j)})
  {
    hide TagOf;
    assert forall i :: i in items + [j] <==> i in items || i == j;
  }

  /** The items whose tag the template does not provide. */
  function OwnItems(items: seq<Json>, tags: set<string>): seq<Json> {
    Filter(items, (j: Json) => TagOf(j) !in tags)
  }

  function MergeTagged(existing: seq<Json>, template: seq<Json>): seq<Json> {
    template + OwnItems(existing, Tags(template))
  }

  method MergeTaggedArray(existing: seq<Json>, template: seq<Json>) returns (merged: seq<Json>)
    ensures merged == MergeTagged(existing, template)
  {
    var tplTags: set<string> := {};
    for i := 0 to |template|
      invariant tplTags == Tags(template[..i])
    {
      TagsSnoc(template[..i], template[i]);
      assert template[..i + 1] == template[..i] + [template[i]];
      if template[i].Obj? {
        var tag := StrField(template[i].fields, "tag");
        if tag != "" {
          tplTags := tplTags + {tag};
        }
      }
    }
    assert template[..|template|] == template;
    merged := template;
    for i := 0 to |existing|
      invariant merged == template + OwnItems(existing[..i], tplTags)
    {
      var item := existing[i];
      assert existing[..i + 1] == existing[..i] + [item];
      FilterSnoc(existing[..i], item, (j: Json) => TagOf(j) !in tplTags);
      if !item.Obj? {
        merged := merged + [item];
        continue;
      }
      var tag := StrField(item.fields, "tag");
      if tag != "" && tag in tplTags {
        continue;
      }
      merged := merged + [item];
    }
    assert existing[..|existing|] == existing;
  }

  /** Merging again puts the template's untagged items in once more. */
  lemma MergeTaggedTwice(existing: seq<Json>, template: seq<Json>)
    ensures var tags := Tags(template);
            MergeTagged(MergeTagged(existing, template), template)
            == template + (OwnItems(template, tags) + OwnItems(existing, tags))
  {
    var tags := Tags(template);
    var f := (j: Json) => TagOf(j) !in tags;
    FilterMembers(existing, f);
    FilterConcat(template, Filter(existing, f), f);
    FilterAll(Filter(existing, f), f);
  }

  lemma UntaggedItems(template: seq<Json>)
    ensures OwnItems(template, Tags(template)) == [] <==> AllTagged(template)
  {
    var tags := Tags(template);
    var f := (j: Json) => TagOf(j) !in tags;
    FilterMembers(template, f);
    if AllTagged(template) {
      FilterNone(template, f);
    } else {
      var j :| j in template && TagOf(j) == "";
      assert j in Filter(template, f);
    }
  }

  /** Merging the same template array again changes nothing exactly when each of its items has a
      tag; an item without one is added once more at each restart. */
  lemma TaggedStableIff(existing: seq<Json>, template: seq<Json>)
    ensures var merged := MergeTagged(existing, template);
            MergeTagged(merged, template) == merged <==> AllTagged(template)
  {
    hide OwnItems, Tags, AllTagged;
    MergeTaggedTwice(existing, template);
    UntaggedItems(template);
    var own, left := OwnItems(existing, Tags(template)), OwnItems(template, Tags(template));
    assert |template + (left + own)| == |template| + |left| + |own|;
    assert [] + own == own;
  }

  // ----- the whole config -----

  function MergedField(k: string, existing: Object, template: Object, sig: Signature): Json
    requires k in existing || k in template
  {
    if k !in template then existing[k]
    else if k == "inbounds" || k == "outbounds" then Arr(MergeTagged(Items(Field(existing, k)), Items(template[k])))
    else if k == "routing" then MergeRouting(Field(existing, k), template[k], sig)
    else template[k]
  }

  function MergeConfig(existing: Object, template: Object, sig: Signature): Object {
    map k | k in existing.Keys + template.Keys :: MergedField(k, existing, template, sig)
  }

  method MergeXrayConfig(existing: Object, template: Object, sig: Signature) returns (result: Object)
    ensures result == MergeConfig(existing, template, sig)
  {
    result := CopyFields(map[], existing, {});
    assert result == existing;
    var rest := template.Keys;
    while rest != {}
      invariant rest <= template.Keys
      invariant result.Keys == existing.Keys + (template.Keys - rest)
      invariant forall k | k in result ::
                  result[k] == if k in rest then existing[k] else MergedField(k, existing, template, sig)
      decreases rest
    {
      var k :| k in rest;
      rest := rest - {k};
      if k == "inbounds" || k == "outbounds" {
        var merged := MergeTaggedArray(Items(Field(existing, k)), Items(template[k]));
        result := result[k := Arr(merged)];
      } else if k == "routing" {
        var merged := MergeRoutingBlock(Field(existing, k), template[k], sig);
        result := result[k := merged];
      } else {
        result := result[k := template[k]];
      }
    }
  }

  /** What a template must be for restarts to leave a merged config alone. */
  ghost predicate StableTemplate(existing: Object, template: Object) {
    && ("inbounds" in template ==> AllTagged(Items(template["inbounds"])))
    && ("outbounds" in template ==> AllTagged(Items(template["outbounds"])))
    && ("routing" in template ==> RestartStable(Field(existing, "routing"), template["routing"]))
  }

  lemma FieldStableIff(k: string, existing: Object, template: Object, sig: Signature)
    requires k in existing || k in template
    ensures var merged := MergeConfig(existing, template, sig);
            (MergedField(k, merged, template, sig) == merged[k]) <==>
              (k in template ==>
                && (k == "inbounds" || k == "outbounds" ==> AllTagged(Items(template[k])))
                && (k == "routing" ==> RestartStable(Field(existing, k), template[k])))
  {
    if k in template {
      if k == "inbounds" || k == "outbounds" {
        TaggedStableIff(Items(Field(existing, k)), Items(template[k]));
      } else if k == "routing" {
        RoutingStableIff(Field(existing, k), template[k], sig);
      }
    }
  }

  /** A second restart with the same template leaves the config as the first one wrote it
      exactly for a StableTemplate, whatever the existing config. */
  lemma ConfigStableIff(existing: Object, template: Object, sig: Signature)
    ensures var merged := MergeConfig(existing, template, sig);
            MergeConfig(merged, template, sig) == merged <==> StableTemplate(existing, template)
  {
    var merged := MergeConfig(existing, template, sig);
    var again := MergeConfig(merged, template, sig);
    assert again.Keys == merged.Keys == existing.Keys + template.Keys;
    forall k | k in merged
      ensures (again[k] == merged[k]) <==>
              (k in template ==>
                && (k == "inbounds" || k == "outbounds" ==> AllTagged(Items(template[k])))
                && (k == "routing" ==> RestartStable(Field(existing, k), template[k])))
    {
      FieldStableIff(k, existing, template, sig);
    }
    if StableTemplate(existing, template) {
      forall k | k in merged ensures again[k] == merged[k] {}
    }
  }

  /** What the merge promises about the user's own inbounds and outbounds: the template's come
      first, and exactly the existing items whose tag is empty or not the template's follow. */
  lemma TaggedKeepsOwn(existing: seq<Json>, template: seq<Json>, j: Json)
    ensures template <= MergeTagged(existing, template)
    ensures j in MergeTagged(existing, template)
            <==> j in template
                 || (j in existing && (TagOf(j) == "" || forall t | t in template :: TagOf(t) != TagOf(j)))
  {
    var tags := Tags(template);
    FilterMembers(existing, (i: Json) => TagOf(i) !in tags);
  }

  /** And they keep their order. */
  lemma OwnKeepOrder(existing: seq<Json>, template: seq<Json>) returns (places: seq<nat>)
    ensures Ascending(places, |existing|) && |MergeTagged(existing, template)| == |template| + |places|
    ensures forall k | 0 <= k < |places| :: MergeTagged(existing, template)[|template| + k] == existing[places[k]]
    ensures forall i | 0 <= i < |existing| ::
              i in places <==> TagOf(existing[i]) == "" || forall t | t in template :: TagOf(t) != TagOf(existing[i])
  {
    var tags := Tags(template);
    places := FilterPlaces(existing, (j: Json) => TagOf(j) !in tags);
  }

  /** Field by field: the template wins, its absence leaves the existing value, and only the two
      arrays and the routing block are merged. */
  lemma TemplateWins(existing: Object, template: Object, sig: Signature, k: string)
    ensures k in MergeConfig(existing, template, sig) <==> k in existing || k in template
    ensures k in existing && k !in template ==> MergeConfig(existing, template, sig)[k] == existing[k]
    ensures k in template && k !in {"inbounds", "outbounds", "routing"} ==>
              MergeConfig(existing, template, sig)[k] == template[k]
    ensures k in template && k in {"inbounds", "outbounds"} ==>
              MergeConfig(existing, template, sig)[k]
              == Arr(MergeTagged(Items(Field(existing, k)), Items(template[k])))
    ensures k in template && k == "routing" ==>
              MergeConfig(existing, template, sig)[k] == MergeRouting(Field(existing, k), template[k], sig)
  {}
}
