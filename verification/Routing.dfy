/** Routing rules: their priority classes, the restart merge of cmd/mmw-agent/main.go and the
    ordered insertion of internal/handler/management_handler.go. */
module Routing {
  import opened Json
  import opened Seqs

  // ----- priority classes -----

  predicate HasPrefix(s: string, p: string) {
    |p| <= |s| && s[..|p|] == p
  }

  /** The number of pieces that splitting at ':' gives. */
  function Pieces(s: string): nat {
    if s == "" then 1 else (if s[0] == ':' then 1 else 0) + Pieces(s[1..])
  }

  /** Smaller numbers go first.  Anything that is not an object counts as a rule without fields. */
  function Priority(rule: Json): (p: int)
    ensures -1 <= p <= 4
    ensures !rule.Obj? ==> p == 4
  {
    if !rule.Obj? then 4
    else
      var outboundTag := StrField(rule.fields, "outboundTag");
      var marktag := StrField(rule.fields, "marktag");
      if outboundTag == "nginx" then -1
      else if HasPrefix(outboundTag, "tunnel-") then 0
      else if HasPrefix(marktag, "routed:") then (if Pieces(marktag) == 4 then 1 else 2)
      else if marktag == "home_broadband_warp" || marktag == "speedtest_warp" then 3
      else 4
  }

  predicate NoColon(s: string) {
    forall i | 0 <= i < |s| :: s[i] != ':'
  }

  lemma {:induction false} PiecesJoin(a: string, b: string)
    requires NoColon(a)
    ensures Pieces(a + [':'] + b) == 1 + Pieces(b)
  {
    if a == "" {
      assert a + [':'] + b == [':'] + b;
    } else {
      PiecesJoin(a[1..], b);
      assert (a + [':'] + b)[1..] == a[1..] + [':'] + b;
    }
  }

  lemma {:induction false} OnePiece(a: string)
    requires NoColon(a)
    ensures Pieces(a) == 1
  {
    if a != "" {
      OnePiece(a[1..]);
    }
  }

  /** How the marktags of the two kinds of routed rules are written. */
  function AdminMarktag(id: string, slug: string): string {
    "routed" + [':'] + (id + [':'] + slug)
  }

  function UserMarktag(id: string, user: string, slug: string): string {
    "routed" + [':'] + (id + [':'] + (user + [':'] + slug))
  }

  /** The classes by what the rules are for: the disguise site first, then port forwards, a
      user's own routed rules, the shared ones, and everything unmarked last. */
  lemma PriorityOrder(rule: Object, id: string, user: string, slug: string)
    requires NoColon(id) && NoColon(user) && NoColon(slug)
    ensures var out, mark := StrField(rule, "outboundTag"), StrField(rule, "marktag");
            && (out == "nginx" <==> Priority(Obj(rule)) == -1)
            && (HasPrefix(out, "tunnel-") <==> Priority(Obj(rule)) == 0)
            && (out != "nginx" && !HasPrefix(out, "tunnel-") ==>
                  && (mark == UserMarktag(id, user, slug) ==> Priority(Obj(rule)) == 1)
                  && (mark == AdminMarktag(id, slug) ==> Priority(Obj(rule)) == 2)
                  && (mark == "" ==> Priority(Obj(rule)) == 4))
  {
    PiecesJoin("routed", id + [':'] + (user + [':'] + slug));
    PiecesJoin(id, user + [':'] + slug);
    PiecesJoin(user, slug);
    PiecesJoin("routed", id + [':'] + slug);
    PiecesJoin(id, slug);
    OnePiece(slug);
    assert UserMarktag(id, user, slug)[..7] == "routed:";
    assert AdminMarktag(id, slug)[..7] == "routed:";
  }

  lemma {:induction false} PiecesCount(s: string)
    ensures Pieces(s) == 1 + multiset(s)[':']
  {
    if s != "" {
      PiecesCount(s[1..]);
      assert s == [s[0]] + s[1..];
    }
  }

  /** The exact classes, on the two fields: the disguise site, then port forwards, and among all
      others the routed marktags with three colons, the other routed ones, and the two marks of
      the WARP rules; everything else is in class 4. */
  lemma PriorityExact(rule: Object, out: string, mark: string)
    requires out == StrField(rule, "outboundTag") && mark == StrField(rule, "marktag")
    ensures Priority(Obj(rule)) == -1 <==> out == "nginx"
    ensures Priority(Obj(rule)) == 0 <==> |out| >= 7 && out[..7] == "tunnel-"
    ensures out != "nginx" && !(|out| >= 7 && out[..7] == "tunnel-") ==>
              Priority(Obj(rule)) == if |mark| >= 7 && mark[..7] == "routed:"
                                     then (if multiset(mark)[':'] == 3 then 1 else 2)
                                     else if mark in {"home_broadband_warp", "speedtest_warp"} then 3 else 4
  {
    PiecesCount(mark);
    hide Pieces;
  }

  /** The rules of one class, in their order. */
  function Class(rules: seq<Json>, p: int): seq<Json> {
    Filter(rules, (r: Json) => Priority(r) == p)
  }

  ghost predicate Sorted(rules: seq<Json>) {
    forall i, j | 0 <= i < j < |rules| :: Priority(rules[i]) <= Priority(rules[j])
  }

  /** What a stable sort by priority promises: sorted, and each class as it was. */
  ghost predicate IsStableSort(out: seq<Json>, rules: seq<Json>) {
    Sorted(out) && forall p :: Class(out, p) == Class(rules, p)
  }

  lemma ClassConcat(a: seq<Json>, b: seq<Json>, p: int)
    ensures Class(a + b, p) == Class(a, p) + Class(b, p)
  {
    hide Priority;
    FilterConcat(a, b, (r: Json) => Priority(r) == p);
  }

  /** The class of a tail. */
  lemma ClassTail(a: seq<Json>, p: int)
    requires a != []
    ensures Priority(a[0]) == p ==> Class(a, p) == [a[0]] + Class(a[1..], p) && Class(a[1..], p) == Class(a, p)[1..]
    ensures Priority(a[0]) != p ==> Class(a[1..], p) == Class(a, p)
  {
    hide Priority;
    FilterHead(a, (r: Json) => Priority(r) == p);
  }

  lemma ClassCons(x: Json, a: seq<Json>, p: int)
    ensures Class([x] + a, p) == (if Priority(x) == p then [x] else []) + Class(a, p)
  {
    hide Priority;
    FilterCons(x, a, (r: Json) => Priority(r) == p);
  }

  lemma ClassMembers(rules: seq<Json>, p: int)
    ensures forall r :: r in Class(rules, p) <==> r in rules && Priority(r) == p
  {
    hide Priority;
    FilterMembers(rules, (r: Json) => Priority(r) == p);
  }

  /** The head of a sorted list leads its class, and no smaller class has members. */
  lemma HeadLeads(a: seq<Json>)
    requires a != [] && Sorted(a)
    ensures var p := Priority(a[0]);
            Class(a, p) != [] && Class(a, p)[0] == a[0] && forall q | q < p :: Class(a, q) == []
  {
    hide Priority;
    ClassTail(a, Priority(a[0]));
    forall q | q < Priority(a[0]) ensures Class(a, q) == [] {
      forall r | r in a ensures Priority(r) != q {
        var i :| 0 <= i < |a| && a[i] == r;
      }
      FilterNone(a, (r: Json) => Priority(r) == q);
    }
  }

  /** A stable sort is unique, so it does not matter how the library computes it. */
  lemma {:induction false} StableSortUnique(a: seq<Json>, b: seq<Json>)
    requires Sorted(a) && Sorted(b)
    requires forall p :: Class(a, p) == Class(b, p)
    ensures a == b
  {
    hide Priority;
    if a == [] {
      assert forall p :: Class(b, p) == Class(a, p) == [];
      if b != [] {
        HeadLeads(b);
      }
    } else {
      var p := Priority(a[0]);
      HeadLeads(a);
      assert Class(b, p) == Class(a, p);
      assert b != [];
      HeadLeads(b);
      var q := Priority(b[0]);
      assert Class(a, q) == Class(b, q);
      assert p == q;
      forall r ensures Class(a[1..], r) == Class(b[1..], r) {
        assert Class(a, r) == Class(b, r);
        ClassTail(a, r);
        ClassTail(b, r);
      }
      StableSortUnique(a[1..], b[1..]);
      assert a == [a[0]] + a[1..] && b == [b[0]] + b[1..];
    }
  }

  /** Putting x before the first rule that is not of a smaller class. */
  function Insert(rules: seq<Json>, x: Json): seq<Json> {
    if rules == [] || Priority(rules[0]) >= Priority(x) then [x] + rules
    else [rules[0]] + Insert(rules[1..], x)
  }

  lemma {:induction false} InsertMembers(rules: seq<Json>, x: Json)
    ensures forall r :: r in Insert(rules, x) <==> r == x || r in rules
  {
    hide Priority;
    if rules != [] && Priority(rules[0]) < Priority(x) {
      InsertMembers(rules[1..], x);
      assert forall r :: r in rules <==> r == rules[0] || r in rules[1..];
    }
  }

  lemma {:induction false} InsertSorted(rules: seq<Json>, x: Json)
    requires Sorted(rules)
    ensures Sorted(Insert(rules, x))
  {
    hide Priority;
    if rules != [] && Priority(rules[0]) < Priority(x) {
      var rest := Insert(rules[1..], x);
      InsertSorted(rules[1..], x);
      InsertMembers(rules[1..], x);
      forall j | 0 <= j < |rest| ensures Priority(rules[0]) <= Priority(rest[j]) {
        assert rest[j] in rest;
        if rest[j] != x {
          var i :| 0 <= i < |rules[1..]| && rules[1..][i] == rest[j];
        }
      }
    }
  }

  lemma {:induction false} InsertClass(rules: seq<Json>, x: Json, p: int)
    requires Sorted(rules)
    ensures Class(Insert(rules, x), p) == Class([x] + rules, p)
  {
    hide Priority;
    ClassCons(x, rules, p);
    if rules != [] && Priority(rules[0]) < Priority(x) {
      InsertClass(rules[1..], x, p);
      ClassCons(rules[0], Insert(rules[1..], x), p);
      ClassCons(x, rules[1..], p);
      ClassTail(rules, p);
    }
  }

  lemma InsertIsStable(rules: seq<Json>, x: Json)
    requires Sorted(rules)
    ensures IsStableSort(Insert(rules, x), [x] + rules)
  {
    InsertSorted(rules, x);
    forall p ensures Class(Insert(rules, x), p) == Class([x] + rules, p) {
      InsertClass(rules, x, p);
    }
  }

  function StableSort(rules: seq<Json>): seq<Json> {
    if rules == [] then [] else Insert(StableSort(rules[1..]), rules[0])
  }

  lemma {:induction false} StableSortCorrect(rules: seq<Json>)
    ensures IsStableSort(StableSort(rules), rules)
    ensures |StableSort(rules)| == |rules|
  {
    if rules != [] {
      var rest := StableSort(rules[1..]);
      StableSortCorrect(rules[1..]);
      InsertIsStable(rest, rules[0]);
      InsertLength(rest, rules[0]);
      forall p ensures Class(StableSort(rules), p) == Class(rules, p) {
        ClassCons(rules[0], rest, p);
        ClassTail(rules, p);
        assert Class(rest, p) == Class(rules[1..], p);
      }
    }
  }

  lemma {:induction false} InsertLength(rules: seq<Json>, x: Json)
    ensures |Insert(rules, x)| == |rules| + 1
  {
    if rules != [] && Priority(rules[0]) < Priority(x) {
      InsertLength(rules[1..], x);
    }
  }

  // ----- the restart merge of the rules -----

  /** The content signature of a rule, used only as a function. */
  type Signature = Json -> string

  function Marktags(rules: seq<Json>): set<string> {
    set r | r in rules && r.Obj? && StrField(r.fields, "marktag") != "" :: StrField(r.fields, "marktag")
  }

  /** An existing rule survives unless the template has a rule with its marktag or signature. */
  predicate Kept(r: Json, template: seq<Json>, sig: Signature) {
    r.Obj? ==>
      && StrField(r.fields, "marktag") !in Marktags(template)
      && forall t | t in template :: sig(t) != sig(r)
  }

  function Survivors(rules: seq<Json>, template: seq<Json>, sig: Signature): seq<Json> {
    Filter(rules, (r: Json) => Kept(r, template, sig))
  }

  function MergedRules(existing: seq<Json>, template: seq<Json>, sig: Signature): seq<Json> {
    StableSort(template + Survivors(existing, template, sig))
  }

  predicate AllObjects(rules: seq<Json>) {
    forall r | r in rules :: r.Obj?
  }

  lemma SurvivorsConcat(a: seq<Json>, b: seq<Json>, template: seq<Json>, sig: Signature)
    ensures Survivors(a + b, template, sig) == Survivors(a, template, sig) + Survivors(b, template, sig)
  {
    hide Kept;
    FilterConcat(a, b, (r: Json) => Kept(r, template, sig));
  }

  lemma SurvivorsMembers(rules: seq<Json>, template: seq<Json>, sig: Signature)
    ensures forall r :: r in Survivors(rules, template, sig) <==> r in rules && Kept(r, template, sig)
  {
    hide Kept;
    FilterMembers(rules, (r: Json) => Kept(r, template, sig));
  }

  /** Filtering and picking a class commute. */
  lemma SurvivorsOfClass(rules: seq<Json>, template: seq<Json>, sig: Signature, p: int)
    ensures Class(Survivors(rules, template, sig), p) == Survivors(Class(rules, p), template, sig)
  {
    hide Kept, Priority;
    FilterCommutes(rules, (r: Json) => Kept(r, template, sig), (r: Json) => Priority(r) == p);
  }

  lemma AllSurvive(rules: seq<Json>, template: seq<Json>, sig: Signature)
    requires forall r | r in rules :: Kept(r, template, sig)
    ensures Survivors(rules, template, sig) == rules
  {
    hide Kept;
    FilterAll(rules, (r: Json) => Kept(r, template, sig));
  }

  lemma NoneSurvive(rules: seq<Json>, template: seq<Json>, sig: Signature)
    requires forall r | r in rules :: !Kept(r, template, sig)
    ensures Survivors(rules, template, sig) == []
  {
    hide Kept;
    FilterNone(rules, (r: Json) => Kept(r, template, sig));
  }

  /** The merge of the rules, class by class: first the template's, then the survivors'. */
  lemma MergedClass(existing: seq<Json>, template: seq<Json>, sig: Signature, p: int)
    ensures Class(MergedRules(existing, template, sig), p)
            == Class(template, p) + Class(Survivors(existing, template, sig), p)
  {
    StableSortCorrect(template + Survivors(existing, template, sig));
    ClassConcat(template, Survivors(existing, template, sig), p);
  }

  /** The template's own object rules never survive against it; what is not an object does. */
  lemma TemplateKept(template: seq<Json>, sig: Signature)
    ensures forall r | r in template :: Kept(r, template, sig) <==> !r.Obj?
  {}

  /** What survives of a merge result: the template's non-objects and everything that survived
      the first time, class by class. */
  lemma SurvivorsOfMerge(existing: seq<Json>, template: seq<Json>, sig: Signature, p: int)
    ensures Class(Survivors(MergedRules(existing, template, sig), template, sig), p)
            == Class(Survivors(template, template, sig), p) + Class(Survivors(existing, template, sig), p)
  {
    var kept := Survivors(existing, template, sig);
    SurvivorsOfClass(MergedRules(existing, template, sig), template, sig, p);
    MergedClass(existing, template, sig, p);
    SurvivorsConcat(Class(template, p), Class(kept, p), template, sig);
    SurvivorsOfClass(template, template, sig, p);
    ClassMembers(kept, p);
    SurvivorsMembers(existing, template, sig);
    AllSurvive(Class(kept, p), template, sig);
  }

  lemma SizeByClass(a: seq<Json>, b: seq<Json>)
    requires forall p :: Class(a, p) == Class(b, p)
    ensures |a| == |b|
  {
    StableSortCorrect(a);
    StableSortCorrect(b);
    StableSortUnique(StableSort(a), StableSort(b));
  }

  lemma ObjectTemplateStable(existing: seq<Json>, template: seq<Json>, sig: Signature)
    requires AllObjects(template)
    ensures var merged := MergedRules(existing, template, sig);
            MergedRules(merged, template, sig) == merged
  {
    var merged := MergedRules(existing, template, sig);
    var again := MergedRules(merged, template, sig);
    StableSortCorrect(template + Survivors(existing, template, sig));
    StableSortCorrect(template + Survivors(merged, template, sig));
    TemplateKept(template, sig);
    NoneSurvive(template, template, sig);
    assert Sorted(again) && Sorted(merged);
    hide MergedRules, Kept, Sorted;
    forall p ensures Class(again, p) == Class(merged, p) {
      MergedClass(merged, template, sig, p);
      MergedClass(existing, template, sig, p);
      SurvivorsOfMerge(existing, template, sig, p);
    }
    StableSortUnique(again, merged);
  }

  /** As many rules survive of a merge result as survived the first time, and one more for
      each item of the template that is not an object. */
  lemma SurvivorCount(existing: seq<Json>, template: seq<Json>, sig: Signature)
    ensures |Survivors(MergedRules(existing, template, sig), template, sig)|
            == |Survivors(template, template, sig)| + |Survivors(existing, template, sig)|
  {
    var left, kept := Survivors(template, template, sig), Survivors(existing, template, sig);
    var again := Survivors(MergedRules(existing, template, sig), template, sig);
    hide Kept, MergedRules;
    forall p ensures Class(again, p) == Class(left + kept, p) {
      SurvivorsOfMerge(existing, template, sig, p);
      ClassConcat(left, kept, p);
    }
    SizeByClass(again, left + kept);
  }

  lemma StableMeansObjects(existing: seq<Json>, template: seq<Json>, sig: Signature)
    requires var merged := MergedRules(existing, template, sig);
             |MergedRules(merged, template, sig)| == |merged|
    ensures AllObjects(template)
  {
    StableSortCorrect(template + Survivors(existing, template, sig));
    StableSortCorrect(template + Survivors(MergedRules(existing, template, sig), template, sig));
    SurvivorCount(existing, template, sig);
    var left := Survivors(template, template, sig);
    assert left == [];
    SurvivorsMembers(template, template, sig);
    TemplateKept(template, sig);
    forall r | r in template ensures r.Obj? {
      assert r !in left;
    }
  }

  /** Merging the same template again changes nothing exactly when all template rules are
      objects: every other item of the template is added once more at each restart. */
  lemma RulesStableIff(existing: seq<Json>, template: seq<Json>, sig: Signature)
    ensures var merged := MergedRules(existing, template, sig);
            MergedRules(merged, template, sig) == merged <==> AllObjects(template)
  {
    var merged := MergedRules(existing, template, sig);
    if AllObjects(template) {
      ObjectTemplateStable(existing, template, sig);
    }
    if MergedRules(merged, template, sig) == merged {
      StableMeansObjects(existing, template, sig);
    }
  }

  /** Nothing else happens to the rules: the result holds the template's rules and those
      existing rules that the template does not replace. */
  lemma MergedMembers(existing: seq<Json>, template: seq<Json>, sig: Signature, r: Json)
    ensures r in MergedRules(existing, template, sig) <==> r in template || (r in existing && Kept(r, template, sig))
  {
    StableSortCorrect(template + Survivors(existing, template, sig));
    StableSortMembers(template + Survivors(existing, template, sig));
    SurvivorsMembers(existing, template, sig);
  }

  /** What the template replaces, on the rules themselves: an existing object rule that is not
      one of the template's stays exactly when no template rule has its signature and no template
      object its marktag, if it has one; what is not an object stays. */
  lemma ReplacedExactly(existing: seq<Json>, template: seq<Json>, sig: Signature, r: Json)
    requires r in existing && r !in template
    ensures !r.Obj? ==> r in MergedRules(existing, template, sig)
    ensures r.Obj? ==> (r in MergedRules(existing, template, sig) <==>
              && (forall t | t in template :: sig(t) != sig(r))
              && (StrField(r.fields, "marktag") == ""
                  || forall t | t in template && t.Obj? ::
                       StrField(t.fields, "marktag") != StrField(r.fields, "marktag")))
  {
    MergedMembers(existing, template, sig, r);
  }

  /** So every rule of the result whose marktag a template object carries is a template rule. */
  lemma MarkedByTemplate(existing: seq<Json>, template: seq<Json>, sig: Signature, r: Json, t: Json)
    requires r in MergedRules(existing, template, sig) && r.Obj? && t in template && t.Obj?
    requires StrField(r.fields, "marktag") == StrField(t.fields, "marktag") != ""
    ensures r in template
  {
    MergedMembers(existing, template, sig, r);
    if r !in template {
      ReplacedExactly(existing, template, sig, r);
    }
  }

  /** The existing rules that stay keep their order within each class, after the template's. */
  lemma StayInOrder(existing: seq<Json>, template: seq<Json>, sig: Signature, p: int)
    returns (fromTemplate: seq<nat>, fromExisting: seq<nat>)
    ensures Ascending(fromTemplate, |template|) && Ascending(fromExisting, |existing|)
    ensures var rules := Class(MergedRules(existing, template, sig), p);
            && |rules| == |fromTemplate| + |fromExisting|
            && (forall k | 0 <= k < |fromTemplate| :: rules[k] == template[fromTemplate[k]])
            && (forall k | 0 <= k < |fromExisting| :: rules[|fromTemplate| + k] == existing[fromExisting[k]])
    ensures forall i | 0 <= i < |template| :: i in fromTemplate <==> Priority(template[i]) == p
    ensures forall i | 0 <= i < |existing| ::
              i in fromExisting <==> Priority(existing[i]) == p && Kept(existing[i], template, sig)
  {
    MergedClass(existing, template, sig, p);
    fromTemplate := ClassPlaces(template, p);
    fromExisting := StayingPlaces(existing, template, sig, p);
    hide Kept, Priority, Class, Survivors, MergedRules;
  }

  lemma ClassPlaces(rules: seq<Json>, p: int) returns (places: seq<nat>)
    ensures Ascending(places, |rules|) && |places| == |Class(rules, p)|
    ensures forall k | 0 <= k < |places| :: Class(rules, p)[k] == rules[places[k]]
    ensures forall i | 0 <= i < |rules| :: i in places <==> Priority(rules[i]) == p
  {
    hide Priority;
    places := FilterPlaces(rules, (r: Json) => Priority(r) == p);
  }

  lemma StayingPlaces(existing: seq<Json>, template: seq<Json>, sig: Signature, p: int) returns (places: seq<nat>)
    ensures Ascending(places, |existing|) && |places| == |Class(Survivors(existing, template, sig), p)|
    ensures forall k | 0 <= k < |places| :: Class(Survivors(existing, template, sig), p)[k] == existing[places[k]]
    ensures forall i | 0 <= i < |existing| ::
              i in places <==> Priority(existing[i]) == p && Kept(existing[i], template, sig)
  {
    hide Kept, Priority;
    var both := (r: Json) => Kept(r, template, sig) && Priority(r) == p;
    FilterTwice(existing, (r: Json) => Kept(r, template, sig), (r: Json) => Priority(r) == p, both);
    places := FilterPlaces(existing, both);
  }

  // ----- the same, step by step as the source does it -----

  /** The library's stable sort, here by insertion from the right. */
  method SortStable(rules: seq<Json>) returns (out: seq<Json>)
    ensures IsStableSort(out, rules)
    ensures out == StableSort(rules)
  {
    out := [];
    for i := |rules| downto 0
      invariant out == StableSort(rules[i..])
    {
      assert rules[i..][1..] == rules[i + 1..];
      out := Insert(out, rules[i]);
    }
    assert rules[0..] == rules;
    StableSortCorrect(rules);
  }

  /** The rules part of mergeRouting: two lookup sets, one pass of filtering, one stable sort. */
  method MergeRules(existing: seq<Json>, template: seq<Json>, sig: Signature) returns (rules: seq<Json>)
    ensures rules == MergedRules(existing, template, sig)
  {
    var tplMarktags: set<string>, tplSignatures: set<string> := {}, {};
    for i := 0 to |template|
      invariant tplMarktags == Marktags(template[..i])
      invariant tplSignatures == set t | t in template[..i] :: sig(t)
    {
      var r := template[i];
      assert template[..i + 1] == template[..i] + [r];
      if r.Obj? {
        var m := StrField(r.fields, "marktag");
        if m != "" {
          tplMarktags := tplMarktags + {m};
        }
      }
      tplSignatures := tplSignatures + {sig(r)};
    }
    assert template[..|template|] == template;
    rules := template;
    for i := 0 to |existing|
      invariant rules == template + Survivors(existing[..i], template, sig)
    {
      var r := existing[i];
      assert existing[..i + 1] == existing[..i] + [r];
      SurvivorsConcat(existing[..i], [r], template, sig);
      OneSurvives(r, template, sig);
      if !r.Obj? {
        rules := rules + [r];
        continue;
      }
      var m := StrField(r.fields, "marktag");
      if m != "" && m in tplMarktags {
        continue;
      }
      if sig(r) in tplSignatures {
        continue;
      }
      rules := rules + [r];
    }
    assert existing[..|existing|] == existing;
    rules := SortStable(rules);
  }

  // ----- ordered insertion -----

  /** Where add_rule puts x: before the first object rule that is not of a smaller class. */
  function InsertionPoint(rules: seq<Json>, x: Json): (n: nat)
    ensures n <= |rules|
  {
    if rules == [] || (rules[0].Obj? && Priority(rules[0]) >= Priority(x)) then 0
    else 1 + InsertionPoint(rules[1..], x)
  }

  function AddedRule(rules: seq<Json>, x: Json): seq<Json> {
    var n := InsertionPoint(rules, x);
    rules[..n] + [x] + rules[n..]
  }

  method AddRule(rules: seq<Json>, x: Json) returns (out: seq<Json>)
    requires x.Obj?
    ensures out == AddedRule(rules, x)
  {
    var newP := Priority(x);
    var insertAt := |rules|;
    for i := 0 to |rules|
      invariant insertAt == |rules|
      invariant InsertionPoint(rules, x) == i + InsertionPoint(rules[i..], x)
    {
      assert rules[i..][1..] == rules[i + 1..];
      if !rules[i].Obj? {
        continue;
      }
      if Priority(rules[i]) >= newP {
        insertAt := i;
        break;
      }
    }
    assert insertAt == InsertionPoint(rules, x);
    out := rules[..insertAt] + [x] + rules[insertAt..];
  }

  lemma AddedTail(rules: seq<Json>, x: Json)
    requires rules != [] && !(rules[0].Obj? && Priority(rules[0]) >= Priority(x))
    ensures AddedRule(rules, x) == [rules[0]] + AddedRule(rules[1..], x)
  {
    var n := InsertionPoint(rules[1..], x);
    hide Priority;
    assert InsertionPoint(rules, x) == n + 1;
    assert rules[..n + 1] == [rules[0]] + rules[1..][..n];
    assert rules[n + 1..] == rules[1..][n..];
  }

  lemma {:induction false} AddedIsInsert(rules: seq<Json>, x: Json)
    requires AllObjects(rules)
    ensures AddedRule(rules, x) == Insert(rules, x)
  {
    assert rules != [] ==> rules[0] in rules;
    assert rules != [] ==> forall r | r in rules[1..] :: r in rules;
    if rules != [] && Priority(rules[0]) < Priority(x) {
      AddedIsInsert(rules[1..], x);
      AddedTail(rules, x);
    }
  }

  /** Insertion keeps a sorted list of object rules sorted, puts x first in its class, and
      leaves the order within every class as it was. */
  lemma AddRuleOrdered(rules: seq<Json>, x: Json)
    requires AllObjects(rules) && Sorted(rules)
    ensures var out := AddedRule(rules, x);
            && Sorted(out)
            && Class(out, Priority(x)) == [x] + Class(rules, Priority(x))
            && forall p | p != Priority(x) :: Class(out, p) == Class(rules, p)
  {
    AddedIsInsert(rules, x);
    InsertIsStable(rules, x);
    forall p ensures Class(AddedRule(rules, x), p) == (if p == Priority(x) then [x] else []) + Class(rules, p) {
      ClassCons(x, rules, p);
    }
  }

  lemma {:induction false} StableSortMembers(rules: seq<Json>)
    ensures forall r :: r in StableSort(rules) <==> r in rules
  {
    if rules != [] {
      StableSortMembers(rules[1..]);
      InsertMembers(StableSort(rules[1..]), rules[0]);
      assert forall r :: r in rules <==> r == rules[0] || r in rules[1..];
    }
  }

  function Own(x: Json, p: int): seq<Json> {
    if Priority(x) == p then [x] else []
  }

  lemma OneSurvives(x: Json, template: seq<Json>, sig: Signature)
    ensures Survivors([x], template, sig) == if Kept(x, template, sig) then [x] else []
  {
    hide Kept;
    assert [] + [x] == [x];
    FilterSnoc([], x, (r: Json) => Kept(r, template, sig));
  }

  /** Up to the insertion point the objects are of smaller classes; there, an object is not. */
  lemma {:induction false} InsertionPointSplits(rules: seq<Json>, x: Json)
    ensures forall i | 0 <= i < InsertionPoint(rules, x) :: rules[i].Obj? ==> Priority(rules[i]) < Priority(x)
    ensures InsertionPoint(rules, x) < |rules| ==>
              rules[InsertionPoint(rules, x)].Obj? && Priority(rules[InsertionPoint(rules, x)]) >= Priority(x)
  {
    hide Priority;
    if rules != [] && !(rules[0].Obj? && Priority(rules[0]) >= Priority(x)) {
      InsertionPointSplits(rules[1..], x);
      assert forall i | 0 < i < InsertionPoint(rules, x) :: rules[i] == rules[1..][i - 1];
    }
  }

  /** What insertion passes over of x's own class, and what it leaves behind. */
  function Passed(rules: seq<Json>, x: Json, p: int): seq<Json> {
    Class(rules[..InsertionPoint(rules, x)], p)
  }

  function Ahead(rules: seq<Json>, x: Json, p: int): seq<Json> {
    Class(rules[InsertionPoint(rules, x)..], p)
  }

  lemma AddedClass(rules: seq<Json>, x: Json, p: int)
    ensures Class(rules, p) == Passed(rules, x, p) + Ahead(rules, x, p)
    ensures Class(AddedRule(rules, x), p) == Passed(rules, x, p) + Own(x, p) + Ahead(rules, x, p)
  {
    var n := InsertionPoint(rules, x);
    assert rules == rules[..n] + rules[n..];
    ClassConcat(rules[..n], rules[n..], p);
    ClassConcat(rules[..n] + [x], rules[n..], p);
    ClassConcat(rules[..n], [x], p);
    ClassCons(x, [], p);
    assert [x] + [] == [x];
  }

  /** Only items that are not objects are passed over in x's own class. */
  lemma PassedAreNoObjects(rules: seq<Json>, x: Json)
    ensures forall r | r in Passed(rules, x, Priority(x)) :: !r.Obj?
    ensures Priority(x) < 4 ==> Passed(rules, x, Priority(x)) == []
  {
    var n := InsertionPoint(rules, x);
    InsertionPointSplits(rules, x);
    ClassMembers(rules[..n], Priority(x));
    forall r | r in Passed(rules, x, Priority(x)) ensures !r.Obj? {
      var i :| 0 <= i < n && rules[i] == r;
    }
    if Passed(rules, x, Priority(x)) != [] {
      assert Passed(rules, x, Priority(x))[0] in Passed(rules, x, Priority(x));
    }
  }

  /** Insertion passes over no item that is not an object, unless x is of the last class, where
      those are. */
  predicate SkipsNothing(rules: seq<Json>, x: Json) {
    Priority(x) == 4 || AllObjects(rules[..InsertionPoint(rules, x)])
  }

  /** Insertion into a sorted list keeps it sorted exactly then. */
  lemma AddedSortedIff(rules: seq<Json>, x: Json)
    requires Sorted(rules)
    ensures Sorted(AddedRule(rules, x)) <==> SkipsNothing(rules, x)
  {
    var n := InsertionPoint(rules, x);
    InsertionPointSplits(rules, x);
    if SkipsNothing(rules, x) {
      forall i | 0 <= i < n ensures Priority(rules[i]) <= Priority(x) {
        assert rules[i] in rules[..n];
      }
      hide SkipsNothing, Priority;
      SortedAround(rules, x, n);
    } else {
      var r :| r in rules[..n] && !r.Obj?;
      var i :| 0 <= i < n && rules[i] == r;
      assert AddedRule(rules, x)[i] == r && AddedRule(rules, x)[n] == x;
    }
  }

  lemma SortedAround(rules: seq<Json>, x: Json, n: nat)
    requires Sorted(rules) && n <= |rules|
    requires forall i | 0 <= i < n :: Priority(rules[i]) <= Priority(x)
    requires n < |rules| ==> Priority(x) <= Priority(rules[n])
    ensures Sorted(rules[..n] + [x] + rules[n..])
  {
    hide Priority;
    var out := rules[..n] + [x] + rules[n..];
    assert forall i | 0 <= i < |out| :: out[i] == if i < n then rules[i] else if i == n then x else rules[i - 1];
  }

  function NonObjects(rules: seq<Json>): seq<Json> {
    Filter(rules, (r: Json) => !r.Obj?)
  }

  /** Items that are not objects all survive. */
  lemma NonObjectsSurvive(rules: seq<Json>, template: seq<Json>, sig: Signature)
    ensures NonObjects(Survivors(rules, template, sig)) == NonObjects(rules)
  {
    FilterCommutes(rules, (r: Json) => Kept(r, template, sig), (r: Json) => !r.Obj?);
    FilterMembers(rules, (r: Json) => !r.Obj?);
    AllSurvive(NonObjects(rules), template, sig);
  }

  /** A merge that adds nothing to the last class comes from a template of objects. */
  lemma UnchangedMeansObjects(rules: seq<Json>, template: seq<Json>, sig: Signature)
    requires Class(MergedRules(rules, template, sig), 4) == Class(rules, 4)
    ensures AllObjects(template)
  {
    var t, kept := Class(template, 4), Survivors(Class(rules, 4), template, sig);
    MergedClass(rules, template, sig, 4);
    SurvivorsOfClass(rules, template, sig, 4);
    NonObjectsSurvive(Class(rules, 4), template, sig);
    FilterConcat(t, kept, (r: Json) => !r.Obj?);
    assert NonObjects(t) == [];
    FilterMembers(t, (r: Json) => !r.Obj?);
    ClassMembers(template, 4);
    forall r | r in template ensures r.Obj? {
      assert r !in NonObjects(t);
    }
  }

  /** The class p after merging, adding x, and merging again, for a template of objects: the
      template's rules, and what was there of the existing ones around x. */
  lemma AddedThenMergedClass(existing: seq<Json>, template: seq<Json>, sig: Signature, x: Json, p: int)
    requires AllObjects(template)
    ensures var merged := MergedRules(existing, template, sig);
            Class(MergedRules(AddedRule(merged, x), template, sig), p)
            == Class(template, p) + (Survivors(Passed(merged, x, p), template, sig)
               + (if Kept(x, template, sig) then Own(x, p) else []) + Survivors(Ahead(merged, x, p), template, sig))
    ensures var merged := MergedRules(existing, template, sig);
            Survivors(Passed(merged, x, p), template, sig) + Survivors(Ahead(merged, x, p), template, sig)
            == Class(Survivors(existing, template, sig), p)
  {
    var merged := MergedRules(existing, template, sig);
    var added := AddedRule(merged, x);
    var passed, ahead := Passed(merged, x, p), Ahead(merged, x, p);
    MergedClass(added, template, sig, p);
    SurvivorsOfClass(added, template, sig, p);
    AddedClass(merged, x, p);
    hide AddedRule, MergedRules, Passed, Ahead, Class, Survivors, Kept, Priority;
    SurvivorsConcat(passed + Own(x, p), ahead, template, sig);
    SurvivorsConcat(passed, Own(x, p), template, sig);
    SurvivorsConcat(passed, ahead, template, sig);
    OwnSurvives(x, template, sig, p);
    SurvivorsOfClass(merged, template, sig, p);
    SurvivorsOfMerge(existing, template, sig, p);
    TemplateGone(template, sig, p);
  }

  lemma OwnSurvives(x: Json, template: seq<Json>, sig: Signature, p: int)
    ensures Survivors(Own(x, p), template, sig) == if Kept(x, template, sig) then Own(x, p) else []
  {
    OneSurvives(x, template, sig);
  }

  lemma TemplateGone(template: seq<Json>, sig: Signature, p: int)
    requires AllObjects(template)
    ensures Class(Survivors(template, template, sig), p) == []
  {
    TemplateKept(template, sig);
    NoneSurvive(template, template, sig);
  }

  /** When a rule added after a merge stays where it was put across the next merge. */
  ghost predicate Survives(merged: seq<Json>, template: seq<Json>, sig: Signature, x: Json) {
    && AllObjects(template) && Kept(x, template, sig) && Class(template, Priority(x)) == []
    && SkipsNothing(merged, x)
  }

  lemma SurvivorStays(existing: seq<Json>, template: seq<Json>, sig: Signature, x: Json)
    requires Survives(MergedRules(existing, template, sig), template, sig, x)
    ensures var added := AddedRule(MergedRules(existing, template, sig), x);
            MergedRules(added, template, sig) == added
  {
    var merged := MergedRules(existing, template, sig);
    var added := AddedRule(merged, x);
    var again := MergedRules(added, template, sig);
    StableSortCorrect(template + Survivors(existing, template, sig));
    StableSortCorrect(template + Survivors(added, template, sig));
    AddedSortedIff(merged, x);
    forall p ensures Class(again, p) == Class(added, p) {
      StayingClass(existing, template, sig, x, p);
    }
    StableSortUnique(again, added);
  }

  lemma StayingClass(existing: seq<Json>, template: seq<Json>, sig: Signature, x: Json, p: int)
    requires Survives(MergedRules(existing, template, sig), template, sig, x)
    ensures var added := AddedRule(MergedRules(existing, template, sig), x);
            Class(MergedRules(added, template, sig), p) == Class(added, p)
  {
    var merged := MergedRules(existing, template, sig);
    var passed, ahead := Passed(merged, x, p), Ahead(merged, x, p);
    AddedThenMergedClass(existing, template, sig, x, p);
    AddedClass(merged, x, p);
    MergedClass(existing, template, sig, p);
    assert p == Priority(x) ==> Class(template, p) == [];
    hide MergedRules, Kept, Class, AddedRule, Survivors, Passed, Ahead, Priority, SkipsNothing;
    if p == Priority(x) {
      KeptClassStays(existing, template, sig, passed, ahead, p);
    }
    Rejoined(Class(template, p), passed, Own(x, p), ahead,
             Survivors(passed, template, sig), Survivors(ahead, template, sig));
  }

  lemma Rejoined(t: seq<Json>, passed: seq<Json>, own: seq<Json>, ahead: seq<Json>, s1: seq<Json>, s2: seq<Json>)
    requires passed + ahead == t + (s1 + s2)
    requires own == [] || (t == [] && s1 == passed && s2 == ahead)
    ensures t + (s1 + own + s2) == passed + own + ahead
  {
    assert s1 + [] == s1 && passed + [] == passed;
  }

  lemma KeptClassStays(existing: seq<Json>, template: seq<Json>, sig: Signature,
                       passed: seq<Json>, ahead: seq<Json>, p: int)
    requires passed + ahead == Class(Survivors(existing, template, sig), p)
    ensures Survivors(passed, template, sig) == passed && Survivors(ahead, template, sig) == ahead
  {
    ClassMembers(Survivors(existing, template, sig), p);
    SurvivorsMembers(existing, template, sig);
    hide Kept, Class, Survivors;
    assert forall r | r in passed + ahead :: Kept(r, template, sig);
    AllSurvive(passed, template, sig);
    AllSurvive(ahead, template, sig);
  }

  /** A rule added at run time stays where it was put across the next restart exactly when the
      template's rules are objects, none of them filters it out or is of its class, and it was
      not put behind an item that is not an object and belongs behind it.  (A new rule goes to
      the front of its class; the restart merge puts the template's rules of the class first.) */
  lemma AddSurvivesRestartIff(existing: seq<Json>, template: seq<Json>, sig: Signature, x: Json)
    requires x.Obj?
    ensures var merged := MergedRules(existing, template, sig);
            MergedRules(AddedRule(merged, x), template, sig) == AddedRule(merged, x)
            <==> Survives(merged, template, sig, x)
  {
    var merged := MergedRules(existing, template, sig);
    if Survives(merged, template, sig, x) {
      SurvivorStays(existing, template, sig, x);
    }
    if MergedRules(AddedRule(merged, x), template, sig) == AddedRule(merged, x) {
      StayerSurvives(existing, template, sig, x);
    }
  }

  lemma StayerSurvives(existing: seq<Json>, template: seq<Json>, sig: Signature, x: Json)
    requires x.Obj?
    requires var added := AddedRule(MergedRules(existing, template, sig), x);
             MergedRules(added, template, sig) == added
    ensures Survives(MergedRules(existing, template, sig), template, sig, x)
  {
    var merged, p := MergedRules(existing, template, sig), Priority(x);
    var added := AddedRule(merged, x);
    StableSortCorrect(template + Survivors(existing, template, sig));
    StableSortCorrect(template + Survivors(added, template, sig));
    AddedSortedIff(merged, x);
    UnchangedMeansObjects(added, template, sig);
    AddedThenMergedClass(existing, template, sig, x, p);
    AddedClass(merged, x, p);
    MergedClass(existing, template, sig, p);
    PassedAreNoObjects(merged, x);
    ClassMembers(template, p);
    TemplateKept(template, sig);
    hide MergedRules, Class, AddedRule, Survivors, Passed, Ahead, Kept, Priority, SkipsNothing;
    var t, kept := Class(template, p), Class(Survivors(existing, template, sig), p);
    var passed, ahead := Passed(merged, x, p), Ahead(merged, x, p);
    assert passed + ahead == t + kept;
    assert |Class(added, p)| == |t| + |kept| + 1;
    assert Kept(x, template, sig);
    assert t != [] ==> t[0] in t;
    assert passed != [] ==> passed[0] in passed;
    NothingBefore(t, kept, passed, ahead, Survivors(passed, template, sig) + Own(x, p)
                                          + Survivors(ahead, template, sig), x);
  }

  /** The template's rules of a class come first in it, so x can be first only if there are none. */
  lemma NothingBefore(t: seq<Json>, kept: seq<Json>, passed: seq<Json>, ahead: seq<Json>, rest: seq<Json>, x: Json)
    requires passed + ahead == t + kept && passed + [x] + ahead == t + rest
    ensures t != [] ==> t[0] == if passed == [] then x else passed[0]
  {
    if t != [] {
      assert (t + rest)[0] == (t + kept)[0] == t[0];
      assert passed != [] ==> (passed + ahead)[0] == passed[0];
      assert passed == [] ==> (passed + [x] + ahead)[0] == x;
    }
  }

  // ----- the whole routing block -----

  function RulesOf(block: Json): seq<Json> {
    if block.Obj? then Items(Field(block.fields, "rules")) else []
  }

  function MergeRouting(existing: Json, template: Json, sig: Signature): Json {
    if !template.Obj? then (if existing.Obj? then existing else Null)
    else if !existing.Obj? then template
    else
      Obj((existing.fields + (template.fields - {"rules"}))
          ["rules" := Arr(MergedRules(RulesOf(existing), RulesOf(template), sig))])
  }

  /** The existing fields, overwritten by the template's; the rules merged. */
  method MergeRoutingBlock(existing: Json, template: Json, sig: Signature) returns (merged: Json)
    ensures merged == MergeRouting(existing, template, sig)
    ensures !template.Obj? ==> merged == if existing.Obj? then existing else Null
    ensures template.Obj? && !existing.Obj? ==> merged == template
    ensures existing.Obj? && template.Obj? ==>
              merged.Obj? && RulesOf(merged) == MergedRules(RulesOf(existing), RulesOf(template), sig)
              && forall k | k != "rules" :: Field(merged.fields, k)
                   == if k in template.fields then template.fields[k] else Field(existing.fields, k)
  {
    if !template.Obj? {
      return if existing.Obj? then existing else Null;
    }
    if !existing.Obj? {
      return template;
    }
    var fields := CopyFields(map[], existing.fields, {});
    fields := CopyFields(fields, template.fields, {"rules"});
    assert fields == existing.fields + (template.fields - {"rules"});
    var rules := MergeRules(RulesOf(existing), RulesOf(template), sig);
    fields := fields["rules" := Arr(rules)];
    merged := Obj(fields);
  }

  /** When a second merge of the same template changes nothing. */
  ghost predicate RestartStable(existing: Json, template: Json) {
    template.Obj? ==>
      && AllObjects(RulesOf(template))
      && (existing.Obj? || (Field(template.fields, "rules").Arr? && Sorted(RulesOf(template))))
  }

  /** Merging at every restart is stable exactly under RestartStable: the template's rules must
      be objects, and, when there was no routing block yet, already sorted, because then the
      template is taken over as it is and sorted only at the next restart. */
  lemma RoutingStableIff(existing: Json, template: Json, sig: Signature)
    ensures var merged := MergeRouting(existing, template, sig);
            MergeRouting(merged, template, sig) == merged <==> RestartStable(existing, template)
  {
    if template.Obj? {
      if existing.Obj? {
        BlockStableIff(existing, template, sig);
      } else {
        FirstStartStableIff(template, sig);
      }
    }
  }

  lemma BlockStableIff(existing: Json, template: Json, sig: Signature)
    requires existing.Obj? && template.Obj?
    ensures var merged := MergeRouting(existing, template, sig);
            MergeRouting(merged, template, sig) == merged <==> AllObjects(RulesOf(template))
  {
    var e, t := RulesOf(existing), RulesOf(template);
    RulesStableIff(e, t, sig);
    var merged := MergeRouting(existing, template, sig);
    var again := MergeRouting(merged, template, sig);
    hide MergedRules, AllObjects;
    assert RulesOf(merged) == MergedRules(e, t, sig);
    assert RulesOf(again) == MergedRules(RulesOf(merged), t, sig);
    assert again.fields == merged.fields["rules" := again.fields["rules"]];
    if RulesOf(again) == RulesOf(merged) {
      assert again.fields["rules"] == merged.fields["rules"];
    }
  }

  lemma FirstStartStableIff(template: Json, sig: Signature)
    requires template.Obj?
    ensures MergeRouting(template, template, sig) == template
            <==> AllObjects(RulesOf(template)) && Field(template.fields, "rules").Arr? && Sorted(RulesOf(template))
  {
    var t := RulesOf(template);
    var left := Survivors(t, t, sig);
    var again := MergeRouting(template, template, sig);
    SurvivorsMembers(t, t, sig);
    TemplateKept(t, sig);
    StableSortCorrect(t + left);
    hide Kept, Survivors, Priority, Class, StableSort;
    assert again.fields == template.fields["rules" := Arr(MergedRules(t, t, sig))];
    if AllObjects(t) && Field(template.fields, "rules").Arr? && Sorted(t) {
      NoneSurvive(t, t, sig);
      assert t + left == t;
      StableSortUnique(StableSort(t), t);
    }
    if again == template {
      assert template.fields["rules"] == Arr(MergedRules(t, t, sig));
      assert t == MergedRules(t, t, sig);
      assert left == [];
      forall r | r in t ensures r.Obj? {
        assert r !in left;
      }
    }
  }
}
