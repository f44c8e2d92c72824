/** internal/handler/management_handler.go: removing repeated tags from the inbounds or outbounds
    of a config without losing the users of the removed copies. */
module Dedupe {
  import opened Json
  import opened Seqs
  import opened Wrappers

  /** How Go prints a field value; an absent field prints as nil does. */
  type Printer = Json -> string

  function LowerChar(c: char): char {
    if 'A' <= c <= 'Z' then (c as int + 32) as char else c
  }

  function Lower(s: string): string {
    seq(|s|, i requires 0 <= i < |s| => LowerChar(s[i]))
  }

  // ----- credentials -----

  function PrimaryKey(protocol: string): string {
    var p := Lower(protocol);
    if p == "vless" || p == "vmess" then "id"
    else if p == "trojan" || p == "shadowsocks" || p == "anytls" then "password"
    else if p == "snell" then "psk"
    else if p == "mieru" then "username"
    else if p == "hysteria" then "auth"
    else if p == "socks" || p == "http" then "user"
    else ""
  }

  predicate HasText(m: Object, k: string, render: Printer) {
    render(Field(m, k)) != "" && render(Field(m, k)) != "<nil>"
  }

  predicate SameText(a: Object, b: Object, k: string, render: Printer) {
    HasText(a, k, render) && HasText(b, k, render) && render(Field(a, k)) == render(Field(b, k))
  }

  /** The same identity: by the protocol's primary key when both sides have it, else by email. */
  predicate MatchClientCredential(a: Object, b: Object, protocol: string, render: Printer) {
    var key := PrimaryKey(protocol);
    if key != "" && HasText(a, key, render) && HasText(b, key, render) then SameText(a, b, key, render)
    else SameText(a, b, "email", render)
  }

  /** The comparison does not depend on the sides; two full credentials are compared by the
      primary key alone, so that sharing an email does not make them one. */
  lemma MatchMeaning(a: Object, b: Object, protocol: string, render: Printer)
    ensures MatchClientCredential(a, b, protocol, render) <==> MatchClientCredential(b, a, protocol, render)
    ensures var key := PrimaryKey(protocol);
            key != "" && HasText(a, key, render) && HasText(b, key, render) ==>
              (MatchClientCredential(a, b, protocol, render) <==> render(Field(a, key)) == render(Field(b, key)))
    ensures MatchClientCredential(a, a, protocol, render)
            <==> (PrimaryKey(protocol) != "" && HasText(a, PrimaryKey(protocol), render)) || HasText(a, "email", render)
  {}

  /** The keys of the protocols, and when two entries are the same identity: by the key when both
      have one, by a shared non-empty email otherwise. */
  lemma MatchByProtocol(a: Object, b: Object, protocol: string, key: string, render: Printer)
    requires var p := Lower(protocol);
             || (p in {"vless", "vmess"} && key == "id")
             || (p in {"trojan", "shadowsocks", "anytls"} && key == "password")
             || (p == "snell" && key == "psk") || (p == "mieru" && key == "username")
             || (p == "hysteria" && key == "auth") || (p in {"socks", "http"} && key == "user")
    ensures var both := render(Field(a, key)) !in {"", "<nil>"} && render(Field(b, key)) !in {"", "<nil>"};
            MatchClientCredential(a, b, protocol, render) <==>
              if both then render(Field(a, key)) == render(Field(b, key))
              else render(Field(a, "email")) == render(Field(b, "email")) && render(Field(a, "email")) !in {"", "<nil>"}
  {}

  /** Lower-casing changes capital letters, and them to the letter 32 places on. */
  lemma LowerMeaning(s: string)
    ensures |Lower(s)| == |s|
    ensures forall i | 0 <= i < |s| ::
              Lower(s)[i] as int == s[i] as int + (if 65 <= s[i] as int <= 90 then 32 else 0)
  {}

  // ----- merging the clients of a copy -----

  /** The settings array that holds the users of a protocol. */
  function ClientKey(protocol: string): Option<string> {
    var p := Lower(protocol);
    if p == "vless" || p == "vmess" || p == "trojan" || p == "shadowsocks" || p == "hysteria" then Some("clients")
    else if p == "anytls" || p == "snell" || p == "mieru" then Some("users")
    else if p == "socks" || p == "http" then Some("accounts")
    else None
  }

  /** The protocol that decides how a copy's users are merged. */
  function Protocol(dst: Object, src: Object): string {
    if StrField(src, "protocol") != "" then StrField(src, "protocol") else StrField(dst, "protocol")
  }

  function Settings(m: Object): Json {
    Field(m, "settings")
  }

  function Entries(m: Object, key: string): seq<Json> {
    if Settings(m).Obj? then Items(Field(Settings(m).fields, key)) else []
  }

  /** Where the entries are: in the named array of the object under "settings". */
  lemma EntriesMeaning(m: Object, key: string, inner: Object, list: seq<Json>)
    ensures Entries(m["settings" := Obj(inner[key := Arr(list)])], key) == list
    ensures Entries(m["settings" := Obj(inner - {key})], key) == []
    ensures Entries(m - {"settings"}, key) == []
  {}

  /** c is in the list, or someone with the same identity is. */
  predicate Present(c: Json, list: seq<Json>, protocol: string, render: Printer) {
    c in list || (c.Obj? && Matched(c.fields, list, protocol, render))
  }

  predicate Matched(c: Object, list: seq<Json>, protocol: string, render: Printer) {
    exists d | d in list :: d.Obj? && MatchClientCredential(d.fields, c, protocol, render)
  }

  function Absorb(list: seq<Json>, more: seq<Json>, protocol: string, render: Printer): seq<Json>
    decreases more
  {
    if more == [] then list
    else
      var c := more[0];
      var next := if c.Obj? && Matched(c.fields, list, protocol, render) then list else list + [c];
      Absorb(next, more[1..], protocol, render)
  }

  function MergedInbound(dst: Object, src: Object, render: Printer): Object {
    var protocol := Protocol(dst, src);
    if !Settings(dst).Obj? || !Settings(src).Obj? || ClientKey(protocol).None? then dst
    else
      var key := ClientKey(protocol).value;
      if Entries(src, key) == [] then dst
      else
        var list := Absorb(Entries(dst, key), Entries(src, key), protocol, render);
        dst["settings" := Obj(Settings(dst).fields[key := Arr(list)])]
  }

  method FindMatch(c: Object, list: seq<Json>, protocol: string, render: Printer) returns (dup: bool)
    ensures dup <==> Matched(c, list, protocol, render)
  {
    for j := 0 to |list|
      invariant forall i | 0 <= i < j :: !(list[i].Obj? && MatchClientCredential(list[i].fields, c, protocol, render))
    {
      if list[j].Obj? && MatchClientCredential(list[j].fields, c, protocol, render) {
        return true;
      }
    }
    return false;
  }

  method AbsorbAll(list: seq<Json>, more: seq<Json>, protocol: string, render: Printer) returns (out: seq<Json>)
    ensures out == Absorb(list, more, protocol, render)
  {
    out := list;
    for i := 0 to |more|
      invariant Absorb(list, more, protocol, render) == Absorb(out, more[i..], protocol, render)
    {
      assert more[i..][1..] == more[i + 1..];
      var c := more[i];
      if !c.Obj? {
        out := out + [c];
        continue;
      }
      var dup := FindMatch(c.fields, out, protocol, render);
      if !dup {
        out := out + [c];
      }
    }
  }

  method MergeInboundClients(dst: Object, src: Object, render: Printer) returns (merged: Object)
    ensures merged == MergedInbound(dst, src, render)
  {
    if !Settings(dst).Obj? || !Settings(src).Obj? {
      return dst;
    }
    var protocol := StrField(dst, "protocol");
    if StrField(src, "protocol") != "" {
      protocol := StrField(src, "protocol");
    }
    var arrKey := ClientKey(protocol);
    if arrKey.None? {
      return dst;
    }
    var dstArr, srcArr := Entries(dst, arrKey.value), Entries(src, arrKey.value);
    if |srcArr| == 0 {
      return dst;
    }
    dstArr := AbsorbAll(dstArr, srcArr, protocol, render);
    merged := dst["settings" := Obj(Settings(dst).fields[arrKey.value := Arr(dstArr)])];
  }

  lemma {:induction false} AbsorbKeeps(list: seq<Json>, more: seq<Json>, protocol: string, render: Printer)
    ensures list <= Absorb(list, more, protocol, render)
    decreases more
  {
    if more != [] {
      var c := more[0];
      var next := if c.Obj? && Matched(c.fields, list, protocol, render) then list else list + [c];
      AbsorbKeeps(next, more[1..], protocol, render);
    }
  }

  lemma PresentGrows(c: Json, list: seq<Json>, longer: seq<Json>, protocol: string, render: Printer)
    requires Present(c, list, protocol, render) && list <= longer
    ensures Present(c, longer, protocol, render)
  {
    assert forall x | x in list :: x in longer;
  }

  lemma {:induction false} AbsorbTakesAll(list: seq<Json>, more: seq<Json>, protocol: string, render: Printer, c: Json)
    requires c in more
    ensures Present(c, Absorb(list, more, protocol, render), protocol, render)
    decreases more
  {
    var first := more[0];
    var next := if first.Obj? && Matched(first.fields, list, protocol, render) then list else list + [first];
    if c == first {
      assert Present(c, next, protocol, render);
      AbsorbKeeps(next, more[1..], protocol, render);
      PresentGrows(c, next, Absorb(list, more, protocol, render), protocol, render);
    } else {
      AbsorbTakesAll(next, more[1..], protocol, render, c);
    }
  }

  /** What is added to the survivor's entries: entries of the copy, in their order, none of which
      matched anybody present by then. */
  lemma {:induction false} AddedAreNew(list: seq<Json>, more: seq<Json>, protocol: string, render: Printer)
    returns (places: seq<nat>)
    ensures list <= Absorb(list, more, protocol, render)
    ensures Picked(Absorb(list, more, protocol, render)[|list|..], more, places)
    ensures forall k | |list| <= k < |Absorb(list, more, protocol, render)| ::
              var c := Absorb(list, more, protocol, render)[k];
              c.Obj? ==> !Matched(c.fields, Absorb(list, more, protocol, render)[..k], protocol, render)
    decreases |more|
  {
    AbsorbKeeps(list, more, protocol, render);
    places := [];
    if more != [] {
      var n := |more| - 1;
      var front := AddedAreNew(list, more[..n], protocol, render);
      var before, after := Absorb(list, more[..n], protocol, render), Absorb(list, more, protocol, render);
      var add := !(more[n].Obj? && Matched(more[n].fields, before, protocol, render));
      AbsorbLast(list, more, protocol, render);
      hide Absorb, Matched;
      places := PickedMore(before[|list|..], more, front, add);
      assert after[|list|..] == before[|list|..] + (if add then [more[n]] else []);
      assert forall k | 0 <= k < |before| :: after[k] == before[k] && after[..k] == before[..k];
      assert add ==> after[..|before|] == before;
    }
  }

  lemma {:induction false} AbsorbLast(list: seq<Json>, more: seq<Json>, protocol: string, render: Printer)
    requires more != []
    ensures var before, c := Absorb(list, more[..|more| - 1], protocol, render), more[|more| - 1];
            Absorb(list, more, protocol, render)
            == if c.Obj? && Matched(c.fields, before, protocol, render) then before else before + [c]
    decreases |more|
  {
    var n := |more| - 1;
    if n > 0 {
      var next := Absorb(list, [more[0]], protocol, render);
      AbsorbFirst(list, more, protocol, render);
      AbsorbFirst(list, more[..n], protocol, render);
      assert more[..n][1..] == more[1..][..n - 1] && more[1..][n - 1] == more[n];
      AbsorbLast(next, more[1..], protocol, render);
      hide Absorb, Matched;
    } else {
      AbsorbOne(list, more[0], protocol, render);
      assert more == [more[0]] && more[..0] == [];
    }
  }

  lemma AbsorbOne(list: seq<Json>, c: Json, protocol: string, render: Printer)
    ensures Absorb(list, [], protocol, render) == list
    ensures Absorb(list, [c], protocol, render)
            == if c.Obj? && Matched(c.fields, list, protocol, render) then list else list + [c]
  {
    var after := if c.Obj? && Matched(c.fields, list, protocol, render) then list else list + [c];
    assert [c][1..] == [];
    assert Absorb(list, [c], protocol, render) == Absorb(after, [], protocol, render) == after;
  }

  /** Where the users of a protocol are kept: the copy's protocol decides, or the survivor's when it
      has none.  If both have settings, each entry of the copy's array ends up in the survivor's
      array of the same name, or matches an entry there; under any other protocol nothing moves. */
  lemma MergedByProtocol(dst: Object, src: Object, protocol: string, render: Printer, key: string, c: Json)
    requires protocol == if StrField(src, "protocol") != "" then StrField(src, "protocol")
                         else StrField(dst, "protocol")
    requires Settings(dst).Obj? && Settings(src).Obj?
    ensures c in Entries(src, key)
            && (|| (Lower(protocol) in {"vless", "vmess", "trojan", "shadowsocks", "hysteria"} && key == "clients")
                || (Lower(protocol) in {"anytls", "snell", "mieru"} && key == "users")
                || (Lower(protocol) in {"socks", "http"} && key == "accounts"))
            ==> Present(c, Entries(MergedInbound(dst, src, render), key), protocol, render)
    ensures Lower(protocol) !in {"vless", "vmess", "trojan", "shadowsocks", "hysteria",
                                 "anytls", "snell", "mieru", "socks", "http"} ==>
              MergedInbound(dst, src, render) == dst
  {
    if ClientKey(protocol) == Some(key) && c in Entries(src, key) {
      AbsorbTakesAll(Entries(dst, key), Entries(src, key), protocol, render, c);
    }
  }

  /** Every user of the copy is in the survivor, or someone with the same identity is. */
  ghost predicate Covers(survivor: Object, copy: Object, render: Printer) {
    var protocol := Protocol(survivor, copy);
    ClientKey(protocol).Some? ==>
      forall c | c in Entries(copy, ClientKey(protocol).value) ::
        Present(c, Entries(survivor, ClientKey(protocol).value), protocol, render)
  }

  /** Merging one copy into the survivor loses none of its users exactly when the survivor has
      settings or the copy has no users; a survivor without settings loses them all. */
  lemma MergeLosesNoneIff(dst: Object, src: Object, render: Printer)
    requires ClientKey(Protocol(dst, src)).Some?
    ensures Covers(MergedInbound(dst, src, render), src, render)
            <==> Settings(dst).Obj? || Entries(src, ClientKey(Protocol(dst, src)).value) == []
  {
    var protocol := Protocol(dst, src);
    var key := ClientKey(protocol).value;
    var merged := MergedInbound(dst, src, render);
    assert Protocol(merged, src) == protocol;
    if Settings(dst).Obj? {
      forall c | c in Entries(src, key) ensures Present(c, Entries(merged, key), protocol, render) {
        AbsorbTakesAll(Entries(dst, key), Entries(src, key), protocol, render, c);
      }
    } else if Entries(src, key) != [] {
      assert Entries(src, key)[0] in Entries(src, key);
      assert Entries(merged, key) == [];
    }
  }

  /** Merging a copy takes no entry away from the survivor, in any of its arrays, and changes
      nothing but its settings. */
  lemma MergeKeeps(dst: Object, src: Object, render: Printer, key: string)
    ensures var merged := MergedInbound(dst, src, render);
            && Entries(dst, key) <= Entries(merged, key)
            && merged - {"settings"} == dst - {"settings"}
            && (Settings(merged).Obj? <==> Settings(dst).Obj?)
            && StrField(merged, "protocol") == StrField(dst, "protocol")
            && StrField(merged, "tag") == StrField(dst, "tag")
  {
    var protocol := Protocol(dst, src);
    if ClientKey(protocol).Some? {
      AbsorbKeeps(Entries(dst, ClientKey(protocol).value), Entries(src, ClientKey(protocol).value), protocol, render);
    }
  }

  lemma MergeKeepsCovering(dst: Object, src: Object, render: Printer, copy: Object)
    requires Covers(dst, copy, render)
    ensures Covers(MergedInbound(dst, src, render), copy, render)
  {
    var merged := MergedInbound(dst, src, render);
    MergeKeeps(dst, src, render, "");
    var protocol := Protocol(dst, copy);
    assert Protocol(merged, copy) == protocol;
    if ClientKey(protocol).Some? {
      var key := ClientKey(protocol).value;
      MergeKeeps(dst, src, render, key);
      forall c | c in Entries(copy, key) ensures Present(c, Entries(merged, key), protocol, render) {
        PresentGrows(c, Entries(dst, key), Entries(merged, key), protocol, render);
      }
    }
  }

  // ----- removing the copies -----

  function FindTag(items: seq<Json>, tag: string): Option<nat> {
    if items == [] then None
    else if TagOf(items[|items| - 1]) == tag && FindTag(items[..|items| - 1], tag).None? then Some(|items| - 1)
    else FindTag(items[..|items| - 1], tag)
  }

  /** The survivors so far and one more item. */
  function Keep(kept: seq<Json>, item: Json, inbounds: bool, render: Printer): seq<Json> {
    var at := if TagOf(item) == "" then None else FindTag(kept, TagOf(item));
    match at
    case None => kept + [item]
    case Some(i) =>
      FindTagFinds(kept, TagOf(item));
      if inbounds && kept[i].Obj? && item.Obj?
      then kept[i := Obj(MergedInbound(kept[i].fields, item.fields, render))]
      else kept
  }

  function Deduped(items: seq<Json>, inbounds: bool, render: Printer): seq<Json> {
    if items == [] then []
    else Keep(Deduped(items[..|items| - 1], inbounds, render), items[|items| - 1], inbounds, render)
  }

  lemma {:induction false} FindTagFinds(items: seq<Json>, tag: string)
    ensures match FindTag(items, tag)
            case None => forall j | j in items :: TagOf(j) != tag
            case Some(i) => i < |items| && TagOf(items[i]) == tag && forall j | 0 <= j < i :: TagOf(items[j]) != tag
  {
    if items != [] {
      FindTagFinds(items[..|items| - 1], tag);
    }
  }

  /** Each non-empty tag occurs once. */
  ghost predicate UniqueTags(items: seq<Json>) {
    forall i, j | 0 <= i < j < |items| && TagOf(items[i]) != "" :: TagOf(items[i]) != TagOf(items[j])
  }

  /** The items without a tag and the first item of each tag, in their order. */
  function Firsts(items: seq<Json>): seq<Json> {
    if items == [] then []
    else
      var front, last := items[..|items| - 1], items[|items| - 1];
      Firsts(front) + (if TagOf(last) == "" || FindTag(front, TagOf(last)).None? then [last] else [])
  }

  /** The same item but for the users merged into its settings. */
  predicate SameButSettings(a: Json, b: Json) {
    a == b || (a.Obj? && b.Obj? && a.fields - {"settings"} == b.fields - {"settings"})
  }

  lemma SameTag(a: Json, b: Json)
    requires SameButSettings(a, b)
    ensures TagOf(a) == TagOf(b)
  {
    if a != b {
      assert "tag" in a.fields <==> "tag" in a.fields - {"settings"};
      assert "tag" in b.fields <==> "tag" in b.fields - {"settings"};
      assert "tag" in a.fields ==> a.fields["tag"] == (a.fields - {"settings"})["tag"];
      assert "tag" in b.fields ==> b.fields["tag"] == (b.fields - {"settings"})["tag"];
    }
  }

  ghost predicate AllSameButSettings(a: seq<Json>, b: seq<Json>) {
    |a| == |b| && forall i | 0 <= i < |a| :: SameButSettings(a[i], b[i])
  }

  /** The tags seen so far are the tags kept so far. */
  lemma {:induction false} SameTagsKept(items: seq<Json>, inbounds: bool, render: Printer, tag: string)
    requires tag != ""
    ensures FindTag(Deduped(items, inbounds, render), tag).Some? <==> FindTag(items, tag).Some?
  {
    if items != [] {
      var front, last := items[..|items| - 1], items[|items| - 1];
      var kept := Deduped(front, inbounds, render);
      SameTagsKept(front, inbounds, render, tag);
      FindTagFinds(front, tag);
      FindTagFinds(items, tag);
      FindTagFinds(kept, tag);
      FindTagFinds(Deduped(items, inbounds, render), tag);
      KeepTags(kept, last, inbounds, render);
    }
  }

  /** One more item changes no kept item but for its settings, and appends it if it is new. */
  lemma KeepTags(kept: seq<Json>, item: Json, inbounds: bool, render: Printer)
    ensures var out := Keep(kept, item, inbounds, render);
            && |kept| <= |out|
            && (forall i | 0 <= i < |kept| :: SameButSettings(out[i], kept[i]) && TagOf(out[i]) == TagOf(kept[i]))
            && (TagOf(item) == "" || FindTag(kept, TagOf(item)).None? ==> out == kept + [item])
            && (TagOf(item) != "" && FindTag(kept, TagOf(item)).Some? ==> |out| == |kept|)
            && (!inbounds ==> kept <= out)
  {
    var out := Keep(kept, item, inbounds, render);
    FindTagFinds(kept, TagOf(item));
    if TagOf(item) != "" && FindTag(kept, TagOf(item)).Some? {
      var i := FindTag(kept, TagOf(item)).value;
      if inbounds && kept[i].Obj? && item.Obj? {
        MergeKeeps(kept[i].fields, item.fields, render, "");
      }
    }
    forall i | 0 <= i < |kept| ensures SameButSettings(out[i], kept[i]) && TagOf(out[i]) == TagOf(kept[i]) {
      SameTag(out[i], kept[i]);
    }
  }

  /** De-duplication keeps the items without a tag and the first item of each tag, in order;
      outbounds unchanged, inbounds changed in their settings at most. */
  lemma {:induction false} DedupedIsFirsts(items: seq<Json>, inbounds: bool, render: Printer)
    ensures AllSameButSettings(Deduped(items, inbounds, render), Firsts(items))
    ensures !inbounds ==> Deduped(items, inbounds, render) == Firsts(items)
  {
    if items != [] {
      var front, last := items[..|items| - 1], items[|items| - 1];
      var kept := Deduped(front, inbounds, render);
      DedupedIsFirsts(front, inbounds, render);
      KeepTags(kept, last, inbounds, render);
      if TagOf(last) != "" {
        SameTagsKept(front, inbounds, render, TagOf(last));
      }
      FirstsSnoc(items);
      assert Deduped(items, inbounds, render) == Keep(kept, last, inbounds, render);
      hide Deduped, Firsts, Keep, FindTag, TagOf;
      if !inbounds {
        assert Keep(kept, last, inbounds, render) == Firsts(items);
      } else {
        SameStill(kept, Keep(kept, last, inbounds, render), Firsts(front), last);
      }
    }
  }

  lemma FirstsSnoc(items: seq<Json>)
    requires items != []
    ensures var front, last := items[..|items| - 1], items[|items| - 1];
            Firsts(items) == if TagOf(last) == "" || FindTag(front, TagOf(last)).None? then Firsts(front) + [last]
                             else Firsts(front)
  {
    assert Firsts(items[..|items| - 1]) + [] == Firsts(items[..|items| - 1]);
  }

  /** Changing settings again, with or without one more item, keeps the likeness. */
  lemma SameStill(kept: seq<Json>, out: seq<Json>, firsts: seq<Json>, last: Json)
    requires AllSameButSettings(kept, firsts) && |kept| <= |out|
    requires forall i | 0 <= i < |kept| :: SameButSettings(out[i], kept[i])
    ensures |out| == |kept| ==> AllSameButSettings(out, firsts)
    ensures out == kept + [last] ==> AllSameButSettings(out, firsts + [last])
  {
    forall i | 0 <= i < |kept| ensures SameButSettings(out[i], firsts[i]) {
      assert SameButSettings(out[i], kept[i]) && SameButSettings(kept[i], firsts[i]);
    }
  }

  /** Which items remain: those without a tag, and the first of each tag, in their order. */
  lemma {:induction false} KeptExactly(items: seq<Json>, inbounds: bool, render: Printer) returns (places: seq<nat>)
    ensures Ascending(places, |items|) && |places| == |Deduped(items, inbounds, render)|
    ensures forall i | 0 <= i < |items| ::
              i in places <==> TagOf(items[i]) == "" || forall j | 0 <= j < i :: TagOf(items[j]) != TagOf(items[i])
    ensures forall k | 0 <= k < |places| :: SameButSettings(Deduped(items, inbounds, render)[k], items[places[k]])
    ensures !inbounds ==> forall k | 0 <= k < |places| :: Deduped(items, inbounds, render)[k] == items[places[k]]
  {
    DedupedIsFirsts(items, inbounds, render);
    places := FirstPlaces(items);
    hide Deduped, Firsts, SameButSettings;
    assert forall i | 0 <= i < |items| :: i in places <==> FirstAt(items, i);
  }

  predicate FirstAt(items: seq<Json>, i: nat)
    requires i < |items|
  {
    TagOf(items[i]) == "" || forall j | 0 <= j < i :: TagOf(items[j]) != TagOf(items[i])
  }

  lemma FirstAtFront(items: seq<Json>, n: nat)
    requires n == |items| - 1
    ensures forall i | 0 <= i < n :: FirstAt(items[..n], i) <==> FirstAt(items, i)
    ensures FirstAt(items, n) <==> TagOf(items[n]) == "" || FindTag(items[..n], TagOf(items[n])).None?
  {
    FindTagFinds(items[..n], TagOf(items[n]));
    assert forall i | 0 <= i < n :: items[..n][i] == items[i];
  }

  lemma {:induction false} FirstPlaces(items: seq<Json>) returns (places: seq<nat>)
    ensures Picked(Firsts(items), items, places)
    ensures forall i | 0 <= i < |items| :: i in places <==> FirstAt(items, i)
  {
    places := [];
    if items != [] {
      var n := |items| - 1;
      var front := FirstPlaces(items[..n]);
      FirstAtFront(items, n);
      assert Firsts(items) == Firsts(items[..n]) + (if FirstAt(items, n) then [items[n]] else []);
      hide Firsts, FindTag, FirstAt, Picked;
      places := PickedMore(Firsts(items[..n]), items, front, FirstAt(items, n));
    }
  }

  lemma KeepLength(kept: seq<Json>, item: Json, inbounds: bool, render: Printer)
    ensures |Keep(kept, item, inbounds, render)| == |kept| || Keep(kept, item, inbounds, render) == kept + [item]
  {
    KeepTags(kept, item, inbounds, render);
  }

  /** Where nothing is removed, nothing is changed. */
  lemma {:induction false} NothingRemoved(items: seq<Json>, inbounds: bool, render: Printer)
    ensures |Deduped(items, inbounds, render)| <= |items|
    ensures |Deduped(items, inbounds, render)| == |items| ==> Deduped(items, inbounds, render) == items
  {
    if items != [] {
      var front, last := items[..|items| - 1], items[|items| - 1];
      var kept := Deduped(front, inbounds, render);
      NothingRemoved(front, inbounds, render);
      KeepLength(kept, last, inbounds, render);
      assert Deduped(items, inbounds, render) == Keep(kept, last, inbounds, render);
      assert items == front + [last];
      hide Deduped, Keep;
    }
  }

  lemma {:induction false} DedupedUnique(items: seq<Json>, inbounds: bool, render: Printer)
    ensures UniqueTags(Deduped(items, inbounds, render))
  {
    if items != [] {
      var front, last := items[..|items| - 1], items[|items| - 1];
      var kept := Deduped(front, inbounds, render);
      DedupedUnique(front, inbounds, render);
      KeepTags(kept, last, inbounds, render);
      FindTagFinds(kept, TagOf(last));
    }
  }

  lemma LastIsNew(items: seq<Json>)
    requires items != [] && UniqueTags(items) && TagOf(items[|items| - 1]) != ""
    ensures FindTag(items[..|items| - 1], TagOf(items[|items| - 1])).None?
  {
    var front, last := items[..|items| - 1], items[|items| - 1];
    FindTagFinds(front, TagOf(last));
    assert forall i | 0 <= i < |front| :: TagOf(front[i]) == TagOf(items[i]);
  }

  lemma {:induction false} UniqueStays(items: seq<Json>, inbounds: bool, render: Printer)
    requires UniqueTags(items)
    ensures Deduped(items, inbounds, render) == items
  {
    if items != [] {
      UniqueStays(items[..|items| - 1], inbounds, render);
      if TagOf(items[|items| - 1]) != "" {
        LastIsNew(items);
      }
    }
  }

  /** De-duplicating again changes nothing. */
  lemma DedupeIdempotent(items: seq<Json>, inbounds: bool, render: Printer)
    ensures UniqueTags(Deduped(items, inbounds, render))
    ensures Deduped(Deduped(items, inbounds, render), inbounds, render) == Deduped(items, inbounds, render)
  {
    DedupedUnique(items, inbounds, render);
    UniqueStays(Deduped(items, inbounds, render), inbounds, render);
  }

  // ----- nobody is lost -----

  /** The survivor at i stands for this copy: it has its tag and, if it has settings, covers
      every user of it. */
  ghost predicate StandsFor(survivor: Json, copy: Json, render: Printer) {
    && survivor.Obj? && copy.Obj? && TagOf(survivor) == TagOf(copy)
    && (Settings(survivor.fields).Obj? ==> Covers(survivor.fields, copy.fields, render))
  }

  ghost predicate Represented(kept: seq<Json>, copy: Json, render: Printer) {
    exists i | 0 <= i < |kept| :: StandsFor(kept[i], copy, render)
  }

  lemma CoversItself(m: Object, render: Printer)
    ensures Covers(m, m, render)
  {}

  lemma KeepRepresents(kept: seq<Json>, item: Json, render: Printer)
    requires TagOf(item) != ""
    ensures Represented(Keep(kept, item, true, render), item, render)
  {
    var out := Keep(kept, item, true, render);
    FindTagFinds(kept, TagOf(item));
    match FindTag(kept, TagOf(item))
    case None =>
      CoversItself(item.fields, render);
      assert StandsFor(out[|kept|], item, render);
    case Some(i) =>
      var dst, src := kept[i].fields, item.fields;
      MergeKeeps(dst, src, render, "");
      if Settings(dst).Obj? && ClientKey(Protocol(dst, src)).Some? {
        MergeLosesNoneIff(dst, src, render);
      }
      assert StandsFor(out[i], item, render);
  }

  lemma KeepStillRepresents(kept: seq<Json>, item: Json, copy: Json, render: Printer)
    requires Represented(kept, copy, render)
    ensures Represented(Keep(kept, item, true, render), copy, render)
  {
    var out := Keep(kept, item, true, render);
    var i :| 0 <= i < |kept| && StandsFor(kept[i], copy, render);
    FindTagFinds(kept, TagOf(item));
    if out[i] != kept[i] {
      MergeKeeps(kept[i].fields, item.fields, render, "");
      if Settings(kept[i].fields).Obj? {
        MergeKeepsCovering(kept[i].fields, item.fields, render, copy.fields);
      }
    }
    assert StandsFor(out[i], copy, render);
  }

  /** No user of any inbound is lost: for every tagged inbound of the original, the survivor of
      its tag, if it has settings (and it has them exactly when the first copy did), has each
      of its users of a known protocol, or somebody with the same identity. */
  lemma {:induction false} NoUserLost(items: seq<Json>, render: Printer, j: nat)
    requires j < |items| && TagOf(items[j]) != ""
    ensures Represented(Deduped(items, true, render), items[j], render)
  {
    var front, last := items[..|items| - 1], items[|items| - 1];
    if j < |front| {
      NoUserLost(front, render, j);
      KeepStillRepresents(Deduped(front, true, render), last, items[j], render);
    } else {
      KeepRepresents(Deduped(front, true, render), last, render);
    }
  }

  /** The survivor's settings are an object exactly when those of the first copy are. */
  lemma {:induction false} SettingsOfSurvivor(items: seq<Json>, inbounds: bool, render: Printer)
    ensures var kept, firsts := Deduped(items, inbounds, render), Firsts(items);
            && |kept| == |firsts|
            && forall i | 0 <= i < |kept| && firsts[i].Obj? ::
                 kept[i].Obj? && (Settings(kept[i].fields).Obj? <==> Settings(firsts[i].fields).Obj?)
  {
    DedupedIsFirsts(items, inbounds, render);
    if items != [] {
      var front, last := items[..|items| - 1], items[|items| - 1];
      var kept := Deduped(front, inbounds, render);
      SettingsOfSurvivor(front, inbounds, render);
      DedupedIsFirsts(front, inbounds, render);
      FindTagFinds(kept, TagOf(last));
      if TagOf(last) != "" {
        SameTagsKept(front, inbounds, render, TagOf(last));
      }
      if TagOf(last) != "" && FindTag(kept, TagOf(last)).Some? {
        var i := FindTag(kept, TagOf(last)).value;
        MergeKeeps(kept[i].fields, last.fields, render, "");
      }
    }
  }

  /** The first copy of an item: the first item of its tag. */
  function FirstCopy(items: seq<Json>, j: nat): (first: Json)
    requires j < |items|
    ensures TagOf(first) == TagOf(items[j])
  {
    FindTagFinds(items, TagOf(items[j]));
    items[FindTag(items, TagOf(items[j])).value]
  }

  /** Among the first items of all tags, that of a tag is the first copy of its items. */
  lemma {:induction false} FirstsHoldFirst(items: seq<Json>, i: nat, j: nat)
    requires i < |Firsts(items)| && j < |items|
    requires TagOf(Firsts(items)[i]) == TagOf(items[j]) != ""
    ensures Firsts(items)[i] == FirstCopy(items, j)
  {
    var tag, front := TagOf(items[j]), items[..|items| - 1];
    FindTagFinds(items, tag);
    FindTagFinds(front, tag);
    if i < |Firsts(front)| {
      FirstsAreItems(front, i);
      FirstsHoldFirst(front, i, FindTag(front, tag).value);
    }
  }

  lemma {:induction false} FirstsAreItems(items: seq<Json>, i: nat)
    requires i < |Firsts(items)|
    ensures Firsts(items)[i] in items
  {
    var front := items[..|items| - 1];
    if i < |Firsts(front)| {
      FirstsAreItems(front, i);
    }
    assert forall x | x in front :: x in items;
  }

  lemma SameProtocol(a: Json, b: Json)
    requires SameButSettings(a, b) && a.Obj? && b.Obj?
    ensures StrField(a.fields, "protocol") == StrField(b.fields, "protocol")
  {
    if a != b {
      assert "protocol" in a.fields <==> "protocol" in a.fields - {"settings"};
      assert "protocol" in b.fields <==> "protocol" in b.fields - {"settings"};
    }
  }

  /** What the survivor of a tag has of the first copy: the protocol, and settings if it had. */
  lemma SurvivorOfFirst(items: seq<Json>, render: Printer, i: nat, j: nat)
    requires j < |items| && i < |Deduped(items, true, render)|
    requires TagOf(Deduped(items, true, render)[i]) == TagOf(items[j]) != ""
    ensures var kept, first := Deduped(items, true, render)[i], FirstCopy(items, j);
            && kept.Obj? && first.Obj?
            && StrField(kept.fields, "protocol") == StrField(first.fields, "protocol")
            && (Settings(kept.fields).Obj? <==> Settings(first.fields).Obj?)
  {
    var kept := Deduped(items, true, render)[i];
    DedupedIsFirsts(items, true, render);
    SettingsOfSurvivor(items, true, render);
    SameTag(kept, Firsts(items)[i]);
    FirstsHoldFirst(items, i, j);
    hide Deduped, Firsts, FirstCopy;
    SameProtocol(kept, FirstCopy(items, j));
  }

  /** The same over the whole list, by protocol: with settings on the first copy of the tag, every
      entry of the array that the copy's protocol keeps its users in is in the survivor's array of
      that name, or matches an entry there. */
  lemma NoUserLostByProtocol(items: seq<Json>, render: Printer, i: nat, j: nat, protocol: string, key: string, c: Json)
    requires j < |items| && i < |Deduped(items, true, render)|
    requires TagOf(Deduped(items, true, render)[i]) == TagOf(items[j]) != ""
    requires Settings(FirstCopy(items, j).fields).Obj? && c in Entries(items[j].fields, key)
    requires protocol == if StrField(items[j].fields, "protocol") != "" then StrField(items[j].fields, "protocol")
                         else StrField(FirstCopy(items, j).fields, "protocol")
    requires (Lower(protocol) in {"vless", "vmess", "trojan", "shadowsocks", "hysteria"} && key == "clients")
             || (Lower(protocol) in {"anytls", "snell", "mieru"} && key == "users")
             || (Lower(protocol) in {"socks", "http"} && key == "accounts")
    ensures Present(c, Entries(Deduped(items, true, render)[i].fields, key), protocol, render)
  {
    assert UsersKey(items, j) == Some(key);
    NoUserLostIff(items, render, i, j);
    SurvivorOfFirst(items, render, i, j);
    hide Deduped, FirstCopy, UsersKey, Entries, Present;
  }

  /** Whose users a copy's users are to be found among. */
  lemma RepresentedBy(items: seq<Json>, render: Printer, i: nat, j: nat)
    requires j < |items| && TagOf(items[j]) != ""
    requires i < |Deduped(items, true, render)| && TagOf(Deduped(items, true, render)[i]) == TagOf(items[j])
    ensures StandsFor(Deduped(items, true, render)[i], items[j], render)
  {
    NoUserLost(items, render, j);
    DedupedUnique(items, true, render);
    var k :| 0 <= k < |Deduped(items, true, render)| && StandsFor(Deduped(items, true, render)[k], items[j], render);
    assert k == i;
  }

  /** The array that holds the users of a copy, if its protocol is a known one. */
  function UsersKey(items: seq<Json>, j: nat): Option<string>
    requires j < |items| && TagOf(items[j]) != ""
  {
    ClientKey(Protocol(FirstCopy(items, j).fields, items[j].fields))
  }

  /** For every tagged copy of a known protocol: the survivor of its tag has all its users, or
      others with the same identity, exactly when the first copy of the tag had settings or this
      copy has no users. */
  lemma NoUserLostIff(items: seq<Json>, render: Printer, i: nat, j: nat)
    requires j < |items| && i < |Deduped(items, true, render)|
    requires TagOf(Deduped(items, true, render)[i]) == TagOf(items[j]) != ""
    requires UsersKey(items, j).Some?
    ensures Covers(Deduped(items, true, render)[i].fields, items[j].fields, render)
            <==> Settings(FirstCopy(items, j).fields).Obj? || Entries(items[j].fields, UsersKey(items, j).value) == []
  {
    var kept, copy := Deduped(items, true, render)[i], items[j];
    RepresentedBy(items, render, i, j);
    SurvivorOfFirst(items, render, i, j);
    hide Deduped, FirstCopy;
    var key := UsersKey(items, j).value;
    if !Settings(kept.fields).Obj? && Entries(copy.fields, key) != [] {
      assert Entries(copy.fields, key)[0] in Entries(copy.fields, key);
      assert Entries(kept.fields, key) == [];
    }
  }

  // ----- whose own key survives -----

  /** A full credential: an entry that carries the protocol's primary key. */
  predicate Keyed(c: Json, protocol: string, render: Printer) {
    c.Obj? && PrimaryKey(protocol) != "" && HasText(c.fields, PrimaryKey(protocol), render)
  }

  /** An entry with the same primary key. */
  predicate KeyIn(list: seq<Json>, c: Json, protocol: string, render: Printer) {
    exists d | d in list :: SameKey(d, c, protocol, render)
  }

  predicate SameKey(d: Json, c: Json, protocol: string, render: Printer) {
    && Keyed(d, protocol, render) && Keyed(c, protocol, render)
    && SameText(d.fields, c.fields, PrimaryKey(protocol), render)
  }

  /** An entry without the key that has the email of a full credential stands in its way. */
  predicate Shadowed(list: seq<Json>, c: Json, protocol: string, render: Printer)
    requires c.Obj?
  {
    exists d | d in list :: d.Obj? && !Keyed(d, protocol, render) && SameText(d.fields, c.fields, "email", render)
  }

  /** A full credential matches somebody exactly when its key is there or it is shadowed. */
  lemma KeyedMatch(list: seq<Json>, c: Json, protocol: string, render: Printer)
    requires Keyed(c, protocol, render)
    ensures Matched(c.fields, list, protocol, render)
            <==> KeyIn(list, c, protocol, render) || Shadowed(list, c, protocol, render)
  {
    forall d | d in list && d.Obj?
      ensures MatchClientCredential(d.fields, c.fields, protocol, render)
              <==> if Keyed(d, protocol, render)
                   then SameKey(d, c, protocol, render)
                   else SameText(d.fields, c.fields, "email", render)
    {}
    hide MatchClientCredential, SameText, HasText, Field;
  }

  /** The i-th entry brings the key of c in. */
  predicate Brings(list: seq<Json>, more: seq<Json>, i: nat, c: Json, protocol: string, render: Printer)
    requires i < |more|
  {
    && KeyIn([more[i]], c, protocol, render)
    && !Shadowed(Absorb(list, more[..i], protocol, render), more[i], protocol, render)
  }

  /** The key of a full credential is in the merged list exactly when it was in the first list, or
      some entry of the second brings it, none without a key and with its email being there yet. */
  lemma {:induction false} KeySurvivesIff(list: seq<Json>, more: seq<Json>, protocol: string, render: Printer, c: Json)
    requires Keyed(c, protocol, render)
    ensures KeyIn(Absorb(list, more, protocol, render), c, protocol, render)
            <==> KeyIn(list, c, protocol, render)
                 || exists i | 0 <= i < |more| :: Brings(list, more, i, c, protocol, render)
    decreases more
  {
    if more != [] {
      var next := Absorb(list, [more[0]], protocol, render);
      AbsorbFirst(list, more, protocol, render);
      KeySurvivesIff(next, more[1..], protocol, render, c);
      FirstBrings(list, more, protocol, render, c);
      forall i | 0 <= i < |more| - 1
        ensures Brings(next, more[1..], i, c, protocol, render) <==> Brings(list, more, i + 1, c, protocol, render)
      {
        LaterBrings(list, more, i, c, protocol, render);
      }
      hide Brings, KeyIn, Absorb;
      if j :| 0 <= j < |more| && Brings(list, more, j, c, protocol, render) {
        assert j > 0 ==> Brings(next, more[1..], j - 1, c, protocol, render);
      }
    }
  }

  lemma AbsorbFirst(list: seq<Json>, more: seq<Json>, protocol: string, render: Printer)
    requires more != []
    ensures Absorb(list, more, protocol, render)
            == Absorb(Absorb(list, [more[0]], protocol, render), more[1..], protocol, render)
  {
    assert [more[0]][1..] == [];
  }

  lemma LaterBrings(list: seq<Json>, more: seq<Json>, i: nat, c: Json, protocol: string, render: Printer)
    requires i + 1 < |more|
    ensures Brings(Absorb(list, [more[0]], protocol, render), more[1..], i, c, protocol, render)
            <==> Brings(list, more, i + 1, c, protocol, render)
  {
    AbsorbFirst(list, more[..i + 1], protocol, render);
    assert more[..i + 1][1..] == more[1..][..i];
    hide Absorb, KeyIn, Shadowed;
  }

  lemma FirstBrings(list: seq<Json>, more: seq<Json>, protocol: string, render: Printer, c: Json)
    requires more != [] && Keyed(c, protocol, render)
    ensures KeyIn(Absorb(list, [more[0]], protocol, render), c, protocol, render)
            <==> KeyIn(list, c, protocol, render) || Brings(list, more, 0, c, protocol, render)
  {
    var first := more[0];
    var next := Absorb(list, [first], protocol, render);
    assert more[..0] == [] && [first][1..] == [];
    var after := if first.Obj? && Matched(first.fields, list, protocol, render) then list else list + [first];
    assert next == Absorb(after, [], protocol, render) == after;
    KeyInConcat(list, [first], c, protocol, render);
    if KeyIn([first], c, protocol, render) {
      KeyedMatch(list, first, protocol, render);
      SameKeyIn(list, first, c, protocol, render);
    }
    hide Absorb, Matched, KeyIn, Shadowed;
  }

  lemma KeyInConcat(a: seq<Json>, b: seq<Json>, c: Json, protocol: string, render: Printer)
    ensures KeyIn(a + b, c, protocol, render) <==> KeyIn(a, c, protocol, render) || KeyIn(b, c, protocol, render)
  {
    hide Keyed, Field;
    assert forall d :: d in a + b <==> d in a || d in b;
  }

  lemma SameKeyIn(list: seq<Json>, first: Json, c: Json, protocol: string, render: Printer)
    requires KeyIn([first], c, protocol, render)
    ensures Keyed(first, protocol, render)
    ensures KeyIn(list, first, protocol, render) <==> KeyIn(list, c, protocol, render)
  {}

  /** So an entry with an email only takes the place of every full credential with that email,
      whatever the keys: here two of them, for the protocol vless. */
  lemma EmailOnlyReplaces(email: string, id: string, id': string, render: Printer)
    requires render(Null) == "<nil>" && render(Str(email)) == email && email != "" && email != "<nil>"
    ensures var twin := Obj(map["email" := Str(email)]);
            var more := [Obj(map["id" := Str(id), "email" := Str(email)]),
                         Obj(map["id" := Str(id'), "email" := Str(email)])];
            Absorb([twin], more, "vless", render) == [twin]
  {
    var twin := Obj(map["email" := Str(email)]);
    var one, two := Obj(map["id" := Str(id), "email" := Str(email)]), Obj(map["id" := Str(id'), "email" := Str(email)]);
    assert Lower("vless") == "vless";
    assert !HasText(twin.fields, "id", render);
    assert twin in [twin];
    assert Matched(one.fields, [twin], "vless", render) && Matched(two.fields, [twin], "vless", render);
    hide Matched, MatchClientCredential;
    assert [one, two][1..] == [two] && [two][1..] == [];
    assert Absorb([twin], [two], "vless", render) == Absorb([twin], [], "vless", render) == [twin];
  }

  lemma {:induction false} AbsorbFrom(list: seq<Json>, more: seq<Json>, protocol: string, render: Printer, c: Json)
    requires c in Absorb(list, more, protocol, render)
    ensures c in list || c in more
    decreases more
  {
    if more != [] {
      var first := more[0];
      var next := if first.Obj? && Matched(first.fields, list, protocol, render) then list else list + [first];
      AbsorbFrom(next, more[1..], protocol, render, c);
    }
  }

  lemma MergedFrom(dst: Object, src: Object, render: Printer, key: string, c: Json)
    requires c in Entries(MergedInbound(dst, src, render), key)
    ensures c in Entries(dst, key) || c in Entries(src, key)
  {
    var protocol := Protocol(dst, src);
    if ClientKey(protocol) == Some(key) && c in Absorb(Entries(dst, key), Entries(src, key), protocol, render) {
      AbsorbFrom(Entries(dst, key), Entries(src, key), protocol, render, c);
    }
  }

  /** Some copy of the tag has the entry. */
  ghost predicate FromCopy(items: seq<Json>, tag: string, key: string, c: Json) {
    exists j | 0 <= j < |items| :: items[j].Obj? && TagOf(items[j]) == tag && c in Entries(items[j].fields, key)
  }

  lemma FromLonger(items: seq<Json>, tag: string, key: string, c: Json)
    requires items != [] && FromCopy(items[..|items| - 1], tag, key, c)
    ensures FromCopy(items, tag, key, c)
  {
    var front := items[..|items| - 1];
    var j :| 0 <= j < |front| && front[j].Obj? && TagOf(front[j]) == tag && c in Entries(front[j].fields, key);
    assert items[j] == front[j];
  }

  /** Every entry of a survivor comes from a copy of its tag. */
  lemma {:induction false} EntriesFromCopies(items: seq<Json>, render: Printer, i: nat, key: string, c: Json)
    requires i < |Deduped(items, true, render)| && Deduped(items, true, render)[i].Obj?
    requires c in Entries(Deduped(items, true, render)[i].fields, key)
    ensures FromCopy(items, TagOf(Deduped(items, true, render)[i]), key, c)
  {
    var front, last := items[..|items| - 1], items[|items| - 1];
    var kept, out := Deduped(front, true, render), Deduped(items, true, render);
    KeepTags(kept, last, true, render);
    FindTagFinds(kept, TagOf(last));
    if i < |kept| {
      if out[i] != kept[i] {
        MergedFrom(kept[i].fields, last.fields, render, key, c);
      }
      if c in Entries(kept[i].fields, key) {
        EntriesFromCopies(front, render, i, key, c);
        FromLonger(items, TagOf(out[i]), key, c);
      }
    }
  }

  /** When all entries of all copies of a tag are full credentials, every key of every copy
      survives, provided the first copy has settings. */
  lemma KeysSurvive(items: seq<Json>, render: Printer, i: nat, j: nat, c: Json)
    requires j < |items| && i < |Deduped(items, true, render)|
    requires TagOf(Deduped(items, true, render)[i]) == TagOf(items[j]) != ""
    requires UsersKey(items, j).Some? && Settings(FirstCopy(items, j).fields).Obj?
    requires c in Entries(items[j].fields, UsersKey(items, j).value)
    requires forall d | FromCopy(items, TagOf(items[j]), UsersKey(items, j).value, d) ::
               Keyed(d, Protocol(FirstCopy(items, j).fields, items[j].fields), render)
    ensures KeyIn(Entries(Deduped(items, true, render)[i].fields, UsersKey(items, j).value), c,
                  Protocol(FirstCopy(items, j).fields, items[j].fields), render)
  {
    var kept, key := Deduped(items, true, render)[i], UsersKey(items, j).value;
    var protocol := Protocol(FirstCopy(items, j).fields, items[j].fields);
    NoUserLostIff(items, render, i, j);
    SurvivorOfFirst(items, render, i, j);
    assert FromCopy(items, TagOf(items[j]), key, c);
    forall d | d in Entries(kept.fields, key) ensures Keyed(d, protocol, render) {
      EntriesFromCopies(items, render, i, key, d);
    }
    hide Deduped, FirstCopy, FromCopy, Entries, MatchClientCredential, Keyed, SameText, HasText;
    KeyedMatch(Entries(kept.fields, key), c, protocol, render);
  }

  // ----- the whole operation -----

  function DedupedConfig(config: Object, key: string, render: Printer): Object {
    if key in config && config[key].Arr? then
      var kept := Deduped(config[key].items, key == "inbounds", render);
      if |kept| < |config[key].items| then config[key := Arr(kept)] else config
    else config
  }

  lemma DedupedConfigFields(config: Object, key: string, render: Printer)
    ensures var out := DedupedConfig(config, key, render);
            && Items(Field(out, key)) == Deduped(Items(Field(config, key)), key == "inbounds", render)
            && out - {key} == config - {key}
  {
    NothingRemoved(Items(Field(config, key)), key == "inbounds", render);
  }

  /** Where a tag is found after one more item. */
  lemma FindTagAfterKeep(kept: seq<Json>, item: Json, inbounds: bool, render: Printer)
    ensures var out := Keep(kept, item, inbounds, render);
            forall t | t != "" ::
              FindTag(out, t) == if t == TagOf(item) && FindTag(kept, t).None? then Some(|kept|) else FindTag(kept, t)
  {
    var out := Keep(kept, item, inbounds, render);
    KeepTags(kept, item, inbounds, render);
    FindTagFinds(kept, TagOf(item));
    hide Keep, SameButSettings, FindTag;
    forall t | t != ""
      ensures FindTag(out, t) == if t == TagOf(item) && FindTag(kept, t).None? then Some(|kept|) else FindTag(kept, t)
    {
      FindTagFinds(kept, t);
      FindTagFinds(out, t);
    }
  }

  /** The lookup table of the loop: each kept tag and where it is. */
  ghost predicate Indexes(seen: map<string, nat>, kept: seq<Json>) {
    && (forall t :: t in seen <==> t != "" && FindTag(kept, t).Some?)
    && (forall t | t in seen :: FindTag(kept, t) == Some(seen[t]))
  }

  method KeepItem(kept: seq<Json>, seen: map<string, nat>, item: Json, inbounds: bool, render: Printer)
    returns (kept': seq<Json>, seen': map<string, nat>, dropped: nat)
    requires Indexes(seen, kept)
    ensures kept' == Keep(kept, item, inbounds, render) && Indexes(seen', kept')
    ensures dropped == |kept| + 1 - |kept'|
  {
    KeepTags(kept, item, inbounds, render);
    FindTagFinds(kept, TagOf(item));
    FindTagAfterKeep(kept, item, inbounds, render);
    if !item.Obj? || TagOf(item) == "" {
      return kept + [item], seen, 0;
    }
    var tag := TagOf(item);
    if tag in seen {
      kept' := kept;
      if inbounds {
        var i := seen[tag];
        var merged := MergeInboundClients(kept[i].fields, item.fields, render);
        kept' := kept[i := Obj(merged)];
      }
      return kept', seen, 1;
    }
    return kept + [item], seen[tag := |kept|], 0;
  }

  method DedupeItems(arr: seq<Json>, inbounds: bool, render: Printer) returns (kept: seq<Json>, removed: nat)
    ensures kept == Deduped(arr, inbounds, render) && removed == |arr| - |kept|
  {
    var seen: map<string, nat> := map[];
    kept, removed := [], 0;
    for n := 0 to |arr|
      invariant kept == Deduped(arr[..n], inbounds, render)
      invariant removed == n - |kept|
      invariant Indexes(seen, kept)
    {
      assert arr[..n + 1][..n] == arr[..n];
      var dropped;
      kept, seen, dropped := KeepItem(kept, seen, arr[n], inbounds, render);
      hide Keep, Indexes;
      removed := removed + dropped;
    }
    assert arr[..|arr|] == arr;
  }

  /** Removes the repeated tags of one array of the config and says how many items went. */
  method DedupeTaggedArrayInPlace(config: Object, key: string, render: Printer) returns (out: Object, removed: nat)
    ensures out == DedupedConfig(config, key, render)
    ensures removed == |Items(Field(config, key))| - |Items(Field(out, key))|
    ensures Items(Field(out, key)) == Deduped(Items(Field(config, key)), key == "inbounds", render)
    ensures out - {key} == config - {key}
  {
    DedupedConfigFields(config, key, render);
    hide Deduped;
    if key !in config || !config[key].Arr? {
      return config, 0;
    }
    var kept;
    kept, removed := DedupeItems(config[key].items, key == "inbounds", render);
    out := if removed > 0 then config[key := Arr(kept)] else config;
  }
}
