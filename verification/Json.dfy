/** JSON values as the Go code sees them after decoding, and the accessors it uses. */
module Json {

  datatype Json =
    | Null
    | Bool(b: bool)
    | Num(text: string)
    | Str(s: string)
    | Arr(items: seq<Json>)
    | Obj(fields: map<string, Json>)

  type Object = map<string, Json>

  /** `s, _ := m[k].(string)` */
  function StrField(m: Object, k: string): string {
    if k in m && m[k].Str? then m[k].s else ""
  }

  /** `m[k]`, nil when absent. */
  function Field(m: Object, k: string): Json {
    if k in m then m[k] else Null
  }

  /** `a, _ := v.([]any)` */
  function Items(v: Json): seq<Json> {
    if v.Arr? then v.items else []
  }

  /** The tag of an array item, empty when it has none or is not an object. */
  function TagOf(v: Json): string {
    if v.Obj? then StrField(v.fields, "tag") else ""
  }

  /** What the accessors read. */
  lemma AccessorsRead(m: Object, k: string, v: Json)
    ensures Field(m[k := v], k) == v && Field(m - {k}, k) == Null
    ensures StrField(m[k := v], k) == (if v.Str? then v.s else "") && StrField(m - {k}, k) == ""
    ensures Items(v) == if v.Arr? then v.items else []
    ensures TagOf(Obj(m["tag" := v])) == (if v.Str? then v.s else "") && TagOf(Obj(m - {"tag"})) == ""
    ensures !v.Obj? ==> TagOf(v) == ""
  {}

  /** Copies the fields of an object into another, one by one, but for those to skip. */
  method CopyFields(dst: Object, src: Object, skip: set<string>) returns (out: Object)
    ensures out == dst + (src - skip)
  {
    out := dst;
    var rest := src.Keys;
    while rest != {}
      invariant rest <= src.Keys
      invariant out.Keys == dst.Keys + (src.Keys - rest - skip)
      invariant forall k | k in out :: out[k] == if k in src && k !in rest && k !in skip then src[k] else dst[k]
      decreases rest
    {
      var k :| k in rest;
      rest := rest - {k};
      if k !in skip {
        out := out[k := src[k]];
      }
    }
  }

  predicate AllTagged(items: seq<Json>) {
    forall j | j in items :: TagOf(j) != ""
  }
}
