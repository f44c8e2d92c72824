/** What every run of limiter methods keeps for a user who is limited automatically, and what
    a configuration sync means for old and new connections. */
module RateLimiterRuns {
  import ConnRegistry
  import opened RateLimiter
  import opened Wrappers

  datatype Op =
    | Connect(tag: Tag, email: Email, ip: Ip)
    | Lookup(email: Email)
    | Update(tag: Tag, users: seq<UserInfo>)
    | Sync(tag: Tag, nodeLimit: nat, users: seq<UserInfo>)
    | Collect(tag: Tag)
    | SetSpeed(tag: Tag, email: Email, speed: nat)

  /** The op does not lift the automatic limit of the email. */
  predicate KeepsLimit(op: Op, email: Email) {
    op.SetSpeed? && op.email == email ==> op.speed > 0
  }

  /** The op leaves the static rate of the email on the inbound at zero, and is not itself a
      change of its automatic rate there. */
  predicate Quiet(op: Op, tag: Tag, email: Email) {
    match op
    case Update(t, users) => t == tag ==> NoStaticLimit(users, email)
    case Sync(t, n, users) => t == tag ==> n == 0 && NoStaticLimit(users, email)
    case SetSpeed(t, e, _) => t != tag || e != email
    case _ => true
  }

  predicate NoStaticLimit(users: seq<UserInfo>, email: Email) {
    forall u | u in users && u.email == email :: u.speedLimit == 0
  }

  lemma {:induction false} NothingPushed(users: seq<UserInfo>, email: Email)
    requires NoStaticLimit(users, email)
    ensures Pushed(0, users, email) == 0
  {
    if users != [] {
      NothingPushed(users[..|users| - 1], email);
    }
  }

  /** Neither the inbound nor any configured entry of the email sets a limit. */
  ghost predicate Free(inb: Plain, email: Email) {
    inb.nodeLimit == 0 && forall k | k in inb.users && k.0 == email :: inb.users[k].speedLimit == 0
  }

  lemma {:induction false} StoreKeepsFree(users: Users, list: seq<UserInfo>, email: Email)
    requires forall k | k in users && k.0 == email :: users[k].speedLimit == 0
    requires NoStaticLimit(list, email)
    ensures var m := Store(users, list); forall k | k in m && k.0 == email :: m[k].speedLimit == 0
  {
    if list != [] {
      StoreKeepsFree(users, list[..|list| - 1], email);
    }
  }

  // ----- what a run does to everything but the hubs -----

  datatype Plain = Plain(nodeLimit: nat, users: Users, online: map<Email, set<Ip>>)

  /** The limiter without its buckets. */
  datatype Shadow = Shadow(inbounds: map<Tag, Plain>, marks: set<Email>)

  function PlainOf(inb: Inbound): Plain {
    Plain(inb.nodeLimit, inb.users, inb.online)
  }

  function ShadowAs(inbounds: map<Tag, Inbound>, marks: set<Email>): Shadow {
    Shadow(map t | t in inbounds :: PlainOf(inbounds[t]), marks)
  }

  ghost function ShadowOf(l: Limiter): Shadow
    reads l
  {
    ShadowAs(l.inbounds, l.autoLimited)
  }

  function SeenAt(online: map<Email, set<Ip>>, email: Email, ip: Ip): map<Email, set<Ip>> {
    online[email := (if email in online then online[email] else {}) + {ip}]
  }

  function Next(s: Shadow, op: Op): Shadow {
    match op
    case Connect(t, e, ip) =>
      if t !in s.inbounds then s
      else s.(inbounds := s.inbounds[t := s.inbounds[t].(online := SeenAt(s.inbounds[t].online, e, ip))])
    case Lookup(_) => s
    case Update(t, us) =>
      var inb := if t in s.inbounds then s.inbounds[t].(users := Store(s.inbounds[t].users, us))
                 else Plain(0, Store(map[], us), map[]);
      s.(inbounds := s.inbounds[t := inb])
    case Sync(t, n, us) =>
      var online := if t in s.inbounds then s.inbounds[t].online else map[];
      s.(inbounds := s.inbounds[t := Plain(n, Store(map[], us), online)])
    case Collect(t) =>
      if t in s.inbounds then s.(inbounds := s.inbounds[t := s.inbounds[t].(online := map[])]) else s
    case SetSpeed(t, e, speed) =>
      if t !in s.inbounds then s
      else s.(marks := if speed > 0 then s.marks + {e} else s.marks - {e})
  }

  function Run(s: Shadow, ops: seq<Op>): Shadow {
    if ops == [] then s else Next(Run(s, ops[..|ops| - 1]), ops[|ops| - 1])
  }

  /** The collection drops the bucket: the email was not online and is not limited automatically. */
  predicate Drops(s: Shadow, op: Op, tag: Tag, email: Email) {
    op == Collect(tag) && tag in s.inbounds && email !in s.inbounds[tag].online && email !in s.marks
  }

  /** The op writes a rate into the bucket held for the email: a push of a positive rate, an
      automatic limit, or its lifting. */
  predicate Touches(s: Shadow, op: Op, tag: Tag, email: Email) {
    match op
    case Update(t, us) => t == tag && tag in s.inbounds && Pushed(s.inbounds[tag].nodeLimit, us, email) > 0
    case Sync(t, n, us) => t == tag && Pushed(n, us, email) > 0
    case SetSpeed(t, e, _) => t == tag && e == email
    case _ => false
  }

  /** The rate it writes; lifting the limit writes the static rate. */
  ghost predicate Writes(s: Shadow, op: Op, tag: Tag, email: Email, r: nat) {
    match op
    case Update(t, us) => tag in s.inbounds && r == Pushed(s.inbounds[tag].nodeLimit, us, email)
    case Sync(t, n, us) => r == Pushed(n, us, email)
    case SetSpeed(t, e, speed) =>
      if speed > 0 then r == speed
      else tag in s.inbounds && StaticRate(s.inbounds[tag].nodeLimit, s.inbounds[tag].users, email, r)
    case _ => false
  }

  ghost predicate HoldsIn(inbounds: map<Tag, Inbound>, tag: Tag, email: Email, b: Bucket) {
    tag in inbounds && email in inbounds[tag].hub && inbounds[tag].hub[email] == b
  }

  /** The hub of the inbound holds this bucket for the email. */
  ghost predicate Holds(l: Limiter, tag: Tag, email: Email, b: Bucket)
    reads l
  {
    l.Has(tag, email) && l.At(tag, email) == b
  }

  /** No other place holds it. */
  ghost predicate OnlyIn(inbounds: map<Tag, Inbound>, tag: Tag, email: Email, b: Bucket) {
    forall t, e | HoldsIn(inbounds, t, e, b) :: t == tag && e == email
  }

  /** An op moves the shadow as Next says; and only a collection takes a bucket out of the hub,
      which never comes back. */
  ghost predicate Moved(m: map<Tag, Inbound>, marks: set<Email>, m': map<Tag, Inbound>, marks': set<Email>,
                        op: Op, tag: Tag, email: Email, b: Bucket) {
    && ShadowAs(m', marks') == Next(ShadowAs(m, marks), op)
    && (HoldsIn(m', tag, email, b)
        <==> HoldsIn(m, tag, email, b) && !Drops(ShadowAs(m, marks), op, tag, email))
    && (OnlyIn(m, tag, email, b) ==> OnlyIn(m', tag, email, b))
  }

  /** A bucket put into a hub, where b is neither held nor put. */
  ghost predicate Puts(m: map<Tag, Inbound>, tag: Tag, email: Email, put: Bucket, b: Bucket) {
    tag in m && (if email in m[tag].hub then put == m[tag].hub[email] else put != b)
  }

  lemma ConfigShadow(m: map<Tag, Inbound>, marks: set<Email>, inb: Inbound, op: Op)
    requires op.Update? || op.Sync?
    requires PlainOf(inb) == Next(ShadowAs(m, marks), op).inbounds[op.tag]
    ensures ShadowAs(m[op.tag := inb], marks) == Next(ShadowAs(m, marks), op)
  {
    hide Store;
  }

  lemma ConfigMoves(m: map<Tag, Inbound>, marks: set<Email>, inb: Inbound, op: Op, tag: Tag, email: Email, b: Bucket)
    requires op.Update? || op.Sync?
    requires PlainOf(inb) == Next(ShadowAs(m, marks), op).inbounds[op.tag]
    requires inb.hub == if op.tag in m then m[op.tag].hub else map[]
    ensures Moved(m, marks, m[op.tag := inb], marks, op, tag, email, b)
  {
    ConfigShadow(m, marks, inb, op);
    hide ShadowAs, Next;
    var m' := m[op.tag := inb];
    if OnlyIn(m, tag, email, b) {
      forall t, e | HoldsIn(m', t, e, b) ensures t == tag && e == email {
        assert HoldsIn(m, t, e, b);
      }
    }
  }

  lemma PlainsKept(m: map<Tag, Inbound>, inb: Inbound, on: Tag, marks: set<Email>)
    requires on in m && PlainOf(inb) == PlainOf(m[on])
    ensures ShadowAs(m[on := inb], marks) == ShadowAs(m, marks) && on in ShadowAs(m, marks).inbounds
  {}

  lemma ConnectShadow(m: map<Tag, Inbound>, marks: set<Email>, inb: Inbound, op: Op)
    requires op.Connect? && op.tag in m
    requires PlainOf(inb) == PlainOf(m[op.tag]).(online := SeenAt(m[op.tag].online, op.email, op.ip))
    ensures var s := ShadowAs(m[op.tag := inb], marks);
            s == Next(ShadowAs(m, marks), op) && Online(s, op.tag, op.email)
  {}

  lemma ConnectMoves(m: map<Tag, Inbound>, marks: set<Email>, inb: Inbound, put: Bucket,
                     op: Op, tag: Tag, email: Email, b: Bucket)
    requires op.Connect? && Puts(m, op.tag, op.email, put, b)
    requires inb == m[op.tag].(hub := m[op.tag].hub[op.email := put],
                               online := SeenAt(m[op.tag].online, op.email, op.ip))
    ensures Moved(m, marks, m[op.tag := inb], marks, op, tag, email, b)
  {
    var m' := m[op.tag := inb];
    if OnlyIn(m, tag, email, b) {
      forall t, e | HoldsIn(m', t, e, b) ensures t == tag && e == email {
        assert HoldsIn(m, t, e, b);
      }
    }
  }

  /** A bucket is put without anybody being seen: by a lookup, or by an automatic limit. */
  lemma PutMoves(m: map<Tag, Inbound>, on: Tag, who: Email, put: Bucket, b: Bucket, tag: Tag, email: Email,
                 marks: set<Email>)
    requires Puts(m, on, who, put, b)
    ensures var m' := m[on := m[on].(hub := m[on].hub[who := put])];
            ShadowAs(m', marks) == ShadowAs(m, marks)
            && (HoldsIn(m', tag, email, b) <==> HoldsIn(m, tag, email, b))
            && (OnlyIn(m, tag, email, b) ==> OnlyIn(m', tag, email, b))
  {
    var m' := m[on := m[on].(hub := m[on].hub[who := put])];
    if OnlyIn(m, tag, email, b) {
      forall t, e | HoldsIn(m', t, e, b) ensures t == tag && e == email {
        assert HoldsIn(m, t, e, b);
      }
    }
  }

  lemma LimitMoves(m: map<Tag, Inbound>, marks: set<Email>, put: Bucket, op: Op, tag: Tag, email: Email, b: Bucket)
    requires op.SetSpeed? && op.speed > 0 && Puts(m, op.tag, op.email, put, b)
    ensures Moved(m, marks, m[op.tag := m[op.tag].(hub := m[op.tag].hub[op.email := put])], marks + {op.email},
                  op, tag, email, b)
  {
    PutMoves(m, op.tag, op.email, put, b, tag, email, marks);
  }

  lemma LiftMoves(m: map<Tag, Inbound>, marks: set<Email>, op: Op, tag: Tag, email: Email, b: Bucket)
    requires op.SetSpeed? && op.speed == 0 && op.tag in m
    ensures Moved(m, marks, m, marks - {op.email}, op, tag, email, b)
  {}

  lemma CollectMoves(m: map<Tag, Inbound>, marks: set<Email>, inb: Inbound, op: Op, tag: Tag, email: Email, b: Bucket)
    requires op.Collect? && op.tag in m && PlainOf(inb) == PlainOf(m[op.tag]).(online := map[])
    requires inb.hub == map e | e in m[op.tag].hub && (e in m[op.tag].online || e in marks) :: m[op.tag].hub[e]
    ensures Moved(m, marks, m[op.tag := inb], marks, op, tag, email, b)
  {
    var m' := m[op.tag := inb];
    if OnlyIn(m, tag, email, b) {
      forall t, e | HoldsIn(m', t, e, b) ensures t == tag && e == email {
        assert HoldsIn(m, t, e, b);
      }
    }
  }

  /** Moved for the limiter; and the bucket, if held, runs at the rate the op writes, or is left
      alone. */
  twostate predicate Steps(l: Limiter, op: Op, tag: Tag, email: Email, b: Bucket)
    reads l, b
  {
    && Moved(old(l.inbounds), old(l.autoLimited), l.inbounds, l.autoLimited, op, tag, email, b)
    && (old(Holds(l, tag, email, b)) ==>
          if Touches(old(ShadowOf(l)), op, tag, email)
          then exists r :: Writes(old(ShadowOf(l)), op, tag, email, r) && b.RunsAt(r)
          else unchanged(b))
  }

  method ApplyUpdate(l: Limiter, op: Op, ghost tag: Tag, ghost email: Email, ghost b: Bucket)
    requires l.Valid() && op.Update?
    modifies l, l.Buckets()
    ensures l.Valid() && Steps(l, op, tag, email, b) && fresh(l.Buckets() - old(l.Buckets()))
  {
    hide Moved, Store, Pushed;
    l.UpdateInboundLimiter(op.tag, op.users);
    ConfigMoves(old(l.inbounds), l.autoLimited, l.inbounds[op.tag], op, tag, email, b);
  }

  method ApplySync(l: Limiter, op: Op, ghost tag: Tag, ghost email: Email, ghost b: Bucket)
    requires l.Valid() && op.Sync?
    modifies l, l.Buckets()
    ensures l.Valid() && Steps(l, op, tag, email, b) && fresh(l.Buckets() - old(l.Buckets()))
  {
    hide Moved, Store, Pushed;
    var _ := l.SyncInboundLimiter(op.tag, op.nodeLimit, op.users);
    ConfigMoves(old(l.inbounds), l.autoLimited, l.inbounds[op.tag], op, tag, email, b);
  }

  method ApplySetSpeed(l: Limiter, op: Op, ghost tag: Tag, ghost email: Email, ghost b: Bucket)
    requires l.Valid() && op.SetSpeed?
    modifies l, l.Buckets()
    ensures l.Valid() && Steps(l, op, tag, email, b) && fresh(l.Buckets() - old(l.Buckets()))
  {
    l.SetUserSpeed(op.tag, op.email, op.speed);
    hide Moved;
    if op.tag !in old(l.inbounds) {
      NothingMoves(l.inbounds, l.autoLimited, op, tag, email, b);
    } else if op.speed > 0 {
      LimitMoves(old(l.inbounds), old(l.autoLimited), l.At(op.tag, op.email), op, tag, email, b);
    } else {
      LiftMoves(l.inbounds, old(l.autoLimited), op, tag, email, b);
    }
  }

  method ApplyConnect(l: Limiter, op: Op, ghost tag: Tag, ghost email: Email, ghost b: Bucket)
    requires l.Valid() && op.Connect?
    modifies l
    ensures l.Valid() && Steps(l, op, tag, email, b) && fresh(l.Buckets() - old(l.Buckets()))
  {
    var bucket, _ := l.GetUserBucket(op.tag, op.email, op.ip);
    hide Moved;
    if bucket != null {
      ConnectMoves(old(l.inbounds), l.autoLimited, l.inbounds[op.tag], bucket, op, tag, email, b);
    } else {
      NothingMoves(l.inbounds, l.autoLimited, op, tag, email, b);
    }
  }

  lemma NothingMoves(m: map<Tag, Inbound>, marks: set<Email>, op: Op, tag: Tag, email: Email, b: Bucket)
    requires op.Lookup? || ((op.Connect? || op.Collect? || op.SetSpeed?) && op.tag !in m)
    ensures Moved(m, marks, m, marks, op, tag, email, b)
  {}

  method ApplyLookup(l: Limiter, op: Op, ghost tag: Tag, ghost email: Email, ghost b: Bucket)
    requires l.Valid() && op.Lookup?
    modifies l
    ensures l.Valid() && Steps(l, op, tag, email, b) && fresh(l.Buckets() - old(l.Buckets()))
  {
    var bucket;
    ghost var on;
    bucket, on := l.LookupBucketByEmail(op.email);
    NothingMoves(old(l.inbounds), l.autoLimited, op, tag, email, b);
    if bucket != null {
      PutMoves(old(l.inbounds), on, op.email, bucket, b, tag, email, l.autoLimited);
    }
  }

  method ApplyCollect(l: Limiter, op: Op, ghost tag: Tag, ghost email: Email, ghost b: Bucket)
    requires l.Valid() && op.Collect?
    modifies l
    ensures l.Valid() && Steps(l, op, tag, email, b) && fresh(l.Buckets() - old(l.Buckets()))
  {
    var _ := l.GetOnlineUsers(op.tag);
    hide Moved;
    if op.tag in old(l.inbounds) {
      CollectMoves(old(l.inbounds), l.autoLimited, l.inbounds[op.tag], op, tag, email, b);
    } else {
      NothingMoves(l.inbounds, l.autoLimited, op, tag, email, b);
    }
  }

  method Apply(l: Limiter, op: Op, ghost tag: Tag, ghost email: Email, ghost b: Bucket)
    requires l.Valid()
    modifies l, l.Buckets()
    ensures l.Valid() && Steps(l, op, tag, email, b) && fresh(l.Buckets() - old(l.Buckets()))
  {
    match op
    case Update(_, _) => ApplyUpdate(l, op, tag, email, b);
    case Sync(_, _, _) => ApplySync(l, op, tag, email, b);
    case SetSpeed(_, _, _) => ApplySetSpeed(l, op, tag, email, b);
    case Connect(_, _, _) => ApplyConnect(l, op, tag, email, b);
    case Lookup(_) => ApplyLookup(l, op, tag, email, b);
    case Collect(_) => ApplyCollect(l, op, tag, email, b);
  }

  /** The shadow just before op k. */
  function Before(s: Shadow, ops: seq<Op>, k: nat): Shadow
    requires k <= |ops|
  {
    Run(s, ops[..k])
  }

  /** No collection among the first n ops drops the bucket. */
  predicate KeptUpTo(s: Shadow, ops: seq<Op>, n: nat, tag: Tag, email: Email)
    requires n <= |ops|
  {
    forall k | 0 <= k < n :: !Drops(Before(s, ops, k), ops[k], tag, email)
  }

  predicate NeverDropped(s: Shadow, ops: seq<Op>, tag: Tag, email: Email) {
    KeptUpTo(s, ops, |ops|, tag, email)
  }

  ghost predicate AllQuiet(s: Shadow, ops: seq<Op>, tag: Tag, email: Email) {
    tag in s.inbounds && Free(s.inbounds[tag], email) && forall op | op in ops :: Quiet(op, tag, email)
  }

  lemma BeforeStep(s: Shadow, ops: seq<Op>, n: nat)
    requires n < |ops|
    ensures Before(s, ops, n + 1) == Next(Before(s, ops, n), ops[n])
  {
    assert ops[..n + 1][..n] == ops[..n];
  }

  /** The limiter after the first n ops of the run that started at s. */
  ghost predicate At(l: Limiter, s: Shadow, ops: seq<Op>, n: nat, tag: Tag, email: Email, b: Bucket)
    requires n <= |ops|
    reads l
  {
    && l.Valid() && ShadowOf(l) == Before(s, ops, n)
    && (Holds(l, tag, email, b) <==> KeptUpTo(s, ops, n, tag, email)) && OnlyIn(l.inbounds, tag, email, b)
  }

  /** The rate last written into the bucket during the first n ops while the hub held it, or
      None if there was none. */
  ghost predicate LastWritten(s: Shadow, ops: seq<Op>, n: nat, tag: Tag, email: Email, last: Option<nat>)
    requires n <= |ops|
  {
    if n == 0 then last == None
    else if KeptUpTo(s, ops, n - 1, tag, email) && Touches(Before(s, ops, n - 1), ops[n - 1], tag, email)
    then last.Some? && Writes(Before(s, ops, n - 1), ops[n - 1], tag, email, last.value)
    else LastWritten(s, ops, n - 1, tag, email, last)
  }

  /** The bucket runs at the rate last written, or as it did before. */
  twostate predicate RunsAsWritten(b: Bucket, new last: Option<nat>)
    reads b
  {
    if last.Some? then b.RunsAt(last.value) else unchanged(b)
  }

  method Advance(l: Limiter, ghost s: Shadow, ops: seq<Op>, n: nat, ghost tag: Tag, ghost email: Email, ghost b: Bucket,
                 ghost last: Option<nat>)
    returns (ghost last': Option<nat>)
    requires n < |ops| && At(l, s, ops, n, tag, email, b)
    requires LastWritten(s, ops, n, tag, email, last) && (last.Some? ==> b.RunsAt(last.value))
    modifies l, l.Buckets()
    ensures At(l, s, ops, n + 1, tag, email, b) && fresh(l.Buckets() - old(l.Buckets()))
    ensures LastWritten(s, ops, n + 1, tag, email, last')
    ensures if last'.Some? then b.RunsAt(last'.value) else last.None? && unchanged(b)
  {
    BeforeStep(s, ops, n);
    KeptStep(s, ops, n, tag, email);
    NotHeldElsewhere(l, tag, email, b);
    hide Next, Drops, Before, Run, Touches, Writes, OnlyIn, KeptUpTo, LastWritten, ShadowOf, Limiter.Valid;
    ghost var written := KeptUpTo(s, ops, n, tag, email) && Touches(Before(s, ops, n), ops[n], tag, email);
    Apply(l, ops[n], tag, email, b);
    last' := last;
    if written {
      var r :| Writes(Before(s, ops, n), ops[n], tag, email, r) && b.RunsAt(r);
      last' := Some(r);
    }
    WrittenStep(s, ops, n, tag, email, last, last');
  }

  lemma KeptStep(s: Shadow, ops: seq<Op>, n: nat, tag: Tag, email: Email)
    requires n < |ops|
    ensures KeptUpTo(s, ops, n + 1, tag, email)
            <==> KeptUpTo(s, ops, n, tag, email) && !Drops(Before(s, ops, n), ops[n], tag, email)
  {
    hide Drops, Before;
  }

  lemma WrittenStep(s: Shadow, ops: seq<Op>, n: nat, tag: Tag, email: Email, last: Option<nat>, last': Option<nat>)
    requires n < |ops| && LastWritten(s, ops, n, tag, email, last)
    requires if KeptUpTo(s, ops, n, tag, email) && Touches(Before(s, ops, n), ops[n], tag, email)
             then last'.Some? && Writes(Before(s, ops, n), ops[n], tag, email, last'.value)
             else last' == last
    ensures LastWritten(s, ops, n + 1, tag, email, last')
  {
    hide KeptUpTo, Touches, Writes, Before;
  }

  /** Over any run of these methods: users, limits, marks and who is online move as Next says;
      a bucket the hub holds stays the very same object exactly as long as no collection drops
      it; and it runs at the rate last written into it until then. */
  method Replay(l: Limiter, ops: seq<Op>, ghost tag: Tag, ghost email: Email, ghost b: Bucket)
    returns (ghost last: Option<nat>)
    requires l.Valid() && Holds(l, tag, email, b)
    modifies l, l.Buckets()
    ensures l.Valid() && fresh(l.Buckets() - old(l.Buckets()))
    ensures ShadowOf(l) == Run(old(ShadowOf(l)), ops)
    ensures Holds(l, tag, email, b) <==> NeverDropped(old(ShadowOf(l)), ops, tag, email)
    ensures OnlyIn(l.inbounds, tag, email, b)
    ensures LastWritten(old(ShadowOf(l)), ops, |ops|, tag, email, last) && RunsAsWritten(b, last)
  {
    ghost var s := ShadowOf(l);
    last := None;
    assert At(l, s, ops, 0, tag, email, b) && LastWritten(s, ops, 0, tag, email, last);
    assert ops[..|ops|] == ops;
    assert Before(s, ops, |ops|) == Run(s, ops);
    hide Before, KeptUpTo, Run, LastWritten, Holds, OnlyIn;
    for n := 0 to |ops|
      invariant At(l, s, ops, n, tag, email, b) && fresh(l.Buckets() - old(l.Buckets()))
      invariant LastWritten(s, ops, n, tag, email, last) && RunsAsWritten(b, last)
    {
      hide At;
      last := Advance(l, s, ops, n, tag, email, b, last);
    }
  }

  lemma {:induction false} QuietSoFar(s: Shadow, ops: seq<Op>, n: nat, tag: Tag, email: Email)
    requires n <= |ops| && AllQuiet(s, ops, tag, email)
    ensures tag in Before(s, ops, n).inbounds && Free(Before(s, ops, n).inbounds[tag], email)
  {
    if n > 0 {
      QuietSoFar(s, ops, n - 1, tag, email);
      BeforeStep(s, ops, n - 1);
      QuietKeepsFree(Before(s, ops, n - 1), ops[n - 1], tag, email);
    }
  }

  /** A quiet run writes nothing into the bucket of a user without static limit. */
  lemma {:induction false} QuietWritesNothing(s: Shadow, ops: seq<Op>, n: nat, tag: Tag, email: Email,
                                              last: Option<nat>)
    requires n <= |ops| && AllQuiet(s, ops, tag, email) && LastWritten(s, ops, n, tag, email, last)
    ensures last == None
  {
    if n > 0 {
      var op := ops[n - 1];
      assert Quiet(op, tag, email);
      QuietSoFar(s, ops, n - 1, tag, email);
      if op.Update? || op.Sync? {
        if op.tag == tag {
          NothingPushed(op.users, email);
        }
      }
      assert !Touches(Before(s, ops, n - 1), op, tag, email);
      QuietWritesNothing(s, ops, n - 1, tag, email, last);
    }
  }

  lemma QuietKeepsFree(s: Shadow, op: Op, tag: Tag, email: Email)
    requires tag in s.inbounds && Free(s.inbounds[tag], email) && Quiet(op, tag, email)
    ensures tag in Next(s, op).inbounds && Free(Next(s, op).inbounds[tag], email)
  {
    match op
    case Update(t, users) =>
      if t == tag {
        StoreKeepsFree(s.inbounds[tag].users, users, email);
      }
    case Sync(t, _, users) =>
      if t == tag {
        StoreKeepsFree(map[], users, email);
      }
    case _ =>
  }

  /** While the automatic limit is on, nothing drops the bucket. */
  lemma MarkedKeeps(s: Shadow, ops: seq<Op>, tag: Tag, email: Email)
    requires email in s.marks && forall op | op in ops :: KeepsLimit(op, email)
    ensures NeverDropped(s, ops, tag, email)
  {
    forall k | 0 <= k < |ops| ensures !Drops(Before(s, ops, k), ops[k], tag, email) {
      StillMarked(s, ops, k, email);
    }
  }

  lemma {:induction false} StillMarked(s: Shadow, ops: seq<Op>, n: nat, email: Email)
    requires n <= |ops| && email in s.marks && forall op | op in ops :: KeepsLimit(op, email)
    ensures email in Before(s, ops, n).marks
  {
    if n > 0 {
      StillMarked(s, ops, n - 1, email);
      BeforeStep(s, ops, n - 1);
      assert KeepsLimit(ops[n - 1], email);
    }
  }

  predicate ConnectsBetween(ops: seq<Op>, c: int, k: nat, tag: Tag, email: Email)
    requires -1 <= c && k <= |ops|
  {
    exists j | c < j < k :: ops[j].Connect? && ops[j].tag == tag && ops[j].email == email
  }

  predicate Online(s: Shadow, tag: Tag, email: Email) {
    tag in s.inbounds && email in s.inbounds[tag].online
  }

  /** Just before op k the email was seen since the last collection: it was online at first or
      connected, and it connected anew after every collection. */
  predicate Renewed(s: Shadow, ops: seq<Op>, k: nat, tag: Tag, email: Email)
    requires k <= |ops|
  {
    && (Online(s, tag, email) || ConnectsBetween(ops, -1, k, tag, email))
    && forall c | 0 <= c < k && ops[c] == Collect(tag) :: ConnectsBetween(ops, c, k, tag, email)
  }

  /** Op k collects the inbound although the email was neither seen since the collection before
      nor is limited automatically. */
  predicate Forgets(s: Shadow, ops: seq<Op>, k: nat, tag: Tag, email: Email)
    requires k < |ops|
  {
    ops[k] == Collect(tag) && !Renewed(s, ops, k, tag, email) && email !in Before(s, ops, k).marks
  }

  predicate NeverForgets(s: Shadow, ops: seq<Op>, tag: Tag, email: Email) {
    forall k | 0 <= k < |ops| :: !Forgets(s, ops, k, tag, email)
  }

  lemma {:induction false} OnlineIffRenewed(s: Shadow, ops: seq<Op>, k: nat, tag: Tag, email: Email)
    requires k <= |ops| && tag in s.inbounds
    ensures tag in Before(s, ops, k).inbounds
    ensures Online(Before(s, ops, k), tag, email) <==> Renewed(s, ops, k, tag, email)
  {
    if k > 0 {
      var n := k - 1;
      OnlineIffRenewed(s, ops, n, tag, email);
      BeforeStep(s, ops, n);
      RenewedStep(s, ops, n, tag, email);
    }
  }

  lemma RenewedStep(s: Shadow, ops: seq<Op>, n: nat, tag: Tag, email: Email)
    requires n < |ops|
    ensures Renewed(s, ops, n + 1, tag, email)
            <==> (if ops[n].Connect? && ops[n].tag == tag && ops[n].email == email then true
                  else ops[n] != Collect(tag) && Renewed(s, ops, n, tag, email))
  {
    forall c | -1 <= c < n
      ensures ConnectsBetween(ops, c, n + 1, tag, email)
              <==> ConnectsBetween(ops, c, n, tag, email)
                   || (ops[n].Connect? && ops[n].tag == tag && ops[n].email == email)
    {}
    if ops[n] == Collect(tag) {
      assert !ConnectsBetween(ops, n, n + 1, tag, email);
    }
  }

  /** A bucket is dropped exactly by a collection that forgets its email. */
  lemma DroppedIffForgets(s: Shadow, ops: seq<Op>, tag: Tag, email: Email)
    requires tag in s.inbounds
    ensures NeverDropped(s, ops, tag, email) <==> NeverForgets(s, ops, tag, email)
  {
    forall k | 0 <= k < |ops|
      ensures Drops(Before(s, ops, k), ops[k], tag, email) <==> Forgets(s, ops, k, tag, email)
    {
      OnlineIffRenewed(s, ops, k, tag, email);
    }
  }

  /** An email without automatic limit is forgotten by the first collection if it is not online,
      and by the second in a row even if it is. */
  lemma SecondCollectForgets(s: Shadow, tag: Tag, email: Email)
    requires email !in s.marks
    ensures NeverForgets(s, [Collect(tag)], tag, email) <==> Online(s, tag, email)
    ensures !NeverForgets(s, [Collect(tag), Collect(tag)], tag, email)
  {
    var once, twice := [Collect(tag)], [Collect(tag), Collect(tag)];
    assert once[..0] == twice[..0] == [] && twice[..1] == once;
    assert !ConnectsBetween(once, -1, 0, tag, email) && Before(s, once, 0) == s;
    assert Forgets(s, once, 0, tag, email) <==> !Online(s, tag, email);
    assert !ConnectsBetween(twice, 0, 1, tag, email);
    assert Before(s, twice, 1).marks == s.marks;
    assert Forgets(s, twice, 1, tag, email);
  }

  /** GetUserBucket on a known inbound, without the cases that then cannot occur. */
  method Given(l: Limiter, tag: Tag, email: Email, ip: Ip) returns (bucket: Bucket)
    requires l.Valid() && tag in l.inbounds
    modifies l`inbounds
    ensures l.Valid() && fresh(l.Buckets() - old(l.Buckets()))
    ensures l.inbounds == old(l.inbounds)[tag := Joined(old(l.inbounds[tag]), email, ip, bucket)]
    ensures if old(l.Has(tag, email)) then bucket == old(l.At(tag, email))
            else fresh(bucket) && exists r :: OwnRate(old(l.inbounds[tag]), email, r) && bucket.RunsAt(r)
  {
    hide OwnRate;
    var b, _ := l.GetUserBucket(tag, email, ip);
    bucket := b;
  }

  function Joined(inb: Inbound, email: Email, ip: Ip, bucket: Bucket): Inbound {
    inb.(hub := inb.hub[email := bucket], online := SeenAt(inb.online, email, ip))
  }

  /** Putting a held bucket again, or a first one, moves no other. */
  lemma JoinedKeeps(m: map<Tag, Inbound>, tag: Tag, email: Email, ip: Ip, bucket: Bucket)
    requires tag in m && (email in m[tag].hub ==> m[tag].hub[email] == bucket)
    ensures var m' := m[tag := Joined(m[tag], email, ip, bucket)];
            HoldsIn(m', tag, email, bucket)
            && forall t, e | t in m && e in m[t].hub :: HoldsIn(m', t, e, m[t].hub[e])
  {}

  lemma JoinedShadow(m: map<Tag, Inbound>, marks: set<Email>, tag: Tag, email: Email, ip: Ip, bucket: Bucket)
    requires tag in m
    ensures var s := ShadowAs(m[tag := Joined(m[tag], email, ip, bucket)], marks);
            s == Next(ShadowAs(m, marks), Connect(tag, email, ip)) && Online(s, tag, email)
  {
    ConnectShadow(m, marks, Joined(m[tag], email, ip, bucket), Connect(tag, email, ip));
  }

  /** GetUserBucket on a known inbound, with its effect on the shadow. */
  method Join(l: Limiter, tag: Tag, email: Email, ip: Ip) returns (bucket: Bucket)
    requires l.Valid() && tag in l.inbounds
    modifies l
    ensures l.Valid() && fresh(l.Buckets() - old(l.Buckets()))
    ensures ShadowOf(l) == Next(old(ShadowOf(l)), Connect(tag, email, ip)) && Online(ShadowOf(l), tag, email)
    ensures Holds(l, tag, email, bucket)
    ensures if old(l.Has(tag, email)) then bucket == old(l.At(tag, email))
            else fresh(bucket) && exists r :: OwnRate(old(l.inbounds[tag]), email, r) && bucket.RunsAt(r)
    ensures forall t, e | old(l.Has(t, e)) :: l.Has(t, e) && l.At(t, e) == old(l.At(t, e))
  {
    hide Limiter.Valid, Limiter.Buckets, OwnRate, ShadowAs, Next, SeenAt, Joined;
    bucket := Given(l, tag, email, ip);
    JoinedKeeps(old(l.inbounds), tag, email, ip, bucket);
    JoinedShadow(old(l.inbounds), l.autoLimited, tag, email, ip, bucket);
  }

  /** A connection's bucket is the hub's after any run exactly when no collection of the run
      forgets its email: when each finds the email limited automatically or connected anew since
      the collection before.  The first collection after connecting never does. */
  method ConnectThenRun(l: Limiter, tag: Tag, email: Email, ip: Ip, ops: seq<Op>) returns (bucket: Bucket)
    requires l.Valid() && tag in l.inbounds
    modifies l, l.Buckets()
    ensures l.Valid() && fresh(l.Buckets() - old(l.Buckets()))
    ensures if old(l.Has(tag, email)) then bucket == old(l.At(tag, email)) else fresh(bucket)
    ensures ShadowOf(l) == Run(Next(old(ShadowOf(l)), Connect(tag, email, ip)), ops)
    ensures Holds(l, tag, email, bucket)
            <==> NeverForgets(Next(old(ShadowOf(l)), Connect(tag, email, ip)), ops, tag, email)
    ensures OnlyIn(l.inbounds, tag, email, bucket)
  {
    bucket := Join(l, tag, email, ip);
    DroppedIffForgets(ShadowOf(l), ops, tag, email);
    hide NeverDropped, NeverForgets, LastWritten, Next, Run, ShadowOf;
    ghost var last := Replay(l, ops, tag, email, bucket);
  }

  /** The same for a connection that found its bucket by a lookup, which nobody is seen by: if
      the email is not online anyway, the first collection already forgets it. */
  method LookupThenRun(l: Limiter, email: Email, ops: seq<Op>) returns (bucket: Bucket?, ghost on: Tag)
    requires l.Valid()
    modifies l, l.Buckets()
    ensures l.Valid() && fresh(l.Buckets() - old(l.Buckets()))
    ensures bucket == null ==> l.inbounds == old(l.inbounds) && l.autoLimited == old(l.autoLimited)
    ensures bucket == null && email != "" ==> forall t | t in l.inbounds :: MayPass(l.inbounds[t].users, email)
    ensures bucket != null ==>
              && on in old(l.inbounds)
              && (if old(l.Has(on, email)) then bucket == old(l.At(on, email)) else fresh(bucket))
              && ShadowOf(l) == Run(old(ShadowOf(l)), ops)
              && (Holds(l, on, email, bucket) <==> NeverForgets(old(ShadowOf(l)), ops, on, email))
  {
    bucket, on := LookedUp(l, email);
    if bucket != null {
      DroppedIffForgets(ShadowOf(l), ops, on, email);
      hide NeverDropped, NeverForgets, LastWritten, Next, Run, ShadowOf;
      ghost var last := Replay(l, ops, on, email, bucket);
    }
  }

  method LookedUp(l: Limiter, email: Email) returns (bucket: Bucket?, ghost on: Tag)
    requires l.Valid()
    modifies l
    ensures l.Valid() && fresh(l.Buckets() - old(l.Buckets())) && ShadowOf(l) == old(ShadowOf(l))
    ensures bucket == null ==> l.inbounds == old(l.inbounds) && l.autoLimited == old(l.autoLimited)
    ensures bucket == null && email != "" ==> forall t | t in l.inbounds :: MayPass(l.inbounds[t].users, email)
    ensures bucket != null ==>
              && on in old(l.inbounds) && on in ShadowOf(l).inbounds && Holds(l, on, email, bucket)
              && (if old(l.Has(on, email)) then bucket == old(l.At(on, email)) else fresh(bucket))
  {
    bucket, on := l.LookupBucketByEmail(email);
    hide Limiter.Valid, MayPass, Distinct;
    if bucket != null {
      PlainsKept(old(l.inbounds), l.inbounds[on], on, l.autoLimited);
      hide ShadowAs;
    }
  }

  predicate DistinctEmails(users: seq<UserInfo>) {
    forall i, j | 0 <= i < j < |users| :: users[i].email != users[j].email
  }

  lemma {:induction false} StoreHolds(users: seq<UserInfo>, i: nat)
    requires i < |users| && DistinctEmails(users)
    ensures var m := Store(map[], users);
            var k := (users[i].email, users[i].uid);
            k in m && m[k] == users[i]
            && forall k' | k' in m && k'.0 == users[i].email :: k' == k
  {
    var front := users[..|users| - 1];
    if i < |front| {
      StoreHolds(front, i);
    } else {
      StoreEmails(front);
    }
  }

  lemma {:induction false} StoreEmails(users: seq<UserInfo>)
    ensures forall k | k in Store(map[], users) :: exists u | u in users :: u.email == k.0
  {
    if users != [] {
      StoreEmails(users[..|users| - 1]);
    }
  }

  lemma {:induction false} PushedOwnRate(nodeLimit: nat, users: seq<UserInfo>, i: nat)
    requires i < |users| && DistinctEmails(users)
    ensures Pushed(nodeLimit, users, users[i].email) == DetermineRate(nodeLimit, users[i].speedLimit)
  {
    var front, last := users[..|users| - 1], users[|users| - 1];
    if i < |front| {
      PushedOwnRate(nodeLimit, front, i);
    } else if DetermineRate(nodeLimit, last.speedLimit) == 0 {
      PushedAbsent(nodeLimit, front, last.email);
    }
  }

  lemma {:induction false} PushedAbsent(nodeLimit: nat, users: seq<UserInfo>, email: Email)
    requires forall u | u in users :: u.email != email
    ensures Pushed(nodeLimit, users, email) == 0
  {
    if users != [] {
      PushedAbsent(nodeLimit, users[..|users| - 1], email);
    }
  }

  /** After a sync with distinct emails, a listed user with a static rate gets that rate and a
      burst between 64 KiB and 256 KiB on a new connection, in the bucket the hub held if it
      held one; nothing happens to a bucket the hub does not hold. */
  method SyncThenConnect(l: Limiter, tag: Tag, nodeLimit: nat, users: seq<UserInfo>, i: nat, ip: Ip)
    returns (bucket: Bucket)
    requires l.Valid() && i < |users| && DistinctEmails(users)
    modifies l, l.Buckets()
    ensures l.Valid()
    ensures ShadowOf(l) == Next(Next(old(ShadowOf(l)), Sync(tag, nodeLimit, users)), Connect(tag, users[i].email, ip))
    ensures DetermineRate(nodeLimit, users[i].speedLimit) > 0 ==>
              bucket.RunsAt(DetermineRate(nodeLimit, users[i].speedLimit))
              && bucket.limit == Limited(DetermineRate(nodeLimit, users[i].speedLimit))
              && 65536 <= bucket.burst <= 262144
    ensures Holds(l, tag, users[i].email, bucket)
    ensures if old(l.Has(tag, users[i].email)) then bucket == old(l.At(tag, users[i].email)) else fresh(bucket)
    ensures forall t, e | old(l.Has(t, e)) :: l.Has(t, e) && l.At(t, e) == old(l.At(t, e))
  {
    SyncOne(l, tag, nodeLimit, users, i);
    bucket := JoinAtRate(l, tag, users[i].email, ip, DetermineRate(nodeLimit, users[i].speedLimit));
  }

  /** A connection of a user with one static rate, in a hub whose bucket runs at it. */
  method JoinAtRate(l: Limiter, tag: Tag, email: Email, ip: Ip, ghost rate: nat) returns (bucket: Bucket)
    requires l.Valid() && tag in l.inbounds
    requires forall r | OwnRate(l.inbounds[tag], email, r) :: r == rate
    requires rate > 0 && l.Has(tag, email) ==> l.At(tag, email).RunsAt(rate)
    modifies l
    ensures l.Valid() && ShadowOf(l) == Next(old(ShadowOf(l)), Connect(tag, email, ip))
    ensures rate > 0 ==> bucket.RunsAt(rate)
    ensures Holds(l, tag, email, bucket)
    ensures if old(l.Has(tag, email)) then bucket == old(l.At(tag, email)) else fresh(bucket)
    ensures forall t, e | old(l.Has(t, e)) :: l.Has(t, e) && l.At(t, e) == old(l.At(t, e))
  {
    hide OwnRate, Limiter.Valid, ShadowOf, Next;
    bucket := Join(l, tag, email, ip);
  }

  /** A sync as one of its users sees it. */
  method SyncOne(l: Limiter, tag: Tag, nodeLimit: nat, users: seq<UserInfo>, i: nat)
    requires l.Valid() && i < |users| && DistinctEmails(users)
    modifies l, l.Buckets()
    ensures l.Valid() && tag in l.inbounds
    ensures ShadowOf(l) == Next(old(ShadowOf(l)), Sync(tag, nodeLimit, users))
    ensures forall r | OwnRate(l.inbounds[tag], users[i].email, r) ::
              r == DetermineRate(nodeLimit, users[i].speedLimit)
    ensures forall t, e :: l.Has(t, e) <==> old(l.Has(t, e))
    ensures forall t, e | l.Has(t, e) :: l.At(t, e) == old(l.At(t, e))
    ensures l.Has(tag, users[i].email) && DetermineRate(nodeLimit, users[i].speedLimit) > 0 ==>
              l.At(tag, users[i].email).RunsAt(DetermineRate(nodeLimit, users[i].speedLimit))
  {
    PushedOwnRate(nodeLimit, users, i);
    hide Store, Pushed, OwnRate, DistinctEmails;
    var _ := SyncShadow(l, tag, nodeLimit, users);
    OwnStaticRate(l.inbounds[tag], users, i);
  }

  /** A sync with its effect on the shadow. */
  method SyncShadow(l: Limiter, tag: Tag, nodeLimit: nat, users: seq<UserInfo>) returns (removed: set<string>)
    requires l.Valid()
    modifies l`inbounds, l.Buckets()
    ensures l.Valid() && tag in l.inbounds
    ensures l.inbounds[tag].nodeLimit == nodeLimit && l.inbounds[tag].users == Store(map[], users)
    ensures ShadowOf(l) == Next(old(ShadowOf(l)), Sync(tag, nodeLimit, users))
    ensures removed == if tag in old(l.inbounds) then RemovedGroups(old(l.inbounds[tag].users), users) else {}
    ensures forall t, e :: l.Has(t, e) <==> old(l.Has(t, e))
    ensures forall t, e | l.Has(t, e) ::
              l.At(t, e) == old(l.At(t, e)) && Left(l.At(t, e), t == tag, Pushed(nodeLimit, users, e))
  {
    hide Store, Pushed, RemovedGroups;
    removed := l.SyncInboundLimiter(tag, nodeLimit, users);
    ConfigShadow(old(l.inbounds), l.autoLimited, l.inbounds[tag], Sync(tag, nodeLimit, users));
  }

  lemma OwnStaticRate(inb: Inbound, users: seq<UserInfo>, i: nat)
    requires i < |users| && DistinctEmails(users) && inb.users == Store(map[], users)
    ensures forall r | OwnRate(inb, users[i].email, r) :: r == DetermineRate(inb.nodeLimit, users[i].speedLimit)
  {
    StoreHolds(users, i);
  }

  lemma NotHeldElsewhere(l: Limiter, tag: Tag, email: Email, b: Bucket)
    requires OnlyIn(l.inbounds, tag, email, b)
    ensures !Holds(l, tag, email, b) ==> b !in l.Buckets()
  {
    if b in l.Buckets() {
      var t, e :| t in l.inbounds && e in l.inbounds[t].hub && l.inbounds[t].hub[e] == b;
      assert HoldsIn(l.inbounds, t, e, b);
    }
  }

  /** A sync with a rate for the user and a new connection, as one bucket sees it: the hub's is
      the new connection's; any other is left alone. */
  method SyncAround(l: Limiter, tag: Tag, email: Email, nodeLimit: nat, users: seq<UserInfo>, i: nat, ip: Ip,
                    ghost first: Bucket)
    returns (second: Bucket)
    requires l.Valid() && OnlyIn(l.inbounds, tag, email, first)
    requires i < |users| && users[i].email == email && DistinctEmails(users)
    requires DetermineRate(nodeLimit, users[i].speedLimit) > 0
    modifies l, l.Buckets()
    ensures l.Valid() && Holds(l, tag, email, second)
    ensures second.RunsAt(DetermineRate(nodeLimit, users[i].speedLimit))
    ensures if old(Holds(l, tag, email, first)) then second == first else second != first && unchanged(first)
    ensures ShadowOf(l) == Next(Next(old(ShadowOf(l)), Sync(tag, nodeLimit, users)), Connect(tag, email, ip))
  {
    NotHeldElsewhere(l, tag, email, first);
    hide OnlyIn, Next, ShadowOf, DistinctEmails, Limiter.Valid;
    second := SyncThenConnect(l, tag, nodeLimit, users, i, ip);
  }

  /** An open connection, any run, a sync with a rate for its user, a new connection: both
      share the hub's bucket, running at that rate, exactly when no collection of the run forgot
      the user.  Otherwise, as SyncAround says, the sync leaves the open connection's alone. */
  method OldAndNewConnection(l: Limiter, tag: Tag, email: Email, ip: Ip, ops: seq<Op>,
                             nodeLimit: nat, users: seq<UserInfo>, i: nat, ip': Ip)
    returns (first: Bucket, second: Bucket)
    requires l.Valid() && tag in l.inbounds
    requires i < |users| && users[i].email == email && DistinctEmails(users)
    requires DetermineRate(nodeLimit, users[i].speedLimit) > 0
    modifies l, l.Buckets()
    ensures l.Valid() && Holds(l, tag, email, second)
    ensures if old(l.Has(tag, email)) then first == old(l.At(tag, email)) else fresh(first)
    ensures second.RunsAt(DetermineRate(nodeLimit, users[i].speedLimit))
    ensures first == second <==> NeverForgets(Next(old(ShadowOf(l)), Connect(tag, email, ip)), ops, tag, email)
    ensures ShadowOf(l) == Next(Next(Run(Next(old(ShadowOf(l)), Connect(tag, email, ip)), ops),
                                     Sync(tag, nodeLimit, users)), Connect(tag, email, ip'))
  {
    hide NeverForgets, Next, Run, OnlyIn, ShadowOf, DistinctEmails, Limiter.Valid;
    first := ConnectThenRun(l, tag, email, ip, ops);
    second := SyncAround(l, tag, email, nodeLimit, users, i, ip', first);
  }

  /** Limiting a user and any run that does not lift the limit: the hub goes on holding the same
      bucket, which runs at the automatic rate or at what the run wrote last; a quiet run for a
      user without static limit writes nothing. */
  method LimitThenRun(l: Limiter, ops: seq<Op>, tag: Tag, email: Email, speed: nat) returns (ghost last: Option<nat>)
    requires l.Valid() && l.Has(tag, email) && speed > 0
    requires forall op | op in ops :: KeepsLimit(op, email)
    modifies l, l.Buckets()
    ensures l.Valid() && fresh(l.Buckets() - old(l.Buckets()))
    ensures Holds(l, tag, email, old(l.At(tag, email)))
    ensures ShadowOf(l) == Run(Next(old(ShadowOf(l)), SetSpeed(tag, email, speed)), ops)
    ensures LastWritten(Next(old(ShadowOf(l)), SetSpeed(tag, email, speed)), ops, |ops|, tag, email, last)
    ensures l.At(tag, email).RunsAt(last.GetOr(speed))
    ensures AllQuiet(Next(old(ShadowOf(l)), SetSpeed(tag, email, speed)), ops, tag, email) ==>
              last == None && l.At(tag, email).RunsAt(speed) && l.At(tag, email).limit == Limited(speed)
  {
    ghost var b := l.At(tag, email);
    ghost var s := Next(ShadowOf(l), SetSpeed(tag, email, speed));
    Limit(l, tag, email, speed);
    assert email in s.marks;
    MarkedKeeps(s, ops, tag, email);
    hide NeverDropped, LastWritten, Next, Run, ShadowOf, AllQuiet;
    last := Replay(l, ops, tag, email, b);
    if AllQuiet(s, ops, tag, email) {
      QuietWritesNothing(s, ops, |ops|, tag, email, last);
    }
  }

  /** SetUserSpeed with a rate for a bucket the hub holds. */
  method Limit(l: Limiter, tag: Tag, email: Email, speed: nat)
    requires l.Valid() && l.Has(tag, email) && speed > 0
    modifies l, l.Buckets()
    ensures l.Valid() && l.Buckets() == old(l.Buckets()) && email in l.autoLimited
    ensures Holds(l, tag, email, old(l.At(tag, email))) && l.At(tag, email).RunsAt(speed)
    ensures ShadowOf(l) == Next(old(ShadowOf(l)), SetSpeed(tag, email, speed))
  {
    ghost var b := l.At(tag, email);
    l.SetUserSpeed(tag, email, speed);
    ghost var inb := old(l.inbounds)[tag];
    assert inb.hub[email := b] == inb.hub && old(l.inbounds)[tag := inb] == old(l.inbounds);
  }

  /** Limiting a user, any run that does not lift the limit, then lifting it: the hub holds the
      same bucket all along, and it ends at the user's static rate of that moment, unlimited if
      there is none. */
  method LimitRunRestore(l: Limiter, ops: seq<Op>, tag: Tag, email: Email, speed: nat)
    requires l.Valid() && l.Has(tag, email) && speed > 0
    requires forall op | op in ops :: KeepsLimit(op, email)
    modifies l, l.Buckets()
    ensures l.Valid() && Holds(l, tag, email, old(l.At(tag, email)))
    ensures ShadowOf(l) == Next(Run(Next(old(ShadowOf(l)), SetSpeed(tag, email, speed)), ops), SetSpeed(tag, email, 0))
    ensures exists r :: OwnRate(l.inbounds[tag], email, r) && l.At(tag, email).RunsAt(r)
    ensures Free(PlainOf(l.inbounds[tag]), email) ==>
              l.At(tag, email).limit == Unlimited && l.At(tag, email).burst == 0x7FFF_FFFF_FFFF_FFFF
  {
    ghost var last := LimitThenRun(l, ops, tag, email, speed);
    hide Run, LastWritten, AllQuiet;
    Lift(l, tag, email);
  }

  /** SetUserSpeed with 0 for a bucket the hub holds. */
  method Lift(l: Limiter, tag: Tag, email: Email)
    requires l.Valid() && l.Has(tag, email)
    modifies l, l.Buckets()
    ensures l.Valid() && Holds(l, tag, email, old(l.At(tag, email)))
    ensures ShadowOf(l) == Next(old(ShadowOf(l)), SetSpeed(tag, email, 0))
    ensures exists r :: OwnRate(l.inbounds[tag], email, r) && l.At(tag, email).RunsAt(r)
    ensures Free(PlainOf(l.inbounds[tag]), email) ==>
              l.At(tag, email).limit == Unlimited && l.At(tag, email).burst == 0x7FFF_FFFF_FFFF_FFFF
  {
    l.SetUserSpeed(tag, email, 0);
    assert Free(PlainOf(l.inbounds[tag]), email) ==> forall r | OwnRate(l.inbounds[tag], email, r) :: r == 0;
  }

  /** A sync while the limit is on leaves the automatic rate in place exactly when the sync has
      no static rate for the user, or the same one. */
  method LimitThenSync(l: Limiter, tag: Tag, email: Email, speed: nat, nodeLimit: nat, users: seq<UserInfo>)
    requires l.Valid() && l.Has(tag, email) && speed > 0
    modifies l, l.Buckets()
    ensures l.Valid() && Holds(l, tag, email, old(l.At(tag, email)))
    ensures ShadowOf(l) == Next(Next(old(ShadowOf(l)), SetSpeed(tag, email, speed)), Sync(tag, nodeLimit, users))
    ensures l.At(tag, email).RunsAt(var p := Pushed(nodeLimit, users, email); if p > 0 then p else speed)
    ensures l.At(tag, email).limit == Limited(speed) <==> Pushed(nodeLimit, users, email) in {0, speed}
  {
    Limit(l, tag, email, speed);
    hide Next, ShadowOf, Store, Pushed, RemovedGroups;
    var _ := SyncShadow(l, tag, nodeLimit, users);
  }

  /** A sync cuts exactly the live connections of the groups that some previous user of the
      inbound was in, by connection group or else by email, and no listed user is in, each once,
      and leaves every other connection alone. */
  method SyncAndKick(l: Limiter, r: ConnRegistry.Registry, tag: Tag, nodeLimit: nat, users: seq<UserInfo>)
    returns (called: seq<ConnRegistry.Conn>, ghost order: seq<ConnRegistry.Handle>)
    requires l.Valid() && r.Valid() && tag in l.inbounds
    modifies l, l.Buckets(), r`sets, r`live, r.made
    ensures l.Valid() && r.Valid()
    ensures ShadowOf(l) == Next(old(ShadowOf(l)), Sync(tag, nodeLimit, users))
    ensures forall t, e | old(l.Has(t, e)) ::
              Holds(l, t, e, old(l.At(t, e))) && Left(old(l.At(t, e)), t == tag, Pushed(nodeLimit, users, e))
    ensures ConnRegistry.CallsOnce(called, order, r.issued)
    ensures forall h | h in order :: h in old(r.live) && h.Tracked?
    ensures forall h | h in old(r.live) && h.Tracked? ::
              h in order <==>
                && (exists k | k in old(l.inbounds[tag].users) ::
                      var u := old(l.inbounds[tag].users)[k];
                      (u.connGroup != "" && u.connGroup == h.group) || (u.connGroup == "" && u.email == h.group))
                && (forall u | u in users ::
                      !((u.connGroup != "" && u.connGroup == h.group) || (u.connGroup == "" && u.email == h.group)))
    ensures r.live == old(r.live) - (set h | h in order)
  {
    ghost var previous := l.inbounds[tag].users;
    hide Next, ShadowOf, Store, Pushed, Left, RemovedGroups, Limiter.Valid, ConnRegistry.CallsOnce;
    called, order := SyncAndCut(l, r, tag, nodeLimit, users);
    forall h | h in old(r.live) && h.Tracked?
      ensures h.group in RemovedGroups(previous, users) <==>
                && (exists k | k in previous ::
                      var u := previous[k];
                      (u.connGroup != "" && u.connGroup == h.group) || (u.connGroup == "" && u.email == h.group))
                && (forall u | u in users ::
                      !((u.connGroup != "" && u.connGroup == h.group) || (u.connGroup == "" && u.email == h.group)))
    {
      RemovedExactly(previous, users, h.group);
    }
  }

  /** A sync and the cutting of the groups it removes. */
  method SyncAndCut(l: Limiter, r: ConnRegistry.Registry, tag: Tag, nodeLimit: nat, users: seq<UserInfo>)
    returns (called: seq<ConnRegistry.Conn>, ghost order: seq<ConnRegistry.Handle>)
    requires l.Valid() && r.Valid() && tag in l.inbounds
    modifies l, l.Buckets(), r`sets, r`live, r.made
    ensures l.Valid() && r.Valid()
    ensures ShadowOf(l) == Next(old(ShadowOf(l)), Sync(tag, nodeLimit, users))
    ensures forall t, e | old(l.Has(t, e)) ::
              Holds(l, t, e, old(l.At(t, e))) && Left(old(l.At(t, e)), t == tag, Pushed(nodeLimit, users, e))
    ensures ConnRegistry.CallsOnce(called, order, r.issued)
    ensures forall h :: h in order <==>
              h in old(r.live) && h.Tracked? && h.group in RemovedGroups(old(l.inbounds[tag].users), users)
    ensures r.live == old(r.live) - (set h | h in order)
  {
    hide Next, ShadowOf, Store, Pushed, Left, RemovedGroups, Limiter.Valid, ConnRegistry.CallsOnce;
    var removed := SyncShadow(l, tag, nodeLimit, users);
    called, order := ConnRegistry.KickRemoved(r, removed);
  }
}
