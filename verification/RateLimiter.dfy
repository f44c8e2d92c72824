/** internal/limiter/limiter.go and conn.go: the hub of shared token buckets.  A connection
    keeps the bucket it was given for its whole life, so which object a hub holds matters as
    much as the rate in it.  Each method is taken as one step. */
module RateLimiter {

  type Tag = string
  type Email = string
  type Ip = string

  datatype UserInfo = UserInfo(uid: int, email: Email, speedLimit: nat, deviceLimit: int,
                               connGroup: string, connStatGroup: string)

  /** A rate in bytes per second, or none. */
  datatype Rate = Limited(bytesPerSec: nat) | Unlimited

  const MAX_INT: nat := 0x7FFF_FFFF_FFFF_FFFF

  /** A token bucket, changed in place. */
  class Bucket {
    var limit: Rate
    var burst: nat

    constructor (limit: Rate, burst: nat)
      ensures this.limit == limit && this.burst == burst
    {
      this.limit, this.burst := limit, burst;
    }

    /** The rate is r bytes per second, with the burst that goes with it; 0 is no limit. */
    predicate RunsAt(r: nat)
      reads this
    {
      if r > 0 then limit == Limited(r) && burst == CalcBurst(r)
      else limit == Unlimited && burst == MAX_INT
    }
  }

  /** A push of rate r into a bucket: it runs at r afterwards; nothing happens to it when the
      push is for another inbound or r is 0. */
  twostate predicate Left(b: Bucket, pushed: bool, r: nat)
    reads b
  {
    if pushed && r > 0 then b.RunsAt(r) else unchanged(b)
  }

  /** A quarter of a second's worth, kept between 64 KiB and 256 KiB. */
  function CalcBurst(bytesPerSec: nat): (b: nat)
    ensures 64 * 1024 <= b <= 256 * 1024
    ensures b > 64 * 1024 ==> 4 * b <= bytesPerSec
    ensures b < 256 * 1024 ==> bytesPerSec < 4 * b + 4
  {
    var b := bytesPerSec / 4;
    if b < 64 * 1024 then 64 * 1024 else if b > 256 * 1024 then 256 * 1024 else b
  }

  /** The smaller of the two limits that are set; 0 when neither is. */
  function DetermineRate(nodeLimit: nat, userLimit: nat): (r: nat)
    ensures r == 0 <==> nodeLimit == 0 && userLimit == 0
    ensures nodeLimit > 0 ==> r <= nodeLimit
    ensures userLimit > 0 ==> r <= userLimit
    ensures r == nodeLimit || r == userLimit
  {
    if nodeLimit == 0 then userLimit
    else if userLimit == 0 then nodeLimit
    else if nodeLimit < userLimit then nodeLimit else userLimit
  }

  /** The configured users of an inbound, keyed by email and uid. */
  type Users = map<(Email, int), UserInfo>

  datatype Inbound = Inbound(nodeLimit: nat, users: Users, hub: map<Email, Bucket>, online: map<Email, set<Ip>>)

  function Store(users: Users, list: seq<UserInfo>): Users {
    if list == [] then users
    else
      var u := list[|list| - 1];
      Store(users, list[..|list| - 1])[(u.email, u.uid) := u]
  }

  /** The rates a lookup by email may come up with; more than one only when the email is
      configured under several uids, as the scan order is not fixed. */
  ghost predicate StaticRate(nodeLimit: nat, users: Users, email: Email, rate: nat) {
    (exists k | k in users :: k.0 == email && rate == DetermineRate(nodeLimit, users[k].speedLimit))
    || ((forall k | k in users :: k.0 != email) && rate == DetermineRate(nodeLimit, 0))
  }

  ghost predicate OwnRate(inb: Inbound, email: Email, rate: nat) {
    StaticRate(inb.nodeLimit, inb.users, email, rate)
  }

  /** The rate that a pass over the list leaves in the bucket of an email: that of the last
      entry with a limit, or 0 when the pass leaves the bucket alone. */
  function Pushed(nodeLimit: nat, list: seq<UserInfo>, email: Email): nat {
    if list == [] then 0
    else
      var u := list[|list| - 1];
      var r := DetermineRate(nodeLimit, u.speedLimit);
      if u.email == email && r > 0 then r else Pushed(nodeLimit, list[..|list| - 1], email)
  }

  function ConnGroupOf(u: UserInfo): string {
    if u.connGroup != "" then u.connGroup else u.email
  }

  /** The record of an inbound after a sync: new limits and users, the same hub. */
  function Synced(prev: Inbound, nodeLimit: nat, users: seq<UserInfo>): Inbound {
    Inbound(nodeLimit, Store(map[], users), prev.hub, prev.online)
  }

  /** The groups of the previous users that the new users do not have. */
  function RemovedGroups(previous: Users, users: seq<UserInfo>): set<string> {
    (set k | k in previous :: ConnGroupOf(previous[k])) - (set u | u in users :: ConnGroupOf(u))
  }

  /** The groups a sync removes, on the users' fields: some previous user is in the group, by
      connection group or else by email, and no listed user is. */
  lemma RemovedExactly(previous: Users, users: seq<UserInfo>, g: string)
    ensures g in RemovedGroups(previous, users) <==>
            && (exists k | k in previous ::
                  (previous[k].connGroup != "" && previous[k].connGroup == g)
                  || (previous[k].connGroup == "" && previous[k].email == g))
            && (forall u | u in users ::
                  !((u.connGroup != "" && u.connGroup == g) || (u.connGroup == "" && u.email == g)))
  {
    if exists k | k in previous :: ConnGroupOf(previous[k]) == g {
      var k :| k in previous && ConnGroupOf(previous[k]) == g;
      assert (previous[k].connGroup != "" && previous[k].connGroup == g)
             || (previous[k].connGroup == "" && previous[k].email == g);
    }
  }

  /** Storing a list over what is there: every entry it does not list stays as it was, and no
      other key appears. */
  lemma {:induction false} StoreKeepsOthers(users: Users, list: seq<UserInfo>, k: (Email, int))
    requires forall i | 0 <= i < |list| :: (list[i].email, list[i].uid) != k
    ensures k in Store(users, list) <==> k in users
    ensures k in users ==> Store(users, list)[k] == users[k]
  {
    if list != [] {
      var front := list[..|list| - 1];
      assert forall i | 0 <= i < |front| :: front[i] == list[i];
      StoreKeepsOthers(users, front, k);
    }
  }

  /** Under a listed key the last entry listed with it is found. */
  lemma {:induction false} StoreHasListed(users: Users, list: seq<UserInfo>, i: nat)
    requires i < |list|
    requires forall j | i < j < |list| :: (list[j].email, list[j].uid) != (list[i].email, list[i].uid)
    ensures (list[i].email, list[i].uid) in Store(users, list)
    ensures Store(users, list)[(list[i].email, list[i].uid)] == list[i]
  {
    var n := |list| - 1;
    if i < n {
      assert forall j | 0 <= j < n :: list[..n][j] == list[j];
      StoreHasListed(users, list[..n], i);
    }
  }

  /** No two places of the hubs hold the same bucket. */
  ghost predicate Distinct(inbounds: map<Tag, Inbound>) {
    forall t, e, t', e' |
      t in inbounds && e in inbounds[t].hub && t' in inbounds && e' in inbounds[t'].hub
      && inbounds[t].hub[e] == inbounds[t'].hub[e'] :: t == t' && e == e'
  }

  /** Putting into one place a bucket that no other place holds keeps all places distinct. */
  lemma InsertKeepsDistinct(inbounds: map<Tag, Inbound>, tag: Tag, email: Email, b: Bucket, inb: Inbound)
    requires Distinct(inbounds) && tag in inbounds && inb.hub == inbounds[tag].hub[email := b]
    requires forall t, e | t in inbounds && e in inbounds[t].hub && inbounds[t].hub[e] == b :: t == tag && e == email
    ensures Distinct(inbounds[tag := inb])
  {
    var after := inbounds[tag := inb];
    forall t, e | t in after && e in after[t].hub && !(t == tag && e == email)
      ensures t in inbounds && e in inbounds[t].hub && inbounds[t].hub[e] == after[t].hub[e] != b
    {}
  }

  class Limiter {
    var inbounds: map<Tag, Inbound>
    var autoLimited: set<Email>

    ghost predicate Has(tag: Tag, email: Email)
      reads this
    {
      tag in inbounds && email in inbounds[tag].hub
    }

    ghost function At(tag: Tag, email: Email): Bucket
      requires Has(tag, email)
      reads this
    {
      inbounds[tag].hub[email]
    }

    ghost predicate Valid()
      reads this
    {
      Distinct(inbounds)
    }

    ghost function Buckets(): set<Bucket>
      reads this
    {
      set t, e | t in inbounds && e in inbounds[t].hub :: inbounds[t].hub[e]
    }

    constructor ()
      ensures Valid() && inbounds == map[] && autoLimited == {}
    {
      inbounds, autoLimited := map[], {};
    }

    method StoreAll(users: seq<UserInfo>) returns (stored: Users)
      ensures stored == Store(map[], users)
    {
      stored := map[];
      for i := 0 to |users|
        invariant stored == Store(map[], users[..i])
      {
        assert users[..i + 1][..i] == users[..i];
        stored := stored[(users[i].email, users[i].uid) := users[i]];
      }
      assert users[..|users|] == users;
    }

    method AddInboundLimiter(tag: Tag, nodeLimit: nat, users: seq<UserInfo>)
      requires Valid()
      modifies this`inbounds
      ensures Valid()
      ensures inbounds == old(inbounds)[tag := Inbound(nodeLimit, Store(map[], users), map[], map[])]
    {
      var stored := StoreAll(users);
      inbounds := inbounds[tag := Inbound(nodeLimit, stored, map[], map[])];
      assert forall t, e :: Has(t, e) ==> old(Has(t, e)) && At(t, e) == old(At(t, e));
    }

    /** Exchanges the record of an inbound for one with the same hub. */
    method Exchange(tag: Tag, next: Inbound)
      requires Valid() && tag in inbounds && next.hub == inbounds[tag].hub
      modifies this`inbounds
      ensures Valid() && Buckets() == old(Buckets())
      ensures inbounds == old(inbounds)[tag := next]
      ensures forall t, e :: Has(t, e) <==> old(Has(t, e))
      ensures forall t, e | Has(t, e) :: At(t, e) == old(At(t, e))
    {
      inbounds := inbounds[tag := next];
      assert forall t, e :: (Has(t, e) <==> old(Has(t, e))) && (Has(t, e) ==> At(t, e) == old(At(t, e)));
      assert Buckets() <= old(Buckets()) by {
        forall t, e | Has(t, e) ensures At(t, e) in old(Buckets()) {
          assert old(At(t, e)) in old(Buckets());
        }
      }
      forall b | b in old(Buckets()) ensures b in Buckets() {
        var t, e :| t in old(inbounds) && e in old(inbounds)[t].hub && old(inbounds)[t].hub[e] == b;
        assert t in inbounds && e in inbounds[t].hub && inbounds[t].hub[e] == b;
      }
    }

    /** Replaces the configuration of an inbound but keeps its hub, so that every connection
        goes on sharing the object it already holds. */
    method SyncInboundLimiter(tag: Tag, nodeLimit: nat, users: seq<UserInfo>) returns (removed: set<string>)
      requires Valid()
      modifies this`inbounds, Buckets()
      ensures Valid()
      ensures inbounds == if tag in old(inbounds)
                          then old(inbounds)[tag := Synced(old(inbounds[tag]), nodeLimit, users)]
                          else old(inbounds)[tag := Inbound(nodeLimit, Store(map[], users), map[], map[])]
      ensures removed == if tag in old(inbounds) then RemovedGroups(old(inbounds[tag].users), users) else {}
      ensures forall t, e | old(Has(t, e)) ::
                Has(t, e) && At(t, e) == old(At(t, e))
                && Left(old(At(t, e)), t == tag, Pushed(nodeLimit, users, e))
    {
      if tag !in inbounds {
        AddInboundLimiter(tag, nodeLimit, users);
        return {};
      }
      var prev := inbounds[tag];
      removed := (set k | k in prev.users :: ConnGroupOf(prev.users[k])) - (set u | u in users :: ConnGroupOf(u));
      var stored := StoreAll(users);
      Exchange(tag, Inbound(nodeLimit, stored, prev.hub, prev.online));
      hide Store, Pushed, Left, Distinct;
      PushRates(tag, nodeLimit, users);
      assert forall t, e | Has(t, e) :: At(t, e) == old(At(t, e));
    }

    /** Writes the rate of every listed user that has one into the bucket the hub holds. */
    method PushRates(tag: Tag, nodeLimit: nat, users: seq<UserInfo>)
      requires Valid() && tag in inbounds
      modifies Buckets()
      ensures forall t, e | Has(t, e) :: Left(At(t, e), t == tag, Pushed(nodeLimit, users, e))
    {
      for i := 0 to |users|
        invariant forall t, e | Has(t, e) :: Left(At(t, e), t == tag, Pushed(nodeLimit, users[..i], e))
      {
        assert users[..i + 1][..i] == users[..i];
        PushRate(inbounds[tag].hub, nodeLimit, users[i]);
      }
      assert users[..|users|] == users;
    }

    method PushRate(hub: map<Email, Bucket>, nodeLimit: nat, u: UserInfo)
      modifies if u.email in hub then {hub[u.email]} else {}
      ensures u.email in hub ==> Left(hub[u.email], true, DetermineRate(nodeLimit, u.speedLimit))
    {
      var limit := DetermineRate(nodeLimit, u.speedLimit);
      if limit > 0 && u.email in hub {
        hub[u.email].limit := Limited(limit);
        hub[u.email].burst := CalcBurst(limit);
      }
    }

    method UpdateInboundLimiter(tag: Tag, users: seq<UserInfo>)
      requires Valid()
      modifies this`inbounds, Buckets()
      ensures Valid()
      ensures inbounds == if tag in old(inbounds)
                          then old(inbounds)[tag :=
                                 old(inbounds[tag]).(users := Store(old(inbounds[tag].users), users))]
                          else old(inbounds)[tag := Inbound(0, Store(map[], users), map[], map[])]
      ensures forall t, e | old(Has(t, e)) ::
                Has(t, e) && At(t, e) == old(At(t, e))
                && Left(old(At(t, e)), t == tag, Pushed(old(inbounds[t].nodeLimit), users, e))
    {
      if tag !in inbounds {
        AddInboundLimiter(tag, 0, users);
        return;
      }
      var info := inbounds[tag];
      for i := 0 to |users|
        invariant Valid() && Buckets() == old(Buckets())
        invariant inbounds == old(inbounds)[tag := info.(users := Store(info.users, users[..i]))]
        invariant forall t, e :: Has(t, e) <==> old(Has(t, e))
        invariant forall t, e | Has(t, e) :: At(t, e) == old(At(t, e))
        invariant forall t, e | Has(t, e) :: Left(At(t, e), t == tag, Pushed(info.nodeLimit, users[..i], e))
      {
        assert users[..i + 1][..i] == users[..i];
        StoreAndPush(tag, users[i]);
      }
      assert users[..|users|] == users;
    }

    /** Stores one user and writes the rate into the user's bucket. */
    method StoreAndPush(tag: Tag, u: UserInfo)
      requires Valid() && tag in inbounds
      modifies this`inbounds, Buckets()
      ensures Valid() && Buckets() == old(Buckets())
      ensures inbounds == old(inbounds)[tag :=
                old(inbounds[tag]).(users := old(inbounds[tag].users)[(u.email, u.uid) := u])]
      ensures forall t, e :: Has(t, e) <==> old(Has(t, e))
      ensures forall t, e | Has(t, e) :: At(t, e) == old(At(t, e))
      ensures forall t, e | Has(t, e) ::
                Left(At(t, e), t == tag && e == u.email, DetermineRate(inbounds[tag].nodeLimit, u.speedLimit))
    {
      var info := inbounds[tag];
      Exchange(tag, info.(users := info.users[(u.email, u.uid) := u]));
      PushRate(info.hub, info.nodeLimit, u);
    }

    /** The limit of some configured entry of the email, or 0 without one. */
    method FindSpeed(users: Users, email: Email) returns (speed: nat, found: bool)
      ensures found <==> exists k | k in users :: k.0 == email
      ensures found ==> exists k | k in users :: k.0 == email && speed == users[k].speedLimit
      ensures !found ==> speed == 0
    {
      if k :| k in users && k.0 == email {
        return users[k].speedLimit, true;
      }
      return 0, false;
    }

    /** The bucket a new connection gets: the one in the hub, or a new one at the static rate.
        Every known inbound yields a bucket, an unlimited one if need be. */
    method GetUserBucket(tag: Tag, email: Email, ip: Ip) returns (bucket: Bucket?, hasLimit: bool)
      requires Valid()
      modifies this`inbounds
      ensures Valid()
      ensures hasLimit <==> bucket != null
      ensures bucket != null <==> tag in old(inbounds)
      ensures bucket == null ==> inbounds == old(inbounds)
      ensures bucket != null ==>
                var inb := old(inbounds[tag]);
                inbounds == old(inbounds)[tag := inb.(
                  hub := inb.hub[email := bucket],
                  online := inb.online[email := (if email in inb.online then inb.online[email] else {}) + {ip}])]
      ensures bucket != null && old(Has(tag, email)) ==> bucket == old(At(tag, email))
      ensures bucket != null && !old(Has(tag, email)) ==>
                fresh(bucket) && exists r :: OwnRate(old(inbounds[tag]), email, r) && bucket.RunsAt(r)
    {
      if tag !in inbounds {
        return null, false;
      }
      var info := inbounds[tag];
      var userLimit, found := FindSpeed(info.users, email);
      var ips := if email in info.online then info.online[email] else {};
      var limit := DetermineRate(info.nodeLimit, userLimit);
      assert OwnRate(info, email, limit);
      var held: Bucket;
      ghost var before := Buckets();
      if email in info.hub {
        held := info.hub[email];
      } else if limit > 0 {
        held := new Bucket(Limited(limit), CalcBurst(limit));
      } else {
        held := new Bucket(Unlimited, MAX_INT);
      }
      var next := info.(hub := info.hub[email := held], online := info.online[email := ips + {ip}]);
      forall t, e | t in inbounds && e in inbounds[t].hub ensures inbounds[t].hub[e] in before {}
      InsertKeepsDistinct(inbounds, tag, email, held, next);
      inbounds := inbounds[tag := next];
      bucket, hasLimit := held, true;
    }

    /** Reports who is online, forgets it, and drops the buckets of users who are neither
        online nor limited automatically. */
    method GetOnlineUsers(tag: Tag) returns (result: map<Email, set<Ip>>)
      requires Valid()
      modifies this`inbounds
      ensures Valid()
      ensures tag !in old(inbounds) ==> result == map[] && inbounds == old(inbounds)
      ensures tag in old(inbounds) ==>
                var inb := old(inbounds[tag]);
                && result == (map e | e in inb.online && inb.online[e] != {} :: inb.online[e])
                && inbounds == old(inbounds)[tag := inb.(
                     hub := map e | e in inb.hub && (e in inb.online || e in autoLimited) :: inb.hub[e],
                     online := map[])]
    {
      if tag !in inbounds {
        return map[];
      }
      var info := inbounds[tag];
      result := map e | e in info.online && info.online[e] != {} :: info.online[e];
      var hub := map e | e in info.hub && (e in info.online || e in autoLimited) :: info.hub[e];
      inbounds := inbounds[tag := info.(hub := hub, online := map[])];
      assert forall t, e :: Has(t, e) ==> old(Has(t, e)) && At(t, e) == old(At(t, e));
    }

    /** Overrides the rate of a user in the bucket the hub holds, or, with 0, puts the static
        rate back into that same bucket. */
    method SetUserSpeed(tag: Tag, email: Email, speed: nat)
      requires Valid()
      modifies this, Buckets()
      ensures Valid()
      ensures autoLimited == if tag !in old(inbounds) then old(autoLimited)
                             else if speed > 0 then old(autoLimited) + {email} else old(autoLimited) - {email}
      ensures tag !in old(inbounds) || (speed == 0 && !old(Has(tag, email))) ==> inbounds == old(inbounds)
      ensures forall t, e | old(Has(t, e)) :: Has(t, e) && At(t, e) == old(At(t, e))
      ensures forall t, e | old(Has(t, e)) && (t, e) != (tag, email) :: unchanged(old(At(t, e)))
      ensures tag in old(inbounds) && speed > 0 ==>
                Has(tag, email) && At(tag, email).RunsAt(speed)
                && inbounds == old(inbounds)[tag :=
                     old(inbounds[tag]).(hub := old(inbounds[tag].hub)[email := At(tag, email)])]
                && (!old(Has(tag, email)) ==> fresh(At(tag, email)))
      ensures old(Has(tag, email)) && speed == 0 ==>
                inbounds == old(inbounds) && exists r :: OwnRate(inbounds[tag], email, r) && At(tag, email).RunsAt(r)
    {
      if tag !in inbounds {
        return;
      }
      var info := inbounds[tag];
      if speed > 0 {
        autoLimited := autoLimited + {email};
        if email in info.hub {
          assert Has(tag, email);
          info.hub[email].limit := Limited(speed);
          info.hub[email].burst := CalcBurst(speed);
          assert info.hub == info.hub[email := info.hub[email]];
          assert inbounds == inbounds[tag := info];
        } else {
          ghost var before := Buckets();
          var bucket := new Bucket(Limited(speed), CalcBurst(speed));
          var next := info.(hub := info.hub[email := bucket]);
          forall t, e | t in inbounds && e in inbounds[t].hub ensures inbounds[t].hub[e] in before {}
          InsertKeepsDistinct(inbounds, tag, email, bucket, next);
          inbounds := inbounds[tag := next];
        }
      } else {
        autoLimited := autoLimited - {email};
        var userLimit, found := FindSpeed(info.users, email);
        var orig := DetermineRate(info.nodeLimit, userLimit);
        assert OwnRate(info, email, orig);
        if email in info.hub {
          assert Has(tag, email);
          if orig > 0 {
            info.hub[email].limit := Limited(orig);
            info.hub[email].burst := CalcBurst(orig);
          } else {
            info.hub[email].limit := Unlimited;
            info.hub[email].burst := MAX_INT;
          }
          assert At(tag, email).RunsAt(orig);
        }
      }
    }

    /** The bucket of an email on whichever inbound limits that user, the inbounds scanned in
        an unspecified order. */
    method LookupBucketByEmail(email: Email) returns (bucket: Bucket?, ghost on: Tag)
      requires Valid()
      modifies this`inbounds
      ensures Valid()
      ensures bucket == null ==> inbounds == old(inbounds)
      ensures bucket != null ==>
                && on in old(inbounds)
                && (exists k | k in old(inbounds[on].users) ::
                      k.0 == email && old(inbounds[on].users)[k].speedLimit > 0)
                && inbounds == old(inbounds)[on := old(inbounds[on]).(hub := old(inbounds[on].hub)[email := bucket])]
                && (old(Has(on, email)) ==> bucket == old(At(on, email)))
                && (!old(Has(on, email)) ==>
                      fresh(bucket) && exists r :: OwnRate(old(inbounds[on]), email, r) && bucket.RunsAt(r))
      ensures bucket == null && email != "" ==>
                forall t | t in inbounds :: MayPass(inbounds[t].users, email)
    {
      on := "";
      if email == "" {
        return null, on;
      }
      var rest := inbounds.Keys;
      while rest != {}
        invariant rest <= inbounds.Keys
        invariant inbounds == old(inbounds)
        invariant forall t | t in inbounds.Keys - rest :: MayPass(inbounds[t].users, email)
        decreases rest
      {
        var t :| t in rest;
        rest := rest - {t};
        var info := inbounds[t];
        var userLimit, found := FindSpeed(info.users, email);
        if userLimit > 0 {
          var limit := DetermineRate(info.nodeLimit, userLimit);
          assert OwnRate(info, email, limit);
          var held: Bucket;
          ghost var before := Buckets();
          if email in info.hub {
            held := info.hub[email];
          } else {
            held := new Bucket(Limited(limit), CalcBurst(limit));
          }
          var next := info.(hub := info.hub[email := held]);
          forall t', e | t' in inbounds && e in inbounds[t'].hub ensures inbounds[t'].hub[e] in before {}
          InsertKeepsDistinct(inbounds, t, email, held, next);
          inbounds := inbounds[t := next];
          return held, t;
        }
      }
      return null, on;
    }
  }

  /** A lookup may find no limit for the email: it has no entry, or one without a limit.  With
      one entry at most this says that no entry limits it. */
  ghost predicate MayPass(users: Users, email: Email) {
    (exists k | k in users :: k.0 == email) ==> exists k | k in users :: k.0 == email && users[k].speedLimit == 0
  }
}
