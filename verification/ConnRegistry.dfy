/** internal/limiter/limiter.go: the registry of live connections by group, from which a whole
    group can be cut.  A group's set object is exchanged when the group is cut or drained, so
    whether a late cleanup meets the set it was issued by is a matter of object identity.
    Each method is taken as one step. */
module ConnRegistry {

  type Group = string

  /** A connection's interrupt function, named by the connection. */
  type Conn = nat

  class KickerSet {
    ghost const group: Group
    var next: nat
    var all: map<nat, Conn>

    constructor (ghost group: Group)
      ensures this.group == group && next == 0 && all == map[]
    {
      this.group, next, all := group, 0, map[];
    }
  }

  /** What a caller keeps to undo TrackConn: the set it was put into and its id there. */
  datatype Handle = Nothing | Tracked(group: Group, kickers: KickerSet, id: nat)

  /** called lists the connections of the handles in order, none of them twice. */
  ghost predicate CallsOnce(called: seq<Conn>, order: seq<Handle>, issued: map<Handle, Conn>) {
    && |order| == |called|
    && (forall i | 0 <= i < |order| :: order[i] in issued && called[i] == issued[order[i]])
    && (forall i, j | 0 <= i < j < |order| :: order[i] != order[j])
  }

  lemma CallsAppend(called: seq<Conn>, order: seq<Handle>, called': seq<Conn>, order': seq<Handle>,
                    issued: map<Handle, Conn>)
    requires CallsOnce(called, order, issued) && CallsOnce(called', order', issued)
    requires forall h | h in order' :: h !in order
    ensures CallsOnce(called + called', order + order', issued)
    ensures forall h :: h in order + order' <==> h in order || h in order'
  {
    forall i, j | 0 <= i < |order| && 0 <= j < |order'| ensures order[i] != order'[j] {
      assert order[i] in order && order'[j] in order';
    }
  }

  class Registry {
    var sets: map<Group, KickerSet>
    ghost var made: set<KickerSet>         // every set object ever created
    ghost var issued: map<Handle, Conn>    // every handle ever given out, with its connection
    ghost var live: set<Handle>            // the handles tracked, neither cleaned up nor cut since

    ghost predicate SetsValid()
      reads this, made
    {
      forall g | g in sets :: sets[g] in made && sets[g].group == g
    }

    ghost predicate IssuedValid()
      reads this, made
    {
      forall h | h in issued :: h.Tracked? && h.kickers in made && h.group == h.kickers.group && h.id <= h.kickers.next
    }

    /** A live handle is held by the set that is registered for its group. */
    ghost predicate LiveValid()
      reads this, made
    {
      forall h | h in live ::
        && h in issued && h.Tracked? && h.kickers in made
        && h.group in sets && sets[h.group] == h.kickers
        && h.id in h.kickers.all && h.kickers.all[h.id] == issued[h]
    }

    /** Nothing but live handles is held by any set. */
    ghost predicate HeldIsLive()
      reads this, made
    {
      forall k, i | k in made && i in k.all :: Tracked(k.group, k, i) in live
    }

    ghost predicate Valid()
      reads this, made
    {
      SetsValid() && IssuedValid() && LiveValid() && HeldIsLive()
    }

    constructor ()
      ensures Valid() && live == {} && issued == map[] && made == {}
    {
      sets, made, issued, live := map[], {}, map[], {};
    }

    method SetFor(group: Group) returns (kickers: KickerSet)
      requires Valid()
      modifies this`sets, this`made
      ensures Valid() && made >= old(made) && fresh(made - old(made))
      ensures group in sets && sets[group] == kickers
    {
      if group !in sets {
        var created := new KickerSet(group);
        sets := sets[group := created];
        made := made + {created};
      }
      kickers := sets[group];
    }

    /** Tracks one connection under a handle never issued before. */
    method TrackConn(group: Group, conn: Conn) returns (h: Handle)
      requires Valid()
      modifies this, made
      ensures Valid() && made >= old(made) && fresh(made - old(made))
      ensures group == "" ==> h == Nothing && issued == old(issued) && live == old(live)
      ensures group != "" ==>
                && h.Tracked? && h.group == group && h !in old(issued)
                && issued == old(issued)[h := conn]
                && live == old(live) + {h}
    {
      if group == "" {
        return Nothing;
      }
      var kickers := SetFor(group);
      h := Put(kickers, group, conn);
    }

    method Put(kickers: KickerSet, group: Group, conn: Conn) returns (h: Handle)
      requires Valid() && group in sets && sets[group] == kickers
      modifies this`issued, this`live, kickers
      ensures Valid()
      ensures h.Tracked? && h.group == group && h !in old(issued)
      ensures issued == old(issued)[h := conn]
      ensures live == old(live) + {h}
    {
      kickers.next := kickers.next + 1;
      var id := kickers.next;
      h := Tracked(group, kickers, id);
      assert h !in issued;
      kickers.all := kickers.all[id := conn];
      issued := issued[h := conn];
      live := live + {h};
      assert SetsValid() && IssuedValid();
    }

    /** The cleanup TrackConn returns.  It removes its own connection and no other, even when
        the group has been cut and tracked anew in the meantime. */
    method Cleanup(h: Handle)
      requires Valid() && (h == Nothing || h in issued)
      modifies this`sets, this`live, made
      ensures Valid()
      ensures live == old(live) - {h}
    {
      if h == Nothing {
        return;
      }
      Take(h);
      if h.kickers.all == map[] && h.group in sets && sets[h.group] == h.kickers {
        assert forall x | x in live :: x.group in sets && sets[x.group] == x.kickers && x.id in x.kickers.all;
        assert forall x | x in live :: x.group != h.group;
        sets := sets - {h.group};
      }
    }

    method Take(h: Handle)
      requires Valid() && h in issued
      modifies this`live, h.kickers
      ensures Valid() && h.kickers.next == old(h.kickers.next)
      ensures live == old(live) - {h}
    {
      h.kickers.all := h.kickers.all - {h.id};
      live := live - {h};
    }

    /** Cuts a group: calls each of its live connections exactly once, and no other. */
    method KickConnGroup(group: Group) returns (called: seq<Conn>, ghost order: seq<Handle>)
      requires Valid()
      modifies this`sets, this`live, made
      ensures Valid()
      ensures CallsOnce(called, order, issued)
      ensures forall h :: h in order <==> h in old(live) && h.group == group
      ensures live == old(live) - (set h | h in order)
    {
      called, order := [], [];
      if group !in sets {
        return;
      }
      var kickers := sets[group];
      var all := kickers.all;
      called, order := CallAll(group, kickers, all);
      forall h ensures h in order <==> h in live && h.group == group {
        if h in order {
          assert h == Tracked(group, kickers, h.id);
        }
      }
      Drop(group, order);
    }

    /** Forgets a group whose live connections were all called. */
    method Drop(group: Group, ghost order: seq<Handle>)
      requires Valid() && group in sets
      requires forall h :: h in order <==> h in live && h.group == group
      modifies this`sets, this`live, sets[group]
      ensures Valid()
      ensures live == old(live) - (set h | h in order)
    {
      var kickers := sets[group];
      sets := sets - {group};
      kickers.all := map[];
      live := live - (set h | h in order);
    }

    /** The calls, in the unspecified order of a map. */
    static method CallAll(group: Group, kickers: KickerSet, all: map<nat, Conn>)
      returns (called: seq<Conn>, ghost order: seq<Handle>)
      ensures |order| == |called|
      ensures forall i | 0 <= i < |order| ::
                order[i].Tracked? && order[i].id in all && called[i] == all[order[i].id]
                && order[i] == Tracked(group, kickers, order[i].id)
      ensures forall i, j | 0 <= i < j < |order| :: order[i] != order[j]
      ensures forall id | id in all :: Tracked(group, kickers, id) in order
    {
      called, order := [], [];
      var rest := all.Keys;
      while rest != {}
        invariant rest <= all.Keys
        invariant |order| == |called|
        invariant forall i | 0 <= i < |order| ::
                    order[i].Tracked? && order[i] == Tracked(group, kickers, order[i].id)
                    && order[i].id in all.Keys - rest && called[i] == all[order[i].id]
        invariant forall i, j | 0 <= i < j < |order| :: order[i] != order[j]
        invariant forall id | id in all.Keys - rest :: Tracked(group, kickers, id) in order
        decreases rest
      {
        var id :| id in rest;
        rest := rest - {id};
        called := called + [all[id]];
        order := order + [Tracked(group, kickers, id)];
      }
    }
  }

  // ----- runs -----

  /** Clean(t) runs the cleanup that the t-th operation of the run, a Track, returned. */
  datatype Op = Track(group: Group, conn: Conn) | Clean(track: nat) | Kick(group: Group)

  /** Just before operation k the connection tracked by operation t is tracked still: it has
      been neither cleaned up nor cut since. */
  predicate LiveAt(ops: seq<Op>, t: nat, k: nat) {
    && t < k <= |ops| && ops[t].Track? && ops[t].group != ""
    && forall j | t < j < k :: ops[j] != Clean(t) && ops[j] != Kick(ops[t].group)
  }

  /** Operation k calls the connection that operation t tracked. */
  predicate CalledAt(ops: seq<Op>, t: nat, k: nat) {
    k < |ops| && LiveAt(ops, t, k) && ops[k] == Kick(ops[t].group)
  }

  /** Some cut of the group follows operation t with no cleanup of its connection before it. */
  predicate CutBeforeCleaned(ops: seq<Op>, t: nat)
    requires t < |ops| && ops[t].Track?
  {
    exists k | t < k < |ops| :: ops[k] == Kick(ops[t].group) && forall j | t < j < k :: ops[j] != Clean(t)
  }

  /** A connection is called at most once, and not after its cleanup. */
  lemma CalledOnce(ops: seq<Op>, t: nat, k: nat)
    requires CalledAt(ops, t, k)
    ensures forall k': nat | CalledAt(ops, t, k') :: k' == k
    ensures forall j | t < j < k :: ops[j] != Clean(t)
  {}

  lemma {:induction false} FirstCut(ops: seq<Op>, t: nat, k: nat) returns (first: nat)
    requires t < k < |ops| && ops[t].Track? && ops[t].group != "" && ops[k] == Kick(ops[t].group)
    requires forall j | t < j < k :: ops[j] != Clean(t)
    ensures CalledAt(ops, t, first)
  {
    if j :| t < j < k && ops[j] == Kick(ops[t].group) {
      first := FirstCut(ops, t, j);
    } else {
      first := k;
    }
  }

  /** A tracked connection is called during the run exactly when its group is cut at least once
      before its cleanup. */
  lemma CalledIff(ops: seq<Op>, t: nat)
    requires t < |ops| && ops[t].Track? && ops[t].group != ""
    ensures (exists k: nat :: CalledAt(ops, t, k)) <==> CutBeforeCleaned(ops, t)
  {
    if k: nat :| CalledAt(ops, t, k) {
      assert ops[k] == Kick(ops[t].group);
    }
    if CutBeforeCleaned(ops, t) {
      var k :| t < k < |ops| && ops[k] == Kick(ops[t].group) && forall j | t < j < k :: ops[j] != Clean(t);
      var first := FirstCut(ops, t, k);
    }
  }

  /** What was called at operation k: the connections tracked by the operations in who. */
  ghost predicate CallsAt(ops: seq<Op>, k: nat, called: seq<Conn>, who: seq<nat>) {
    && |called| == |who|
    && (forall t: nat :: t in who <==> CalledAt(ops, t, k))
    && (forall i | 0 <= i < |who| :: CalledAt(ops, who[i], k) && called[i] == ops[who[i]].conn)
    && (forall i, j | 0 <= i < j < |who| :: who[i] != who[j])
  }

  predicate Tracks(op: Op) {
    op.Track? && op.group != ""
  }

  lemma LiveStep(ops: seq<Op>, t: nat, n: nat)
    requires t <= n < |ops| && Tracks(ops[t])
    ensures LiveAt(ops, t, n + 1)
            <==> t == n || (LiveAt(ops, t, n) && ops[n] != Clean(t) && ops[n] != Kick(ops[t].group))
  {}

  /** The handles the first n operations returned name the registry's connections, and those
      live in it are those the operations leave live. */
  ghost predicate Named(handles: seq<Handle>, issued: map<Handle, Conn>, ops: seq<Op>, n: nat) {
    && |handles| == n <= |ops|
    && (forall t | 0 <= t < n && !Tracks(ops[t]) :: handles[t] == Nothing)
    && (forall t | 0 <= t < n && Tracks(ops[t]) ::
          && handles[t] in issued && issued[handles[t]] == ops[t].conn
          && handles[t].Tracked? && handles[t].group == ops[t].group)
    && (forall t, u | 0 <= t < u < n && handles[t] == handles[u] :: handles[t] == Nothing)
    && (forall h | h in issued :: h in handles)
  }

  ghost predicate LiveAgrees(handles: seq<Handle>, live: set<Handle>, ops: seq<Op>, n: nat) {
    && |handles| == n <= |ops|
    && (forall t | 0 <= t < n && Tracks(ops[t]) :: handles[t] in live <==> LiveAt(ops, t, n))
  }

  ghost function PositionOf(handles: seq<Handle>, h: Handle): (t: nat)
    requires h in handles
    ensures t < |handles| && handles[t] == h
  {
    var t :| 0 <= t < |handles| && handles[t] == h;
    t
  }

  /** A tracking operation adds its own handle, under a name never given before. */
  lemma NamedMore(handles: seq<Handle>, issued: map<Handle, Conn>, live: set<Handle>, ops: seq<Op>, n: nat, h: Handle)
    requires Named(handles, issued, ops, n) && LiveAgrees(handles, live, ops, n)
    requires n < |ops| && Tracks(ops[n])
    requires h.Tracked? && h.group == ops[n].group && h !in issued
    ensures Named(handles + [h], issued[h := ops[n].conn], ops, n + 1)
    ensures LiveAgrees(handles + [h], live + {h}, ops, n + 1)
  {
    assert (handles + [h])[n] == h;
    forall t | 0 <= t <= n && Tracks(ops[t]) ensures (handles + [h])[t] in live + {h} <==> LiveAt(ops, t, n + 1) {
      LiveStep(ops, t, n);
    }
  }

  /** An operation that issues no handle. */
  lemma NamedSame(handles: seq<Handle>, issued: map<Handle, Conn>, live: set<Handle>, live': set<Handle>,
                  ops: seq<Op>, n: nat)
    requires Named(handles, issued, ops, n) && LiveAgrees(handles, live, ops, n)
    requires n < |ops| && !Tracks(ops[n])
    requires forall t | 0 <= t < n && Tracks(ops[t]) ::
               handles[t] in live' <==> handles[t] in live && ops[n] != Clean(t) && ops[n] != Kick(ops[t].group)
    ensures Named(handles + [Nothing], issued, ops, n + 1)
    ensures LiveAgrees(handles + [Nothing], live', ops, n + 1)
  {
    forall t | 0 <= t <= n && Tracks(ops[t])
      ensures (handles + [Nothing])[t] in live' <==> LiveAt(ops, t, n + 1)
    {
      LiveStep(ops, t, n);
    }
  }

  method DoTrack(r: Registry, ops: seq<Op>, n: nat, handles: seq<Handle>) returns (handles': seq<Handle>)
    requires r.Valid() && Named(handles, r.issued, ops, n) && LiveAgrees(handles, r.live, ops, n)
    requires n < |ops| && ops[n].Track?
    modifies r, r.made
    ensures r.Valid() && r.made >= old(r.made) && fresh(r.made - old(r.made))
    ensures Named(handles', r.issued, ops, n + 1) && LiveAgrees(handles', r.live, ops, n + 1)
  {
    ghost var issued, live := r.issued, r.live;
    var h := r.TrackConn(ops[n].group, ops[n].conn);
    handles' := handles + [h];
    hide Named, LiveAgrees, Registry.Valid;
    if Tracks(ops[n]) {
      NamedMore(handles, issued, live, ops, n, h);
    } else {
      NamedSame(handles, issued, live, live, ops, n);
    }
  }

  method DoClean(r: Registry, ops: seq<Op>, n: nat, handles: seq<Handle>) returns (handles': seq<Handle>)
    requires r.Valid() && Named(handles, r.issued, ops, n) && LiveAgrees(handles, r.live, ops, n)
    requires n < |ops| && ops[n].Clean?
    modifies r`sets, r`live, r.made
    ensures r.Valid()
    ensures Named(handles', r.issued, ops, n + 1) && LiveAgrees(handles', r.live, ops, n + 1)
  {
    ghost var live := r.live;
    var t := ops[n].track;
    if t < |handles| {
      r.Cleanup(handles[t]);
    }
    handles' := handles + [Nothing];
    NamedSame(handles, r.issued, live, r.live, ops, n);
  }

  method DoKick(r: Registry, ops: seq<Op>, n: nat, handles: seq<Handle>)
    returns (handles': seq<Handle>, called: seq<Conn>, ghost who: seq<nat>)
    requires r.Valid() && Named(handles, r.issued, ops, n) && LiveAgrees(handles, r.live, ops, n)
    requires n < |ops| && ops[n].Kick?
    modifies r`sets, r`live, r.made
    ensures r.Valid()
    ensures Named(handles', r.issued, ops, n + 1) && LiveAgrees(handles', r.live, ops, n + 1)
    ensures CallsAt(ops, n, called, who)
  {
    ghost var live := r.live;
    ghost var order;
    called, order := r.KickConnGroup(ops[n].group);
    handles' := handles + [Nothing];
    NamedSame(handles, r.issued, live, r.live, ops, n);
    who := Callers(r, ops, n, handles, live, called, order);
  }

  /** The operations whose connections a cut called, from the handles it called. */
  lemma Callers(r: Registry, ops: seq<Op>, n: nat, handles: seq<Handle>, live: set<Handle>,
                called: seq<Conn>, order: seq<Handle>) returns (who: seq<nat>)
    requires Named(handles, r.issued, ops, n) && LiveAgrees(handles, live, ops, n)
    requires n < |ops| && ops[n].Kick? && CallsOnce(called, order, r.issued)
    requires forall h :: h in order <==> h in live && h.Tracked? && h.group == ops[n].group
    ensures CallsAt(ops, n, called, who)
  {
    who := seq(|order|, i requires 0 <= i < |order| => PositionOf(handles, order[i]));
    forall i | 0 <= i < |who| ensures Tracks(ops[who[i]]) && handles[who[i]] == order[i] {
      assert order[i] in order;
    }
    forall t: nat ensures t in who <==> CalledAt(ops, t, n) {
      if t in who {
        var i :| 0 <= i < |who| && who[i] == t;
        assert order[i] in order;
      }
      if CalledAt(ops, t, n) {
        assert handles[t] in order;
        var i :| 0 <= i < |order| && order[i] == handles[t];
        assert who[i] == t;
      }
    }
  }

  /** CallsAt for each of the first n operations. */
  ghost predicate CallsAll(ops: seq<Op>, n: nat, calls: seq<seq<Conn>>, who: seq<seq<nat>>) {
    |calls| == |who| == n <= |ops| && forall k | 0 <= k < n :: CallsAt(ops, k, calls[k], who[k])
  }

  lemma CallsMore(ops: seq<Op>, n: nat, calls: seq<seq<Conn>>, who: seq<seq<nat>>, called: seq<Conn>, more: seq<nat>)
    requires CallsAll(ops, n, calls, who) && n < |ops| && CallsAt(ops, n, called, more)
    ensures CallsAll(ops, n + 1, calls + [called], who + [more])
  {
    hide CallsAt;
  }

  method Do(r: Registry, ops: seq<Op>, n: nat, handles: seq<Handle>)
    returns (handles': seq<Handle>, called: seq<Conn>, ghost who: seq<nat>)
    requires r.Valid() && Named(handles, r.issued, ops, n) && LiveAgrees(handles, r.live, ops, n)
    requires n < |ops|
    modifies r, r.made
    ensures r.Valid() && r.made >= old(r.made) && fresh(r.made - old(r.made))
    ensures Named(handles', r.issued, ops, n + 1) && LiveAgrees(handles', r.live, ops, n + 1)
    ensures CallsAt(ops, n, called, who)
  {
    called, who := [], [];
    match ops[n] {
      case Track(_, _) => handles' := DoTrack(r, ops, n, handles);
      case Clean(_) => handles' := DoClean(r, ops, n, handles);
      case Kick(_) => handles', called, who := DoKick(r, ops, n, handles);
    }
  }

  /** Over any run of tracking, cleaning up (any handle, early, late or repeatedly) and cutting:
      each operation calls exactly the connections CalledAt says, each once, and the registry
      is left tracking exactly the connections the run leaves live. */
  method RunAll(r: Registry, ops: seq<Op>)
    returns (calls: seq<seq<Conn>>, ghost who: seq<seq<nat>>, handles: seq<Handle>)
    requires r.Valid() && r.live == {} && r.issued == map[]
    modifies r, r.made
    ensures r.Valid()
    ensures CallsAll(ops, |ops|, calls, who)
    ensures Named(handles, r.issued, ops, |ops|) && LiveAgrees(handles, r.live, ops, |ops|)
  {
    calls, who, handles := [], [], [];
    assert Named(handles, r.issued, ops, 0) && LiveAgrees(handles, r.live, ops, 0);
    assert CallsAll(ops, 0, calls, who);
    hide Named, LiveAgrees, CallsAll, CallsAt, Registry.Valid;
    for n := 0 to |ops|
      invariant r.Valid() && r.made >= old(r.made) && fresh(r.made - old(r.made))
      invariant CallsAll(ops, n, calls, who)
      invariant Named(handles, r.issued, ops, n) && LiveAgrees(handles, r.live, ops, n)
    {
      var called;
      ghost var more;
      handles, called, more := Do(r, ops, n, handles);
      CallsMore(ops, n, calls, who, called, more);
      calls, who := calls + [called], who + [more];
    }
  }

  /** Cutting the groups a configuration sync removed: every live connection of those groups is
      called exactly once, every other connection stays live and uncalled. */
  method KickRemoved(r: Registry, removed: set<Group>) returns (called: seq<Conn>, ghost order: seq<Handle>)
    requires r.Valid()
    modifies r`sets, r`live, r.made
    ensures r.Valid()
    ensures CallsOnce(called, order, r.issued)
    ensures forall h :: h in order <==> h in old(r.live) && h.Tracked? && h.group in removed
    ensures r.live == old(r.live) - (set h | h in order)
  {
    called, order := [], [];
    var rest := removed;
    while rest != {}
      invariant r.Valid() && rest <= removed
      invariant CallsOnce(called, order, r.issued)
      invariant forall h :: h in order <==> h in old(r.live) && h.Tracked? && h.group in removed - rest
      invariant r.live == old(r.live) - (set h | h in order)
      decreases rest
    {
      var g :| g in rest;
      rest := rest - {g};
      var more, moreOrder := r.KickConnGroup(g);
      CallsAppend(called, order, more, moreOrder, r.issued);
      called, order := called + more, order + moreOrder;
    }
  }
}
