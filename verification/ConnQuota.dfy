/** Connection leases: AcquireConn and ReleaseConn of internal/limiter/limiter.go as the
    dispatcher uses them.  The counters are shared by all connections of a group and changed by
    single atomic operations; the attempts interleave between any two of them. */
module ConnQuota {

  type Id = nat
  type Group = string
  type Email = string

  /** Where one connection attempt is between two atomic operations. */
  datatype Phase =
    | Found        // configuration looked up, nothing counted yet
    | Over         // counted above the limit, about to take itself back
    | Undone       // taken back, about to be reported
    | Refused      // the connection was cut
    | Fits         // counted within the limit, about to enter the node statistics
    | Granted      // the lease is held
    | ClampQuota   // the quota counter went below zero, about to be set to zero
    | LeaveStat    // released from the quota, about to leave the statistics
    | ClampStat    // the statistics counter went below zero, about to be set to zero
    | Closed

  datatype Attempt = Attempt(email: Email, group: Group, statGroup: Group, limit: int, phase: Phase)

  datatype State = State(
    quota: map<Group, int>,
    stats: map<Group, int>,
    kicks: map<Email, int>,
    attempts: map<Id, Attempt>)

  const INITIAL := State(map[], map[], map[], map[])

  function Get(m: map<string, int>, k: string): int {
    if k in m then m[k] else 0
  }

  function Bump(m: map<string, int>, k: string, d: int): map<string, int> {
    m[k := Get(m, k) + d]
  }

  /** Begin looks the user up; Go lets an attempt do its next atomic operation; Close ends the
      connection of a held lease, which the dispatcher does once per lease. */
  datatype Event =
    | Begin(id: Id, email: Email, group: Group, statGroup: Group, limit: int)
    | Go(id: Id)
    | Close(id: Id)

  function To(s: State, id: Id, p: Phase): State
    requires id in s.attempts
  {
    s.(attempts := s.attempts[id := s.attempts[id].(phase := p)])
  }

  /** The next atomic operation of an attempt on the shared counters, and the phase after it. */
  function Operation(s: State, a: Attempt): (r: (State, Phase))
    ensures r.0.attempts == s.attempts
  {
    match a.phase
    case Found =>
      var n := Get(s.quota, a.group) + 1;
      (s.(quota := Bump(s.quota, a.group, 1)), if a.limit > 0 && n > a.limit then Over else Fits)
    case Over => (s.(quota := Bump(s.quota, a.group, -1)), Undone)
    case Undone => (s.(kicks := Bump(s.kicks, a.email, 1)), Refused)
    case Fits => (s.(stats := Bump(s.stats, a.statGroup, 1)), Granted)
    case ClampQuota => (s.(quota := s.quota[a.group := 0]), LeaveStat)
    case LeaveStat =>
      var n := Get(s.stats, a.statGroup) - 1;
      (s.(stats := Bump(s.stats, a.statGroup, -1)), if n < 0 then ClampStat else Closed)
    case ClampStat => (s.(stats := s.stats[a.statGroup := 0]), Closed)
    case _ => (s, a.phase)
  }

  /** The first operation of a release. */
  function Release(s: State, a: Attempt): (r: (State, Phase))
    ensures r.0.attempts == s.attempts
  {
    if a.phase == Granted then
      var n := Get(s.quota, a.group) - 1;
      (s.(quota := Bump(s.quota, a.group, -1)), if n < 0 then ClampQuota else LeaveStat)
    else (s, a.phase)
  }

  function Step(s: State, e: Event): State {
    match e
    case Begin(id, email, group, statGroup, limit) =>
      if id in s.attempts then s
      else s.(attempts := s.attempts[id := Attempt(email, group, statGroup, limit, Found)])
    case Go(id) =>
      if id !in s.attempts then s
      else var (t, p) := Operation(s, s.attempts[id]); To(t, id, p)
    case Close(id) =>
      if id !in s.attempts then s
      else var (t, p) := Release(s, s.attempts[id]); To(t, id, p)
  }

  function Run(events: seq<Event>): State {
    if events == [] then INITIAL
    else Step(Run(events[..|events| - 1]), events[|events| - 1])
  }

  // ----- who is counted where -----

  /** Attempts of the group within the limit, granted or about to be. */
  function Live(s: State, g: Group): set<Id> {
    set i | i in s.attempts && s.attempts[i].group == g && (s.attempts[i].phase.Fits? || s.attempts[i].phase.Granted?)
  }

  /** Attempts of the group that counted themselves and have not taken themselves back yet. */
  function Undoing(s: State, g: Group): set<Id> {
    set i | i in s.attempts && s.attempts[i].group == g && s.attempts[i].phase == Over
  }

  /** Both of these: everyone the quota counter should count. */
  function Counted(s: State, g: Group): set<Id> {
    set i | i in s.attempts && s.attempts[i].group == g
            && (s.attempts[i].phase.Over? || s.attempts[i].phase.Fits? || s.attempts[i].phase.Granted?)
  }

  function InStats(s: State, g: Group): set<Id> {
    set i | i in s.attempts && s.attempts[i].statGroup == g
            && (s.attempts[i].phase.Granted? || s.attempts[i].phase.LeaveStat?)
  }

  function RefusedOf(s: State, e: Email): set<Id> {
    set i | i in s.attempts && s.attempts[i].email == e && s.attempts[i].phase == Refused
  }

  ghost predicate QuotaExact(s: State) {
    forall g: Group :: Get(s.quota, g) == |Counted(s, g)|
  }

  ghost predicate StatsExact(s: State) {
    forall g: Group :: Get(s.stats, g) == |InStats(s, g)|
  }

  ghost predicate KicksExact(s: State) {
    forall e: Email :: Get(s.kicks, e) == |RefusedOf(s, e)|
  }

  ghost predicate NeverClamping(s: State) {
    forall i | i in s.attempts :: s.attempts[i].phase != ClampQuota && s.attempts[i].phase != ClampStat
  }

  ghost predicate Inv(s: State) {
    QuotaExact(s) && StatsExact(s) && KicksExact(s) && NeverClamping(s)
  }

  function One(c: bool): int {
    if c then 1 else 0
  }

  /** Two sets that agree but for one element. */
  lemma SizeAfter(a: set<Id>, b: set<Id>, id: Id)
    requires forall i | i != id :: i in a <==> i in b
    ensures |b| == |a| - One(id in a) + One(id in b)
  {
    assert a - {id} == b - {id};
    assert |a - {id}| == |a| - One(id in a);
    assert |b - {id}| == |b| - One(id in b);
  }

  /** No attempt but one changed, and that one only in its phase, if it was there at all. */
  ghost predicate Moved(s: State, t: State, id: Id) {
    && id in t.attempts
    && (forall i | i != id :: i in t.attempts <==> i in s.attempts)
    && (forall i | i != id && i in s.attempts :: t.attempts[i] == s.attempts[i])
    && (id in s.attempts ==> s.attempts[id] == t.attempts[id].(phase := s.attempts[id].phase))
  }

  lemma LiveAfter(s: State, t: State, id: Id, k: string)
    requires Moved(s, t, id)
    ensures |Live(t, k)| == |Live(s, k)| - One(id in Live(s, k)) + One(id in Live(t, k))
  {
    assert forall i | i != id :: i in Live(s, k) <==> i in Live(t, k);
    SizeAfter(Live(s, k), Live(t, k), id);
  }

  lemma CountedAfter(s: State, t: State, id: Id, k: string)
    requires Moved(s, t, id)
    ensures |Counted(t, k)| == |Counted(s, k)| - One(id in Counted(s, k)) + One(id in Counted(t, k))
  {
    assert forall i | i != id :: i in Counted(s, k) <==> i in Counted(t, k);
    SizeAfter(Counted(s, k), Counted(t, k), id);
  }

  lemma InStatsAfter(s: State, t: State, id: Id, k: string)
    requires Moved(s, t, id)
    ensures |InStats(t, k)| == |InStats(s, k)| - One(id in InStats(s, k)) + One(id in InStats(t, k))
  {
    assert forall i | i != id :: i in InStats(s, k) <==> i in InStats(t, k);
    SizeAfter(InStats(s, k), InStats(t, k), id);
  }

  lemma RefusedAfter(s: State, t: State, id: Id, k: string)
    requires Moved(s, t, id)
    ensures |RefusedOf(t, k)| == |RefusedOf(s, k)| - One(id in RefusedOf(s, k)) + One(id in RefusedOf(t, k))
  {
    assert forall i | i != id :: i in RefusedOf(s, k) <==> i in RefusedOf(t, k);
    SizeAfter(RefusedOf(s, k), RefusedOf(t, k), id);
  }

  lemma CountedSplits(s: State, g: Group)
    ensures |Counted(s, g)| == |Live(s, g)| + |Undoing(s, g)|
  {
    assert Counted(s, g) == Live(s, g) + Undoing(s, g);
  }

  lemma ToMoves(s: State, t: State, id: Id, p: Phase)
    requires id in s.attempts && t.attempts == s.attempts
    ensures Moved(s, To(t, id, p), id)
  {}

  lemma StepMoves(s: State, e: Event)
    requires Step(s, e) != s
    ensures Moved(s, Step(s, e), e.id)
  {
    match e
    case Begin(_, _, _, _, _) =>
    case Go(id) =>
      var (t, p) := Operation(s, s.attempts[id]);
      hide Operation;
      ToMoves(s, t, id, p);
    case Close(id) =>
      var (t, p) := Release(s, s.attempts[id]);
      hide Release;
      ToMoves(s, t, id, p);
  }

  /** The clamps to zero are never reached: whoever releases was counted. */
  lemma StepNeverClamps(s: State, e: Event)
    requires Inv(s)
    ensures NeverClamping(Step(s, e))
  {
    if e.id in s.attempts {
      var a := s.attempts[e.id];
      assert a.phase == Granted ==> e.id in Counted(s, a.group);
      assert a.phase == LeaveStat ==> e.id in InStats(s, a.statGroup);
    }
  }

  /** Each step moves a counter by as much as it moves the attempt into or out of the phases
      that are counted. */
  lemma QuotaDelta(s: State, e: Event, k: string)
    requires NeverClamping(s) && NeverClamping(Step(s, e)) && Step(s, e) != s
    ensures var t := Step(s, e);
            Get(t.quota, k) - Get(s.quota, k) == One(e.id in Counted(t, k)) - One(e.id in Counted(s, k))
  {}

  lemma StatsDelta(s: State, e: Event, k: string)
    requires NeverClamping(s) && NeverClamping(Step(s, e)) && Step(s, e) != s
    ensures var t := Step(s, e);
            Get(t.stats, k) - Get(s.stats, k) == One(e.id in InStats(t, k)) - One(e.id in InStats(s, k))
  {}

  lemma KicksDelta(s: State, e: Event, k: string)
    requires Step(s, e) != s
    ensures var t := Step(s, e);
            Get(t.kicks, k) - Get(s.kicks, k) == One(e.id in RefusedOf(t, k)) - One(e.id in RefusedOf(s, k))
  {}

  lemma StepKeepsInv(s: State, e: Event)
    requires Inv(s)
    ensures Inv(Step(s, e))
  {
    var t := Step(s, e);
    StepNeverClamps(s, e);
    if t != s {
      StepMoves(s, e);
      forall k: string
        ensures Get(t.quota, k) == |Counted(t, k)| && Get(t.stats, k) == |InStats(t, k)|
        ensures Get(t.kicks, k) == |RefusedOf(t, k)|
      {
        hide Step, Counted, InStats, RefusedOf, Moved;
        QuotaDelta(s, e, k);
        StatsDelta(s, e, k);
        KicksDelta(s, e, k);
        CountedAfter(s, t, e.id, k);
        InStatsAfter(s, t, e.id, k);
        RefusedAfter(s, t, e.id, k);
        assert Get(s.quota, k) == |Counted(s, k)|;
        assert Get(s.stats, k) == |InStats(s, k)|;
        assert Get(s.kicks, k) == |RefusedOf(s, k)|;
      }
    }
  }

  lemma {:induction false} RunKeepsInv(events: seq<Event>)
    ensures Inv(Run(events))
  {
    if events != [] {
      RunKeepsInv(events[..|events| - 1]);
      StepKeepsInv(Run(events[..|events| - 1]), events[|events| - 1]);
    }
  }

  /** At every moment of every interleaving: the quota counter of a group is the number of its
      live leases plus the attempts that have not taken themselves back yet, the statistics
      count held leases, every refusal was reported once, and no clamp to zero was reached. */
  lemma CountersExact(events: seq<Event>, g: Group, m: Email)
    ensures var s := Run(events);
            && Get(s.quota, g) == |Live(s, g)| + |Undoing(s, g)|
            && Get(s.stats, g) == |InStats(s, g)|
            && Get(s.kicks, m) == |RefusedOf(s, m)|
            && NeverClamping(s)
  {
    RunKeepsInv(events);
    CountedSplits(Run(events), g);
  }

  /** Every attempt of the group so far found a positive limit of at most max. */
  ghost predicate LimitedTo(s: State, g: Group, max: int) {
    forall i | i in s.attempts && s.attempts[i].group == g :: 0 < s.attempts[i].limit <= max
  }

  lemma StepKeepsBound(s: State, e: Event, g: Group, max: int)
    requires Inv(s) && |Live(s, g)| <= max && LimitedTo(Step(s, e), g, max)
    ensures |Live(Step(s, e), g)| <= max
  {
    var t := Step(s, e);
    if t != s {
      StepMoves(s, e);
      LiveAfter(s, t, e.id, g);
      if e.id in Live(t, g) && e.id !in Live(s, g) {
        assert s.attempts[e.id].phase == Found && t.attempts[e.id].phase == Fits;
        CountedSplits(s, g);
      }
    }
  }

  lemma LimitedBefore(s: State, e: Event, g: Group, max: int)
    requires LimitedTo(Step(s, e), g, max)
    ensures LimitedTo(s, g, max)
  {
    var t := Step(s, e);
    if t != s {
      StepMoves(s, e);
      hide Step;
      forall i | i in s.attempts && s.attempts[i].group == g
        ensures 0 < s.attempts[i].limit <= max
      {
        assert i in t.attempts && t.attempts[i].limit == s.attempts[i].limit && t.attempts[i].group == g;
      }
    }
  }

  /** However the attempts interleave, a group whose attempts all find a positive limit of at
      most max never has more than max leases granted and not released. */
  lemma {:induction false} NeverAboveLimit(events: seq<Event>, g: Group, max: int)
    requires max >= 0 && LimitedTo(Run(events), g, max)
    ensures |Live(Run(events), g)| <= max
  {
    if events == [] {
      assert Live(INITIAL, g) == {};
    } else {
      var front, e := events[..|events| - 1], events[|events| - 1];
      LimitedBefore(Run(front), e, g, max);
      NeverAboveLimit(front, g, max);
      RunKeepsInv(front);
      StepKeepsBound(Run(front), e, g, max);
    }
  }

  /** An attempt that counts itself is turned away exactly when its limit is positive and the
      live leases of its group, together with the attempts still to take themselves back,
      already reach it. */
  lemma RefusedExactlyWhen(events: seq<Event>, id: Id)
    requires var s := Run(events); id in s.attempts && s.attempts[id].phase == Found
    ensures var s := Run(events);
            var a := s.attempts[id];
            var phase := Step(s, Go(id)).attempts[id].phase;
            && phase in {Over, Fits}
            && (phase == Over <==> a.limit > 0 && |Live(s, a.group)| + |Undoing(s, a.group)| >= a.limit)
            && (Undoing(s, a.group) == {} ==>
                  (phase == Over <==> a.limit > 0 && |Live(s, a.group)| >= a.limit))
  {
    RunKeepsInv(events);
    CountedSplits(Run(events), Run(events).attempts[id].group);
  }

  /** So the limit is not exact under interleaving: with limit 1 an attempt can be turned away
      while its group has no lease at all, because another attempt has not undone itself. */
  lemma RefusedWithNothingLive(g: Group, m: Email)
    ensures var events := [Begin(1, m, g, g, 1), Begin(2, m, g, g, 1), Begin(3, m, g, g, 1),
                           Go(1), Go(1), Go(2), Close(1)];
            var s := Run(events);
            && 3 in s.attempts && s.attempts[3].phase == Found
            && Live(s, g) == {}
            && Step(s, Go(3)).attempts[3].phase == Over
  {
    var events := [Begin(1, m, g, g, 1), Begin(2, m, g, g, 1), Begin(3, m, g, g, 1), Go(1), Go(1), Go(2), Close(1)];
    ThreeBegun(g, m, events);
    var a := Attempt(m, g, g, 1, Found);
    FirstGranted(g, a, events);
    SecondOver(g, a, events);
    FirstClosed(g, a, events);
  }

  lemma ThreeBegun(g: Group, m: Email, events: seq<Event>)
    requires |events| == 7 && events[..3] == [Begin(1, m, g, g, 1), Begin(2, m, g, g, 1), Begin(3, m, g, g, 1)]
    ensures var a := Attempt(m, g, g, 1, Found);
            Run(events[..3]) == State(map[], map[], map[], map[1 := a, 2 := a, 3 := a])
  {
    var a := Attempt(m, g, g, 1, Found);
    RunOne(events, 0, INITIAL, State(map[], map[], map[], map[1 := a]));
    RunOne(events, 1, State(map[], map[], map[], map[1 := a]), State(map[], map[], map[], map[1 := a, 2 := a]));
    RunOne(events, 2, State(map[], map[], map[], map[1 := a, 2 := a]),
           State(map[], map[], map[], map[1 := a, 2 := a, 3 := a]));
  }

  lemma FirstGranted(g: Group, a: Attempt, events: seq<Event>)
    requires |events| == 7 && events[3] == events[4] == Go(1)
    requires a.group == a.statGroup == g && a.limit == 1 && a.phase == Found
    requires Run(events[..3]) == State(map[], map[], map[], map[1 := a, 2 := a, 3 := a])
    ensures Run(events[..5]) == State(map[g := 1], map[g := 1], map[], map[1 := a.(phase := Granted), 2 := a, 3 := a])
  {
    var s3 := State(map[], map[], map[], map[1 := a, 2 := a, 3 := a]);
    var s4 := State(map[g := 1], map[], map[], map[1 := a.(phase := Fits), 2 := a, 3 := a]);
    var s5 := State(map[g := 1], map[g := 1], map[], map[1 := a.(phase := Granted), 2 := a, 3 := a]);
    RunOne(events, 3, s3, s4);
    RunOne(events, 4, s4, s5);
  }

  lemma SecondOver(g: Group, a: Attempt, events: seq<Event>)
    requires |events| == 7 && events[5] == Go(2) && a.group == g && a.limit == 1 && a.phase == Found
    requires Run(events[..5]) == State(map[g := 1], map[g := 1], map[], map[1 := a.(phase := Granted), 2 := a, 3 := a])
    ensures Run(events[..6]) == State(map[g := 2], map[g := 1], map[],
                                      map[1 := a.(phase := Granted), 2 := a.(phase := Over), 3 := a])
  {
    var s6 := State(map[g := 2], map[g := 1], map[], map[1 := a.(phase := Granted), 2 := a.(phase := Over), 3 := a]);
    RunOne(events, 5, Run(events[..5]), s6);
  }

  lemma FirstClosed(g: Group, a: Attempt, events: seq<Event>)
    requires |events| == 7 && events[6] == Close(1) && a.group == g && a.limit == 1 && a.phase == Found
    requires Run(events[..6]) == State(map[g := 2], map[g := 1], map[],
                                       map[1 := a.(phase := Granted), 2 := a.(phase := Over), 3 := a])
    ensures var s := Run(events);
            && 3 in s.attempts && s.attempts[3].phase == Found
            && Live(s, g) == {}
            && Step(s, Go(3)).attempts[3].phase == Over
  {
    var s := State(map[g := 1], map[g := 1], map[], map[1 := a.(phase := LeaveStat), 2 := a.(phase := Over), 3 := a]);
    RunOne(events, 6, Run(events[..6]), s);
    assert events[..7] == events;
    hide Run;
    ThirdTurnedAway(s, g);
  }

  lemma ThirdTurnedAway(s: State, g: Group)
    requires 3 in s.attempts && s.attempts[3].phase == Found && s.attempts[3].limit == 1
    requires s.attempts[3].group == g && Get(s.quota, g) == 1
    ensures Step(s, Go(3)).attempts[3].phase == Over
  {}

  lemma RunOne(events: seq<Event>, k: nat, s: State, t: State)
    requires k < |events| && Run(events[..k]) == s && Step(s, events[k]) == t
    ensures Run(events[..k + 1]) == t
  {
    assert events[..k + 1][..k] == events[..k];
  }

  // ----- every attempt comes to an end -----

  /** How many operations of its own an attempt still has to do, at most. */
  function Owed(p: Phase): nat {
    match p
    case Found => 3
    case Over => 2
    case Undone => 1
    case Fits => 1
    case LeaveStat => 1
    case _ => 0
  }

  predicate Opening(p: Phase) {
    p in {Found, Over, Undone, Fits}
  }

  predicate Settled(p: Phase) {
    p in {Granted, Refused, Closed}
  }

  function Turns(events: seq<Event>, id: Id): nat {
    if events == [] then 0
    else Turns(events[..|events| - 1], id) + (if events[|events| - 1] == Go(id) then 1 else 0)
  }

  /** One event as an attempt sees it: its own turn brings it forward, nothing else moves it. */
  lemma TurnTaken(s: State, e: Event, id: Id)
    requires Inv(s) && id in s.attempts && e != Close(id)
    ensures id in Step(s, e).attempts
    ensures var p, q := s.attempts[id].phase, Step(s, e).attempts[id].phase;
            && (e != Go(id) || Settled(p) ==> q == p)
            && (e == Go(id) && !Settled(p) ==> Owed(q) < Owed(p))
            && (Opening(p) ==> Opening(q) || q in {Granted, Refused})
            && (p == LeaveStat ==> q in {LeaveStat, Closed})
  {
    StepNeverClamps(s, e);
    assert s.attempts[id].phase != ClampQuota && s.attempts[id].phase != ClampStat;
  }

  /** An attempt under way, or a closed connection's, is through after as many turns of its own
      as it has operations left, however the others interleave: granted or refused if it was
      opening, closed if it was closing. */
  lemma {:induction false} ComesThrough(events: seq<Event>, more: seq<Event>, id: Id)
    requires id in Run(events).attempts && Close(id) !in more
    requires Turns(more, id) >= 3 || (Run(events).attempts[id].phase == LeaveStat && Turns(more, id) >= 1)
    ensures id in Run(events + more).attempts
    ensures var p, q := Run(events).attempts[id].phase, Run(events + more).attempts[id].phase;
            && (Opening(p) ==> q in {Granted, Refused})
            && (p == LeaveStat ==> q == Closed)
            && (Settled(p) ==> q == p)
  {
    RunKeepsInv(events);
    AfterTurns(events, more, id);
  }

  lemma {:induction false} AfterTurns(events: seq<Event>, more: seq<Event>, id: Id)
    requires id in Run(events).attempts && Close(id) !in more
    ensures id in Run(events + more).attempts
    ensures var p, q := Run(events).attempts[id].phase, Run(events + more).attempts[id].phase;
            && (Owed(q) == 0 || Owed(q) + Turns(more, id) <= Owed(p))
            && (Opening(p) ==> Opening(q) || q in {Granted, Refused})
            && (p == LeaveStat ==> q in {LeaveStat, Closed})
            && (Settled(p) ==> q == p)
  {
    if more == [] {
      assert events + more == events;
    } else {
      var front, e := more[..|more| - 1], more[|more| - 1];
      assert forall x | x in front :: x in more;
      AfterTurns(events, front, id);
      RunKeepsInv(events + front);
      assert (events + more)[..|events + more| - 1] == events + front;
      assert e in more;
      hide Inv;
      TurnTaken(Run(events + front), e, id);
      hide Step;
    }
  }

  /** Closing the connection of a held lease releases it, and one more turn ends it. */
  lemma CloseReleases(events: seq<Event>, id: Id)
    requires id in Run(events).attempts && Run(events).attempts[id].phase == Granted
    ensures id in Run(events + [Close(id), Go(id)]).attempts
    ensures Run(events + [Close(id), Go(id)]).attempts[id].phase == Closed
  {
    var closed := events + [Close(id)];
    assert closed[..|events|] == events;
    RunKeepsInv(events);
    RunKeepsInv(closed);
    assert events + [Close(id), Go(id)] == closed + [Go(id)];
    assert [Go(id)][..0] == [] && Turns([Go(id)], id) == 1;
    CloseStep(Run(events), id);
    ComesThrough(closed, [Go(id)], id);
  }

  lemma CloseStep(s: State, id: Id)
    requires Inv(s) && id in s.attempts && s.attempts[id].phase == Granted
    ensures id in Step(s, Close(id)).attempts && Step(s, Close(id)).attempts[id].phase == LeaveStat
  {
    StepNeverClamps(s, Close(id));
    var t := Step(s, Close(id));
    assert id in t.attempts && t.attempts[id].phase in {ClampQuota, LeaveStat};
    assert NeverClamping(t);
  }

  /** The attempts of the group that hold a lease. */
  function Holding(s: State, g: Group): set<Id> {
    set i | i in s.attempts && s.attempts[i].group == g && s.attempts[i].phase == Granted
  }

  ghost predicate AllSettled(s: State) {
    forall i | i in s.attempts :: Settled(s.attempts[i].phase)
  }

  /** Once every attempt is granted, refused or closed, the counters are the leases held. */
  lemma SettledCounts(events: seq<Event>, g: Group)
    requires AllSettled(Run(events))
    ensures Get(Run(events).quota, g) == |Holding(Run(events), g)|
    ensures Get(Run(events).stats, g)
            == |set i | i in Run(events).attempts && Run(events).attempts[i].statGroup == g
                        && Run(events).attempts[i].phase == Granted|
  {
    var s := Run(events);
    RunKeepsInv(events);
    assert Counted(s, g) == Holding(s, g);
    assert InStats(s, g) == set i | i in s.attempts && s.attempts[i].statGroup == g && s.attempts[i].phase == Granted;
  }

  /** An attempt begun then gets its lease after two turns exactly when it has no limit or its
      group holds fewer leases than the limit. */
  lemma GrantedIff(events: seq<Event>, id: Id, m: Email, g: Group, sg: Group, limit: int)
    requires AllSettled(Run(events)) && id !in Run(events).attempts
    ensures var t := Run(events + [Begin(id, m, g, sg, limit), Go(id), Go(id)]);
            && id in t.attempts
            && (t.attempts[id].phase == Granted <==> limit <= 0 || |Holding(Run(events), g)| < limit)
  {
    var e0, e1 := events + [Begin(id, m, g, sg, limit)], events + [Begin(id, m, g, sg, limit), Go(id)];
    var e2 := events + [Begin(id, m, g, sg, limit), Go(id), Go(id)];
    assert e0[..|events|] == events && e1[..|e0|] == e0 && e2[..|e1|] == e1;
    assert Run(e0) == Step(Run(events), Begin(id, m, g, sg, limit));
    assert Run(e1) == Step(Run(e0), Go(id)) && Run(e2) == Step(Run(e1), Go(id));
    SettledCounts(events, g);
    hide Run, Step, Holding, AllSettled;
    TwoTurns(Run(events), id, m, g, sg, limit);
  }

  lemma TwoTurns(s: State, id: Id, m: Email, g: Group, sg: Group, limit: int)
    requires id !in s.attempts
    ensures var t := Step(Step(Step(s, Begin(id, m, g, sg, limit)), Go(id)), Go(id));
            && id in t.attempts
            && (t.attempts[id].phase == Granted <==> limit <= 0 || Get(s.quota, g) < limit)
  {}
}
