/** What the monitor's few words of state per user mean: with a single rule, limits are applied
    exactly where the full history of evaluations says so.
    No lemma here needs Dafny's automatic induction over histories, which is off. */
module SpeedHistory {
  import opened Wrappers
  import opened Seqs
  import opened SpeedMonitor

  /** One evaluation as one user sees it: when, and whether the threshold was exceeded; None
      when the user had no traffic. */
  datatype Obs = Obs(now: Time, exceeds: Option<bool>)

  type History = seq<Obs>

  /** The clock advances between evaluations. */
  predicate Ticking(h: History) {
    forall i, j | 0 <= i < j < |h| :: h[i].now < h[j].now
  }

  function One(x: Option<bool>): Option<seq<bool>> {
    match x
    case Some(b) => Some([b])
    case None => None
  }

  /** The monitor's state for the user after the first n evaluations. */
  function StateAfter(h: History, n: nat, rule: Rule): Option<UserState>
    requires n <= |h|
  {
    if n == 0 then None
    else NextUser(StateAfter(h, n - 1, rule), [rule], One(h[n - 1].exceeds), h[n - 1].now).0
  }

  /** Whether the monitor applied a limit at evaluation n. */
  predicate Applied(h: History, n: nat, rule: Rule)
    requires n < |h|
  {
    NextUser(StateAfter(h, n, rule), [rule], One(h[n].exceeds), h[n].now).1 > 0
  }

  function Core(st: Option<UserState>): UserState {
    st.GetOr(FRESH)
  }

  // ----- the history's own account: no state -----

  ghost predicate Fires(h: History, n: nat, rule: Rule)
    requires n < |h| && !rule.Unknown?
    decreases n, 3
  {
    match rule
    case Sustained(seconds, _) =>
      Over(h, n, rule) && LongStreak(h, n, rule, seconds)
    case Burst(_, _, count, _) =>
      Active(h, n, rule)
      && |InWindow(Ends(h, n, rule), rule, h[n].now)| + (if EndsStreak(h, n, rule) then 1 else 0) >= count
  }

  /** A limit fired earlier has not run out at evaluation n. */
  ghost predicate Pending(h: History, n: nat, rule: Rule)
    requires n < |h| && !rule.Unknown?
    decreases n, 0
  {
    exists i | 0 <= i < n :: Fires(h, i, rule) && h[n].now < LimitEnd(rule, h[i].now)
  }

  /** The user had traffic and no limit was pending: the rule looked at the user. */
  ghost predicate Active(h: History, n: nat, rule: Rule)
    requires n < |h| && !rule.Unknown?
    decreases n, 1
  {
    h[n].exceeds.Some? && !Pending(h, n, rule)
  }

  ghost predicate Over(h: History, n: nat, rule: Rule)
    requires n < |h| && !rule.Unknown?
    decreases n, 2
  {
    h[n].exceeds == Some(true) && Active(h, n, rule)
  }

  /** Evaluations k to n - 1 were all over the threshold, none of them fired. */
  ghost predicate Streak(h: History, k: nat, n: nat, rule: Rule)
    requires k <= n <= |h| && !rule.Unknown?
    decreases n, 0
  {
    forall j | k <= j < n :: Over(h, j, rule) && !Fires(h, j, rule)
  }

  /** An unbroken streak leads up to evaluation n and has lasted at least the given seconds. */
  ghost predicate LongStreak(h: History, n: nat, rule: Rule, seconds: int)
    requires n < |h| && !rule.Unknown?
    decreases n, 1
  {
    exists k | 0 <= k < n :: Streak(h, k, n, rule) && h[n].now - h[k].now >= seconds * SECOND
  }

  /** Evaluation n ends a streak that was long enough for a burst. */
  ghost predicate EndsStreak(h: History, n: nat, rule: Rule)
    requires n < |h| && rule.Burst?
    decreases n, 2
  {
    h[n].exceeds == Some(false) && Active(h, n, rule) && LongStreak(h, n, rule, rule.minSeconds)
  }

  /** The times of all such ends before evaluation n since the last limit or absence, however
      long ago. */
  ghost function Ends(h: History, n: nat, rule: Rule): seq<Time>
    requires n <= |h| && rule.Burst?
    decreases n, 0
  {
    if n == 0 || h[n - 1].exceeds.None? || Fires(h, n - 1, rule) then []
    else Ends(h, n - 1, rule) + (if EndsStreak(h, n - 1, rule) then [h[n - 1].now] else [])
  }

  // ----- the state and the history agree -----

  /** The streak under way just before evaluation n. */
  ghost predicate StartAgrees(h: History, n: nat, rule: Rule, start: Option<Time>)
    requires n <= |h| && !rule.Unknown?
  {
    match start
    case None => n == 0 || !Over(h, n - 1, rule) || Fires(h, n - 1, rule)
    case Some(s) =>
      exists k | 0 <= k < n ::
        && s == h[k].now && Streak(h, k, n, rule)
        && (k == 0 || !Over(h, k - 1, rule) || Fires(h, k - 1, rule))
  }

  /** The end of the last limit, or none once it ran out and was forgotten. */
  ghost predicate LimitAgrees(h: History, n: nat, rule: Rule, until: Option<Time>)
    requires n <= |h| && !rule.Unknown?
  {
    && (until.Some? ==> exists i | 0 <= i < n :: Fires(h, i, rule) && until.value == LimitEnd(rule, h[i].now))
    && (forall i | 0 <= i < n && Fires(h, i, rule) ::
          (until.Some? && LimitEnd(rule, h[i].now) <= until.value) || LimitEnd(rule, h[i].now) < h[n - 1].now)
  }

  /** The burst events kept are the history's, as far as any later window reaches. */
  ghost predicate BurstsAgree(h: History, n: nat, rule: Rule, bursts: seq<Time>)
    requires n <= |h| && rule.Burst?
  {
    forall c | n == 0 || c >= h[n - 1].now - rule.windowSeconds * SECOND ::
      After(bursts, c) == After(Ends(h, n, rule), c)
  }

  ghost predicate Agrees(h: History, n: nat, rule: Rule, st: UserState)
    requires n <= |h| && !rule.Unknown?
  {
    && StartAgrees(h, n, rule, st.start)
    && LimitAgrees(h, n, rule, st.limitedUntil)
    && (st.start.Some? && st.limitedUntil.Some? ==> st.limitedUntil.value <= st.start.value)
    && (rule.Burst? ==> BurstsAgree(h, n, rule, st.bursts))
    && (rule.Burst? && st.limitedUntil.Some? && n > 0 && h[n - 1].now <= st.limitedUntil.value ==> st.bursts == [])
  }

  lemma {:induction false} PendingAgrees(h: History, n: nat, rule: Rule, st: UserState)
    requires n < |h| && !rule.Unknown? && Ticking(h) && LimitAgrees(h, n, rule, st.limitedUntil)
    ensures Limited(st, h[n].now) <==> Pending(h, n, rule)
  {
    hide Fires;
  }

  lemma {:induction false} StreakAgrees(h: History, n: nat, rule: Rule, start: Option<Time>, seconds: int)
    requires n < |h| && !rule.Unknown? && Ticking(h) && StartAgrees(h, n, rule, start)
    ensures (start.Some? && h[n].now - start.value >= seconds * SECOND) <==> LongStreak(h, n, rule, seconds)
  {
    hide Fires, Over;
    if LongStreak(h, n, rule, seconds) {
      var k' :| 0 <= k' < n && Streak(h, k', n, rule) && h[n].now - h[k'].now >= seconds * SECOND;
      assert Over(h, n - 1, rule) && !Fires(h, n - 1, rule);
      var k :| 0 <= k < n && start.value == h[k].now && Streak(h, k, n, rule)
               && (k == 0 || !Over(h, k - 1, rule) || Fires(h, k - 1, rule));
      assert k <= k';
    }
  }

  /** The monitor's start of the streak lies before the evaluation. */
  lemma {:induction false} StartIsPast(h: History, n: nat, rule: Rule, start: Option<Time>)
    requires n < |h| && !rule.Unknown? && Ticking(h) && StartAgrees(h, n, rule, start)
    ensures start.Some? ==> start.value < h[n].now
  {}

  lemma SingleRule(st: UserState, rule: Rule, exceeds: bool, now: Time)
    ensures EvalRules(st, [rule], [exceeds], now)
            == (EvalRule(st, rule, exceeds, now).0, if EvalRule(st, rule, exceeds, now).1 then 1 else 0)
  {
    assert [rule][1..] == [] && [exceeds][1..] == [];
  }

  lemma AfterAfter(events: seq<Time>, early: Time, late: Time)
    requires early <= late
    ensures After(After(events, early), late) == After(events, late)
  {
    var e, l := (t: Time) => t > early, (t: Time) => t > late;
    FilterCommutes(events, e, l);
    FilterMembers(events, l);
    FilterAll(Filter(events, l), e);
  }

  /** The rule looks at the user: it fires exactly when the history says so. */
  lemma {:induction false} FiringAgrees(h: History, n: nat, rule: Rule, st: UserState)
    requires n < |h| && !rule.Unknown? && Ticking(h) && Agrees(h, n, rule, st) && Active(h, n, rule)
    ensures EvalRule(st, rule, h[n].exceeds.value, h[n].now).1 <==> Fires(h, n, rule)
  {
    match rule
    case Sustained(seconds, _) =>
      StreakAgrees(h, n, rule, st.start, seconds);
    case Burst(minSeconds, _, _, _) =>
      StreakAgrees(h, n, rule, st.start, minSeconds);
      assert InWindow(st.bursts, rule, h[n].now) == InWindow(Ends(h, n, rule), rule, h[n].now);
  }

  /** Limits that ran out by evaluation n - 1 have run out by evaluation n. */
  lemma {:induction false} LimitLater(h: History, n: nat, rule: Rule, until: Option<Time>)
    requires n < |h| && !rule.Unknown? && Ticking(h) && LimitAgrees(h, n, rule, until) && !Fires(h, n, rule)
    ensures LimitAgrees(h, n + 1, rule, until)
    ensures until.None? || until.value < h[n].now ==> LimitAgrees(h, n + 1, rule, None)
  {
    hide Fires;
    assert n > 0 ==> h[n - 1].now < h[n].now;
  }

  lemma {:induction false} BurstsLater(h: History, n: nat, rule: Rule, bursts: seq<Time>)
    requires n < |h| && rule.Burst? && Ticking(h) && BurstsAgree(h, n, rule, bursts)
    requires h[n].exceeds.Some? && !Fires(h, n, rule)
    ensures var kept := InWindow(bursts, rule, h[n].now);
            BurstsAgree(h, n + 1, rule, if EndsStreak(h, n, rule) then kept + [h[n].now] else kept)
    ensures bursts == [] && !EndsStreak(h, n, rule) ==> BurstsAgree(h, n + 1, rule, [])
  {
    var now := h[n].now;
    var kept := InWindow(bursts, rule, now);
    var ends: seq<Time> := if EndsStreak(h, n, rule) then [now] else [];
    hide Fires, EndsStreak;
    forall c | c >= now - rule.windowSeconds * SECOND
      ensures After(kept + ends, c) == After(Ends(h, n + 1, rule), c)
    {
      AfterAfter(bursts, now - rule.windowSeconds * SECOND, c);
      assert After(bursts, c) == After(Ends(h, n, rule), c);
      FilterConcat(kept, ends, (t: Time) => t > c);
      FilterConcat(Ends(h, n, rule), ends, (t: Time) => t > c);
    }
    assert kept + [] == kept;
  }

  lemma {:induction false} ActiveStep(h: History, n: nat, rule: Rule, st: UserState)
    requires n < |h| && !rule.Unknown? && Ticking(h) && Agrees(h, n, rule, st) && Active(h, n, rule)
    requires !Limited(st, h[n].now)
    ensures Agrees(h, n + 1, rule, EvalRule(st, rule, h[n].exceeds.value, h[n].now).0)
  {
    var now, exceeds := h[n].now, h[n].exceeds.value;
    var (st1, fired) := EvalRule(st, rule, exceeds, now);
    FiringAgrees(h, n, rule, st);
    StartIsPast(h, n, rule, st.start);
    if fired {
      FiredStep(h, n, rule, st);
    } else {
      QuietStart(h, n, rule, st);
      LimitLater(h, n, rule, st.limitedUntil);
      if rule.Burst? {
        StreakAgrees(h, n, rule, st.start, rule.minSeconds);
        BurstsLater(h, n, rule, st.bursts);
      }
    }
  }

  lemma {:induction false} FiredStep(h: History, n: nat, rule: Rule, st: UserState)
    requires n < |h| && !rule.Unknown? && Ticking(h) && Agrees(h, n, rule, st) && Fires(h, n, rule)
    requires EvalRule(st, rule, h[n].exceeds.GetOr(false), h[n].now).1
    ensures Agrees(h, n + 1, rule, EvalRule(st, rule, h[n].exceeds.GetOr(false), h[n].now).0)
  {
    FiredState(st, rule, h[n].exceeds.GetOr(false), h[n].now);
    FiredLimit(h, n, rule, st.limitedUntil);
    assert rule.Burst? ==> Ends(h, n + 1, rule) == [];
    assert StartAgrees(h, n + 1, rule, None);
    hide Fires, EvalRule, StartAgrees, LimitAgrees, Ends;
  }

  /** A firing rule leaves no streak, and a burst rule no burst events. */
  lemma {:induction false} FiredState(st: UserState, rule: Rule, exceeds: bool, now: Time)
    requires !rule.Unknown? && EvalRule(st, rule, exceeds, now).1
    ensures var s := EvalRule(st, rule, exceeds, now).0;
            s.start == None && s.limitedUntil == Some(LimitEnd(rule, now)) && (rule.Burst? ==> s.bursts == [])
  {}

  lemma {:induction false} FiredLimit(h: History, n: nat, rule: Rule, until: Option<Time>)
    requires n < |h| && !rule.Unknown? && Ticking(h) && LimitAgrees(h, n, rule, until) && Fires(h, n, rule)
    ensures LimitAgrees(h, n + 1, rule, Some(LimitEnd(rule, h[n].now)))
  {
    hide Fires;
    assert forall i | 0 <= i < n :: h[i].now < h[n].now;
  }

  lemma {:induction false} QuietStart(h: History, n: nat, rule: Rule, st: UserState)
    requires n < |h| && !rule.Unknown? && Ticking(h) && StartAgrees(h, n, rule, st.start) && Active(h, n, rule)
    requires !Fires(h, n, rule) && !EvalRule(st, rule, h[n].exceeds.value, h[n].now).1
    ensures StartAgrees(h, n + 1, rule, EvalRule(st, rule, h[n].exceeds.value, h[n].now).0.start)
  {
    hide Fires;
    if h[n].exceeds.value {
      assert Over(h, n, rule);
      assert Streak(h, n, n + 1, rule);
      if st.start.Some? {
        var k :| 0 <= k < n && st.start.value == h[k].now && Streak(h, k, n, rule)
                 && (k == 0 || !Over(h, k - 1, rule) || Fires(h, k - 1, rule));
        assert Streak(h, k, n + 1, rule);
      }
    }
  }

  /** No traffic, or a limit pending: nothing is evaluated. */
  lemma {:induction false} IdleStep(h: History, n: nat, rule: Rule, st: UserState)
    requires n < |h| && !rule.Unknown? && Ticking(h) && Agrees(h, n, rule, st) && !Active(h, n, rule)
    requires st.limitedUntil.Some? && h[n].now <= st.limitedUntil.value
    ensures Agrees(h, n + 1, rule, st)
  {
    StartIsPast(h, n, rule, st.start);
    LimitLater(h, n, rule, st.limitedUntil);
    assert n > 0 && h[n - 1].now < h[n].now;
    if rule.Burst? && h[n].exceeds.Some? {
      BurstsLater(h, n, rule, st.bursts);
    }
  }

  lemma {:induction false} ForgetStep(h: History, n: nat, rule: Rule, st: UserState)
    requires n < |h| && !rule.Unknown? && Ticking(h) && Agrees(h, n, rule, st) && h[n].exceeds.None?
    requires st.limitedUntil.None? || st.limitedUntil.value < h[n].now
    ensures Agrees(h, n + 1, rule, FRESH)
  {
    LimitLater(h, n, rule, st.limitedUntil);
  }

  /** After every evaluation the state agrees with the history. */
  lemma {:induction false} StateAgrees(h: History, n: nat, rule: Rule)
    requires n <= |h| && !rule.Unknown? && Ticking(h)
    ensures Agrees(h, n, rule, Core(StateAfter(h, n, rule)))
  {
    if n > 0 {
      var m := n - 1;
      var before := StateAfter(h, m, rule);
      var st := Core(before);
      StateAgrees(h, m, rule);
      PendingAgrees(h, m, rule, st);
      if h[m].exceeds.Some? && !Limited(st, h[m].now) {
        SingleRule(st, rule, h[m].exceeds.value, h[m].now);
        ActiveStep(h, m, rule, st);
      } else if st.limitedUntil.Some? && h[m].now <= st.limitedUntil.value {
        IdleStep(h, m, rule, st);
      } else {
        ForgetStep(h, m, rule, st);
      }
    }
  }

  /** The monitor with a single rule applies a limit at an evaluation exactly when the history
      says that it fires there. */
  lemma {:induction false} AppliedIffFires(h: History, n: nat, rule: Rule)
    requires n < |h| && !rule.Unknown? && Ticking(h)
    ensures Applied(h, n, rule) <==> Fires(h, n, rule)
  {
    var st := Core(StateAfter(h, n, rule));
    StateAgrees(h, n, rule);
    PendingAgrees(h, n, rule, st);
    if Active(h, n, rule) {
      SingleRule(st, rule, h[n].exceeds.value, h[n].now);
      FiringAgrees(h, n, rule, st);
    }
  }

  /** Evaluations k to n were all over the threshold, and none of those before n limited. */
  predicate Unbroken(h: History, k: nat, n: nat, rule: Rule)
    requires n < |h|
  {
    forall j | k <= j <= n :: h[j].exceeds == Some(true) && (j < n ==> !Applied(h, j, rule))
  }

  /** A sustained rule limits only after an unbroken run of over-threshold evaluations, none of
      them limited or limiting, that lasted at least the rule's seconds. */
  lemma {:induction false} SustainedNeedsStreak(h: History, n: nat, rule: Rule)
    requires n < |h| && rule.Sustained? && Ticking(h) && Applied(h, n, rule)
    ensures exists k | 0 <= k < n :: h[n].now - h[k].now >= rule.seconds * 1_000_000_000 && Unbroken(h, k, n, rule)
  {
    AppliedIffFires(h, n, rule);
    var k := StreakBehind(h, n, rule);
    hide Applied, Fires, Streak, Unbroken;
    StreakIsUnbroken(h, k, n, rule);
  }

  lemma {:induction false} StreakBehind(h: History, n: nat, rule: Rule) returns (k: nat)
    requires n < |h| && rule.Sustained? && Fires(h, n, rule)
    ensures k < n && Streak(h, k, n, rule) && h[n].now - h[k].now >= rule.seconds * SECOND
    ensures h[n].exceeds == Some(true)
  {
    assert Over(h, n, rule) && LongStreak(h, n, rule, rule.seconds);
    k :| 0 <= k < n && Streak(h, k, n, rule) && h[n].now - h[k].now >= rule.seconds * SECOND;
  }

  lemma {:induction false} StreakIsUnbroken(h: History, k: nat, n: nat, rule: Rule)
    requires k < n < |h| && !rule.Unknown? && Ticking(h) && Streak(h, k, n, rule) && h[n].exceeds == Some(true)
    ensures Unbroken(h, k, n, rule)
  {
    hide Applied, Streak;
    forall j | k <= j < n ensures h[j].exceeds == Some(true) && !Applied(h, j, rule) {
      StreakMember(h, k, n, rule, j);
    }
  }

  lemma {:induction false} StreakMember(h: History, k: nat, n: nat, rule: Rule, j: nat)
    requires k <= j < n <= |h| && !rule.Unknown? && Ticking(h) && Streak(h, k, n, rule)
    ensures h[j].exceeds == Some(true) && !Applied(h, j, rule)
  {
    assert Over(h, j, rule) && !Fires(h, j, rule);
    AppliedIffFires(h, j, rule);
  }

  /** At every evaluation of a burst rule with a positive window that does not fire, the events
      kept are the full history of streak ends since the last limit or absence, cut to the
      window. */
  lemma {:induction false} BurstEventsExact(h: History, n: nat, rule: Rule)
    requires n < |h| && rule.Burst? && rule.windowSeconds > 0 && Ticking(h)
    requires Active(h, n, rule) && !Fires(h, n, rule)
    ensures Core(StateAfter(h, n + 1, rule)).bursts == InWindow(Ends(h, n + 1, rule), rule, h[n].now)
  {
    var st := Core(StateAfter(h, n, rule));
    StateAgrees(h, n, rule);
    PendingAgrees(h, n, rule, st);
    SingleRule(st, rule, h[n].exceeds.value, h[n].now);
    FiringAgrees(h, n, rule, st);
    BurstsAfterPass(h, n, rule, st);
    hide Fires, Ends, InWindow, Agrees, Active;
  }

  /** One pass of a burst rule that does not fire. */
  lemma {:induction false} BurstsAfterPass(h: History, n: nat, rule: Rule, st: UserState)
    requires n < |h| && rule.Burst? && rule.windowSeconds > 0 && Ticking(h) && Agrees(h, n, rule, st)
    requires Active(h, n, rule) && !Fires(h, n, rule)
    requires !EvalRule(st, rule, h[n].exceeds.value, h[n].now).1
    ensures EvalRule(st, rule, h[n].exceeds.value, h[n].now).0.bursts
            == InWindow(Ends(h, n + 1, rule), rule, h[n].now)
  {
    var now := h[n].now;
    StreakAgrees(h, n, rule, st.start, rule.minSeconds);
    var ends: seq<Time> := if EndsStreak(h, n, rule) then [now] else [];
    assert Ends(h, n + 1, rule) == Ends(h, n, rule) + ends;
    assert InWindow(st.bursts, rule, now) == InWindow(Ends(h, n, rule), rule, now);
    hide Fires, Ends;
    FilterConcat(Ends(h, n, rule), ends, (t: Time) => t > now - rule.windowSeconds * SECOND);
  }
}
