/** The monitor with any number of sustained rules.  The rules of a user share one streak: a rule
    that is not exceeded ends it, and a later rule that is begins it anew.  So it reaches back to
    where the last rule was exceeded, and every rule has been since.
    No lemma here needs Dafny's automatic induction over histories, which is off. */
module SharedStreak {
  import opened Wrappers
  import opened SpeedMonitor

  /** One evaluation of one user: which rules are exceeded; None without traffic. */
  datatype Obs = Obs(now: Time, over: Option<seq<bool>>)

  type History = seq<Obs>

  /** Sustained rules that last and limit for a positive time. */
  predicate Sane(rules: seq<Rule>) {
    rules != [] && forall r | r in rules :: r.Sustained? && r.seconds > 0 && r.limitSeconds > 0
  }

  predicate Fits(h: History, rules: seq<Rule>) {
    && (forall i | 0 <= i < |h| && h[i].over.Some? :: |h[i].over.value| == |rules|)
    && (forall i, j | 0 <= i < j < |h| :: h[i].now < h[j].now)
  }

  predicate AllOver(over: seq<bool>, n: nat)
    requires n <= |over|
  {
    forall j | 0 <= j < n :: over[j]
  }

  // ----- one evaluation -----

  predicate Due(start: Option<Time>, rule: Rule, now: Time)
    requires rule.Sustained?
  {
    start.Some? && now - start.value >= rule.seconds * SECOND
  }

  /** Rule i limits: it and all before it are exceeded, and it is the first the streak is long
      enough for. */
  predicate Limits(start: Option<Time>, rules: seq<Rule>, over: seq<bool>, now: Time, i: nat)
    requires Sane(rules) && |over| == |rules|
  {
    i < |rules| && AllOver(over, i + 1) && Due(start, rules[i], now)
    && forall j | 0 <= j < i :: !Due(start, rules[j], now)
  }

  /** The streak after an evaluation that limits nothing. */
  function NextStart(start: Option<Time>, over: seq<bool>, now: Time): Option<Time>
    requires over != []
  {
    if AllOver(over, |over|) then Some(start.GetOr(now))
    else if over[|over| - 1] then Some(now)
    else None
  }

  /** The state after an evaluation in which rule i limits, or none does. */
  function Outcome(st: UserState, rules: seq<Rule>, over: seq<bool>, now: Time, i: Option<nat>): (UserState, nat)
    requires Sane(rules) && |over| == |rules| && (i.Some? ==> i.value < |rules|)
  {
    assert i.Some? ==> rules[i.value] in rules;
    match i
    case Some(k) => (UserState(None, st.bursts, Some(LimitEnd(rules[k], now))), 1)
    case None => (st.(start := NextStart(st.start, over, now)), 0)
  }

  /** The first rule and the rest. */
  lemma LimitsTail(start: Option<Time>, rules: seq<Rule>, over: seq<bool>, now: Time, i: nat)
    requires Sane(rules) && |over| == |rules| > 1
    requires over[0] && !Due(start, rules[0], now)
    ensures Sane(rules[1..])
    ensures Limits(start, rules[1..], over[1..], now, i) <==> Limits(start, rules, over, now, i + 1)
  {
    assert forall r | r in rules[1..] :: r in rules;
    if Limits(start, rules[1..], over[1..], now, i) {
      assert forall j | 0 < j < i + 2 :: over[j] == over[1..][j - 1];
      assert forall j | 0 < j <= i + 1 :: rules[j] == rules[1..][j - 1];
    }
    if Limits(start, rules, over, now, i + 1) {
      assert forall j | 0 <= j < i + 1 :: over[1..][j] == over[j + 1];
      assert forall j | 0 <= j <= i :: rules[1..][j] == rules[j + 1];
    }
  }

  lemma NextStartTail(start: Option<Time>, over: seq<bool>, now: Time)
    requires |over| > 1
    ensures !over[0] ==> NextStart(None, over[1..], now) == NextStart(start, over, now)
    ensures over[0] ==> NextStart(Some(start.GetOr(now)), over[1..], now) == NextStart(start, over, now)
  {
    assert over[1..][|over| - 2] == over[|over| - 1];
    assert forall j | 0 <= j < |over| - 1 :: over[1..][j] == over[j + 1];
    assert AllOver(over, |over|) ==> AllOver(over[1..], |over| - 1);
    if over[0] && AllOver(over[1..], |over| - 1) {
      assert forall j | 0 < j < |over| :: over[j] == over[1..][j - 1];
      assert AllOver(over, |over|);
    }
  }

  /** A streak that is broken, or begins now, limits nothing. */
  lemma NoStreakNoLimit(start: Option<Time>, rules: seq<Rule>, over: seq<bool>, now: Time)
    requires Sane(rules) && |over| == |rules|
    requires !over[0] || start.None? || start == Some(now)
    ensures forall k: nat :: !Limits(start, rules, over, now, k)
  {
    forall k: nat ensures !Limits(start, rules, over, now, k) {
      if k < |rules| {
        assert rules[k] in rules;
      }
    }
  }

  /** What the pass over the rules comes to: the first rule the streak is due for limits, if all
      rules up to it are exceeded; otherwise the streak goes on as NextStart says. */
  lemma {:induction false} PassOutcome(st: UserState, rules: seq<Rule>, over: seq<bool>, now: Time)
    returns (i: Option<nat>)
    requires Sane(rules) && |over| == |rules| && !Limited(st, now)
    ensures i.Some? ==> Limits(st.start, rules, over, now, i.value)
    ensures i.None? ==> forall k: nat :: !Limits(st.start, rules, over, now, k)
    ensures EvalRules(st, rules, over, now) == Outcome(st, rules, over, now, i)
    decreases rules
  {
    assert rules[0] in rules && forall r | r in rules[1..] :: r in rules;
    var st1 := EvalRule(st, rules[0], over[0], now).0;
    if over[0] && Due(st.start, rules[0], now) {
      i := Some(0);
    } else if |rules| == 1 {
      i := None;
    } else {
      NextStartTail(st.start, over, now);
      var k := PassOutcome(st1, rules[1..], over[1..], now);
      if over[0] && st.start.Some? {
        forall j: nat ensures j > 0 ==> (Limits(st.start, rules[1..], over[1..], now, j - 1)
                                         <==> Limits(st.start, rules, over, now, j)) {
          if j > 0 {
            LimitsTail(st.start, rules, over, now, j - 1);
          }
        }
        i := if k.Some? then Some(k.value + 1) else None;
      } else {
        NoStreakNoLimit(st.start, rules, over, now);
        NoStreakNoLimit(st1.start, rules[1..], over[1..], now);
        i := None;
      }
    }
  }

  // ----- the monitor over a history -----

  function StateAfter(h: History, n: nat, rules: seq<Rule>): Option<UserState>
    requires n <= |h| && Fits(h, rules)
  {
    if n == 0 then None
    else NextUser(StateAfter(h, n - 1, rules), rules, h[n - 1].over, h[n - 1].now).0
  }

  /** Whether the monitor applied a limit at evaluation n. */
  predicate Applied(h: History, n: nat, rules: seq<Rule>)
    requires n < |h| && Fits(h, rules)
  {
    NextUser(StateAfter(h, n, rules), rules, h[n].over, h[n].now).1 > 0
  }

  function Core(st: Option<UserState>): UserState {
    st.GetOr(FRESH)
  }

  // ----- the history's own account: no state -----

  /** At evaluation n rule i limits: it and all before it are exceeded, and the streak is long
      enough for it and for none before it. */
  ghost predicate Fires(h: History, n: nat, rules: seq<Rule>, i: nat)
    requires n < |h| && Fits(h, rules) && Sane(rules)
    decreases n, 4
  {
    && Active(h, n, rules) && i < |rules| && AllOver(h[n].over.value, i + 1)
    && LongStreak(h, n, rules, i)
    && forall j | 0 <= j < i :: !LongStreak(h, n, rules, j)
  }

  ghost predicate Fired(h: History, n: nat, rules: seq<Rule>)
    requires n < |h| && Fits(h, rules) && Sane(rules)
    decreases n, 5
  {
    exists i: nat :: Fires(h, n, rules, i)
  }

  /** A limit of an earlier evaluation has not run out at evaluation n. */
  ghost predicate Pending(h: History, n: nat, rules: seq<Rule>)
    requires n < |h| && Fits(h, rules) && Sane(rules)
    decreases n, 0
  {
    exists m, i: nat | 0 <= m < n && Fires(h, m, rules, i) :: h[n].now < EndOf(h, m, rules, i)
  }

  /** When the limit of rule i, applied at evaluation m, ends. */
  function EndOf(h: History, m: nat, rules: seq<Rule>, i: nat): Time
    requires m < |h| && Sane(rules)
  {
    if i < |rules| then assert rules[i] in rules; LimitEnd(rules[i], h[m].now) else h[m].now
  }

  /** The user had traffic and no limit was pending: the rules looked at the user. */
  ghost predicate Active(h: History, n: nat, rules: seq<Rule>)
    requires n < |h| && Fits(h, rules) && Sane(rules)
    decreases n, 1
  {
    h[n].over.Some? && !Pending(h, n, rules)
  }

  /** A streak can begin at evaluation n: the last rule is exceeded. */
  ghost predicate Opens(h: History, n: nat, rules: seq<Rule>)
    requires n < |h| && Fits(h, rules) && Sane(rules)
    decreases n, 6
  {
    Active(h, n, rules) && h[n].over.value[|rules| - 1] && !Fired(h, n, rules)
  }

  /** A streak goes on through evaluation n: all rules are exceeded. */
  ghost predicate Carries(h: History, n: nat, rules: seq<Rule>)
    requires n < |h| && Fits(h, rules) && Sane(rules)
    decreases n, 6
  {
    Active(h, n, rules) && AllOver(h[n].over.value, |rules|) && !Fired(h, n, rules)
  }

  /** A streak from evaluation k leads up to evaluation n. */
  ghost predicate Streak(h: History, k: nat, n: nat, rules: seq<Rule>)
    requires k < n <= |h| && Fits(h, rules) && Sane(rules)
    decreases n, 0
  {
    Opens(h, k, rules) && forall j | k < j < n :: Carries(h, j, rules)
  }

  /** A streak leads up to evaluation n and has lasted long enough for rule i. */
  ghost predicate LongStreak(h: History, n: nat, rules: seq<Rule>, i: nat)
    requires n < |h| && Fits(h, rules) && Sane(rules) && i < |rules|
    decreases n, 3
  {
    exists k | 0 <= k < n :: Streak(h, k, n, rules) && h[n].now - h[k].now >= rules[i].seconds * SECOND
  }

  // ----- the state and the history agree -----

  /** The streak under way just before evaluation n is the longest there is. */
  ghost predicate StartAgrees(h: History, n: nat, rules: seq<Rule>, start: Option<Time>)
    requires n <= |h| && Fits(h, rules) && Sane(rules)
  {
    match start
    case None => forall k | 0 <= k < n :: !Streak(h, k, n, rules)
    case Some(s) =>
      exists k | 0 <= k < n ::
        s == h[k].now && Streak(h, k, n, rules) && forall j | 0 <= j < k :: !Streak(h, j, n, rules)
  }

  /** The end of the last limit, or none once it ran out and was forgotten. */
  ghost predicate LimitAgrees(h: History, n: nat, rules: seq<Rule>, until: Option<Time>)
    requires n <= |h| && Fits(h, rules) && Sane(rules)
  {
    && (until.Some? ==>
          exists m, i: nat | 0 <= m < n && Fires(h, m, rules, i) :: until.value == EndOf(h, m, rules, i))
    && (forall m, i: nat | 0 <= m < n && Fires(h, m, rules, i) ::
          (until.Some? && EndOf(h, m, rules, i) <= until.value) || EndOf(h, m, rules, i) < h[n - 1].now)
  }

  ghost predicate Agrees(h: History, n: nat, rules: seq<Rule>, st: UserState)
    requires n <= |h| && Fits(h, rules) && Sane(rules)
  {
    && StartAgrees(h, n, rules, st.start)
    && LimitAgrees(h, n, rules, st.limitedUntil)
    && (st.start.Some? && st.limitedUntil.Some? ==> st.limitedUntil.value <= st.start.value)
  }

  lemma {:induction false} PendingAgrees(h: History, n: nat, rules: seq<Rule>, st: UserState)
    requires n < |h| && Fits(h, rules) && Sane(rules) && LimitAgrees(h, n, rules, st.limitedUntil)
    ensures Limited(st, h[n].now) <==> Pending(h, n, rules)
  {
    hide Fires, EndOf;
  }

  lemma {:induction false} DueAgrees(h: History, n: nat, rules: seq<Rule>, start: Option<Time>, i: nat)
    requires n < |h| && Fits(h, rules) && Sane(rules) && StartAgrees(h, n, rules, start) && i < |rules|
    ensures rules[i].Sustained? && (Due(start, rules[i], h[n].now) <==> LongStreak(h, n, rules, i))
  {
    assert rules[i] in rules;
    hide Streak;
    if LongStreak(h, n, rules, i) {
      var k' :| 0 <= k' < n && Streak(h, k', n, rules) && h[n].now - h[k'].now >= rules[i].seconds * SECOND;
      var k :| 0 <= k < n && start.value == h[k].now && Streak(h, k, n, rules)
               && forall j | 0 <= j < k :: !Streak(h, j, n, rules);
      assert k <= k';
    }
  }

  lemma {:induction false} FiringAgrees(h: History, n: nat, rules: seq<Rule>, start: Option<Time>, i: nat)
    requires n < |h| && Fits(h, rules) && Sane(rules) && StartAgrees(h, n, rules, start) && Active(h, n, rules)
    ensures Limits(start, rules, h[n].over.value, h[n].now, i) <==> Fires(h, n, rules, i)
  {
    if i < |rules| {
      forall j | 0 <= j <= i
        ensures rules[j].Sustained? && (Due(start, rules[j], h[n].now) <==> LongStreak(h, n, rules, j))
      {
        DueAgrees(h, n, rules, start, j);
      }
      hide LongStreak, Active;
    }
  }

  /** Limits that ran out by evaluation n - 1 have run out by evaluation n. */
  lemma {:induction false} LimitLater(h: History, n: nat, rules: seq<Rule>, until: Option<Time>)
    requires n < |h| && Fits(h, rules) && Sane(rules) && LimitAgrees(h, n, rules, until) && !Fired(h, n, rules)
    ensures LimitAgrees(h, n + 1, rules, until)
    ensures until.None? || until.value < h[n].now ==> LimitAgrees(h, n + 1, rules, None)
  {
    assert forall i: nat :: !Fires(h, n, rules, i);
    hide Fires, EndOf;
    assert n > 0 ==> h[n - 1].now < h[n].now;
  }

  lemma {:induction false} FiredStep(h: History, n: nat, rules: seq<Rule>, st: UserState, i: nat)
    requires n < |h| && Fits(h, rules) && Sane(rules) && Agrees(h, n, rules, st) && !Limited(st, h[n].now)
    requires Fires(h, n, rules, i)
    ensures Agrees(h, n + 1, rules, UserState(None, st.bursts, Some(EndOf(h, n, rules, i))))
  {
    assert rules[i] in rules && h[n].now < EndOf(h, n, rules, i);
    assert forall j: nat | Fires(h, n, rules, j) :: j == i;
    assert Fired(h, n, rules);
    NoStreakThrough(h, n, rules, n + 1);
    assert n > 0 ==> h[n - 1].now < h[n].now;
    hide Fires, EndOf, Streak;
  }

  lemma {:induction false} NoStreakThrough(h: History, n: nat, rules: seq<Rule>, next: nat)
    requires n < |h| && next == n + 1 && Fits(h, rules) && Sane(rules)
    ensures !Carries(h, n, rules) ==> forall k | 0 <= k < n :: !Streak(h, k, next, rules)
    ensures !Opens(h, n, rules) ==> !Streak(h, n, next, rules)
  {}

  /** A streak through evaluation n that does not begin there. */
  lemma {:induction false} StreakExtends(h: History, k: nat, n: nat, rules: seq<Rule>)
    requires k < n < |h| && Fits(h, rules) && Sane(rules)
    ensures Streak(h, k, n + 1, rules) <==> Streak(h, k, n, rules) && Carries(h, n, rules)
  {
    assert Streak(h, k, n, rules) && Carries(h, n, rules) ==> forall j | k < j < n + 1 :: Carries(h, j, rules);
    if Streak(h, k, n + 1, rules) {
      assert Carries(h, n, rules);
    }
  }

  lemma {:induction false} QuietStart(h: History, n: nat, rules: seq<Rule>, start: Option<Time>)
    requires n < |h| && Fits(h, rules) && Sane(rules) && StartAgrees(h, n, rules, start)
    requires Active(h, n, rules) && !Fired(h, n, rules)
    ensures StartAgrees(h, n + 1, rules, NextStart(start, h[n].over.value, h[n].now))
  {
    var next, over := n + 1, h[n].over.value;
    NoStreakThrough(h, n, rules, next);
    forall k | 0 <= k < n
      ensures Streak(h, k, next, rules) <==> Streak(h, k, n, rules) && Carries(h, n, rules)
    {
      StreakExtends(h, k, n, rules);
    }
    assert Opens(h, n, rules) <==> Streak(h, n, next, rules);
    assert Carries(h, n, rules) <==> AllOver(over, |over|);
    assert Opens(h, n, rules) <==> over[|over| - 1];
    hide Streak, Active, Fired, Opens, Carries;
    if AllOver(over, |over|) && start.Some? {
      var k :| 0 <= k < n && start.value == h[k].now && Streak(h, k, n, rules)
               && forall j | 0 <= j < k :: !Streak(h, j, n, rules);
      assert Streak(h, k, next, rules);
    }
  }

  lemma {:induction false} IdleStep(h: History, n: nat, rules: seq<Rule>, st: UserState)
    requires n < |h| && Fits(h, rules) && Sane(rules) && Agrees(h, n, rules, st) && !Active(h, n, rules)
    ensures st.limitedUntil.Some? && h[n].now <= st.limitedUntil.value ==> Agrees(h, n + 1, rules, st)
    ensures st.limitedUntil.None? || st.limitedUntil.value < h[n].now ==> Agrees(h, n + 1, rules, FRESH)
  {
    LimitLater(h, n, rules, st.limitedUntil);
    NoStreakThrough(h, n, rules, n + 1);
    hide LimitAgrees, Streak;
  }

  lemma {:induction false} ActiveStep(h: History, n: nat, rules: seq<Rule>, st: UserState)
    requires n < |h| && Fits(h, rules) && Sane(rules) && Agrees(h, n, rules, st)
    requires Active(h, n, rules) && !Limited(st, h[n].now)
    ensures Agrees(h, n + 1, rules, EvalRules(st, rules, h[n].over.value, h[n].now).0)
    ensures EvalRules(st, rules, h[n].over.value, h[n].now).1 > 0 <==> Fired(h, n, rules)
  {
    var over, now := h[n].over.value, h[n].now;
    var i := PassOutcome(st, rules, over, now);
    forall k: nat ensures Limits(st.start, rules, over, now, k) <==> Fires(h, n, rules, k) {
      FiringAgrees(h, n, rules, st.start, k);
    }
    hide Limits, Fires, StartAgrees, LimitAgrees, Active;
    if i.Some? {
      assert Fires(h, n, rules, i.value);
      FiredStep(h, n, rules, st, i.value);
    } else {
      QuietStart(h, n, rules, st.start);
      LimitLater(h, n, rules, st.limitedUntil);
    }
  }

  /** After every evaluation the state agrees with the history. */
  lemma {:induction false} StateAgrees(h: History, n: nat, rules: seq<Rule>)
    requires n <= |h| && Fits(h, rules) && Sane(rules)
    ensures Agrees(h, n, rules, Core(StateAfter(h, n, rules)))
  {
    if n > 0 {
      var m := n - 1;
      var st := Core(StateAfter(h, m, rules));
      StateAgrees(h, m, rules);
      PendingAgrees(h, m, rules, st);
      if Active(h, m, rules) {
        ActiveStep(h, m, rules, st);
      } else {
        IdleStep(h, m, rules, st);
      }
    }
  }

  /** The monitor with any number of sustained rules applies a limit at an evaluation exactly
      when the history says that one of them fires there. */
  lemma {:induction false} AppliedIffFired(h: History, n: nat, rules: seq<Rule>)
    requires n < |h| && Fits(h, rules) && Sane(rules)
    ensures Applied(h, n, rules) <==> Fired(h, n, rules)
  {
    var st := Core(StateAfter(h, n, rules));
    StateAgrees(h, n, rules);
    PendingAgrees(h, n, rules, st);
    if Active(h, n, rules) {
      ActiveStep(h, n, rules, st);
    }
  }

  // ----- what sharing the streak means -----

  /** So the last rule gates them all: a rule that is exceeded for as long as one likes, with a
      last rule that never is, is never applied. */
  lemma {:induction false} SharedStreakStarves(h: History, n: nat, rules: seq<Rule>)
    requires n < |h| && Fits(h, rules) && Sane(rules)
    requires forall k | 0 <= k < n && h[k].over.Some? :: !h[k].over.value[|rules| - 1]
    ensures !Applied(h, n, rules)
  {
    AppliedIffFired(h, n, rules);
    forall k | 0 <= k < n ensures !Streak(h, k, n, rules) {
      assert !Opens(h, k, rules);
    }
    forall i: nat ensures !Fires(h, n, rules, i) {
      if i < |rules| {
        assert !LongStreak(h, n, rules, i);
      }
    }
  }

  /** And a rule can be applied on a streak that is not its own: of two rules, with the first not
      exceeded early and both exceeded late, one is applied exactly when the time between is
      enough for either, and it is the first if that is enough for it. */
  lemma {:induction false} SharedStreakBorrowed(h: History, rules: seq<Rule>)
    requires |h| == |rules| == 2 && Fits(h, rules) && Sane(rules)
    requires h[0].over == Some([false, true]) && h[1].over == Some([true, true])
    ensures Applied(h, 1, rules)
            <==> exists i | 0 <= i < 2 :: h[1].now - h[0].now >= rules[i].seconds * SECOND
    ensures Fires(h, 1, rules, 0) <==> h[1].now - h[0].now >= rules[0].seconds * SECOND
  {
    forall i | 0 <= i < 2
      ensures rules[i].Sustained?
              && (LongStreak(h, 1, rules, i) <==> h[1].now - h[0].now >= rules[i].seconds * SECOND)
    {
      SecondEvaluation(h, rules, i);
    }
    SecondEvaluation(h, rules, 0);
    assert AllOver(h[1].over.value, 1) && AllOver(h[1].over.value, 2);
    AppliedIffFired(h, 1, rules);
    hide Applied, Active, LongStreak, AllOver, Fits, Sane;
    assert Fires(h, 1, rules, 0) <==> LongStreak(h, 1, rules, 0);
    assert Fires(h, 1, rules, 1) <==> LongStreak(h, 1, rules, 1) && !LongStreak(h, 1, rules, 0);
  }

  lemma {:induction false} SecondEvaluation(h: History, rules: seq<Rule>, i: nat)
    requires |h| > 1 && Fits(h, rules) && Sane(rules) && i < |rules|
    requires h[0].over.Some? && h[0].over.value[|rules| - 1] && h[1].over.Some?
    ensures Active(h, 1, rules) && rules[i].Sustained?
    ensures LongStreak(h, 1, rules, i) <==> h[1].now - h[0].now >= rules[i].seconds * SECOND
  {
    FirstEvaluation(h, rules);
    assert rules[i] in rules;
    hide Fires, Streak;
  }

  /** At the first evaluation nothing fires; the streak begins if the last rule is exceeded. */
  lemma {:induction false} FirstEvaluation(h: History, rules: seq<Rule>)
    requires h != [] && Fits(h, rules) && Sane(rules) && h[0].over.Some?
    ensures Active(h, 0, rules) && forall i: nat :: !Fires(h, 0, rules, i)
    ensures Streak(h, 0, 1, rules) <==> h[0].over.value[|rules| - 1]
  {
    forall i: nat ensures !Fires(h, 0, rules, i) {}
  }

  // ----- burst rules among them -----

  /** Rules of either kind that limit for a positive time. */
  predicate Lasting(rules: seq<Rule>) {
    rules != [] && forall r | r in rules :: !r.Unknown? && r.limitSeconds > 0
  }

  /** Burst rules move the streak as sustained ones do: after a pass that limits nothing it is
      NextStart, after one that limits there is none. */
  lemma {:induction false} MixedPass(st: UserState, rules: seq<Rule>, over: seq<bool>, now: Time)
    requires Lasting(rules) && |over| == |rules| && !Limited(st, now)
    ensures EvalRules(st, rules, over, now).1 == 0 ==>
              EvalRules(st, rules, over, now).0.start == NextStart(st.start, over, now)
              && EvalRules(st, rules, over, now).0.limitedUntil == st.limitedUntil
    ensures EvalRules(st, rules, over, now).1 > 0 ==>
              EvalRules(st, rules, over, now).0.start == None && Limited(EvalRules(st, rules, over, now).0, now)
    decreases rules
  {
    assert rules[0] in rules && forall r | r in rules[1..] :: r in rules;
    var (st1, fired) := EvalRule(st, rules[0], over[0], now);
    if !fired && |rules| > 1 {
      NextStartTail(st.start, over, now);
      MixedPass(st1, rules[1..], over[1..], now);
    }
  }

  /** The rules looked at the user at evaluation n and limited nothing. */
  predicate Passed(h: History, n: nat, rules: seq<Rule>)
    requires n < |h| && Fits(h, rules)
  {
    h[n].over.Some? && !Limited(Core(StateAfter(h, n, rules)), h[n].now) && !Applied(h, n, rules)
  }

  /** Such evaluations lead from k up to n, the last rule exceeded at the first of them and every
      rule at the others. */
  predicate MixedStreak(h: History, k: nat, n: nat, rules: seq<Rule>)
    requires k < n <= |h| && Fits(h, rules) && rules != []
  {
    && Passed(h, k, rules) && h[k].over.value[|rules| - 1]
    && forall j | k < j < n :: Passed(h, j, rules) && AllOver(h[j].over.value, |rules|)
  }

  /** The streak under way just before evaluation n is the longest such. */
  ghost predicate MixedAgrees(h: History, n: nat, rules: seq<Rule>, st: UserState)
    requires n <= |h| && Fits(h, rules) && rules != []
  {
    && (match st.start
        case None => forall k | 0 <= k < n :: !MixedStreak(h, k, n, rules)
        case Some(s) =>
          exists k | 0 <= k < n ::
            s == h[k].now && MixedStreak(h, k, n, rules) && forall j | 0 <= j < k :: !MixedStreak(h, j, n, rules))
    && (st.start.Some? && st.limitedUntil.Some? ==> st.limitedUntil.value <= st.start.value)
  }

  lemma {:induction false} MixedExtends(h: History, k: nat, n: nat, rules: seq<Rule>)
    requires k < n < |h| && Fits(h, rules) && rules != []
    ensures MixedStreak(h, k, n + 1, rules)
            <==> MixedStreak(h, k, n, rules) && Passed(h, n, rules) && AllOver(h[n].over.value, |rules|)
  {
    hide Passed, AllOver;
  }

  lemma {:induction false} MixedQuiet(h: History, n: nat, rules: seq<Rule>, st: UserState)
    requires n < |h| && Fits(h, rules) && rules != [] && MixedAgrees(h, n, rules, st)
    requires Passed(h, n, rules) && !Limited(st, h[n].now)
    ensures MixedAgrees(h, n + 1, rules, st.(start := NextStart(st.start, h[n].over.value, h[n].now)))
  {
    var next, over := n + 1, h[n].over.value;
    forall k | 0 <= k < n
      ensures MixedStreak(h, k, next, rules) <==> MixedStreak(h, k, n, rules) && AllOver(over, |rules|)
    {
      MixedExtends(h, k, n, rules);
    }
    assert MixedStreak(h, n, next, rules) <==> over[|rules| - 1];
    hide MixedStreak, Passed;
    if AllOver(over, |over|) && st.start.Some? {
      var k :| 0 <= k < n && st.start.value == h[k].now && MixedStreak(h, k, n, rules)
               && forall j | 0 <= j < k :: !MixedStreak(h, j, n, rules);
      assert MixedStreak(h, k, next, rules);
    }
  }

  /** With rules of both kinds, in any order, the user's one streak began at an evaluation where
      the last rule was exceeded, and all have been since, with no limit and no absence. */
  lemma {:induction false} MixedStateAgrees(h: History, n: nat, rules: seq<Rule>)
    requires n <= |h| && Fits(h, rules) && Lasting(rules)
    ensures MixedAgrees(h, n, rules, Core(StateAfter(h, n, rules)))
  {
    if n > 0 {
      var m := n - 1;
      var st := Core(StateAfter(h, m, rules));
      MixedStateAgrees(h, m, rules);
      if h[m].over.Some? && !Limited(st, h[m].now) {
        MixedPass(st, rules, h[m].over.value, h[m].now);
      }
      if Passed(h, m, rules) {
        MixedQuiet(h, m, rules, st);
      } else {
        forall k | 0 <= k < n ensures !MixedStreak(h, k, n, rules) {}
      }
    }
  }
}
