/** internal/embedded/monitor.go: the automatic speed limit.  Whether a user's speed exceeds a
    rule's threshold is an input of each evaluation; times are in nanoseconds. */
module SpeedMonitor {
  import opened Wrappers
  import opened Seqs

  type Time = int
  type Email = string

  const SECOND: int := 1_000_000_000

  datatype Rule =
    | Sustained(seconds: int, limitSeconds: int)
    | Burst(minSeconds: int, windowSeconds: int, count: int, limitSeconds: int)
    | Unknown  // any other type: never evaluated

  /** Option stands for a time that may be zero. */
  datatype UserState = UserState(start: Option<Time>, bursts: seq<Time>, limitedUntil: Option<Time>)

  const FRESH := UserState(None, [], None)

  predicate Limited(st: UserState, now: Time) {
    st.limitedUntil.Some? && now < st.limitedUntil.value
  }

  function LimitEnd(rule: Rule, now: Time): Time
    requires !rule.Unknown?
  {
    now + rule.limitSeconds * SECOND
  }

  // ----- one rule -----

  function EvalSustained(st: UserState, rule: Rule, exceeds: bool, now: Time): (UserState, bool)
    requires rule.Sustained?
  {
    if !exceeds then (st.(start := None), false)
    else if st.start.None? then (st.(start := Some(now)), false)
    else if now - st.start.value >= rule.seconds * SECOND
    then (st.(limitedUntil := Some(LimitEnd(rule, now)), start := None), true)
    else (st, false)
  }

  function After(events: seq<Time>, cutoff: Time): seq<Time> {
    Filter(events, (t: Time) => t > cutoff)
  }

  /** The burst events of the window that ends now. */
  function InWindow(events: seq<Time>, rule: Rule, now: Time): seq<Time>
    requires rule.Burst?
  {
    After(events, now - rule.windowSeconds * SECOND)
  }

  function EvalBurst(st: UserState, rule: Rule, exceeds: bool, now: Time): (UserState, bool)
    requires rule.Burst?
  {
    var kept := InWindow(st.bursts, rule, now);
    var ends := !exceeds && st.start.Some? && now - st.start.value >= rule.minSeconds * SECOND;
    var bursts := if ends then kept + [now] else kept;
    var start := if !exceeds then None else if st.start.None? then Some(now) else st.start;
    if |bursts| >= rule.count
    then (UserState(None, [], Some(LimitEnd(rule, now))), true)
    else (UserState(start, bursts, st.limitedUntil), false)
  }

  function EvalRule(st: UserState, rule: Rule, exceeds: bool, now: Time): (UserState, bool) {
    match rule
    case Sustained(_, _) => EvalSustained(st, rule, exceeds, now)
    case Burst(_, _, _, _) => EvalBurst(st, rule, exceeds, now)
    case Unknown => (st, false)
  }

  /** The rules in order, up to the first that leaves the user limited. */
  function EvalRules(st: UserState, rules: seq<Rule>, exceeds: seq<bool>, now: Time): (UserState, nat)
    requires |rules| == |exceeds|
    decreases rules
  {
    if rules == [] then (st, 0)
    else
      var (st1, fired) := EvalRule(st, rules[0], exceeds[0], now);
      var n := if fired then 1 else 0;
      if Limited(st1, now) then (st1, n)
      else
        var (st2, more) := EvalRules(st1, rules[1..], exceeds[1..], now);
        (st2, n + more)
  }

  /** One evaluation for one user: the state kept (None for none) and how many limits were
      applied.  A user without traffic is forgotten once no limit is pending. */
  function NextUser(st: Option<UserState>, rules: seq<Rule>, exceeds: Option<seq<bool>>, now: Time)
    : (Option<UserState>, nat)
    requires exceeds.Some? ==> |exceeds.value| == |rules|
  {
    match exceeds
    case Some(over) =>
      var s := st.GetOr(FRESH);
      if Limited(s, now) then (Some(s), 0)
      else var (s1, n) := EvalRules(s, rules, over, now); (Some(s1), n)
    case None =>
      if st.Some? && st.value.limitedUntil.Some? && now <= st.value.limitedUntil.value then (st, 0) else (None, 0)
  }

  /** A limit lasts as many seconds as its rule says, from the evaluation that applied it. */
  lemma LimitLength(st: UserState, rule: Rule, exceeds: bool, now: Time)
    ensures EvalRule(st, rule, exceeds, now).1 ==>
              !rule.Unknown?
              && EvalRule(st, rule, exceeds, now).0.limitedUntil == Some(now + rule.limitSeconds * 1_000_000_000)
    ensures !EvalRule(st, rule, exceeds, now).1 ==> EvalRule(st, rule, exceeds, now).0.limitedUntil == st.limitedUntil
    ensures rule.Unknown? ==> EvalRule(st, rule, exceeds, now).0 == st
  {}

  /** The window holds the events of the last so many seconds, in their order. */
  lemma WindowMeaning(events: seq<Time>, rule: Rule, now: Time) returns (places: seq<nat>)
    requires rule.Burst?
    ensures Picked(InWindow(events, rule, now), events, places)
    ensures forall i | 0 <= i < |events| :: i in places <==> events[i] > now - rule.windowSeconds * 1_000_000_000
  {
    var cutoff := now - rule.windowSeconds * SECOND;
    places := FilterPlaces(events, (t: Time) => t > cutoff);
  }

  // ----- the monitor -----

  class Monitor {
    var rules: seq<Rule>
    var userState: map<Email, UserState>
    var hasLimiter: bool

    constructor ()
      ensures rules == [] && userState == map[] && !hasLimiter
    {
      rules, userState, hasLimiter := [], map[], false;
    }

    function StateOf(email: Email): Option<UserState>
      reads this
    {
      if email in userState then Some(userState[email]) else None
    }

    /** Every user's state moves as NextUser says, whatever order the users are visited in. */
    method Evaluate(over: map<Email, seq<bool>>, now: Time, elapsed: int) returns (limits: map<Email, nat>)
      requires forall e | e in over :: |over[e]| == |rules|
      modifies this`userState
      ensures elapsed <= 0 || rules == [] || !hasLimiter ==> userState == old(userState) && limits == map[]
      ensures elapsed > 0 && rules != [] && hasLimiter ==>
                forall e | e !in over && old(StateOf(e)).Some? ::
                  StateOf(e) == if old(StateOf(e)).value.limitedUntil.Some?
                                   && now <= old(StateOf(e)).value.limitedUntil.value
                                then old(StateOf(e)) else None
      ensures elapsed > 0 && rules != [] && hasLimiter ==>
                forall e ::
                  var (st, n) := NextUser(old(StateOf(e)), rules, if e in over then Some(over[e]) else None, now);
                  && StateOf(e) == st
                  && (e in over ==> e in limits && limits[e] == n)
    {
      limits := map[];
      if elapsed <= 0 || rules == [] || !hasLimiter {
        return;
      }
      ghost var before := userState;
      limits := EvaluateActive(over, now);
      hide EvalRules;
      ForgetIdle(over, now);
    }

    /** Forgets the users without traffic that have no limit pending. */
    method ForgetIdle(over: map<Email, seq<bool>>, now: Time)
      modifies this`userState
      ensures forall e | e in over :: StateOf(e) == old(StateOf(e))
      ensures forall e | e !in over ::
                StateOf(e) == if old(StateOf(e)).Some? && old(StateOf(e)).value.limitedUntil.Some?
                                 && now <= old(StateOf(e)).value.limitedUntil.value then old(StateOf(e)) else None
    {
      ghost var before := userState;
      var rest := userState.Keys;
      while rest != {}
        invariant rest <= before.Keys
        invariant forall e | e in rest || e in over :: StateOf(e) == old(StateOf(e))
        invariant forall e | e !in rest && e !in over ::
                    StateOf(e) == if old(StateOf(e)).Some? && old(StateOf(e)).value.limitedUntil.Some?
                                     && now <= old(StateOf(e)).value.limitedUntil.value
                                  then old(StateOf(e)) else None
        decreases rest
      {
        var e :| e in rest;
        assert StateOf(e).Some?;
        rest := rest - {e};
        if e !in over && (userState[e].limitedUntil.None? || now > userState[e].limitedUntil.value) {
          userState := userState - {e};
        }
      }
    }

    /** The pass over the users with traffic. */
    method EvaluateActive(over: map<Email, seq<bool>>, now: Time) returns (limits: map<Email, nat>)
      requires forall e | e in over :: |over[e]| == |rules|
      modifies this`userState
      ensures forall e | e !in over :: StateOf(e) == old(StateOf(e))
      ensures forall e | e in over ::
                var (st, n) := NextUser(old(StateOf(e)), rules, Some(over[e]), now);
                StateOf(e) == st && e in limits && limits[e] == n
    {
      limits := map[];
      var rest := over.Keys;
      while rest != {}
        invariant rest <= over.Keys
        invariant forall e | e !in over || e in rest :: StateOf(e) == old(StateOf(e))
        invariant forall e | e in over && e !in rest ::
                    var (st, n) := NextUser(old(StateOf(e)), rules, Some(over[e]), now);
                    StateOf(e) == st && e in limits && limits[e] == n
        decreases rest
      {
        var e :| e in rest;
        rest := rest - {e};
        var state := if e in userState then userState[e] else FRESH;
        var n: nat := 0;
        if !Limited(state, now) {
          state, n := EvaluateRules(state, over[e], now);
        }
        userState := userState[e := state];
        limits := limits[e := n];
      }
    }

    method EvaluateRules(st: UserState, exceeds: seq<bool>, now: Time) returns (state: UserState, n: nat)
      requires |exceeds| == |rules|
      ensures (state, n) == EvalRules(st, rules, exceeds, now)
    {
      state, n := st, 0;
      for k := 0 to |rules|
        invariant var (s, m) := EvalRules(state, rules[k..], exceeds[k..], now);
                  EvalRules(st, rules, exceeds, now) == (s, n + m)
      {
        assert rules[k..][1..] == rules[k + 1..] && exceeds[k..][1..] == exceeds[k + 1..];
        var fired;
        state, fired := EvaluateRule(state, rules[k], exceeds[k], now);
        if fired {
          n := n + 1;
        }
        if Limited(state, now) {
          return;
        }
      }
    }

    method EvaluateRule(st: UserState, rule: Rule, exceeds: bool, now: Time) returns (state: UserState, fired: bool)
      ensures (state, fired) == EvalRule(st, rule, exceeds, now)
      ensures fired ==> !rule.Unknown? && state.start == None && state.limitedUntil == Some(LimitEnd(rule, now))
      ensures !fired ==> state.limitedUntil == st.limitedUntil
      ensures !exceeds && !rule.Unknown? ==> state.start == None
      ensures rule.Sustained? ==> state.bursts == st.bursts && (fired ==> exceeds && st.start.Some?)
    {
      state, fired := st, false;
      if rule.Sustained? {
        if !exceeds {
          state := state.(start := None);
          return;
        }
        if state.start.None? {
          state := state.(start := Some(now));
          return;
        }
        if now - state.start.value >= rule.seconds * SECOND {
          state := state.(limitedUntil := Some(LimitEnd(rule, now)));
          fired := true;
          state := state.(start := None);
        }
      } else if rule.Burst? {
        var kept := KeepRecent(state.bursts, rule, now);
        state := state.(bursts := kept);
        if exceeds {
          if state.start.None? {
            state := state.(start := Some(now));
          }
        } else {
          if state.start.Some? && now - state.start.value >= rule.minSeconds * SECOND {
            state := state.(bursts := state.bursts + [now]);
          }
          state := state.(start := None);
        }
        if |state.bursts| >= rule.count {
          state := state.(limitedUntil := Some(LimitEnd(rule, now)));
          fired := true;
          state := state.(bursts := [], start := None);
        }
      }
    }

    method KeepRecent(events: seq<Time>, rule: Rule, now: Time) returns (kept: seq<Time>)
      requires rule.Burst?
      ensures kept == InWindow(events, rule, now)
    {
      var cutoff := now - rule.windowSeconds * SECOND;
      kept := [];
      for i := 0 to |events|
        invariant kept == InWindow(events[..i], rule, now)
      {
        assert events[..i + 1] == events[..i] + [events[i]];
        FilterSnoc(events[..i], events[i], (t: Time) => t > cutoff);
        if events[i] > cutoff {
          kept := kept + [events[i]];
        }
      }
      assert events[..|events|] == events;
    }
  }
}
