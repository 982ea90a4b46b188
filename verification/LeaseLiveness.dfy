/** The heartbeat loop, the Worker's lease and the runner's liveness fence, as interleaved steps over
    real time: beats are lost, answered late, handled after they were given up, or refused. */
module LeaseLiveness {

  const MARGIN := 15.0

  /** The lease is what the Worker grants; claimDelay and maxAge are its answer delay to a claim and
      the age up to which it extends a lease. */
  datatype Config = Config(interval: real, lease: real, beatTimeout: real, claimDelay: real, maxAge: real)

  /** What the agent's settings accept, and an age limit that lets at least one beat extend. */
  predicate Accepted(c: Config) {
    && 1.0 <= c.interval <= 600.0 && 10.0 <= c.lease <= 1800.0
    && 0.05 <= c.beatTimeout <= 120.0 && c.claimDelay >= 0.0 && c.maxAge >= c.interval
    && c.interval + MARGIN < c.lease
  }

  /** The settings that are refused, one by one. */
  lemma RefusedSettings(c: Config)
    ensures !Accepted(c) <==>
      || c.interval < 1.0 || c.interval > 600.0 || c.lease < 10.0 || c.lease > 1800.0
      || c.beatTimeout < 0.05 || c.beatTimeout > 120.0 || c.lease <= c.interval + 15.0
      || c.claimDelay < 0.0 || c.maxAge < c.interval
  {}

  function Limit(c: Config): real { 3.0 * c.interval + MARGIN }

  function Max(a: real, b: real): real { if a >= b then a else b }

  /** The condition under which the fence is sound. */
  predicate FenceBound(c: Config) { Limit(c) + Max(c.beatTimeout, c.claimDelay) < c.lease }

  // ---------------------------------------------------------------- the steps

  datatype Answer = Unhandled | Extended(at: real) | Refused

  datatype Beat = Beat(sentAt: real, answer: Answer)

  /** Worker: expires, and since when the lease is held (time 0). Runner: the rest. */
  datatype State = State(now: real, expires: real, last: real, fenced: bool, stopped: bool,
    nextBeat: real, beats: seq<Beat>, awaiting: Wait)

  datatype Wait = Idle | For(beat: nat)

  datatype Action =
    | Tick(to: real)
    | Send
    | Handle(beat: nat)
    | Receive
    | GiveUp
    | Guard

  /** The claim was granted at time 0 and its answer received after the delay. */
  function Claimed(c: Config, delay: real): State {
    State(delay, c.lease, delay, false, false, delay + c.interval, [], Idle)
  }

  /** A pending beat is resolved in time; a punctual loop also sends as soon as the interval is over.
      The Worker may handle a beat at any time after it was sent, given up or not. */
  predicate Enabled(c: Config, s: State, a: Action, punctual: bool) {
    match a
    case Tick(to) =>
      && to >= s.now
      && (s.awaiting.For? && s.awaiting.beat < |s.beats| ==> to <= s.beats[s.awaiting.beat].sentAt + c.beatTimeout)
      && (punctual && s.awaiting.Idle? && !s.stopped ==> to <= s.nextBeat)
    case Send => s.awaiting.Idle? && !s.stopped && s.now >= s.nextBeat
    case Handle(i) => i < |s.beats| && s.beats[i].answer.Unhandled?
    case Receive => s.awaiting.For? && s.awaiting.beat < |s.beats| && !s.beats[s.awaiting.beat].answer.Unhandled?
    case GiveUp => s.awaiting.For?
    case Guard => true
  }

  function Apply(c: Config, s: State, a: Action): State
    requires exists punctual :: Enabled(c, s, a, punctual)
  {
    match a
    case Tick(to) => s.(now := to)
    case Send => s.(beats := s.beats + [Beat(s.now, Unhandled)], awaiting := For(|s.beats|))
    case Handle(i) =>
      if s.expires > s.now && s.now <= c.maxAge
      then s.(expires := s.now + c.lease, beats := s.beats[i := Beat(s.beats[i].sentAt, Extended(s.now))])
      else s.(beats := s.beats[i := Beat(s.beats[i].sentAt, Refused)])
    case Receive =>
      if s.beats[s.awaiting.beat].answer.Extended?
      then s.(last := s.now, awaiting := Idle, nextBeat := s.now + c.interval)
      else s.(fenced := true, stopped := true, awaiting := Idle)
    case GiveUp => s.(awaiting := Idle, nextBeat := s.now + c.interval)
    case Guard => s.(fenced := s.fenced || s.now - s.last > Limit(c))
  }

  /** A check at this moment lets the job go on. */
  predicate GuardPasses(c: Config, s: State) { !s.fenced && s.now - s.last <= Limit(c) }

  ghost predicate Possible(c: Config, s: State, actions: seq<Action>, punctual: bool)
    decreases |actions|
  {
    actions == [] || (Enabled(c, s, actions[0], punctual)
      && Possible(c, Apply(c, s, actions[0]), actions[1..], punctual))
  }

  ghost function After(c: Config, s: State, actions: seq<Action>, punctual: bool): State
    requires Possible(c, s, actions, punctual)
    decreases |actions|
  {
    if actions == [] then s else After(c, Apply(c, s, actions[0]), actions[1..], punctual)
  }

  /** In every run, whenever a guard passes, the Worker still holds the lease. */
  ghost predicate Safe(c: Config, punctual: bool) {
    forall delay: real, actions: seq<Action> |
      0.0 <= delay <= c.claimDelay && Possible(c, Claimed(c, delay), actions, punctual) ::
      HoldsWhenPassed(c, After(c, Claimed(c, delay), actions, punctual))
  }

  predicate HoldsWhenPassed(c: Config, s: State) { GuardPasses(c, s) ==> s.now < s.expires }

  // ---------------------------------------------------------------- safety

  /** The Worker's expiry never falls behind the last beat the runner counts on. */
  ghost predicate Inv(c: Config, s: State) {
    && s.last - Max(c.beatTimeout, c.claimDelay) + c.lease <= s.expires <= s.now + c.lease
    && (forall i | 0 <= i < |s.beats| && s.beats[i].answer.Extended? ::
          s.beats[i].sentAt <= s.beats[i].answer.at && s.beats[i].answer.at + c.lease <= s.expires)
    && (forall i | 0 <= i < |s.beats| :: s.beats[i].sentAt <= s.now)
    && (s.awaiting.For? ==> s.awaiting.beat < |s.beats| && s.now <= s.beats[s.awaiting.beat].sentAt + c.beatTimeout)
  }

  lemma StepKeeps(c: Config, s: State, a: Action, punctual: bool)
    requires Accepted(c) && Inv(c, s) && Enabled(c, s, a, punctual)
    ensures Inv(c, Apply(c, s, a))
  {}

  lemma {:induction false} RunKeeps(c: Config, s: State, actions: seq<Action>, punctual: bool)
    requires Accepted(c) && Inv(c, s) && Possible(c, s, actions, punctual)
    ensures Inv(c, After(c, s, actions, punctual))
    decreases |actions|
  {
    if actions != [] {
      StepKeeps(c, s, actions[0], punctual);
      RunKeeps(c, Apply(c, s, actions[0]), actions[1..], punctual);
    }
  }

  lemma BoundIsEnough(c: Config, punctual: bool)
    requires Accepted(c) && FenceBound(c)
    ensures Safe(c, punctual)
  {
    forall delay: real, actions: seq<Action> |
      0.0 <= delay <= c.claimDelay && Possible(c, Claimed(c, delay), actions, punctual)
      ensures HoldsWhenPassed(c, After(c, Claimed(c, delay), actions, punctual))
    {
      RunKeeps(c, Claimed(c, delay), actions, punctual);
    }
  }

  /** Some run from the claim leads to the state. */
  ghost predicate Reachable(c: Config, s: State, punctual: bool) {
    exists delay: real, actions: seq<Action> ::
      0.0 <= delay <= c.claimDelay && Possible(c, Claimed(c, delay), actions, punctual)
      && s == After(c, Claimed(c, delay), actions, punctual)
  }

  lemma ReachableHolds(c: Config, s: State, punctual: bool)
    requires Accepted(c) && FenceBound(c) && Reachable(c, s, punctual)
    ensures HoldsWhenPassed(c, s)
  {
    hide HoldsWhenPassed, FenceBound, Accepted;
    BoundIsEnough(c, punctual);
  }

  // ---------------------------------------------------------------- the rhythm of the beats

  predicate Gap(c: Config, a: Beat, b: Beat, punctual: bool) {
    a.sentAt + c.interval <= b.sentAt && (punctual ==> b.sentAt <= a.sentAt + c.interval + c.beatTimeout)
  }

  ghost predicate Gaps(c: Config, beats: seq<Beat>, punctual: bool) {
    forall i | 0 <= i < |beats| - 1 :: Gap(c, beats[i], beats[i + 1], punctual)
  }

  /** The next beat keeps its distance too; a punctual loop is late by one answer at most. */
  predicate OnTime(c: Config, s: State, punctual: bool) {
    var n := |s.beats|;
    && (s.awaiting.For? ==> 0 < n == s.awaiting.beat + 1 && s.now <= s.beats[n - 1].sentAt + c.beatTimeout)
    && (n > 0 ==> s.beats[n - 1].sentAt <= s.now)
    && (n > 0 && s.awaiting.Idle? && !s.stopped ==>
          s.beats[n - 1].sentAt + c.interval <= s.nextBeat <= s.beats[n - 1].sentAt + c.interval + c.beatTimeout)
    && (punctual && s.awaiting.Idle? && !s.stopped ==> s.now <= s.nextBeat)
  }

  ghost predicate Timed(c: Config, s: State, punctual: bool) { Gaps(c, s.beats, punctual) && OnTime(c, s, punctual) }

  lemma OnTimeStep(c: Config, s: State, a: Action, punctual: bool)
    requires Accepted(c) && OnTime(c, s, punctual) && Enabled(c, s, a, punctual)
    ensures OnTime(c, Apply(c, s, a), punctual)
    ensures a.Send? && s.beats != [] ==> Gap(c, s.beats[|s.beats| - 1], Beat(s.now, Unhandled), punctual)
  {}

  lemma TimedStep(c: Config, s: State, a: Action, punctual: bool)
    requires Accepted(c) && Timed(c, s, punctual) && Enabled(c, s, a, punctual)
    ensures Timed(c, Apply(c, s, a), punctual)
  {
    OnTimeStep(c, s, a, punctual);
    hide OnTime, Accepted;
    var t := Apply(c, s, a);
    forall i | 0 <= i < |t.beats| - 1
      ensures Gap(c, t.beats[i], t.beats[i + 1], punctual)
    {
      if i + 1 < |s.beats| { assert Gap(c, s.beats[i], s.beats[i + 1], punctual); }
    }
  }

  lemma {:induction false} TimedRun(c: Config, s: State, actions: seq<Action>, punctual: bool)
    requires Accepted(c) && Timed(c, s, punctual) && Possible(c, s, actions, punctual)
    ensures Timed(c, After(c, s, actions, punctual), punctual)
    decreases |actions|
  {
    hide Timed, Accepted;
    if actions != [] {
      TimedStep(c, s, actions[0], punctual);
      TimedRun(c, Apply(c, s, actions[0]), actions[1..], punctual);
    }
  }

  /** In every run two beats are at least the interval apart, and those of a punctual loop no more
      than the interval and the time a beat may take. */
  lemma BeatsAreSpaced(c: Config, delay: real, actions: seq<Action>, punctual: bool, i: nat)
    requires Accepted(c) && Possible(c, Claimed(c, delay), actions, punctual)
    requires i + 1 < |After(c, Claimed(c, delay), actions, punctual).beats|
    ensures var beats := After(c, Claimed(c, delay), actions, punctual).beats;
      var gap := beats[i + 1].sentAt - beats[i].sentAt;
      c.interval <= gap && (punctual ==> gap <= c.interval + c.beatTimeout)
  {
    TimedRun(c, Claimed(c, delay), actions, punctual);
  }

  // ---------------------------------------------------------------- the runner's own objects

  datatype BeatResult = Renewed | Refusal | TransientFailure

  /** The step that a result handed to the heartbeat loop stands for. */
  function StepOf(result: BeatResult): Action {
    if result.TransientFailure? then GiveUp else Receive
  }

  /** The result is what the awaited beat was answered with, or the loop gives the beat up. */
  predicate Answers(s: State, result: BeatResult) {
    && s.awaiting.For? && s.awaiting.beat < |s.beats|
    && (result.Renewed? ==> s.beats[s.awaiting.beat].answer.Extended?)
    && (result.Refusal? ==> s.beats[s.awaiting.beat].answer.Refused?)
  }

  class LeaseWatch {
    const c: Config
    var lastSuccessfulBeat: real
    var fenced: bool

    constructor (c: Config, now: real)
      ensures this.c == c && Watches(Claimed(c, now))
    {
      this.c, lastSuccessfulBeat, fenced := c, now, false;
    }

    /** The object holds the runner's part of the state. */
    ghost predicate Watches(s: State)
      reads this
    {
      lastSuccessfulBeat == s.last && fenced == s.fenced
    }

    /** What the heartbeat loop does with a result realises the step of the run; it stops exactly
        when the run does. */
    method OnBeat(result: BeatResult, now: real, ghost s: State, ghost punctual: bool) returns (stop: bool)
      requires Watches(s) && s.now == now && !s.stopped && Answers(s, result)
      modifies this
      ensures Enabled(c, s, StepOf(result), punctual) && Watches(Apply(c, s, StepOf(result)))
      ensures stop == Apply(c, s, StepOf(result)).stopped
    {
      assert Enabled(c, s, StepOf(result), punctual);
      stop := false;
      if result.Renewed? {
        lastSuccessfulBeat := now;
      } else if result.Refusal? {
        fenced := true;
        stop := true;
      }
    }

    /** The check realises the guard of the run and raises exactly when that does not pass. Under
        the bound, a check that does not raise has seen an unexpired lease. */
    method CheckLivenessFence(now: real, ghost s: State, ghost punctual: bool) returns (raises: bool)
      requires Watches(s) && s.now == now
      modifies this`fenced
      ensures Enabled(c, s, Guard, punctual) && Watches(Apply(c, s, Guard))
      ensures raises <==> !GuardPasses(c, s)
      ensures Accepted(c) && FenceBound(c) && Reachable(c, s, punctual) && !raises ==> now < s.expires
    {
      assert Enabled(c, s, Guard, punctual);
      if Accepted(c) && FenceBound(c) && Reachable(c, s, punctual) { ReachableHolds(c, s, punctual); }
      if fenced { return true; }
      var elapsed := now - lastSuccessfulBeat;
      raises := elapsed > Limit(c);
      fenced := raises;
    }
  }

  // ---------------------------------------------------------------- the bound is also necessary

  lemma {:induction false} RunInTwo(c: Config, s: State, first: seq<Action>, second: seq<Action>, punctual: bool)
    requires Possible(c, s, first, punctual) && Possible(c, After(c, s, first, punctual), second, punctual)
    ensures Possible(c, s, first + second, punctual)
    ensures After(c, s, first + second, punctual) == After(c, After(c, s, first, punctual), second, punctual)
    decreases |first|
  {
    if first == [] {
      assert first + second == second;
    } else {
      assert (first + second)[0] == first[0] && (first + second)[1..] == first[1..] + second;
      RunInTwo(c, Apply(c, s, first[0]), first[1..], second, punctual);
    }
  }

  /** A punctual run is also a run of a loop that may be late. */
  lemma {:induction false} PunctualIsPossible(c: Config, s: State, actions: seq<Action>)
    requires Possible(c, s, actions, true)
    ensures Possible(c, s, actions, false) && After(c, s, actions, false) == After(c, s, actions, true)
    decreases |actions|
  {
    if actions != [] {
      PunctualIsPossible(c, Apply(c, s, actions[0]), actions[1..]);
    }
  }

  lemma OneStep(c: Config, s: State, a: Action, punctual: bool)
    requires Enabled(c, s, a, punctual)
    ensures Possible(c, s, [a], punctual) && After(c, s, [a], punctual) == Apply(c, s, a)
  {
    assert [a][1..] == [];
  }

  lemma MoreStep(c: Config, s: State, actions: seq<Action>, a: Action, punctual: bool)
    requires Possible(c, s, actions, punctual) && Enabled(c, After(c, s, actions, punctual), a, punctual)
    ensures Possible(c, s, actions + [a], punctual)
    ensures After(c, s, actions + [a], punctual) == Apply(c, After(c, s, actions, punctual), a)
  {
    OneStep(c, After(c, s, actions, punctual), a, punctual);
    RunInTwo(c, s, actions, [a], punctual);
  }

  predicate Waiting(s: State) { s.awaiting.Idle? && !s.stopped && s.nextBeat >= s.now }

  predicate SameLease(s: State, t: State) { t.expires == s.expires && t.last == s.last && t.fenced == s.fenced }

  /** Time can pass with every beat failing: neither side notices anything. */
  lemma Coast(c: Config, s: State, to: real) returns (actions: seq<Action>)
    requires Accepted(c) && Waiting(s) && to >= s.now
    ensures Possible(c, s, actions, true)
    ensures After(c, s, actions, true).now == to && SameLease(s, After(c, s, actions, true))
    decreases if to > s.nextBeat then (to - s.nextBeat).Floor + 1 else 0
  {
    if to <= s.nextBeat {
      actions := [Tick(to)];
      OneStep(c, s, Tick(to), true);
    } else {
      var lost := [Tick(s.nextBeat)];
      OneStep(c, s, Tick(s.nextBeat), true);
      MoreStep(c, s, lost, Send, true);
      MoreStep(c, s, lost + [Send], GiveUp, true);
      lost := lost + [Send] + [GiveUp];
      var rest := Coast(c, After(c, s, lost, true), to);
      RunInTwo(c, s, lost, rest, true);
      actions := lost + rest;
    }
  }

  /** A slow claim answer, then only failing beats. */
  lemma SlowClaim(c: Config) returns (actions: seq<Action>)
    requires Accepted(c) && Limit(c) + c.claimDelay >= c.lease
    ensures Possible(c, Claimed(c, c.claimDelay), actions, true)
    ensures !HoldsWhenPassed(c, After(c, Claimed(c, c.claimDelay), actions, true))
  {
    actions := Coast(c, Claimed(c, c.claimDelay), c.claimDelay + Limit(c));
  }

  /** One slow but successful beat, then only failing ones. */
  lemma SlowBeat(c: Config) returns (actions: seq<Action>)
    requires Accepted(c) && Limit(c) + c.beatTimeout >= c.lease
    ensures Possible(c, Claimed(c, 0.0), actions, true)
    ensures !HoldsWhenPassed(c, After(c, Claimed(c, 0.0), actions, true))
  {
    var s, sent := Claimed(c, 0.0), c.interval;
    OneStep(c, s, Tick(sent), true);
    MoreStep(c, s, [Tick(sent)], Send, true);
    MoreStep(c, s, [Tick(sent)] + [Send], Handle(0), true);
    MoreStep(c, s, [Tick(sent)] + [Send] + [Handle(0)], Tick(sent + c.beatTimeout), true);
    MoreStep(c, s, [Tick(sent)] + [Send] + [Handle(0)] + [Tick(sent + c.beatTimeout)], Receive, true);
    var first := [Tick(sent)] + [Send] + [Handle(0)] + [Tick(sent + c.beatTimeout)] + [Receive];
    var t := After(c, s, first, true);
    var rest := Coast(c, t, t.now + Limit(c));
    RunInTwo(c, s, first, rest, true);
    actions := first + rest;
  }

  /** The fence is sound exactly under the bound, whether or not the loop is punctual. */
  lemma SafeExactly(c: Config, punctual: bool)
    requires Accepted(c)
    ensures Safe(c, punctual) <==> FenceBound(c)
  {
    if FenceBound(c) {
      BoundIsEnough(c, punctual);
    } else {
      var delay := if c.claimDelay >= c.beatTimeout then c.claimDelay else 0.0;
      var actions;
      if c.claimDelay >= c.beatTimeout {
        actions := SlowClaim(c);
      } else {
        actions := SlowBeat(c);
      }
      PunctualIsPossible(c, Claimed(c, delay), actions);
      assert Possible(c, Claimed(c, delay), actions, punctual);
      assert !HoldsWhenPassed(c, After(c, Claimed(c, delay), actions, punctual));
    }
  }

  /** With the other defaults the fence is sound exactly when a claim is answered within 105 s. */
  lemma DefaultsExactly(claimDelay: real, maxAge: real, punctual: bool)
    requires claimDelay >= 0.0 && maxAge >= 60.0
    ensures Safe(Config(60.0, 300.0, 10.0, claimDelay, maxAge), punctual) <==> claimDelay < 105.0
  {
    hide Safe;
    SafeExactly(Config(60.0, 300.0, 10.0, claimDelay, maxAge), punctual);
  }

  /** A claim answered within 30 s is safe under the default settings; other settings the validator
      accepts are unsafe even then. */
  lemma DefaultsAreSafe(maxAge: real, punctual: bool)
    requires maxAge >= 60.0
    ensures Safe(Config(60.0, 300.0, 10.0, 30.0, maxAge), punctual)
    ensures Accepted(Config(100.0, 300.0, 10.0, 30.0, maxAge + 40.0))
            && !Safe(Config(100.0, 300.0, 10.0, 30.0, maxAge + 40.0), punctual)
  {
    hide Safe;
    DefaultsExactly(30.0, maxAge, punctual);
    SafeExactly(Config(100.0, 300.0, 10.0, 30.0, maxAge + 40.0), punctual);
  }

  // ---------------------------------------------------------------- after the lease is gone

  /** An expired lease is never revived by the beats of its holder. */
  lemma {:induction false} ExpiredStays(c: Config, s: State, actions: seq<Action>, punctual: bool)
    requires Possible(c, s, actions, punctual) && s.now >= s.expires
    ensures var t := After(c, s, actions, punctual); t.now >= t.expires == s.expires
    decreases |actions|
  {
    if actions != [] {
      ExpiredStays(c, Apply(c, s, actions[0]), actions[1..], punctual);
    }
  }

  /** Once fenced, no later guard passes. */
  lemma {:induction false} FencedStays(c: Config, s: State, actions: seq<Action>, punctual: bool)
    requires Possible(c, s, actions, punctual) && s.fenced
    ensures !GuardPasses(c, After(c, s, actions, punctual))
    decreases |actions|
  {
    if actions != [] {
      FencedStays(c, Apply(c, s, actions[0]), actions[1..], punctual);
    }
  }
}
