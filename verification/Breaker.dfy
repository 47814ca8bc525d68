/** The circuit breaker, for calls made one after another. */
module Breaker {
  import opened Domain

  datatype CircuitState = Closed | Open | HalfOpen

  datatype Settings = Settings(threshold: nat, cooldown: nat)
  {
    ghost predicate Valid() { threshold >= 1 }
  }

  /** What the breaker remembers between calls. */
  datatype Gauge = Gauge(state: CircuitState, failures: nat, cooldownAt: Option<Time>)

  const FRESH := Gauge(Closed, 0, None)

  /** One call: when it is made, when its operation ends, and how. */
  datatype Attempt = Attempt(start: Time, finish: Time, ok: bool)

  /** Looking at the state applies the cooldown transition when it is due. */
  function Peek(g: Gauge, now: Time): Gauge {
    if g.state.Open? && g.cooldownAt.Some? && now >= g.cooldownAt.value then Gauge(HalfOpen, 0, g.cooldownAt) else g
  }

  function Settled(s: Settings, g: Gauge, a: Attempt): Gauge {
    if a.ok then Gauge(Closed, 0, g.cooldownAt)
    else if g.failures + 1 >= s.threshold then Gauge(Open, g.failures + 1, Some(a.finish + s.cooldown))
    else g.(failures := g.failures + 1)
  }

  function Called(s: Settings, g: Gauge, a: Attempt): Gauge {
    var p := Peek(g, a.start);
    if p.state.Open? then p else Settled(s, p, a)
  }

  ghost function GaugeAfter(s: Settings, attempts: seq<Attempt>): Gauge {
    if attempts == [] then FRESH else Called(s, GaugeAfter(s, attempts[..|attempts| - 1]), attempts[|attempts| - 1])
  }

  /** The attempts whose operation was invoked. */
  ghost function Invocations(s: Settings, attempts: seq<Attempt>): seq<Attempt> {
    if attempts == [] then [] else
    var (before, a) := (attempts[..|attempts| - 1], attempts[|attempts| - 1]);
    Invocations(s, before) + if Peek(GaugeAfter(s, before), a.start).state.Open? then [] else [a]
  }

  /** Each call ends before the next is made. */
  ghost predicate Sequential(attempts: seq<Attempt>) {
    && (forall i :: 0 <= i < |attempts| ==> attempts[i].start <= attempts[i].finish)
    && (forall i, j :: 0 <= i < j < |attempts| ==> attempts[i].finish <= attempts[j].start)
  }

  ghost predicate AllFail(invoked: seq<Attempt>, from: nat, to: nat)
    requires to <= |invoked|
  {
    forall i :: from <= i < to ==> !invoked[i].ok
  }

  /** How the gauge and the invocations behind it hang together at an instant no attempt has passed. */
  ghost predicate Sound(s: Settings, g: Gauge, invoked: seq<Attempt>, now: Time) {
    && Sequential(invoked)
    && (forall i :: 0 <= i < |invoked| ==> invoked[i].finish <= now)
    && g.failures <= |invoked| && AllFail(invoked, |invoked| - g.failures, |invoked|)
    && (g.state.Open? <==> g.failures == s.threshold)
    && g.failures <= s.threshold
    && (g.state.Open? ==> invoked != [] && g.cooldownAt == Some(invoked[|invoked| - 1].finish + s.cooldown))
    && (!g.state.Open? ==> forall j :: 0 <= j < |invoked| - g.failures && AllFail(invoked, j, |invoked|) ==>
          now >= invoked[j].finish + s.cooldown)
  }

  ghost predicate Spaced(s: Settings, invoked: seq<Attempt>) {
    forall j :: 0 <= j && j + s.threshold < |invoked| && AllFail(invoked, j, j + s.threshold) ==>
      invoked[j + s.threshold].start >= invoked[j].finish + s.cooldown
  }

  lemma PeekIsSound(s: Settings, g: Gauge, invoked: seq<Attempt>, now: Time, later: Time)
    requires s.Valid() && Sound(s, g, invoked, now) && now <= later
    ensures Sound(s, Peek(g, later), invoked, later)
  {
  }

  lemma SettledIsSound(s: Settings, g: Gauge, invoked: seq<Attempt>, a: Attempt)
    requires s.Valid() && Sound(s, g, invoked, a.start) && !g.state.Open? && Spaced(s, invoked) && a.start <= a.finish
    ensures Sound(s, Settled(s, g, a), invoked + [a], a.finish) && Spaced(s, invoked + [a])
  {
    var more := invoked + [a];
    forall j | 0 <= j <= |invoked| && AllFail(more, j, |invoked|) ensures AllFail(invoked, j, |invoked|) {
      assert forall i :: j <= i < |invoked| ==> more[i] == invoked[i];
    }
    forall j | 0 <= j && j + s.threshold < |more| && AllFail(more, j, j + s.threshold)
      ensures more[j + s.threshold].start >= more[j].finish + s.cooldown
    {
      assert forall i :: 0 <= i < |invoked| ==> more[i] == invoked[i];
      if j + s.threshold < |invoked| {
        assert AllFail(invoked, j, j + s.threshold);
      }
    }
  }

  lemma LaterIsSound(s: Settings, g: Gauge, invoked: seq<Attempt>, now: Time, later: Time)
    requires s.Valid() && Sound(s, g, invoked, now) && now <= later
    ensures Sound(s, g, invoked, later)
  {
  }

  lemma CalledIsSound(s: Settings, g: Gauge, invoked: seq<Attempt>, a: Attempt, now: Time)
    requires s.Valid() && Sound(s, g, invoked, a.start) && Spaced(s, invoked) && a.start <= a.finish <= now
    ensures var more := invoked + if Peek(g, a.start).state.Open? then [] else [a];
            Sound(s, Called(s, g, a), more, now) && Spaced(s, more)
  {
    PeekIsSound(s, g, invoked, a.start, a.start);
    if Peek(g, a.start).state.Open? {
      LaterIsSound(s, g, invoked, a.start, now);
      assert invoked + [] == invoked;
    } else {
      SettledIsSound(s, Peek(g, a.start), invoked, a);
      LaterIsSound(s, Called(s, g, a), invoked + [a], a.finish, now);
    }
  }

  lemma {:induction false} CallsAreSound(s: Settings, attempts: seq<Attempt>, now: Time)
    requires s.Valid() && Sequential(attempts) && forall i :: 0 <= i < |attempts| ==> attempts[i].finish <= now
    ensures Sound(s, GaugeAfter(s, attempts), Invocations(s, attempts), now)
    ensures Spaced(s, Invocations(s, attempts))
  {
    if attempts != [] {
      var before, a := attempts[..|attempts| - 1], attempts[|attempts| - 1];
      CallsAreSound(s, before, a.start);
      var g, invoked := GaugeAfter(s, before), Invocations(s, before);
      CalledIsSound(s, g, invoked, a, now);
    }
  }

  /** An open circuit cools down since the last invocation ended. */
  ghost predicate CoolsDown(s: Settings, g: Gauge, invoked: seq<Attempt>) {
    g.state.Open? ==> invoked != [] && g.cooldownAt == Some(invoked[|invoked| - 1].finish + s.cooldown)
  }

  lemma CallOpens(s: Settings, g: Gauge, invoked: seq<Attempt>, a: Attempt)
    requires CoolsDown(s, g, invoked)
    ensures CoolsDown(s, Called(s, g, a), invoked + if Peek(g, a.start).state.Open? then [] else [a])
  {
    if Peek(g, a.start).state.Open? {
      assert invoked + [] == invoked;
    }
  }

  lemma {:induction false} CallsOpen(s: Settings, attempts: seq<Attempt>)
    ensures CoolsDown(s, GaugeAfter(s, attempts), Invocations(s, attempts))
  {
    if attempts != [] {
      var before, a := attempts[..|attempts| - 1], attempts[|attempts| - 1];
      CallsOpen(s, before);
      CallOpens(s, GaugeAfter(s, before), Invocations(s, before), a);
    }
  }

  /** An instant that no attempt has passed. */
  ghost function Horizon(attempts: seq<Attempt>): Time {
    if attempts == [] then 0 else attempts[|attempts| - 1].finish
  }

  /**
   * After `threshold` failing invocations in a row the next one starts at least the cooldown after the first of them
   * ended; and the circuit is open only when the last `threshold` invocations all failed.
   */
  lemma FailuresSpanTheCooldown(s: Settings, attempts: seq<Attempt>)
    requires s.Valid() && Sequential(attempts)
    ensures Spaced(s, Invocations(s, attempts))
    ensures var n := |Invocations(s, attempts)|;
            GaugeAfter(s, attempts).state.Open? ==>
              n >= s.threshold && AllFail(Invocations(s, attempts), n - s.threshold, n)
    ensures GaugeAfter(s, attempts).failures <= s.threshold
  {
    CallsAreSound(s, attempts, Horizon(attempts));
  }

  lemma {:induction false} EveryThresholdth(s: Settings, invoked: seq<Attempt>, from: nat, m: nat)
    requires s.Valid() && Sequential(invoked) && Spaced(s, invoked)
    requires from + m * s.threshold < |invoked| && AllFail(invoked, from, |invoked|)
    ensures invoked[from + m * s.threshold].start >= invoked[from].start + m * s.cooldown
    decreases m
  {
    if m > 0 {
      assert (m - 1) * s.threshold + s.threshold == m * s.threshold;
      assert (m - 1) * s.cooldown + s.cooldown == m * s.cooldown;
      EveryThresholdth(s, invoked, from, m - 1);
      NextThreshold(s, invoked, from, from + (m - 1) * s.threshold);
    }
  }

  lemma NextThreshold(s: Settings, invoked: seq<Attempt>, from: nat, j: nat)
    requires Sequential(invoked) && Spaced(s, invoked) && AllFail(invoked, from, |invoked|)
    requires from <= j && j + s.threshold < |invoked|
    ensures invoked[j + s.threshold].start >= invoked[j].start + s.cooldown
  {
    assert AllFail(invoked, j, j + s.threshold);
  }

  /**
   * A backend that fails throughout a period is invoked at most `threshold` times for every cooldown the period has
   * room for, and once more: `from` is the first invocation in the period, the last is the last so far.
   */
  lemma FailingBackendIsSpared(s: Settings, attempts: seq<Attempt>, from: nat, period: nat)
    requires s.Valid() && s.cooldown > 0 && Sequential(attempts)
    requires var invoked := Invocations(s, attempts);
             from < |invoked| && AllFail(invoked, from, |invoked|)
             && invoked[|invoked| - 1].start <= invoked[from].start + period
    ensures |Invocations(s, attempts)| - from <= s.threshold * (period / s.cooldown + 1)
  {
    var invoked := Invocations(s, attempts);
    CallsAreSound(s, attempts, Horizon(attempts));
    SpacedFailuresAreFew(s, invoked, from, period);
  }

  lemma SpacedFailuresAreFew(s: Settings, invoked: seq<Attempt>, from: nat, period: nat)
    requires s.Valid() && s.cooldown > 0 && Sequential(invoked) && Spaced(s, invoked)
    requires from < |invoked| && AllFail(invoked, from, |invoked|)
    requires invoked[|invoked| - 1].start <= invoked[from].start + period
    ensures |invoked| - from <= s.threshold * (period / s.cooldown + 1)
  {
    var n := |invoked| - from;
    var m := (n - 1) / s.threshold;
    DivisionBounds(n - 1, s.threshold);
    CooldownsFit(s, invoked, from, m, period);
    CountInPeriod(n, s.threshold, m, s.cooldown, period);
  }

  /** A cooldown passes with every `threshold` failing invocations. */
  lemma CooldownsFit(s: Settings, invoked: seq<Attempt>, from: nat, m: nat, period: nat)
    requires s.Valid() && Sequential(invoked) && Spaced(s, invoked) && AllFail(invoked, from, |invoked|)
    requires from + m * s.threshold < |invoked| && invoked[|invoked| - 1].start <= invoked[from].start + period
    ensures m * s.cooldown <= period
  {
    EveryThresholdth(s, invoked, from, m);
    StartsInOrder(invoked, from + m * s.threshold, |invoked| - 1);
  }

  lemma StartsInOrder(invoked: seq<Attempt>, i: nat, j: nat)
    requires Sequential(invoked) && i <= j < |invoked|
    ensures invoked[i].start <= invoked[j].start
  {
  }

  lemma CountInPeriod(n: nat, t: nat, m: nat, c: nat, period: nat)
    requires c > 0 && n <= t * (m + 1) && m * c <= period
    ensures n <= t * (period / c + 1)
  {
    RoomFor(m, c, period);
    Monotone(t, m + 1, period / c + 1);
  }

  lemma DivisionBounds(n: nat, t: nat)
    requires t > 0
    ensures n / t * t <= n < t * (n / t + 1)
  {
  }

  lemma RoomFor(m: nat, c: nat, d: nat)
    requires c > 0 && m * c <= d
    ensures m <= d / c
  {
    DivisionBounds(d, c);
    if m > d / c {
      Monotone(c, d / c + 1, m);
      assert false;
    }
  }

  lemma Monotone(t: nat, a: nat, b: nat)
    requires a <= b
    ensures t * a <= t * b
  {
    assert t * b == t * a + t * (b - a);
  }

  /** While the circuit is open calls are refused and nothing changes; the first call from the cooldown on is a probe. */
  lemma OpenNeverInvokes(s: Settings, attempts: seq<Attempt>, a: Attempt)
    requires GaugeAfter(s, attempts).state.Open?
    ensures var invoked := Invocations(s, attempts);
            invoked != [] &&
            if a.start < invoked[|invoked| - 1].finish + s.cooldown
            then Invocations(s, attempts + [a]) == invoked && GaugeAfter(s, attempts + [a]) == GaugeAfter(s, attempts)
            else Invocations(s, attempts + [a]) == invoked + [a]
  {
    OneMoreAttempt(s, attempts, a);
    CallsOpen(s, attempts);
  }

  lemma OneMoreAttempt(s: Settings, attempts: seq<Attempt>, a: Attempt)
    ensures GaugeAfter(s, attempts + [a]) == Called(s, GaugeAfter(s, attempts), a)
    ensures Invocations(s, attempts + [a])
         == Invocations(s, attempts) + if Peek(GaugeAfter(s, attempts), a.start).state.Open? then [] else [a]
  {
    assert (attempts + [a])[..|attempts|] == attempts;
  }

  class CircuitBreaker {
    const settings: Settings
    var state: CircuitState
    var failures: nat
    var cooldownAt: Option<Time>
    ghost var attempts: seq<Attempt>

    ghost function Reading(): Gauge reads this { Gauge(state, failures, cooldownAt) }

    ghost predicate Valid()
      reads this
    {
      settings.Valid() && Sequential(attempts) && Reading() == GaugeAfter(settings, attempts)
    }

    constructor (threshold: nat, cooldown: nat)
      ensures Valid() && attempts == [] && settings == Settings(if threshold == 0 then 1 else threshold, cooldown)
    {
      settings := Settings(if threshold == 0 then 1 else threshold, cooldown);
      state, failures, cooldownAt, attempts := Closed, 0, None, [];
    }

    method State(now: Time) returns (current: CircuitState)
      modifies this`state, this`failures
      ensures Reading() == Peek(old(Reading()), now) && current == state
      ensures if old(state) == Open && cooldownAt.Some? && now >= cooldownAt.value then state == HalfOpen && failures == 0
              else state == old(state) && failures == old(failures)
    {
      if state == Open {
        if cooldownAt.Some? && now >= cooldownAt.value {
          state := HalfOpen;
          failures := 0;
          return HalfOpen;
        }
        return Open;
      }
      current := state;
    }

    method Allow(now: Time) returns (allowed: bool)
      modifies this`state, this`failures
      ensures Reading() == Peek(old(Reading()), now) && allowed == (state != Open)
    {
      var current := State(now);
      allowed := current != Open;
    }

    method RecordSuccess(ghost a: Attempt)
      requires a.ok
      modifies this`state, this`failures
      ensures Reading() == Settled(settings, old(Reading()), a)
      ensures state == Closed && failures == 0
    {
      failures := 0;
      state := Closed;
    }

    method RecordFailure(finish: Time, ghost a: Attempt)
      requires !a.ok && a.finish == finish
      modifies this`state, this`failures, this`cooldownAt
      ensures Reading() == Settled(settings, old(Reading()), a)
      ensures failures == old(failures) + 1
      ensures if failures >= settings.threshold then state == Open && cooldownAt == Some(finish + settings.cooldown)
              else state == old(state) && cooldownAt == old(cooldownAt)
    {
      failures := failures + 1;
      if failures >= settings.threshold {
        state := Open;
        cooldownAt := Some(finish + settings.cooldown);
      }
    }

    /** The operation is the part of the attempt that runs only when the circuit lets it. */
    method Call(a: Attempt) returns (invoked: bool)
      requires Valid() && Sequential(attempts + [a])
      modifies this
      ensures Valid() && attempts == old(attempts) + [a]
      ensures Invocations(settings, attempts) == Invocations(settings, old(attempts)) + if invoked then [a] else []
    {
      assert (attempts + [a])[..|attempts|] == attempts;
      attempts := attempts + [a];
      var allowed := Allow(a.start);
      if !allowed {
        return false;
      }
      if a.ok {
        RecordSuccess(a);
      } else {
        RecordFailure(a.finish, a);
      }
      invoked := true;
    }
  }
}
