/**
 * The per-command cool-down: a map from command key to the instant it last
 * fired, with one period shared by every key. Time is an explicit clock
 * reading in nanoseconds instead of `Instant::now()`.
 */
module Ratelimit {
  import opened Primitives

  const NanosPerSecond: nat := 1_000_000_000

  datatype Ratelimiter = Ratelimiter(period: nat, limits: map<string, nat>)

  /** Outcome of one `trigger`: whether the command may run, and the limiter afterwards. */
  datatype Triggered = Triggered(allowed: bool, limiter: Ratelimiter)

  /** `Ratelimiter::new(period_seconds)`: no key has fired yet. */
  function New(periodSeconds: u64): (rl: Ratelimiter)
    ensures rl.limits == map[]
    ensures rl.period == periodSeconds * NanosPerSecond
  {
    Ratelimiter(periodSeconds * NanosPerSecond, map[])
  }

  /** `Instant::elapsed`: time since `t` as seen at `now`, saturating at zero. */
  function Elapsed(t: nat, now: nat): (r: nat)
    ensures t <= now ==> t + r == now
    ensures now < t ==> r == 0
  {
    if t <= now then now - t else 0
  }

  /** `Ratelimiter::trigger(key)` at clock reading `now`. */
  function Trigger(rl: Ratelimiter, key: string, now: nat): (r: Triggered)
    ensures r.allowed <==> key !in rl.limits || Elapsed(rl.limits[key], now) > rl.period
    ensures r.allowed ==> r.limiter == rl.(limits := rl.limits[key := now])
    ensures !r.allowed ==> r.limiter == rl
  {
    if key in rl.limits then
      if Elapsed(rl.limits[key], now) > rl.period then Triggered(true, rl.(limits := rl.limits[key := now]))
      else Triggered(false, rl)
    else Triggered(true, rl.(limits := rl.limits[key := now]))
  }

  /** A key that has never fired is allowed and starts its cool-down at `now`. */
  lemma FirstTriggerAllowed(rl: Ratelimiter, key: string, now: nat)
    requires key !in rl.limits
    ensures Trigger(rl, key, now).allowed
    ensures Trigger(rl, key, now).limiter.limits[key] == now
  {
  }

  /** Elapsed time equal to the period is still inside the cool-down (the test is strict). */
  lemma ExactPeriodDenied(rl: Ratelimiter, key: string, t: nat)
    requires key in rl.limits && rl.limits[key] == t
    ensures !Trigger(rl, key, t + rl.period).allowed
    ensures Trigger(rl, key, t + rl.period + 1).allowed
  {
  }

  /** A trigger touches only its own key's entry and never changes the period. */
  lemma TriggerIsLocal(rl: Ratelimiter, key: string, now: nat, other: string)
    requires other != key
    ensures Trigger(rl, key, now).limiter.period == rl.period
    ensures other in Trigger(rl, key, now).limiter.limits <==> other in rl.limits
    ensures other in rl.limits ==> Trigger(rl, key, now).limiter.limits[other] == rl.limits[other]
  {
  }

  /** Right after an allowed trigger, the same key at the same instant is denied, whatever the period. */
  lemma NoDoubleFire(rl: Ratelimiter, key: string, now: nat)
    requires Trigger(rl, key, now).allowed
    ensures !Trigger(Trigger(rl, key, now).limiter, key, now).allowed
  {
  }

  /** One command request at a clock reading. */
  datatype Request = Request(key: string, at: nat)

  /** Feeding requests to the limiter in order; returns the decisions and the final limiter. */
  function Replay(rl: Ratelimiter, reqs: seq<Request>): (r: (seq<bool>, Ratelimiter))
    ensures |r.0| == |reqs|
    decreases |reqs|
  {
    if |reqs| == 0 then ([], rl)
    else
      var t := Trigger(rl, reqs[0].key, reqs[0].at);
      var rest := Replay(t.limiter, reqs[1..]);
      ([t.allowed] + rest.0, rest.1)
  }

  /** The set of keys with an entry after a replay: the old ones plus every key requested. */
  function Requested(reqs: seq<Request>): set<string> {
    set k | 0 <= k < |reqs| :: reqs[k].key
  }

  /** Entries are created on first use and never removed. */
  lemma {:induction false} ReplayKeys(rl: Ratelimiter, reqs: seq<Request>)
    ensures Replay(rl, reqs).1.limits.Keys == rl.limits.Keys + Requested(reqs)
    ensures Replay(rl, reqs).1.period == rl.period
    decreases |reqs|
  {
    if |reqs| > 0 {
      var t := Trigger(rl, reqs[0].key, reqs[0].at);
      ReplayKeys(t.limiter, reqs[1..]);
      assert Requested(reqs) == {reqs[0].key} + Requested(reqs[1..]) by {
        forall x | x in Requested(reqs) ensures x in {reqs[0].key} + Requested(reqs[1..]) {
          var k :| 0 <= k < |reqs| && reqs[k].key == x;
          if k > 0 { assert reqs[1..][k - 1].key == x; }
        }
      }
    }
  }

  /**
   * Cool-down: once `key` fires at `t`, every request for `key` no later than
   * `t + period` is denied, whatever other keys do in between.
   */
  lemma {:induction false} CooldownHolds(rl: Ratelimiter, key: string, t: nat, reqs: seq<Request>)
    requires key in rl.limits && rl.limits[key] == t
    requires forall k :: 0 <= k < |reqs| ==> t <= reqs[k].at <= t + rl.period
    ensures forall k :: 0 <= k < |reqs| && reqs[k].key == key ==> !Replay(rl, reqs).0[k]
    decreases |reqs|
  {
    if |reqs| > 0 {
      var tr := Trigger(rl, reqs[0].key, reqs[0].at);
      assert key in tr.limiter.limits && tr.limiter.limits[key] == t;
      CooldownHolds(tr.limiter, key, t, reqs[1..]);
      var out := Replay(rl, reqs).0;
      forall k | 0 <= k < |reqs| && reqs[k].key == key ensures !out[k] {
        if k > 0 {
          assert reqs[1..][k - 1] == reqs[k];
        }
      }
    }
  }

  /** The fairness scenario with a five second period: "np" fires, is denied, fires again; "pp" is independent. */
  lemma FiveSecondScenario()
    ensures var s := NanosPerSecond;
      var reqs := [Request("np", 0), Request("np", 1), Request("pp", 1), Request("np", 5 * s), Request("np", 5 * s + 1)];
      Replay(New(5), reqs).0 == [true, false, true, false, true]
  {
    var s := NanosPerSecond;
    var reqs := [Request("np", 0), Request("np", 1), Request("pp", 1), Request("np", 5 * s), Request("np", 5 * s + 1)];
    var r0 := New(5);
    var r1 := Trigger(r0, "np", 0).limiter;
    assert r1.limits == map["np" := 0];
    var r3 := Trigger(Trigger(r1, "np", 1).limiter, "pp", 1).limiter;
    assert r3.limits == map["np" := 0, "pp" := 1];
    assert !Trigger(r3, "np", 5 * s).allowed;
    var r5 := Trigger(r3, "np", 5 * s + 1).limiter;
    assert Replay(r5, []).0 == [];
    assert reqs[4..] == [Request("np", 5 * s + 1)];
    assert Replay(r3, reqs[4..]).0 == [true];
    assert Replay(r3, reqs[3..]).0 == [false, true];
    assert Replay(Trigger(r1, "np", 1).limiter, reqs[2..]).0 == [true, false, true];
    assert Replay(r1, reqs[1..]).0 == [false, true, false, true];
  }
}
