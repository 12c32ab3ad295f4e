/** The login rate limiter: a fixed window per address, started by the attempt that finds the last one over. */
module RateLimit {
  import opened Wrappers

  /** Attempts counted in the current window, and the window's start. */
  datatype Window = Window(count: int, start: int)

  datatype Limits = Limits(windowMs: int, maxAttempts: int)

  datatype Attempt = Attempt(ip: string, now: int)

  /** Whether an attempt is let in, and the address's window afterwards. */
  function Judge(w: Option<Window>, now: int, l: Limits): (bool, Window) {
    if w == None || now - w.value.start > l.windowMs then (true, Window(1, now))
    else if w.value.count >= l.maxAttempts then (false, w.value)
    else (true, Window(w.value.count + 1, w.value.start))
  }

  class Limiter {
    const limits: Limits
    var rateLimits: map<string, Window>

    constructor (limits: Limits)
      ensures rateLimits == map[] && this.limits == limits
    {
      this.limits := limits;
      rateLimits := map[];
    }

    method CheckRateLimit(ip: string, now: int) returns (ok: bool)
      modifies this
      ensures var v := Judge(Get(old(rateLimits), ip), now, limits);
              ok == v.0 && rateLimits == old(rateLimits)[ip := v.1]
      ensures !ok ==> rateLimits == old(rateLimits)
    {
      if ip !in rateLimits || now - rateLimits[ip].start > limits.windowMs {
        rateLimits := rateLimits[ip := Window(1, now)];
        return true;
      }
      var w := rateLimits[ip];
      if w.count >= limits.maxAttempts { return false; }
      rateLimits := rateLimits[ip := Window(w.count + 1, w.start)];
      return true;
    }
  }

  // ---------------------------------------------------------------- runs

  /** The answers to a trace of attempts from any addresses. */
  function Answers(m: map<string, Window>, trace: seq<Attempt>, l: Limits): (r: seq<bool>)
    ensures |r| == |trace|
    decreases |trace|
  {
    if trace == [] then [] else
      var v := Judge(Get(m, trace[0].ip), trace[0].now, l);
      [v.0] + Answers(m[trace[0].ip := v.1], trace[1..], l)
  }

  /** How many attempts of one address with a time in [from, from + windowMs] are let in. */
  function Accepted(trace: seq<Attempt>, answers: seq<bool>, ip: string, from: int, l: Limits): nat
    requires |answers| == |trace|
  {
    if trace == [] then 0 else
      (if trace[0].ip == ip && answers[0] && from <= trace[0].now <= from + l.windowMs then 1 else 0) +
      Accepted(trace[1..], answers[1..], ip, from, l)
  }

  predicate Monotone(trace: seq<Attempt>, since: int) {
    (forall i :: 0 <= i < |trace| ==> since <= trace[i].now) &&
    (forall i, j :: 0 <= i < j < |trace| ==> trace[i].now <= trace[j].now)
  }

  /** A window lets in its first attempt even if the maximum is below 1. */
  function Quota(l: Limits): int { if l.maxAttempts < 1 then 1 else l.maxAttempts }

  /** The most that is ever let in during an interval as long as the window. A window of nothing is over with its
      own millisecond; a negative one makes the interval empty. */
  function Most(l: Limits): int { if l.windowMs < 0 then 0 else if l.windowMs == 0 then Quota(l) else 2 * Quota(l) - 1 }

  /** What can still be let in during the interval, given the address's window and the time reached. A window
      that started inside the interval is the last that can: the next starts beyond its end. */
  function Room(w: Option<Window>, since: int, from: int, l: Limits): int {
    if since > from + l.windowMs then 0
    else if w == None then Most(l)
    else if w.value.start >= from then Quota(l) - w.value.count
    else if since < from then Most(l)
    else if l.windowMs == 0 then Quota(l)
    else 2 * Quota(l) - w.value.count
  }

  predicate Sound(w: Option<Window>, since: int, l: Limits) {
    w == None || (1 <= w.value.count <= Quota(l) && w.value.start <= since)
  }

  lemma {:induction false} RoomSuffices(m: map<string, Window>, trace: seq<Attempt>, since: int, ip: string, from: int, l: Limits)
    requires Monotone(trace, since) && Sound(Get(m, ip), since, l)
    ensures Accepted(trace, Answers(m, trace, l), ip, from, l) <= Room(Get(m, ip), since, from, l)
    decreases |trace|
  {
    if trace != [] {
      var a := trace[0];
      var v := Judge(Get(m, a.ip), a.now, l);
      var m' := m[a.ip := v.1];
      assert Answers(m, trace, l)[1..] == Answers(m', trace[1..], l);
      RoomSuffices(m', trace[1..], a.now, ip, from, l);
    }
  }

  /** In every closed interval as long as the window an address gets in at most 2 * max - 1 attempts (once, if the
      maximum is below 1; max, if the window is 0), whatever other addresses do. */
  lemma IntervalBound(trace: seq<Attempt>, since: int, ip: string, from: int, l: Limits)
    requires Monotone(trace, since)
    ensures Accepted(trace, Answers(map[], trace, l), ip, from, l) <= Most(l)
  {
    RoomSuffices(map[], trace, since, ip, from, l);
  }

  // ---------------------------------------------------------------- no refusal without cause

  /** What the current window adds to an interval that begins at `from`. */
  function Carried(w: Option<Window>, from: int): int { if w.Some? && w.value.start >= from then w.value.count else 0 }

  lemma {:induction false} RefusedFrom(m: map<string, Window>, trace: seq<Attempt>, since: int, i: nat, l: Limits)
    requires Monotone(trace, since) && i < |trace| && Sound(Get(m, trace[i].ip), since, l)
    requires !Answers(m, trace, l)[i]
    ensures var a := trace[i];
            Accepted(trace[..i], Answers(m, trace, l)[..i], a.ip, a.now - l.windowMs, l) +
            Carried(Get(m, a.ip), a.now - l.windowMs) >= l.maxAttempts
    decreases |trace|
  {
    if i > 0 {
      var first, a := trace[0], trace[i];
      var v := Judge(Get(m, first.ip), first.now, l);
      var m' := m[first.ip := v.1];
      var answers := Answers(m, trace, l);
      assert answers[1..] == Answers(m', trace[1..], l);
      RefusedFrom(m', trace[1..], first.now, i - 1, l);
      assert trace[..i][1..] == trace[1..][..i - 1] && answers[..i][1..] == answers[1..][..i - 1];
    }
  }

  /** An attempt is refused only if `max` attempts of its address were let in during the window's length before it. */
  lemma RefusedOnlyWhenFull(trace: seq<Attempt>, since: int, i: nat, l: Limits)
    requires Monotone(trace, since) && i < |trace| && !Answers(map[], trace, l)[i]
    ensures Accepted(trace[..i], Answers(map[], trace, l)[..i], trace[i].ip, trace[i].now - l.windowMs, l) >= l.maxAttempts
  {
    RefusedFrom(map[], trace, since, i, l);
  }

  // ---------------------------------------------------------------- the bound is met

  function Repeat(a: Attempt, n: nat): seq<Attempt> { seq(n, _ => a) }

  /** One attempt, the rest of its window's quota at the window's last moment, then the next one's just after it. */
  function WorstCase(ip: string, l: Limits): seq<Attempt> {
    if l.windowMs < 0 then [] else
      [Attempt(ip, 0)] + Repeat(Attempt(ip, l.windowMs), Quota(l) - 1) + Repeat(Attempt(ip, l.windowMs + 1), Quota(l))
  }

  predicate InInterval(now: int, from: int, l: Limits) { from <= now <= from + l.windowMs }

  lemma OneAttempt(m: map<string, Window>, a: Attempt, rest: seq<Attempt>, from: int, l: Limits)
    ensures var v, trace := Judge(Get(m, a.ip), a.now, l), [a] + rest;
            Accepted(trace, Answers(m, trace, l), a.ip, from, l) ==
            (if v.0 && InInterval(a.now, from, l) then 1 else 0) +
            Accepted(rest, Answers(m[a.ip := v.1], rest, l), a.ip, from, l)
  {
    var v, trace := Judge(Get(m, a.ip), a.now, l), [a] + rest;
    assert trace[1..] == rest;
    assert Answers(m, trace, l)[1..] == Answers(m[a.ip := v.1], rest, l);
  }

  /** `n` attempts at one moment of the current window, all of which fit. */
  lemma {:induction false} Burst(m: map<string, Window>, ip: string, now: int, n: nat, rest: seq<Attempt>, from: int, l: Limits)
    requires ip in m && 0 <= now - m[ip].start <= l.windowMs && 1 <= m[ip].count && m[ip].count + n <= Quota(l)
    ensures var trace, m' := Repeat(Attempt(ip, now), n) + rest, m[ip := Window(m[ip].count + n, m[ip].start)];
            Accepted(trace, Answers(m, trace, l), ip, from, l) ==
            (if InInterval(now, from, l) then n else 0) + Accepted(rest, Answers(m', rest, l), ip, from, l)
    decreases n
  {
    var trace, a := Repeat(Attempt(ip, now), n) + rest, Attempt(ip, now);
    if n == 0 {
      assert trace == rest && m[ip := Window(m[ip].count, m[ip].start)] == m;
    } else {
      var m1, others := m[ip := Window(m[ip].count + 1, m[ip].start)], Repeat(a, n - 1) + rest;
      assert trace == [a] + others;
      OneAttempt(m, a, others, from, l);
      Burst(m1, ip, now, n - 1, rest, from, l);
      assert m1[ip := Window(m1[ip].count + (n - 1), m1[ip].start)] == m[ip := Window(m[ip].count + n, m[ip].start)];
    }
  }

  /** A quota's worth of attempts at one moment that finds no window open. */
  lemma FreshBurst(m: map<string, Window>, ip: string, now: int, rest: seq<Attempt>, from: int, l: Limits)
    requires (ip in m ==> now - m[ip].start > l.windowMs) && l.windowMs >= 0
    ensures var trace, m' := Repeat(Attempt(ip, now), Quota(l)) + rest, m[ip := Window(Quota(l), now)];
            Accepted(trace, Answers(m, trace, l), ip, from, l) ==
            (if InInterval(now, from, l) then Quota(l) else 0) + Accepted(rest, Answers(m', rest, l), ip, from, l)
  {
    var a, m1 := Attempt(ip, now), m[ip := Window(1, now)];
    var others := Repeat(a, Quota(l) - 1) + rest;
    assert Repeat(a, Quota(l)) + rest == [a] + others;
    OneAttempt(m, a, others, from, l);
    Burst(m1, ip, now, Quota(l) - 1, rest, from, l);
    assert m1[ip := Window(Quota(l), now)] == m[ip := Window(Quota(l), now)];
  }

  lemma WorstCaseIsMonotone(ip: string, l: Limits)
    ensures Monotone(WorstCase(ip, l), 0)
  {
  }

  /** The first window of the worst case: one attempt at its start and the rest of the quota at its end. */
  lemma FullWindow(ip: string, rest: seq<Attempt>, l: Limits)
    requires l.windowMs >= 0
    ensures var trace := [Attempt(ip, 0)] + Repeat(Attempt(ip, l.windowMs), Quota(l) - 1) + rest;
            Accepted(trace, Answers(map[], trace, l), ip, l.windowMs, l) ==
            Quota(l) - (if l.windowMs == 0 then 0 else 1) +
            Accepted(rest, Answers(map[ip := Window(Quota(l), 0)], rest, l), ip, l.windowMs, l)
  {
    var none: map<string, Window>, w := map[], l.windowMs;
    var others := Repeat(Attempt(ip, w), Quota(l) - 1) + rest;
    assert [Attempt(ip, 0)] + Repeat(Attempt(ip, w), Quota(l) - 1) + rest == [Attempt(ip, 0)] + others;
    OneAttempt(none, Attempt(ip, 0), others, w, l);
    assert none[ip := Window(1, 0)] == map[ip := Window(1, 0)];
    Burst(map[ip := Window(1, 0)], ip, w, Quota(l) - 1, rest, w, l);
    assert map[ip := Window(1, 0)][ip := Window(Quota(l), 0)] == map[ip := Window(Quota(l), 0)];
  }

  /** The bound cannot be improved, whatever the limits. */
  lemma BoundIsMet(ip: string, l: Limits)
    ensures var trace := WorstCase(ip, l);
            && Monotone(trace, 0)
            && Accepted(trace, Answers(map[], trace, l), ip, l.windowMs, l) == Most(l)
  {
    WorstCaseIsMonotone(ip, l);
    if l.windowMs >= 0 {
      var late := Repeat(Attempt(ip, l.windowMs + 1), Quota(l));
      FullWindow(ip, late, l);
      assert late + [] == late;
      FreshBurst(map[ip := Window(Quota(l), 0)], ip, l.windowMs + 1, [], l.windowMs, l);
    }
  }

  // ---------------------------------------------------------------- independence

  function Only(trace: seq<Attempt>, ip: string): seq<Attempt> {
    if trace == [] then []
    else if trace[0].ip == ip then [trace[0]] + Only(trace[1..], ip) else Only(trace[1..], ip)
  }

  function AnswersTo(trace: seq<Attempt>, answers: seq<bool>, ip: string): seq<bool>
    requires |answers| == |trace|
  {
    if trace == [] then []
    else if trace[0].ip == ip then [answers[0]] + AnswersTo(trace[1..], answers[1..], ip)
    else AnswersTo(trace[1..], answers[1..], ip)
  }

  /** Addresses do not affect each other: an address gets the answers it would get alone. */
  lemma {:induction false} AddressesAreIndependent(m: map<string, Window>, alone: map<string, Window>,
                                                   trace: seq<Attempt>, ip: string, l: Limits)
    requires Get(m, ip) == Get(alone, ip)
    ensures AnswersTo(trace, Answers(m, trace, l), ip) == Answers(alone, Only(trace, ip), l)
    decreases |trace|
  {
    if trace != [] {
      var a := trace[0];
      var next := m[a.ip := Judge(Get(m, a.ip), a.now, l).1];
      assert Answers(m, trace, l)[1..] == Answers(next, trace[1..], l);
      if a.ip == ip {
        assert Only(trace, ip)[1..] == Only(trace[1..], ip);
        AddressesAreIndependent(next, alone[ip := Judge(Get(alone, ip), a.now, l).1], trace[1..], ip, l);
      } else {
        AddressesAreIndependent(next, alone, trace[1..], ip, l);
      }
    }
  }

  /** The attempts that are let in. */
  function Admitted(m: map<string, Window>, trace: seq<Attempt>, l: Limits): seq<Attempt>
    decreases |trace|
  {
    if trace == [] then [] else
      var v := Judge(Get(m, trace[0].ip), trace[0].now, l);
      var rest := Admitted(m[trace[0].ip := v.1], trace[1..], l);
      if v.0 then [trace[0]] + rest else rest
  }

  /** Refusals never extend a window: had the refused attempts not been made, the others would all have been
      let in just the same. */
  lemma {:induction false} RefusalsLeaveNoTrace(m: map<string, Window>, trace: seq<Attempt>, l: Limits)
    ensures forall ok :: ok in Answers(m, Admitted(m, trace, l), l) ==> ok
    decreases |trace|
  {
    if trace != [] {
      var a := trace[0];
      var v := Judge(Get(m, a.ip), a.now, l);
      var next := m[a.ip := v.1];
      RefusalsLeaveNoTrace(next, trace[1..], l);
      if v.0 {
        assert Admitted(m, trace, l)[1..] == Admitted(next, trace[1..], l);
      } else {
        assert a.ip in m && v.1 == m[a.ip];
        assert next == m;
      }
    }
  }
}
