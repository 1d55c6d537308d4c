/** Re-enrolment: one-shot challenge nonces, the sliding-window rate limiter and the order of
    checks in `Challenge` and `Complete`. Clock readings are nondecreasing numbers. */
module ReEnroll {
  // ---------------------------------------------------------------- nonce cache

  datatype Issued = Issued(nonce: nat, at: int)

  function Consume(entries: map<string, Issued>, ttl: int, host: string, nonce: nat, now: int): (map<string, Issued>, bool) {
    if host !in entries then (entries, false)
    else if now - entries[host].at > ttl then (entries - {host}, false)
    else if entries[host].nonce != nonce then (entries, false)
    else (entries - {host}, true)
  }

  class NonceCache {
    const ttl: int
    var entries: map<string, Issued>

    constructor (ttl: int)
      ensures this.ttl == ttl && entries == map[]
    {
      this.ttl := ttl;
      entries := map[];
    }

    /** From now on exactly this nonce is good for the host, once, up to ttl later; what other hosts
        hold is untouched. */
    method Put(host: string, nonce: nat, now: int)
      modifies this
      ensures entries == old(entries)[host := Issued(nonce, now)]
      ensures forall n, at :: Consume(entries, ttl, host, n, at).1 <==> n == nonce && at - now <= ttl
      ensures forall n, at :: Consume(entries, ttl, host, n, at).1 ==> !Consume(Consume(entries, ttl, host, n, at).0, ttl, host, n, at).1
      ensures forall h, n, at | h != host :: Consume(entries, ttl, h, n, at).1 == Consume(old(entries), ttl, h, n, at).1
    {
      entries := entries[host := Issued(nonce, now)];
    }

    method ConsumeNonce(host: string, nonce: nat, now: int) returns (ok: bool)
      modifies this
      ensures (entries, ok) == Consume(old(entries), ttl, host, nonce, now)
    {
      if host !in entries {
        return false;
      }
      var stored := entries[host];
      if now - stored.at > ttl {
        entries := entries - {host};
        return false;
      }
      if stored.nonce != nonce {
        return false;
      }
      entries := entries - {host};
      ok := true;
    }
  }

  // ---------------------------------------------------------------- rate limiter

  datatype Limit = Limit(window: int, max: int)

  function EventsOf(events: map<string, seq<int>>, host: string): seq<int> {
    if host in events then events[host] else []
  }

  function DropOld(ts: seq<int>, cutoff: int): seq<int> {
    if ts != [] && ts[0] < cutoff then DropOld(ts[1..], cutoff) else ts
  }

  /** The host's deque after the call, and whether the attempt is admitted. */
  function Allow(l: Limit, ts: seq<int>, now: int): (seq<int>, bool) {
    var kept := DropOld(ts, now - l.window);
    if |kept| >= l.max then (kept, false) else (kept + [now], true)
  }

  class RateLimiter {
    const limit: Limit
    var events: map<string, seq<int>>

    constructor (limit: Limit)
      ensures this.limit == limit && events == map[]
    {
      this.limit := limit;
      events := map[];
    }

    method AllowAttempt(host: string, now: int) returns (ok: bool)
      modifies this
      ensures var (ts, admitted) := Allow(limit, EventsOf(old(events), host), now);
              ok == admitted && events == old(events)[host := ts]
    {
      var ts := EventsOf(events, host);
      var cutoff := now - limit.window;
      ghost var all := ts;
      while ts != [] && ts[0] < cutoff
        invariant DropOld(ts, cutoff) == DropOld(all, cutoff)
        decreases |ts|
      {
        ts := ts[1..];
      }
      if |ts| >= limit.max {
        events := events[host := ts];
        return false;
      }
      events := events[host := ts + [now]];
      ok := true;
    }
  }

  predicate Nondecreasing(ts: seq<int>) {
    forall i, j | 0 <= i < j < |ts| :: ts[i] <= ts[j]
  }

  /** Any max + 1 attempts admitted in a row span more than the window. */
  predicate Spaced(l: Limit, ts: seq<int>) {
    forall i, j | 0 <= i && j < |ts| && l.max >= 0 && i + l.max <= j :: ts[j] - ts[i] > l.window
  }

  function CountWithin(ts: seq<int>, lo: int, hi: int): nat {
    if ts == [] then 0 else (if lo <= ts[0] <= hi then 1 else 0) + CountWithin(ts[1..], lo, hi)
  }

  lemma {:induction false} CountPrefix(ts: seq<int>, lo: int, hi: int, m: nat)
    requires Nondecreasing(ts) && (|ts| > m ==> ts[m] > hi)
    ensures CountWithin(ts, lo, hi) <= m
    decreases |ts|
  {
    if ts != [] {
      CountPrefix(ts[1..], lo, hi, if m == 0 then 0 else m - 1);
    }
  }

  lemma {:induction false} SpacedCount(l: Limit, ts: seq<int>, lo: int)
    requires Nondecreasing(ts) && Spaced(l, ts) && l.max >= 0
    ensures CountWithin(ts, lo, lo + l.window) <= l.max
    decreases |ts|
  {
    if ts != [] {
      if ts[0] < lo {
        SpacedCount(l, ts[1..], lo);
      } else if ts[0] <= lo + l.window {
        CountPrefix(ts, lo, lo + l.window, l.max);
      } else {
        CountPrefix(ts, lo, lo + l.window, 0);
      }
    }
  }

  /** All attempts admitted so far: in clock order and spaced. */
  ghost predicate AdmittedOk(l: Limit, admitted: seq<int>) {
    Nondecreasing(admitted) && Spaced(l, admitted) && (l.max < 0 ==> admitted == [])
  }

  predicate EndsWith(all: seq<int>, ts: seq<int>) {
    |ts| <= |all| && forall i | 0 <= i < |ts| :: ts[i] == all[|all| - |ts| + i]
  }

  /** The deque is the tail of all admitted attempts, and what was dropped is out of the window. */
  ghost predicate DequeOk(l: Limit, admitted: seq<int>, ts: seq<int>, clock: int) {
    && (forall i | 0 <= i < |admitted| :: admitted[i] <= clock)
    && EndsWith(admitted, ts)
    && (forall i | 0 <= i < |admitted| - |ts| :: admitted[i] < clock - l.window)
  }

  ghost predicate LimiterOk(l: Limit, admitted: seq<int>, ts: seq<int>, clock: int) {
    AdmittedOk(l, admitted) && DequeOk(l, admitted, ts, clock)
  }

  lemma {:induction false} DropOldIsTail(ts: seq<int>, cutoff: int)
    ensures EndsWith(ts, DropOld(ts, cutoff))
    ensures forall i | 0 <= i < |ts| - |DropOld(ts, cutoff)| :: ts[i] < cutoff
  {
    if ts != [] && ts[0] < cutoff { DropOldIsTail(ts[1..], cutoff); }
  }

  lemma PruneKeepsDeque(l: Limit, admitted: seq<int>, ts: seq<int>, clock: int, now: int)
    requires DequeOk(l, admitted, ts, clock) && clock <= now
    ensures DequeOk(l, admitted, DropOld(ts, now - l.window), now)
  {
    var kept := DropOld(ts, now - l.window);
    DropOldIsTail(ts, now - l.window);
    var offset := |admitted| - |ts|;
    forall i | 0 <= i < |admitted| - |kept|
      ensures admitted[i] < now - l.window
    {
      if i >= offset { assert ts[i - offset] == admitted[i]; }
    }
  }

  lemma AdmitKeepsSpacing(l: Limit, admitted: seq<int>, kept: seq<int>, now: int)
    requires AdmittedOk(l, admitted) && DequeOk(l, admitted, kept, now) && |kept| < l.max
    ensures AdmittedOk(l, admitted + [now])
  {
    var grown := admitted + [now];
    forall i, j | 0 <= i && j < |grown| && l.max >= 0 && i + l.max <= j
      ensures grown[j] - grown[i] > l.window
    {
      if j < |admitted| { assert admitted[j] - admitted[i] > l.window; }
    }
  }

  lemma AdmitKeepsDeque(l: Limit, admitted: seq<int>, kept: seq<int>, now: int)
    requires DequeOk(l, admitted, kept, now)
    ensures DequeOk(l, admitted + [now], kept + [now], now)
  {
  }

  lemma PruneKeepsLimiter(l: Limit, admitted: seq<int>, ts: seq<int>, clock: int, now: int)
    requires LimiterOk(l, admitted, ts, clock) && clock <= now
    ensures LimiterOk(l, admitted, DropOld(ts, now - l.window), now)
  {
    PruneKeepsDeque(l, admitted, ts, clock, now);
  }

  lemma AdmitKeepsLimiter(l: Limit, admitted: seq<int>, kept: seq<int>, now: int)
    requires LimiterOk(l, admitted, kept, now) && |kept| < l.max
    ensures LimiterOk(l, admitted + [now], kept + [now], now)
  {
    AdmitKeepsSpacing(l, admitted, kept, now);
    AdmitKeepsDeque(l, admitted, kept, now);
  }

  lemma AllowKeepsLimiter(l: Limit, admitted: seq<int>, ts: seq<int>, clock: int, now: int)
    requires LimiterOk(l, admitted, ts, clock) && clock <= now
    ensures Allow(l, ts, now).1 ==> LimiterOk(l, admitted + [now], Allow(l, ts, now).0, now)
    ensures !Allow(l, ts, now).1 ==> LimiterOk(l, admitted, Allow(l, ts, now).0, now)
  {
    PruneKeepsLimiter(l, admitted, ts, clock, now);
    var kept := DropOld(ts, now - l.window);
    if |kept| < l.max { AdmitKeepsLimiter(l, admitted, kept, now); }
  }

  // ---------------------------------------------------------------- the service

  const TS_SKEW_LIMIT := 60

  /** Signature over the canonical payload of host, nonce and timestamp. */
  datatype Signature = Signature(key: nat, host: string, nonce: nat, ts: int)

  datatype Attempt = Attempt(host: string, ts: int, at: int, finished: bool)
  datatype Challenged = Challenged(host: string, nonce: nat, at: int)
  /** `upTo` is the number of challenges issued before the certificate. */
  datatype Cert = Cert(rid: nat, host: string, nonce: nat, at: int, upTo: nat)

  datatype Service = Service(
    ttl: int, limit: Limit, keys: map<string, nat>,
    nonces: map<string, Issued>, events: map<string, seq<int>>, attempts: map<nat, Attempt>, clock: int,
    challenges: seq<Challenged>, admitted: map<string, seq<int>>, certs: seq<Cert>)

  datatype Step =
    | Challenge(host: string, key: nat, nonce: nat, at: int)
    | Begin(rid: nat, host: string, ts: int, at: int, unixNow: int)
    | Finish(rid: nat, nonce: nat, sig: Signature, csrOk: bool, at: int)
    | EnrollHost(host: string, key: nat, at: int)

  datatype Reply = NotFound | PermissionDenied | ResourceExhausted | InvalidArgument | Nonce(nonce: nat) | Admitted | Certificate | Enrolled

  /** The clock does not run backwards and nonces are fresh; `Finish` continues an attempt that
      passed the limiter and the skew check. */
  predicate Enabled(s: Service, step: Step) {
    && s.clock <= step.at
    && match step
       case Challenge(_, _, nonce, _) => forall i | 0 <= i < |s.challenges| :: s.challenges[i].nonce != nonce
       case Begin(rid, _, _, _, _) => rid !in s.attempts
       case Finish(rid, _, _, _, _) => rid in s.attempts && !s.attempts[rid].finished
       case EnrollHost(_, _, _) => true
  }

  function Abs(x: int): int { if x < 0 then -x else x }

  function ChallengeStep(s: Service, host: string, key: nat, nonce: nat, at: int): (Service, Reply) {
    if host !in s.keys then (s, NotFound)
    else if s.keys[host] != key then (s, PermissionDenied)
    else (s.(nonces := s.nonces[host := Issued(nonce, at)], challenges := s.challenges + [Challenged(host, nonce, at)]),
          Nonce(nonce))
  }

  /** The first part of `Complete`: limiter, then timestamp skew. */
  function BeginStep(s: Service, rid: nat, host: string, ts: int, at: int, unixNow: int): (Service, Reply) {
    var (deque, ok) := Allow(s.limit, EventsOf(s.events, host), at);
    var limited := s.(events := s.events[host := deque]);
    if !ok then (limited, ResourceExhausted)
    else
      var counted := limited.(admitted := s.admitted[host := EventsOf(s.admitted, host) + [at]]);
      if Abs(unixNow - ts) > TS_SKEW_LIMIT then (counted, PermissionDenied)
      else (counted.(attempts := s.attempts[rid := Attempt(host, ts, at, false)]), Admitted)
  }

  /** The second part: host lookup, signature, nonce, certificate request, issue. */
  function FinishStep(s: Service, rid: nat, nonce: nat, sig: Signature, csrOk: bool, at: int): (Service, Reply)
    requires rid in s.attempts
  {
    var a := s.attempts[rid];
    var closed := s.(attempts := s.attempts[rid := a.(finished := true)]);
    if a.host !in s.keys then (closed, NotFound)
    else if sig != Signature(s.keys[a.host], a.host, nonce, a.ts) then (closed, PermissionDenied)
    else
      var (nonces, ok) := Consume(s.nonces, s.ttl, a.host, nonce, at);
      var burned := closed.(nonces := nonces);
      if !ok then (burned, PermissionDenied)
      else if !csrOk then (burned, InvalidArgument)
      else (burned.(certs := s.certs + [Cert(rid, a.host, nonce, at, |s.challenges|)]), Certificate)
  }

  function Apply(s: Service, step: Step): (Service, Reply)
    requires Enabled(s, step)
  {
    var (next, reply) :=
      match step
      case Challenge(host, key, nonce, at) => ChallengeStep(s, host, key, nonce, at)
      case Begin(rid, host, ts, at, unixNow) => BeginStep(s, rid, host, ts, at, unixNow)
      case Finish(rid, nonce, sig, csrOk, at) => FinishStep(s, rid, nonce, sig, csrOk, at)
      case EnrollHost(host, key, _) => (s.(keys := s.keys[host := key]), Enrolled);
    (next.(clock := step.at), reply)
  }

  function Start(ttl: int, limit: Limit, keys: map<string, nat>, clock: int): Service {
    Service(ttl, limit, keys, map[], map[], map[], clock, [], map[], [])
  }

  predicate Possible(start: Service, steps: seq<Step>)
    decreases |steps|, 0
  {
    steps == [] || (Possible(start, steps[..|steps| - 1]) && Enabled(After(start, steps[..|steps| - 1]), steps[|steps| - 1]))
  }

  function After(start: Service, steps: seq<Step>): Service
    requires Possible(start, steps)
    decreases |steps|, 1
  {
    if steps == [] then start else Apply(After(start, steps[..|steps| - 1]), steps[|steps| - 1]).0
  }

  // ---------------------------------------------------------------- certificates

  /** Challenge `j` gave this host this nonce, and none of the challenges before `upTo` replaced it. */
  predicate LatestChallenge(cs: seq<Challenged>, j: nat, host: string, nonce: nat, at: int, upTo: nat) {
    && j < upTo <= |cs| && cs[j] == Challenged(host, nonce, at)
    && forall k | j < k < upTo :: cs[k].host != host
  }

  /** The certificate answers a challenge at most ttl old and not superseded. */
  ghost predicate CertOk(s: Service, c: Cert) {
    && c.rid in s.attempts && s.attempts[c.rid].host == c.host && s.attempts[c.rid].finished
    && exists j: nat, at: int :: LatestChallenge(s.challenges, j, c.host, c.nonce, at, c.upTo) && c.at - at <= s.ttl
  }

  ghost predicate NonceOk(s: Service, host: string)
    requires host in s.nonces
  {
    && (exists j: nat :: LatestChallenge(s.challenges, j, host, s.nonces[host].nonce, s.nonces[host].at, |s.challenges|))
    && forall i | 0 <= i < |s.certs| :: s.certs[i].nonce != s.nonces[host].nonce
  }

  ghost predicate CertsInv(s: Service) {
    && (forall i, j | 0 <= i < j < |s.challenges| :: s.challenges[i].nonce != s.challenges[j].nonce)
    && (forall i | 0 <= i < |s.certs| :: CertOk(s, s.certs[i]))
    && (forall i, j | 0 <= i < j < |s.certs| :: s.certs[i].nonce != s.certs[j].nonce && s.certs[i].rid != s.certs[j].rid)
    && (forall host | host in s.nonces :: NonceOk(s, host))
  }

  lemma ChallengeKeepsCerts(s: Service, step: Step)
    requires CertsInv(s) && Enabled(s, step) && step.Challenge?
    ensures CertsInv(Apply(s, step).0)
  {
    var next := Apply(s, step).0;
    if step.host in s.keys && s.keys[step.host] == step.key {
      assert next.challenges == s.challenges + [Challenged(step.host, step.nonce, step.at)];
      forall i | 0 <= i < |s.certs|
        ensures CertOk(next, next.certs[i]) && s.certs[i].nonce != step.nonce
      {
        assert CertOk(s, s.certs[i]);
        var c := s.certs[i];
        var j: nat, at: int :| LatestChallenge(s.challenges, j, c.host, c.nonce, at, c.upTo) && c.at - at <= s.ttl;
        assert LatestChallenge(next.challenges, j, c.host, c.nonce, at, c.upTo);
      }
      forall host | host in next.nonces
        ensures NonceOk(next, host)
      {
        if host == step.host {
          assert LatestChallenge(next.challenges, |s.challenges|, host, step.nonce, step.at, |next.challenges|);
        } else {
          assert NonceOk(s, host);
          var j: nat :| LatestChallenge(s.challenges, j, host, s.nonces[host].nonce, s.nonces[host].at, |s.challenges|);
          assert LatestChallenge(next.challenges, j, host, s.nonces[host].nonce, s.nonces[host].at, |next.challenges|);
        }
      }
    } else {
      SameCerts(s, next);
    }
  }

  /** Nothing that certificates depend on changed, except finished attempts and dropped nonces. */
  lemma SameCerts(s: Service, next: Service)
    requires CertsInv(s) && next.challenges == s.challenges && next.certs == s.certs && next.ttl == s.ttl
    requires forall rid | rid in s.attempts ::
               && rid in next.attempts && next.attempts[rid].host == s.attempts[rid].host
               && (s.attempts[rid].finished ==> next.attempts[rid].finished)
    requires forall host | host in next.nonces :: host in s.nonces && next.nonces[host] == s.nonces[host]
    ensures CertsInv(next)
  {
    forall i | 0 <= i < |next.certs|
      ensures CertOk(next, next.certs[i])
    {
      assert CertOk(s, s.certs[i]);
    }
    forall host | host in next.nonces
      ensures NonceOk(next, host)
    {
      assert NonceOk(s, host);
    }
  }

  lemma IssueKeepsCerts(s: Service, burned: Service, rid: nat, nonce: nat, at: int)
    requires CertsInv(s) && CertsInv(burned) && rid in s.attempts && !s.attempts[rid].finished
    requires var host := s.attempts[rid].host;
             && host in s.nonces && s.nonces[host].nonce == nonce && at - s.nonces[host].at <= s.ttl
             && burned.nonces == s.nonces - {host}
             && burned.attempts == s.attempts[rid := s.attempts[rid].(finished := true)]
    requires burned.challenges == s.challenges && burned.certs == s.certs && burned.ttl == s.ttl
    ensures CertsInv(burned.(certs := s.certs + [Cert(rid, s.attempts[rid].host, nonce, at, |s.challenges|)]))
  {
    var host := s.attempts[rid].host;
    var c := Cert(rid, host, nonce, at, |s.challenges|);
    var next := burned.(certs := s.certs + [c]);
    assert NonceOk(s, host);
    forall i | 0 <= i < |next.certs|
      ensures CertOk(next, next.certs[i])
    {
      if i < |s.certs| { assert CertOk(burned, burned.certs[i]); }
    }
    forall i | 0 <= i < |s.certs|
      ensures s.certs[i].nonce != nonce && s.certs[i].rid != rid
    {
      assert CertOk(s, s.certs[i]);
    }
    forall h | h in next.nonces
      ensures NonceOk(next, h)
    {
      assert NonceOk(burned, h) && NonceOk(s, h);
      OneHostPerNonce(s, h, host);
    }
  }

  /** Two hosts never hold the same live nonce. */
  lemma OneHostPerNonce(s: Service, a: string, b: string)
    requires CertsInv(s) && a in s.nonces && b in s.nonces && a != b
    ensures s.nonces[a].nonce != s.nonces[b].nonce
  {
    assert NonceOk(s, a) && NonceOk(s, b);
    var i: nat :| LatestChallenge(s.challenges, i, a, s.nonces[a].nonce, s.nonces[a].at, |s.challenges|);
    var j: nat :| LatestChallenge(s.challenges, j, b, s.nonces[b].nonce, s.nonces[b].at, |s.challenges|);
  }

  lemma {:induction false} FinishKeepsCerts(s: Service, step: Step)
    requires CertsInv(s) && Enabled(s, step) && step.Finish?
    ensures CertsInv(Apply(s, step).0)
  {
    var a := s.attempts[step.rid];
    var closed := s.(attempts := s.attempts[step.rid := a.(finished := true)]);
    var (nonces, ok) := Consume(s.nonces, s.ttl, a.host, step.nonce, step.at);
    var burned := closed.(nonces := nonces, clock := step.at);
    SameCerts(s, closed.(clock := step.at));
    SameCerts(s, burned);
    if ok { IssueKeepsCerts(s, burned, step.rid, step.nonce, step.at); }
  }

  ghost predicate HostOk(s: Service, host: string) {
    LimiterOk(s.limit, EventsOf(s.admitted, host), EventsOf(s.events, host), s.clock)
  }

  ghost predicate LimitsInv(s: Service) {
    forall host: string :: HostOk(s, host)
  }

  /** A step that leaves the host's deque and record alone only lets time pass. */
  lemma TimePasses(s: Service, next: Service, host: string)
    requires HostOk(s, host) && next.limit == s.limit && s.clock <= next.clock
    requires EventsOf(next.events, host) == EventsOf(s.events, host)
    requires EventsOf(next.admitted, host) == EventsOf(s.admitted, host)
    ensures HostOk(next, host)
  {
  }

  /** What the limiter does at the start of a `Complete`, whatever the later checks decide. */
  lemma BeginCounts(s: Service, step: Step)
    requires Enabled(s, step) && step.Begin?
    ensures var next, (deque, ok) := Apply(s, step).0, Allow(s.limit, EventsOf(s.events, step.host), step.at);
            && next.limit == s.limit && next.clock == step.at && next.events == s.events[step.host := deque]
            && next.admitted == (if ok then s.admitted[step.host := EventsOf(s.admitted, step.host) + [step.at]] else s.admitted)
  {
  }

  lemma {:induction false} BeginKeepsHost(s: Service, step: Step, host: string)
    requires Enabled(s, step) && HostOk(s, host) && step.Begin?
    ensures HostOk(Apply(s, step).0, host)
  {
    var next := Apply(s, step).0;
    BeginCounts(s, step);
    if host == step.host {
      AllowKeepsLimiter(s.limit, EventsOf(s.admitted, host), EventsOf(s.events, host), s.clock, step.at);
    } else {
      TimePasses(s, next, host);
    }
  }

  lemma OthersKeepLimiters(s: Service, step: Step)
    requires Enabled(s, step) && !step.Begin?
    ensures var next := Apply(s, step).0;
            next.events == s.events && next.admitted == s.admitted && next.limit == s.limit && next.clock == step.at
  {
  }

  lemma StepKeepsLimits(s: Service, step: Step)
    requires LimitsInv(s) && Enabled(s, step)
    ensures LimitsInv(Apply(s, step).0)
  {
    forall host: string
      ensures HostOk(Apply(s, step).0, host)
    {
      if step.Begin? {
        BeginKeepsHost(s, step, host);
      } else {
        OthersKeepLimiters(s, step);
        TimePasses(s, Apply(s, step).0, host);
      }
    }
  }

  lemma {:induction false} StepKeepsCerts(s: Service, step: Step)
    requires CertsInv(s) && Enabled(s, step)
    ensures CertsInv(Apply(s, step).0)
  {
    match step
    case Challenge(_, _, _, _) => ChallengeKeepsCerts(s, step);
    case Begin(_, _, _, _, _) => SameCerts(s, Apply(s, step).0);
    case Finish(_, _, _, _, _) => FinishKeepsCerts(s, step);
    case EnrollHost(_, _, _) => SameCerts(s, Apply(s, step).0);
  }

  ghost predicate Inv(s: Service) {
    CertsInv(s) && LimitsInv(s)
  }

  lemma StepKeepsInv(s: Service, step: Step)
    requires Inv(s) && Enabled(s, step)
    ensures Inv(Apply(s, step).0)
    ensures Apply(s, step).0.limit == s.limit && Apply(s, step).0.ttl == s.ttl
  {
    StepKeepsCerts(s, step);
    StepKeepsLimits(s, step);
  }

  lemma {:induction false} EveryRunKeeps(start: Service, steps: seq<Step>)
    requires Inv(start) && Possible(start, steps)
    ensures Inv(After(start, steps)) && After(start, steps).limit == start.limit && After(start, steps).ttl == start.ttl
    decreases |steps|
  {
    if steps != [] {
      EveryRunKeeps(start, steps[..|steps| - 1]);
      StepKeepsInv(After(start, steps[..|steps| - 1]), steps[|steps| - 1]);
    }
  }

  lemma StartInv(ttl: int, limit: Limit, keys: map<string, nat>, clock: int)
    ensures Inv(Start(ttl, limit, keys, clock))
  {
  }

  /** Every certificate of every run answers its own challenge: a nonce handed to that host at
      most ttl before, with no later challenge for the host in between, and no two certificates
      share a nonce or an admitted attempt. */
  lemma CertificatesMatchChallenges(
    ttl: int, limit: Limit, keys: map<string, nat>, clock: int, steps: seq<Step>, i: nat, k: nat)
    requires Possible(Start(ttl, limit, keys, clock), steps)
    requires i <= k < |After(Start(ttl, limit, keys, clock), steps).certs|
    ensures var s := After(Start(ttl, limit, keys, clock), steps);
            && CertOk(s, s.certs[i]) && s.ttl == ttl
            && (i != k ==> s.certs[i].nonce != s.certs[k].nonce && s.certs[i].rid != s.certs[k].rid)
  {
    StartInv(ttl, limit, keys, clock);
    EveryRunKeeps(Start(ttl, limit, keys, clock), steps);
  }

  /** Any closed interval of window length holds at most `max` admitted attempts of a host. */
  lemma AtMostMaxPerWindow(
    ttl: int, limit: Limit, keys: map<string, nat>, clock: int, steps: seq<Step>, host: string, lo: int)
    requires Possible(Start(ttl, limit, keys, clock), steps)
    ensures var s := After(Start(ttl, limit, keys, clock), steps);
            CountWithin(EventsOf(s.admitted, host), lo, lo + limit.window) <= if limit.max < 0 then 0 else limit.max
  {
    StartInv(ttl, limit, keys, clock);
    EveryRunKeeps(Start(ttl, limit, keys, clock), steps);
    var s := After(Start(ttl, limit, keys, clock), steps);
    var admitted := EventsOf(s.admitted, host);
    assert HostOk(s, host);
    if limit.max >= 0 { SpacedCount(limit, admitted, lo); }
  }
}
