/** What the re-enrolment service answers, in every run: who is let past the limiter, which
    completion gets a certificate, and what every certificate was signed with. */
module ReEnrollReplies {
  import opened ReEnroll

  lemma PossiblePrefix(start: Service, steps: seq<Step>, j: nat)
    requires Possible(start, steps) && j <= |steps|
    ensures Possible(start, steps[..j])
    decreases |steps|
  {
    if j < |steps| {
      PossiblePrefix(start, steps[..|steps| - 1], j);
      assert steps[..|steps| - 1][..j] == steps[..j];
    } else {
      assert steps[..j] == steps;
    }
  }

  /** The answer to the last step of a run. */
  function LastReply(start: Service, steps: seq<Step>): Reply
    requires Possible(start, steps) && steps != []
  {
    Apply(After(start, steps[..|steps| - 1]), steps[|steps| - 1]).1
  }

  // ---------------------------------------------------------------- the limiter

  /** When the host's attempts got past the limiter: every `Complete` of the host that was not
      answered with an exhausted limit. */
  function Passed(start: Service, steps: seq<Step>, host: string): seq<int>
    requires Possible(start, steps)
  {
    if steps == [] then []
    else
      var step := steps[|steps| - 1];
      Passed(start, steps[..|steps| - 1], host) +
      if step.Begin? && step.host == host && LastReply(start, steps) != ResourceExhausted then [step.at] else []
  }

  lemma {:induction false} AdmittedIsPassed(start: Service, steps: seq<Step>, host: string)
    requires Possible(start, steps) && start.admitted == map[]
    ensures EventsOf(After(start, steps).admitted, host) == Passed(start, steps, host)
    decreases |steps|
  {
    if steps != [] {
      var before, step := steps[..|steps| - 1], steps[|steps| - 1];
      AdmittedIsPassed(start, before, host);
      if step.Begin? { BeginCounts(After(start, before), step); } else { OthersKeepLimiters(After(start, before), step); }
    }
  }

  /** How many attempts of the window the pruned deque holds: all of them. */
  lemma {:induction false} CountOfTail(all: seq<int>, lo: int, hi: int, drop: nat)
    requires drop <= |all|
    requires forall i | 0 <= i < drop :: all[i] < lo
    requires forall i | drop <= i < |all| :: lo <= all[i] <= hi
    ensures CountWithin(all, lo, hi) == |all| - drop
  {
    if all != [] { CountOfTail(all[1..], lo, hi, if drop == 0 then 0 else drop - 1); }
  }

  lemma {:induction false} DropOldStops(ts: seq<int>, cutoff: int)
    requires Nondecreasing(ts)
    ensures forall i | 0 <= i < |DropOld(ts, cutoff)| :: DropOld(ts, cutoff)[i] >= cutoff
  {
    if ts != [] && ts[0] < cutoff { DropOldStops(ts[1..], cutoff); }
  }

  lemma KeptIsTheWindow(l: Limit, admitted: seq<int>, ts: seq<int>, clock: int, now: int)
    requires LimiterOk(l, admitted, ts, clock) && clock <= now
    ensures |DropOld(ts, now - l.window)| == CountWithin(admitted, now - l.window, now)
  {
    var kept := DropOld(ts, now - l.window);
    PruneKeepsLimiter(l, admitted, ts, clock, now);
    assert Nondecreasing(ts) by {
      assert forall i | 0 <= i < |ts| :: ts[i] == admitted[|admitted| - |ts| + i];
    }
    DropOldStops(ts, now - l.window);
    var drop := |admitted| - |kept|;
    forall i | drop <= i < |admitted|
      ensures now - l.window <= admitted[i] <= now
    {
      assert kept[i - drop] == admitted[i];
    }
    CountOfTail(admitted, now - l.window, now, drop);
  }

  /** In every run a `Complete` gets past the limiter if and only if fewer than `max` attempts of the
      host did in the closed window that ends now; and it goes on if and only if its timestamp is
      also at most 60 seconds off. */
  lemma LimiterAnswersExactly(start: Service, steps: seq<Step>, step: Step)
    requires Inv(start) && start.admitted == map[] && Possible(start, steps)
    requires Enabled(After(start, steps), step) && step.Begin?
    ensures var reply := Apply(After(start, steps), step).1;
            var room := CountWithin(Passed(start, steps, step.host), step.at - start.limit.window, step.at) < start.limit.max;
            && (reply == ResourceExhausted <==> !room)
            && (reply == Admitted <==> room && -60 <= step.unixNow - step.ts <= 60)
            && (reply == PermissionDenied <==> room && !(-60 <= step.unixNow - step.ts <= 60))
  {
    LimitsKept(start, steps);
    AdmittedIsPassed(start, steps, step.host);
    BeginAnswers(After(start, steps), step);
  }

  lemma LimitsKept(start: Service, steps: seq<Step>)
    requires Inv(start) && Possible(start, steps)
    ensures LimitsInv(After(start, steps)) && After(start, steps).limit == start.limit
  {
    EveryRunKeeps(start, steps);
  }

  lemma BeginAnswers(s: Service, step: Step)
    requires Enabled(s, step) && step.Begin? && LimitsInv(s)
    ensures var reply := Apply(s, step).1;
            var room := CountWithin(EventsOf(s.admitted, step.host), step.at - s.limit.window, step.at) < s.limit.max;
            && (reply == ResourceExhausted <==> !room)
            && (reply == Admitted <==> room && -60 <= step.unixNow - step.ts <= 60)
            && (reply == PermissionDenied <==> room && !(-60 <= step.unixNow - step.ts <= 60))
  {
    assert HostOk(s, step.host);
    KeptIsTheWindow(s.limit, EventsOf(s.admitted, step.host), EventsOf(s.events, step.host), s.clock, step.at);
  }

  // ---------------------------------------------------------------- spent nonces

  /** The nonces that a completion used up: those answered with a certificate, or with a bad request
      after the nonce was accepted. */
  function Spent(start: Service, steps: seq<Step>): set<nat>
    requires Possible(start, steps)
  {
    if steps == [] then {}
    else
      var step, reply := steps[|steps| - 1], LastReply(start, steps);
      Spent(start, steps[..|steps| - 1]) +
      if step.Finish? && (reply == Certificate || reply == InvalidArgument) then {step.nonce} else {}
  }

  ghost predicate Latest(s: Service, host: string, nonce: nat, at: int) {
    exists j: nat :: LatestChallenge(s.challenges, j, host, nonce, at, |s.challenges|)
  }

  /** The cache holds the host's latest nonce exactly while it is unspent and in time; an expired one
      may linger or be gone. */
  ghost predicate CacheTells(s: Service, spent: set<nat>) {
    && (forall n | n in spent :: exists i :: 0 <= i < |s.challenges| && s.challenges[i].nonce == n)
    && (forall host | host in s.nonces ::
          s.nonces[host].nonce !in spent && Latest(s, host, s.nonces[host].nonce, s.nonces[host].at))
    && (forall host: string, nonce: nat, at: int |
          Latest(s, host, nonce, at) && nonce !in spent && s.clock - at <= s.ttl ::
          host in s.nonces && s.nonces[host] == Issued(nonce, at))
  }

  lemma LatestIsUnique(s: Service, host: string, n: nat, at: int, n': nat, at': int)
    requires Latest(s, host, n, at) && Latest(s, host, n', at')
    ensures n == n' && at == at'
  {
    var i: nat :| LatestChallenge(s.challenges, i, host, n, at, |s.challenges|);
    var j: nat :| LatestChallenge(s.challenges, j, host, n', at', |s.challenges|);
    assert i == j;
  }

  /** A challenge makes its nonce the host's latest and leaves the other hosts theirs. */
  lemma LatestAfterChallenge(s: Service, next: Service, host: string, nonce: nat, at: int, h: string, n: nat, t: int)
    requires next.challenges == s.challenges + [Challenged(host, nonce, at)]
    ensures Latest(next, h, n, t) <==> if h == host then n == nonce && t == at else Latest(s, h, n, t)
  {
    var m := |s.challenges|;
    if h == host {
      assert LatestChallenge(next.challenges, m, host, nonce, at, m + 1);
      if Latest(next, h, n, t) { LatestIsUnique(next, h, n, t, nonce, at); }
    } else {
      if Latest(next, h, n, t) {
        var j: nat :| LatestChallenge(next.challenges, j, h, n, t, m + 1);
        assert forall k | 0 <= k < m :: s.challenges[k] == next.challenges[k];
        assert LatestChallenge(s.challenges, j, h, n, t, m);
      }
      if Latest(s, h, n, t) {
        var j: nat :| LatestChallenge(s.challenges, j, h, n, t, m);
        assert LatestChallenge(next.challenges, j, h, n, t, m + 1);
      }
    }
  }

  lemma ChallengeTells(s: Service, next: Service, spent: set<nat>, step: Step)
    requires CacheTells(s, spent) && Enabled(s, step) && step.Challenge?
    requires next == ChallengeStep(s, step.host, step.key, step.nonce, step.at).0.(clock := step.at)
    ensures CacheTells(next, spent)
  {
    if next.challenges == s.challenges {
      SameChallengesTell(s, next, spent);
    } else {
      assert next.challenges == s.challenges + [Challenged(step.host, step.nonce, step.at)];
      assert step.nonce !in spent;
      forall n | n in spent
        ensures exists i :: 0 <= i < |next.challenges| && next.challenges[i].nonce == n
      {
        var i :| 0 <= i < |s.challenges| && s.challenges[i].nonce == n;
        assert next.challenges[i].nonce == n;
      }
      forall host: string, nonce: nat, at: int
        ensures Latest(next, host, nonce, at) <==>
                if host == step.host then nonce == step.nonce && at == step.at else Latest(s, host, nonce, at)
      {
        LatestAfterChallenge(s, next, step.host, step.nonce, step.at, host, nonce, at);
      }
    }
  }

  /** No challenge, no nonce used up: time passes. */
  lemma SameChallengesTell(s: Service, next: Service, spent: set<nat>)
    requires CacheTells(s, spent) && next.challenges == s.challenges && next.ttl == s.ttl && s.clock <= next.clock
    requires next.nonces == s.nonces
    ensures CacheTells(next, spent)
  {
    assert forall h: string, n: nat, t: int :: Latest(next, h, n, t) == Latest(s, h, n, t);
  }

  /** A nonce is taken out of the cache: used up, or found expired. */
  lemma RemovalTells(s: Service, next: Service, spent: set<nat>, host: string, used: bool)
    requires CacheTells(s, spent) && host in s.nonces
    requires next.challenges == s.challenges && next.ttl == s.ttl && s.clock <= next.clock
    requires next.nonces == s.nonces - {host}
    requires !used ==> next.clock - s.nonces[host].at > s.ttl
    requires forall i, j | 0 <= i < j < |s.challenges| :: s.challenges[i].nonce != s.challenges[j].nonce
    ensures CacheTells(next, if used then spent + {s.nonces[host].nonce} else spent)
  {
    var gone := s.nonces[host];
    assert forall h: string, n: nat, t: int :: Latest(next, h, n, t) == Latest(s, h, n, t);
    var k: nat :| LatestChallenge(s.challenges, k, host, gone.nonce, gone.at, |s.challenges|);
    forall h: string, n: nat, t: int | Latest(s, h, n, t)
      ensures n == gone.nonce ==> h == host
      ensures h == host ==> n == gone.nonce && t == gone.at
    {
      var j: nat :| LatestChallenge(s.challenges, j, h, n, t, |s.challenges|);
      if h == host { LatestIsUnique(s, host, n, t, gone.nonce, gone.at); }
    }
  }

  lemma FinishTells(s: Service, spent: set<nat>, step: Step)
    requires CertsInv(s) && CacheTells(s, spent) && Enabled(s, step) && step.Finish?
    ensures var (next, reply) := Apply(s, step);
            CacheTells(next, if reply == Certificate || reply == InvalidArgument then spent + {step.nonce} else spent)
  {
    var (next, reply) := Apply(s, step);
    var host := s.attempts[step.rid].host;
    if next.nonces == s.nonces && !(reply == Certificate || reply == InvalidArgument) {
      SameChallengesTell(s, next, spent);
    } else {
      RemovalTells(s, next, spent, host, reply == Certificate || reply == InvalidArgument);
    }
  }

  lemma {:induction false} EveryCacheTells(start: Service, steps: seq<Step>)
    requires Inv(start) && Possible(start, steps)
    requires start.nonces == map[] && start.challenges == []
    ensures CacheTells(After(start, steps), Spent(start, steps))
    decreases |steps|
  {
    if steps != [] {
      var before, step := steps[..|steps| - 1], steps[|steps| - 1];
      EveryCacheTells(start, before);
      CertsKept(start, before);
      StepTells(After(start, before), Spent(start, before), step);
    }
  }

  lemma CertsKept(start: Service, steps: seq<Step>)
    requires Inv(start) && Possible(start, steps)
    ensures CertsInv(After(start, steps)) && After(start, steps).ttl == start.ttl
  {
    EveryRunKeeps(start, steps);
  }

  lemma StepTells(s: Service, spent: set<nat>, step: Step)
    requires CertsInv(s) && CacheTells(s, spent) && Enabled(s, step)
    ensures var (next, reply) := Apply(s, step);
            CacheTells(next, spent + if step.Finish? && (reply == Certificate || reply == InvalidArgument) then {step.nonce} else {})
  {
    var next := Apply(s, step).0;
    assert spent + {} == spent;
    match step
    case Challenge(_, _, _, _) => ChallengeTells(s, next, spent, step);
    case Begin(_, _, _, _, _) => SameChallengesTell(s, next, spent);
    case Finish(_, _, _, _, _) => FinishTells(s, spent, step);
    case EnrollHost(_, _, _) => SameChallengesTell(s, next, spent);
  }

  /** In every run a completion gets a certificate if and only if the host is enrolled, the signature
      is by the host's enrolled key over host, nonce and the attempt's timestamp, the nonce is that of
      the host's latest challenge, at most ttl old and never used up, and the request is in order. */
  lemma CertificateExactly(ttl: int, limit: Limit, keys: map<string, nat>, clock: int, steps: seq<Step>, step: Step)
    requires Possible(Start(ttl, limit, keys, clock), steps) && step.Finish?
    requires Enabled(After(Start(ttl, limit, keys, clock), steps), step)
    ensures var start := Start(ttl, limit, keys, clock);
            var s := After(start, steps);
            var a := s.attempts[step.rid];
            Apply(s, step).1 == Certificate <==>
              && a.host in s.keys
              && step.sig.key == s.keys[a.host] && step.sig.host == a.host
              && step.sig.nonce == step.nonce && step.sig.ts == a.ts
              && (exists at: int :: Latest(s, a.host, step.nonce, at) && step.at - at <= ttl)
              && step.nonce !in Spent(start, steps)
              && step.csrOk
  {
    var start := Start(ttl, limit, keys, clock);
    var s := After(start, steps);
    StartInv(ttl, limit, keys, clock);
    EveryRunKeeps(start, steps);
    EveryCacheTells(start, steps);
    var host := s.attempts[step.rid].host;
    if host in s.nonces { assert Latest(s, host, s.nonces[host].nonce, s.nonces[host].at); }
    if at: int :| Latest(s, host, step.nonce, at) && step.at - at <= ttl {
      if step.nonce !in Spent(start, steps) { assert s.nonces[host] == Issued(step.nonce, at); }
    }
  }

  // ---------------------------------------------------------------- what a certificate was signed with

  /** Step `k` of the run is a completion that presented a signature by the key enrolled for the host at
      that moment, over this host, this nonce and the timestamp `ts`. */
  ghost predicate SignedAt(start: Service, steps: seq<Step>, k: nat, c: Cert, ts: int)
    requires Possible(start, steps)
  {
    && k < |steps| && steps[k].Finish? && steps[k].rid == c.rid && steps[k].nonce == c.nonce && steps[k].at == c.at
    && (PossiblePrefix(start, steps, k);
        var keys := After(start, steps[..k]).keys;
        c.host in keys && steps[k].sig == Signature(keys[c.host], c.host, c.nonce, ts))
  }

  /** Step `b` of the run began that attempt, with its timestamp at most 60 seconds off. */
  predicate BegunAt(steps: seq<Step>, b: nat, rid: nat, host: string, ts: int) {
    && b < |steps| && steps[b].Begin? && steps[b].rid == rid && steps[b].host == host && steps[b].ts == ts
    && -60 <= steps[b].unixNow - ts <= 60
  }

  ghost predicate AttemptsBegun(s: Service, steps: seq<Step>) {
    forall rid | rid in s.attempts :: exists b: nat :: BegunAt(steps, b, rid, s.attempts[rid].host, s.attempts[rid].ts)
  }

  lemma AttemptsAfter(s: Service, step: Step, rid: nat)
    requires Enabled(s, step) && rid in Apply(s, step).0.attempts
    ensures var a := Apply(s, step).0.attempts[rid];
            if rid in s.attempts then a.host == s.attempts[rid].host && a.ts == s.attempts[rid].ts
            else step.Begin? && step.rid == rid && a.host == step.host && a.ts == step.ts
                 && -60 <= step.unixNow - step.ts <= 60
  {
  }

  lemma {:induction false} EveryAttemptBegan(start: Service, steps: seq<Step>)
    requires Possible(start, steps) && start.attempts == map[]
    ensures AttemptsBegun(After(start, steps), steps)
    decreases |steps|
  {
    if steps != [] {
      var before, step := steps[..|steps| - 1], steps[|steps| - 1];
      EveryAttemptBegan(start, before);
      var s, next := After(start, before), After(start, steps);
      forall rid | rid in next.attempts
        ensures exists b: nat :: BegunAt(steps, b, rid, next.attempts[rid].host, next.attempts[rid].ts)
      {
        AttemptsAfter(s, step, rid);
        if rid in s.attempts {
          var b: nat :| BegunAt(before, b, rid, s.attempts[rid].host, s.attempts[rid].ts);
          assert BegunAt(steps, b, rid, next.attempts[rid].host, next.attempts[rid].ts);
        } else {
          assert BegunAt(steps, |before|, rid, next.attempts[rid].host, next.attempts[rid].ts);
        }
      }
    }
  }

  ghost predicate CertSigned(start: Service, steps: seq<Step>, c: Cert)
    requires Possible(start, steps)
  {
    exists b: nat, k: nat, ts: int :: BegunAt(steps, b, c.rid, c.host, ts) && b < k && SignedAt(start, steps, k, c, ts)
  }

  lemma CertStaysSigned(start: Service, steps: seq<Step>, c: Cert)
    requires Possible(start, steps) && steps != [] && CertSigned(start, steps[..|steps| - 1], c)
    ensures CertSigned(start, steps, c)
  {
    var before := steps[..|steps| - 1];
    var b: nat, k: nat, ts: int :| BegunAt(before, b, c.rid, c.host, ts) && b < k && SignedAt(start, before, k, c, ts);
    assert before[..k] == steps[..k];
    assert BegunAt(steps, b, c.rid, c.host, ts) && SignedAt(start, steps, k, c, ts);
  }

  /** Every certificate of every run came with a signature by the key enrolled for its host at that
      moment, over that host, the certificate's nonce and the timestamp of an attempt that was begun
      earlier with a timestamp in order. */
  lemma {:induction false} CertificatesAreSigned(start: Service, steps: seq<Step>, i: nat)
    requires Possible(start, steps) && start.attempts == map[] && start.certs == []
    requires i < |After(start, steps).certs|
    ensures CertSigned(start, steps, After(start, steps).certs[i])
    decreases |steps|
  {
    var before, step := steps[..|steps| - 1], steps[|steps| - 1];
    var s, next := After(start, before), After(start, steps);
    CertsGrow(s, step);
    if i < |s.certs| {
      CertificatesAreSigned(start, before, i);
      CertStaysSigned(start, steps, s.certs[i]);
    } else {
      EveryAttemptBegan(start, before);
      NewCert(s, step, next.certs[i]);
      NewCertSigned(start, steps, next.certs[i]);
    }
  }

  lemma CertsGrow(s: Service, step: Step)
    requires Enabled(s, step)
    ensures s.certs <= Apply(s, step).0.certs && |Apply(s, step).0.certs| <= |s.certs| + 1
  {
  }

  /** What a completion that adds a certificate presented. */
  lemma NewCert(s: Service, step: Step, c: Cert)
    requires Enabled(s, step) && |Apply(s, step).0.certs| > |s.certs| && c == Apply(s, step).0.certs[|s.certs|]
    ensures step.Finish? && Apply(s, step).0.certs == s.certs + [c]
    ensures c.rid == step.rid && c.nonce == step.nonce && c.at == step.at && c.host == s.attempts[step.rid].host
    ensures c.host in s.keys && step.sig == Signature(s.keys[c.host], c.host, c.nonce, s.attempts[step.rid].ts)
  {
  }

  lemma NewCertSigned(start: Service, steps: seq<Step>, c: Cert)
    requires Possible(start, steps) && steps != []
    requires var s, step := After(start, steps[..|steps| - 1]), steps[|steps| - 1];
             && AttemptsBegun(s, steps[..|steps| - 1]) && step.Finish?
             && c.rid == step.rid && c.nonce == step.nonce && c.at == step.at && c.host == s.attempts[step.rid].host
             && c.host in s.keys && step.sig == Signature(s.keys[c.host], c.host, c.nonce, s.attempts[step.rid].ts)
    ensures CertSigned(start, steps, c)
  {
    var before, s := steps[..|steps| - 1], After(start, steps[..|steps| - 1]);
    var ts := s.attempts[c.rid].ts;
    var b: nat :| BegunAt(before, b, c.rid, c.host, ts);
    assert BegunAt(steps, b, c.rid, c.host, ts);
    assert SignedAt(start, steps, |before|, c, ts);
  }
}
