/** The circuit breaker around the shared rate limiter. Times are nanoseconds. */
module Breaker {
  import opened Common
  import PolicyStore

  // ---- Replies ----------------------------------------------------------

  datatype QuotaRequest = QuotaRequest(decision: PolicyStore.Decision, requestsPerMinute: int, burst: int)

  datatype QuotaResult = QuotaResult(allowed: bool, retryAfter: int, reason: string)

  datatype Value = Number(n: int) | Words(s: string)

  const MILLISECOND: int := 1_000_000
  const MAX_INT64: int := 0x7fff_ffff_ffff_ffff

  /** Three values: allowed or not, milliseconds to wait, and a reason. */
  function DecodeQuotaResult(values: seq<Value>): (r: Option<QuotaResult>)
    ensures r.Some? ==> 0 <= r.value.retryAfter <= MAX_INT64
  {
    if |values| != 3 then None
    else if !values[0].Number? || !values[1].Number? || !values[2].Words? then None
    else if (values[0].n != 0 && values[0].n != 1) || values[1].n < 0 || values[1].n > MAX_INT64 / MILLISECOND then None
    else Some(QuotaResult(values[0].n == 1, values[1].n * MILLISECOND, values[2].s))
  }

  function EncodeQuotaResult(r: QuotaResult): seq<Value> {
    [Number(if r.allowed then 1 else 0), Number(r.retryAfter / MILLISECOND), Words(r.reason)]
  }

  /** A reply is accepted exactly when it says a result whose wait is whole milliseconds and fits in 64 bits of
      nanoseconds. */
  lemma DecodeExactly(values: seq<Value>, r: QuotaResult)
    ensures DecodeQuotaResult(values) == Some(r) <==>
            values == EncodeQuotaResult(r) && 0 <= r.retryAfter <= MAX_INT64 && r.retryAfter % MILLISECOND == 0
  {
  }

  // ---- One call ---------------------------------------------------------

  /** Where a call is. sawOpen says that it found the circuit open and won the right to probe. */
  datatype Pc =
    | Ready
    | Opened(until: int)
    | Trying
    | Talking(sawOpen: bool)
    | Answered(sawOpen: bool, ok: bool)
    | Leaving(sawOpen: bool)
    | Returned(talked: bool)

  /** What all calls share, and where each of them is. */
  datatype State = State(blockedUntil: int, probing: bool, calls: map<nat, Pc>)

  /** What happens to one call: it begins; it takes its next step, which may look at the clock; or the store replies to
      it. */
  datatype Event = Begin(call: nat) | Next(call: nat, now: int) | Reply(call: nat, ok: bool)

  function PcOf(s: State, call: nat): Pc { if call in s.calls then s.calls[call] else Ready }

  function At(s: State, call: nat, pc: Pc): State { s.(calls := s.calls[call := pc]) }

  /** One atomic step; an event that the call is not ready for does nothing. */
  function After(s: State, e: Event, backoff: int): State {
    match e
    case Begin(call) => if call in s.calls then s else At(s, call, Ready)
    case Reply(call, ok) =>
      if call in s.calls && s.calls[call].Talking? then At(s, call, Answered(s.calls[call].sawOpen, ok)) else s
    case Next(call, now) =>
      if call !in s.calls then s
      else
        match s.calls[call]
        case Ready => At(s, call, if s.blockedUntil == 0 then Talking(false) else Opened(s.blockedUntil))
        case Opened(until) => At(s, call, if now < until then Returned(false) else Trying)
        case Trying => if s.probing then At(s, call, Returned(false)) else At(s, call, Talking(true)).(probing := true)
        case Talking(_) => s
        case Answered(sawOpen, ok) => At(s, call, Leaving(sawOpen)).(blockedUntil := if ok then 0 else now + backoff)
        case Leaving(sawOpen) => if sawOpen then At(s, call, Returned(true)).(probing := false)
          else At(s, call, Returned(true))
        case Returned(_) => s
  }

  function Run(events: seq<Event>, backoff: int): State {
    if events == [] then State(0, false, map[])
    else After(Run(events[..|events| - 1], backoff), events[|events| - 1], backoff)
  }

  // ---- Every interleaving -----------------------------------------------

  /** The call found the circuit open, and talks to the store or has just done so. */
  predicate Probes(s: State, call: nat) {
    call in s.calls &&
    match s.calls[call]
    case Talking(sawOpen) => sawOpen
    case Answered(sawOpen, _) => sawOpen
    case Leaving(sawOpen) => sawOpen
    case _ => false
  }

  /** The flag is set exactly while one call probes, and no two calls ever do. */
  ghost predicate OneProbe(s: State) {
    && (s.probing <==> exists call :: Probes(s, call))
    && (forall a, b :: Probes(s, a) && Probes(s, b) ==> a == b)
  }

  lemma StepKeepsOneProbe(s: State, e: Event, backoff: int)
    requires OneProbe(s)
    ensures OneProbe(After(s, e, backoff))
  {
    var s' := After(s, e, backoff);
    assert forall call :: call != e.call ==> (Probes(s', call) <==> Probes(s, call));
    forall a, b | Probes(s', a) && Probes(s', b) ensures s'.probing && a == b {
      assert Probes(s, e.call) ==> (a == e.call || !Probes(s, a)) && (b == e.call || !Probes(s, b));
      assert (a == e.call || Probes(s, a)) && (b == e.call || Probes(s, b));
    }
    if s'.probing {
      if s.probing {
        var holder :| Probes(s, holder);
        assert Probes(s', holder);
      } else {
        assert Probes(s', e.call);
      }
    }
  }

  /** In every interleaving, at most one call that saw an open circuit talks to the store. */
  lemma {:induction false} ProbesAreAlone(events: seq<Event>, backoff: int)
    ensures OneProbe(Run(events, backoff))
  {
    if events != [] {
      ProbesAreAlone(events[..|events| - 1], backoff);
      StepKeepsOneProbe(Run(events[..|events| - 1], backoff), events[|events| - 1], backoff);
    }
  }

  /** The steps that bring a probing call to its end, if the store replies ok at time now. */
  function Finish(s: State, call: nat, ok: bool, now: int): seq<Event> {
    if call !in s.calls then []
    else
      match s.calls[call]
      case Talking(_) => [Reply(call, ok), Next(call, now), Next(call, now)]
      case Answered(_, _) => [Next(call, now), Next(call, now)]
      case Leaving(_) => [Next(call, now)]
      case _ => []
  }

  function Then(s: State, events: seq<Event>, backoff: int): State
    decreases |events|
  {
    if events == [] then s else Then(After(s, events[0], backoff), events[1..], backoff)
  }

  lemma {:induction false} ThenRuns(before: seq<Event>, events: seq<Event>, backoff: int)
    ensures Then(Run(before, backoff), events, backoff) == Run(before + events, backoff)
    decreases |events|
  {
    if events == [] {
      assert before + events == before;
    } else {
      assert (before + [events[0]])[..|before|] == before;
      ThenRuns(before + [events[0]], events[1..], backoff);
      assert before + [events[0]] + events[1..] == before + events;
    }
  }

  /** The flag is never lost: whenever it is set, some call holds it, and that call's own remaining steps clear it,
      whatever the store replies. */
  lemma FlagIsReleased(events: seq<Event>, backoff: int, ok: bool, now: int) returns (holder: nat)
    requires Run(events, backoff).probing
    ensures Probes(Run(events, backoff), holder)
    ensures var rest := Finish(Run(events, backoff), holder, ok, now);
            && 1 <= |rest| <= 3
            && (forall i :: 0 <= i < |rest| ==> rest[i].call == holder)
            && !Run(events + rest, backoff).probing
  {
    ProbesAreAlone(events, backoff);
    var s := Run(events, backoff);
    holder :| Probes(s, holder);
    var rest := Finish(s, holder, ok, now);
    ThenRuns(events, rest, backoff);
    FinishClears(s, holder, ok, now, backoff);
  }

  lemma FinishClears(s: State, call: nat, ok: bool, now: int, backoff: int)
    requires Probes(s, call)
    ensures !Then(s, Finish(s, call, ok, now), backoff).probing
  {
    var rest := Finish(s, call, ok, now);
    var one := After(s, rest[0], backoff);
    if |rest| == 2 {
      assert rest[1..] == [rest[1]];
      ThenOne(one, rest[1], backoff);
    }
    if |rest| == 3 {
      assert rest[1..] == [rest[1], rest[2]];
      assert [rest[1], rest[2]][1..] == [rest[2]];
      ThenOne(After(one, rest[1], backoff), rest[2], backoff);
    }
  }

  lemma ThenOne(s: State, e: Event, backoff: int)
    ensures Then(s, [e], backoff) == After(s, e, backoff)
  {
    assert [e][1..] == [];
  }

  /** A call is turned away only while the circuit it saw is still open, or while another call probes; and it then
      leaves the shared state alone. */
  lemma TurnedAwayForCause(events: seq<Event>, e: Event, backoff: int)
    requires var s, s' := Run(events, backoff), After(Run(events, backoff), e, backoff);
             e.call in s.calls && !s.calls[e.call].Returned? && e.call in s'.calls
               && s'.calls[e.call] == Returned(false)
    ensures var s, s' := Run(events, backoff), After(Run(events, backoff), e, backoff);
            && ((exists other :: other != e.call && Probes(s, other))
                || (s.calls[e.call].Opened? && e.Next? && e.now < s.calls[e.call].until))
            && s'.blockedUntil == s.blockedUntil && s'.probing == s.probing
  {
    ProbesAreAlone(events, backoff);
  }

  // ---- Why the circuit is open -------------------------------------------

  /** Event i tells the circuit what the store's reply to its call was. */
  predicate Settles(events: seq<Event>, i: nat, ok: bool, backoff: int) {
    && i < |events| && events[i].Next?
    && var pc := PcOf(Run(events[..i], backoff), events[i].call); pc.Answered? && pc.ok == ok
  }

  /** Nothing was settled from position n on. */
  ghost predicate NoneSettlesFrom(events: seq<Event>, n: nat, backoff: int) {
    forall i, ok :: n <= i < |events| ==> !Settles(events, i, ok, backoff)
  }

  lemma SettlesBefore(events: seq<Event>, i: nat, ok: bool, backoff: int)
    requires i + 1 < |events|
    ensures Settles(events, i, ok, backoff) <==> Settles(events[..|events| - 1], i, ok, backoff)
  {
    assert events[..|events| - 1][..i] == events[..i];
  }

  lemma NoneBefore(events: seq<Event>, n: nat, backoff: int)
    requires NoneSettlesFrom(events, n, backoff) && events != []
    ensures NoneSettlesFrom(events[..|events| - 1], n, backoff)
  {
    hide Settles;
    var front := events[..|events| - 1];
    forall i, ok | n <= i < |front| ensures !Settles(front, i, ok, backoff) {
      SettlesBefore(events, i, ok, backoff);
    }
  }

  /** In every interleaving the circuit is closed until a call settles, and from then on it is as the last call to
      settle left it: closed after a reply, and after an error open for the backoff from when that call looked at the
      clock. */
  lemma {:induction false} OpenForCause(events: seq<Event>, last: nat, ok: bool, backoff: int)
    ensures NoneSettlesFrom(events, 0, backoff) ==> Run(events, backoff).blockedUntil == 0
    ensures Settles(events, last, ok, backoff) && NoneSettlesFrom(events, last + 1, backoff) ==>
              Run(events, backoff).blockedUntil == if ok then 0 else events[last].now + backoff
  {
    if events != [] {
      var front, n := events[..|events| - 1], |events| - 1;
      OpenForCause(front, last, ok, backoff);
      LastStep(events, backoff);
      hide Settles, After, Run;
      if NoneSettlesFrom(events, 0, backoff) {
        NoneBefore(events, 0, backoff);
        assert !Settles(events, n, true, backoff) && !Settles(events, n, false, backoff);
      }
      if Settles(events, last, ok, backoff) && NoneSettlesFrom(events, last + 1, backoff) && last < n {
        NoneBefore(events, last + 1, backoff);
        SettlesBefore(events, last, ok, backoff);
        assert !Settles(events, n, true, backoff) && !Settles(events, n, false, backoff);
      }
    }
  }

  lemma LastStep(events: seq<Event>, backoff: int)
    requires events != []
    ensures var n := |events| - 1;
            && (Settles(events, n, true, backoff) ==> Run(events, backoff).blockedUntil == 0)
            && (Settles(events, n, false, backoff) ==> Run(events, backoff).blockedUntil == events[n].now + backoff)
            && (!Settles(events, n, true, backoff) && !Settles(events, n, false, backoff) ==>
                  Run(events, backoff).blockedUntil == Run(events[..n], backoff).blockedUntil)
  {
  }

  // ---- A call on its own -------------------------------------------------

  class RedisLimiter {
    const backoff: int
    var blockedUntil: int
    var probing: bool

    constructor (backoff: int)
      ensures this.backoff == (if backoff <= 0 then 1_000_000_000 else backoff)
      ensures blockedUntil == 0 && !probing
    {
      this.backoff := if backoff <= 0 then 1_000_000_000 else backoff;
      blockedUntil, probing := 0, false;
    }

    /** One call with no other call in between. reply is what the store answers if it is asked: None for an error.
        started and ended are the clock when the call begins and after the reply. */
    method Take(q: QuotaRequest, reply: Option<seq<Value>>, started: int, ended: int)
      returns (result: QuotaResult, failed: bool)
      modifies this
      ensures q.requestsPerMinute <= 0 ==> result == QuotaResult(true, 0, "no_limit") && !failed
      ensures q.requestsPerMinute > 0 && Over(q, started) ==>
                result == QuotaResult(true, 0, "policy_inactive") && !failed
      ensures q.requestsPerMinute > 0 && !Over(q, started) ==>
                var s := Solo(old(blockedUntil), old(probing), reply, started, ended, backoff);
                && blockedUntil == s.blockedUntil && probing == s.probing
                && (failed <==> PcOf(s, 0) == Returned(false) || Decoded(reply).None?)
                && result == (if failed then QuotaResult(true, 0, "redis_unavailable") else Decoded(reply).value)
      ensures q.requestsPerMinute <= 0 || Over(q, started) ==>
                blockedUntil == old(blockedUntil) && probing == old(probing)
    {
      if q.requestsPerMinute <= 0 {
        return QuotaResult(true, 0, "no_limit"), false;
      }
      if !PolicyStore.Before(started, q.decision.expiresAt) {
        return QuotaResult(true, 0, "policy_inactive"), false;
      }
      SoloOutcome(blockedUntil, probing, reply, started, ended, backoff);
      var sawOpen := false;
      if blockedUntil != 0 {
        if started < blockedUntil || probing {
          return QuotaResult(true, 0, "redis_unavailable"), true;
        }
        probing, sawOpen := true, true;
      }
      var decoded := Decoded(reply);
      if decoded.None? {
        blockedUntil := ended + backoff;
        result, failed := QuotaResult(true, 0, "redis_unavailable"), true;
      } else {
        blockedUntil := 0;
        result, failed := decoded.value, false;
      }
      if sawOpen {
        probing := false;
      }
    }
  }

  /** The policy that limits the request has ended. */
  predicate Over(q: QuotaRequest, now: int) { q.decision.expiresAt.Some? && now >= q.decision.expiresAt.value }

  function Decoded(reply: Option<seq<Value>>): Option<QuotaResult> {
    if reply.None? then None else DecodeQuotaResult(reply.value)
  }

  /** The same call as steps of the machine above, with nothing in between. */
  function Solo(blockedUntil: int, probing: bool, reply: Option<seq<Value>>, started: int, ended: int,
                backoff: int): State
  {
    var s0 := After(State(blockedUntil, probing, map[]), Begin(0), backoff);
    var s3 := After(After(After(s0, Next(0, started), backoff), Next(0, started), backoff), Next(0, started), backoff);
    After(After(After(s3, Reply(0, Decoded(reply).Some?), backoff), Next(0, ended), backoff), Next(0, ended), backoff)
  }

  lemma SoloOutcome(blockedUntil: int, probing: bool, reply: Option<seq<Value>>, started: int, ended: int, backoff: int)
    ensures var s := Solo(blockedUntil, probing, reply, started, ended, backoff);
            if blockedUntil != 0 && (started < blockedUntil || probing)
            then s.blockedUntil == blockedUntil && s.probing == probing && PcOf(s, 0) == Returned(false)
            else
              && s.blockedUntil == (if Decoded(reply).Some? then 0 else ended + backoff)
              && s.probing == (blockedUntil == 0 && probing) && PcOf(s, 0) == Returned(true)
  {
    hide Decoded;
  }
}
