/** What two addresses have in common. */
module Features {
  import opened Common

  datatype Trait = Endpoint | UserAgent | AttackType | Subnet | Timing

  /** The attributes of one address that correlation compares; "" means the address has none. Times are seconds. */
  datatype IPProfile = IPProfile(
    topEndpoint: string,
    topUserAgent: string,
    topDetector: string,
    subnet: string,
    firstSeen: Option<real>,
    lastSeen: Option<real>)

  function Overlap(a: IPProfile, b: IPProfile, windowSeconds: int): bool {
    if a.firstSeen.None? || a.lastSeen.None? || b.firstSeen.None? || b.lastSeen.None? then false
    else MaxR(b.firstSeen.value - a.lastSeen.value, a.firstSeen.value - b.lastSeen.value) <= windowSeconds as real
  }

  predicate Same(x: string, y: string) { x != "" && x == y }

  function One(t: Trait, present: bool): seq<Trait> { if present then [t] else [] }

  function TraitList(endpoint: bool, agent: bool, detector: bool, subnet: bool, timing: bool): seq<Trait> {
    One(Endpoint, endpoint) + One(UserAgent, agent) + One(AttackType, detector) + One(Subnet, subnet)
      + One(Timing, timing)
  }

  function SharedTraits(a: IPProfile, b: IPProfile, windowSeconds: int): seq<Trait> {
    TraitList(Same(a.topEndpoint, b.topEndpoint), Same(a.topUserAgent, b.topUserAgent),
              Same(a.topDetector, b.topDetector), Same(a.subnet, b.subnet), Overlap(a, b, windowSeconds))
  }

  function IdentityCount(traits: seq<Trait>): nat {
    if traits == [] then 0
    else (if traits[0] in {UserAgent, Endpoint, Subnet} then 1 else 0) + IdentityCount(traits[1..])
  }

  /** The three gates a pair passes to be linked. */
  predicate Linked(a: IPProfile, b: IPProfile, minShared: int, windowSeconds: int) {
    var traits := SharedTraits(a, b, windowSeconds);
    Timing in traits && IdentityCount(traits) >= 2 && |traits| >= minShared
  }

  // ---- What the traits mean ----------------------------------------------

  /** Each was first seen no later than the window after the other was last seen. */
  predicate Together(a: IPProfile, b: IPProfile, windowSeconds: int) {
    && a.firstSeen.Some? && a.lastSeen.Some? && b.firstSeen.Some? && b.lastSeen.Some?
    && a.firstSeen.value <= b.lastSeen.value + windowSeconds as real
    && b.firstSeen.value <= a.lastSeen.value + windowSeconds as real
  }

  /** A profile built from events is first seen no later than it is last seen. */
  predicate Timed(a: IPProfile) { a.firstSeen.Some? && a.lastSeen.Some? ==> a.firstSeen.value <= a.lastSeen.value }

  predicate ActiveAt(a: IPProfile, t: real) {
    a.firstSeen.Some? && a.lastSeen.Some? && a.firstSeen.value <= t <= a.lastSeen.value
  }

  ghost predicate CloseMoments(a: IPProfile, b: IPProfile, windowSeconds: int, s: real, t: real) {
    ActiveAt(a, s) && ActiveAt(b, t) && s - t <= windowSeconds as real && t - s <= windowSeconds as real
  }

  /** Two addresses share the timing exactly when some moment of the one's activity and some moment of the other's lie
      no further apart than the window. */
  lemma TimingExactly(a: IPProfile, b: IPProfile, windowSeconds: int)
    requires Timed(a) && Timed(b) && windowSeconds >= 0
    ensures Timing in SharedTraits(a, b, windowSeconds) <==> exists s, t :: CloseMoments(a, b, windowSeconds, s, t)
  {
    SharedExactly(a, b, windowSeconds, Timing);
    hide SharedTraits;
    if Together(a, b, windowSeconds) {
      var s := MaxR(a.firstSeen.value, MinR(b.firstSeen.value, a.lastSeen.value));
      var t := MaxR(b.firstSeen.value, MinR(s, b.lastSeen.value));
      assert CloseMoments(a, b, windowSeconds, s, t);
    }
  }

  /** What two addresses agree on. */
  predicate Agree(a: IPProfile, b: IPProfile, windowSeconds: int, t: Trait) {
    match t
    case Endpoint => a.topEndpoint == b.topEndpoint && a.topEndpoint != ""
    case UserAgent => a.topUserAgent == b.topUserAgent && a.topUserAgent != ""
    case AttackType => a.topDetector == b.topDetector && a.topDetector != ""
    case Subnet => a.subnet == b.subnet && a.subnet != ""
    case Timing => Together(a, b, windowSeconds)
  }

  /** The traits listed are those on which the two agree, each once. */
  lemma SharedExactly(a: IPProfile, b: IPProfile, windowSeconds: int, t: Trait)
    ensures t in SharedTraits(a, b, windowSeconds) <==> Agree(a, b, windowSeconds, t)
  {
  }

  function Tally(holds: bool): nat { if holds then 1 else 0 }

  function IdentityAgreed(a: IPProfile, b: IPProfile, windowSeconds: int): nat {
    Tally(Agree(a, b, windowSeconds, Endpoint)) + Tally(Agree(a, b, windowSeconds, UserAgent))
    + Tally(Agree(a, b, windowSeconds, Subnet))
  }

  /** Two addresses work together: they are active close in time, and agree on at least two of endpoint, tool and
      network, and on enough traits in all. */
  predicate Related(a: IPProfile, b: IPProfile, minShared: int, windowSeconds: int) {
    var identity := IdentityAgreed(a, b, windowSeconds);
    && Together(a, b, windowSeconds)
    && identity >= 2
    && identity + Tally(Agree(a, b, windowSeconds, AttackType)) + 1 >= minShared
  }

  /** The three gates link exactly such pairs. */
  lemma LinkedExactly(a: IPProfile, b: IPProfile, minShared: int, windowSeconds: int)
    ensures Linked(a, b, minShared, windowSeconds) <==> Related(a, b, minShared, windowSeconds)
  {
    var e, u := Agree(a, b, windowSeconds, Endpoint), Agree(a, b, windowSeconds, UserAgent);
    var d, s := Agree(a, b, windowSeconds, AttackType), Agree(a, b, windowSeconds, Subnet);
    GatesMeaning(e, u, d, s, Together(a, b, windowSeconds));
    assert SharedTraits(a, b, windowSeconds) == TraitList(e, u, d, s, Together(a, b, windowSeconds));
    hide TraitList, IdentityCount, SharedTraits;
  }

  lemma AgreeSymmetric(a: IPProfile, b: IPProfile, windowSeconds: int, t: Trait)
    ensures Agree(a, b, windowSeconds, t) <==> Agree(b, a, windowSeconds, t)
  {
  }

  lemma RelatedSymmetric(a: IPProfile, b: IPProfile, minShared: int, windowSeconds: int)
    ensures Related(a, b, minShared, windowSeconds) <==> Related(b, a, minShared, windowSeconds)
  {
  }

  lemma SharedTraitsSymmetric(a: IPProfile, b: IPProfile, windowSeconds: int)
    ensures SharedTraits(a, b, windowSeconds) == SharedTraits(b, a, windowSeconds)
  {
  }

  lemma GatesMeaning(e: bool, u: bool, d: bool, s: bool, t: bool)
    ensures var traits := TraitList(e, u, d, s, t);
            && (Timing in traits <==> t)
            && IdentityCount(traits) == (if e then 1 else 0) + (if u then 1 else 0) + (if s then 1 else 0)
            && |traits| == IdentityCount(traits) + (if d then 1 else 0) + (if t then 1 else 0)
  {
    hide IdentityCount;
    IdentityCountConcat(One(Endpoint, e) + One(UserAgent, u) + One(AttackType, d) + One(Subnet, s), One(Timing, t));
    IdentityCountConcat(One(Endpoint, e) + One(UserAgent, u) + One(AttackType, d), One(Subnet, s));
    IdentityCountConcat(One(Endpoint, e) + One(UserAgent, u), One(AttackType, d));
    IdentityCountConcat(One(Endpoint, e), One(UserAgent, u));
    OneCount(Endpoint, e);
    OneCount(UserAgent, u);
    OneCount(AttackType, d);
    OneCount(Subnet, s);
    OneCount(Timing, t);
  }

  lemma OneCount(t: Trait, present: bool)
    ensures IdentityCount(One(t, present)) == if present && t in {UserAgent, Endpoint, Subnet} then 1 else 0
  {
  }

  /** With the default minimum, a link is two of endpoint, tool and network in common, and some moments of the two
      activities no further apart than the window. */
  lemma LinkNeedsIdentityAndTiming(a: IPProfile, b: IPProfile, minShared: int, windowSeconds: int)
    requires minShared <= 3 && Timed(a) && Timed(b) && windowSeconds >= 0
    ensures Linked(a, b, minShared, windowSeconds) <==>
            && (exists s, t :: CloseMoments(a, b, windowSeconds, s, t))
            && var e, u, n := a.topEndpoint == b.topEndpoint != "", a.topUserAgent == b.topUserAgent != "",
              a.subnet == b.subnet != "";
               (e && u) || (e && n) || (u && n)
  {
    LinkedExactly(a, b, minShared, windowSeconds);
    TimingExactly(a, b, windowSeconds);
    SharedExactly(a, b, windowSeconds, Timing);
    hide Linked, SharedTraits, CloseMoments, Together;
  }

  lemma {:induction false} IdentityCountConcat(s: seq<Trait>, t: seq<Trait>)
    ensures IdentityCount(s + t) == IdentityCount(s) + IdentityCount(t)
  {
    if s == [] {
      assert s + t == t;
    } else {
      IdentityCountConcat(s[1..], t);
      assert (s + t)[1..] == s[1..] + t;
    }
  }
}
