/** Self-expiring blocks the gateway imposes by itself. */
module Reflex {
  import opened Common
  import opened Text
  import opened PolicyStore

  /** Addresses and ranges, as the network library reads them. */
  datatype Net = Net(isAddress: string -> bool, isRange: string -> bool, contains: (string, string) -> bool)

  datatype Config = Config(enabled: bool, duration: int, signals: seq<string>, minScore: int,
                           exemptRanges: Option<seq<string>>)

  const DEFAULT_EXEMPT: seq<string> :=
    ["127.0.0.0/8", "::1/128", "10.0.0.0/8", "192.168.0.0/16", "169.254.0.0/16", "fc00::/7", "fe80::/10"]

  const SECOND: int := 1_000_000_000
  const FIVE_MINUTES: int := 300 * SECOND

  datatype Tunables = Tunables(enabled: bool, duration: int, minScore: int, signals: set<string>, exempt: seq<string>)

  datatype Evidence = Evidence(signal: string, score: int, thresholdCross: bool)

  datatype Block = Block(until: int, signal: string, score: int)

  predicate AdvisoryOnly(name: string) {
    name in {"consecutive_failed_logins", "unknown_route_scanning", "object_enumeration", "ownership_violation"}
  }

  function Named(signals: seq<string>): set<string> {
    set name | name in signals && TrimSpace(name) != "" :: TrimSpace(name)
  }

  function Ranges(entries: seq<string>): seq<string> {
    if entries == [] then []
    else
      var last := TrimSpace(entries[|entries| - 1]);
      Ranges(entries[..|entries| - 1]) + (if last == "" then [] else [last])
  }

  /** A configuration is refused when it names a detector that may only advise, or a range that does not parse. */
  predicate Acceptable(net: Net, cfg: Config) {
    && (forall name :: name in Named(cfg.signals) ==> !AdvisoryOnly(name))
    && (forall i :: 0 <= i < |Ranges(cfg.exemptRanges.GetOr(DEFAULT_EXEMPT))| ==>
        net.isRange(Ranges(cfg.exemptRanges.GetOr(DEFAULT_EXEMPT))[i]))
  }

  /** Failed logins, route scans, walks through objects and ownership refusals never lead to a block: settings that
      trust one of them are refused, with blanks around the name or without. */
  lemma AdvisoryIsRefused(net: Net, cfg: Config, i: nat)
    requires i < |cfg.signals|
    requires TrimSpace(cfg.signals[i]) == "consecutive_failed_logins"
             || TrimSpace(cfg.signals[i]) == "unknown_route_scanning"
             || TrimSpace(cfg.signals[i]) == "object_enumeration" || TrimSpace(cfg.signals[i]) == "ownership_violation"
    ensures !Acceptable(net, cfg)
  {
    var name := TrimSpace(cfg.signals[i]);
    assert cfg.signals[i] in cfg.signals;
    assert name in Named(cfg.signals) && AdvisoryOnly(name);
  }

  function TunablesOf(cfg: Config): Tunables {
    Tunables(cfg.enabled, if cfg.duration <= 0 then FIVE_MINUTES else cfg.duration, cfg.minScore,
             Named(cfg.signals), Ranges(cfg.exemptRanges.GetOr(DEFAULT_EXEMPT)))
  }

  /** Settings say what they say: the duration is the given one, or five minutes; every name and every range counts,
      without blanks around it; and without a list of ranges the private and local ones are exempt. */
  lemma SettingsExactly(cfg: Config, name: string, range: string)
    ensures var t, ranges := TunablesOf(cfg),
                             if cfg.exemptRanges.Some? then cfg.exemptRanges.value else DEFAULT_EXEMPT;
            && t.enabled == cfg.enabled && t.minScore == cfg.minScore
            && t.duration == (if cfg.duration > 0 then cfg.duration else 5 * 60 * 1_000_000_000)
            && (name in t.signals <==>
                name != "" && exists i :: 0 <= i < |cfg.signals| && TrimSpace(cfg.signals[i]) == name)
            && (range in t.exempt <==> range != "" && exists i :: 0 <= i < |ranges| && TrimSpace(ranges[i]) == range)
  {
    hide TrimSpace;
    RangesExactly(cfg.exemptRanges.GetOr(DEFAULT_EXEMPT), range);
    if i :| 0 <= i < |cfg.signals| && TrimSpace(cfg.signals[i]) == name {
      assert cfg.signals[i] in cfg.signals;
    }
  }

  lemma {:induction false} RangesExactly(entries: seq<string>, range: string)
    ensures range in Ranges(entries) <==>
            range != "" && exists i :: 0 <= i < |entries| && TrimSpace(entries[i]) == range
  {
    hide TrimSpace;
    if entries != [] {
      var front, last := entries[..|entries| - 1], entries[|entries| - 1];
      RangesExactly(front, range);
      assert front + [last] == entries;
      if TrimSpace(last) == range {
        assert TrimSpace(entries[|entries| - 1]) == range;
      } else if i :| 0 <= i < |front| && TrimSpace(front[i]) == range {
        assert TrimSpace(entries[i]) == range;
      }
    }
  }

  method BuildTunables(net: Net, cfg: Config) returns (t: Option<Tunables>)
    ensures t == if Acceptable(net, cfg) then Some(TunablesOf(cfg)) else None
  {
    var duration := cfg.duration;
    if duration <= 0 {
      duration := FIVE_MINUTES;
    }
    var signals: set<string> := {};
    for i := 0 to |cfg.signals|
      invariant signals == Named(cfg.signals[..i])
      invariant forall name :: name in signals ==> !AdvisoryOnly(name)
    {
      var name := TrimSpace(cfg.signals[i]);
      NamedOneMore(cfg.signals, i);
      if name != "" {
        if AdvisoryOnly(name) {
          assert name in Named(cfg.signals);
          return None;
        }
        signals := signals + {name};
      }
    }
    assert cfg.signals[..|cfg.signals|] == cfg.signals;
    var entries := cfg.exemptRanges.GetOr(DEFAULT_EXEMPT);
    var exempt := ParseRanges(net, entries);
    if exempt.None? {
      return None;
    }
    return Some(Tunables(cfg.enabled, duration, cfg.minScore, signals, exempt.value));
  }

  lemma NamedOneMore(signals: seq<string>, i: nat)
    requires i < |signals|
    ensures Named(signals[..i + 1]) == Named(signals[..i])
            + (if TrimSpace(signals[i]) == "" then {} else {TrimSpace(signals[i])})
    ensures TrimSpace(signals[i]) != "" ==> TrimSpace(signals[i]) in Named(signals)
  {
    hide Strip;
    assert signals[..i + 1] == signals[..i] + [signals[i]];
    assert signals[i] in signals;
  }

  method ParseRanges(net: Net, entries: seq<string>) returns (r: Option<seq<string>>)
    ensures r.Some? <==> forall i :: 0 <= i < |Ranges(entries)| ==> net.isRange(Ranges(entries)[i])
    ensures r.Some? ==> r.value == Ranges(entries)
  {
    hide Strip;
    var networks: seq<string> := [];
    for i := 0 to |entries|
      invariant networks == Ranges(entries[..i])
      invariant forall j :: 0 <= j < |networks| ==> net.isRange(networks[j])
    {
      assert entries[..i + 1][..i] == entries[..i];
      var entry := TrimSpace(entries[i]);
      if entry == "" {
        continue;
      }
      if !net.isRange(entry) {
        RangesGrow(entries, i + 1);
        assert Ranges(entries[..i + 1])[|networks|] == entry;
        return None;
      }
      networks := networks + [entry];
    }
    assert entries[..|entries|] == entries;
    return Some(networks);
  }

  lemma {:induction false} RangesGrow(entries: seq<string>, n: nat)
    requires n <= |entries|
    ensures Ranges(entries[..n]) <= Ranges(entries)
  {
    if n < |entries| {
      var before := entries[..|entries| - 1];
      assert before[..n] == entries[..n];
      RangesGrow(before, n);
    } else {
      assert entries[..n] == entries;
    }
  }

  predicate Armed(t: Tunables) { t.enabled && t.signals != {} }

  /** An address that does not parse is exempt, like one in an exempt range. */
  predicate Exempt(net: Net, t: Tunables, ip: string) {
    !net.isAddress(ip) || exists i :: 0 <= i < |t.exempt| && net.contains(t.exempt[i], ip)
  }

  predicate Convicts(t: Tunables, e: Evidence) { e.thresholdCross && e.signal in t.signals && e.score >= t.minScore }

  /** The first piece of evidence that justifies a block. */
  function Conviction(t: Tunables, evidence: seq<Evidence>): (r: Option<Evidence>)
    ensures r.Some? ==> r.value in evidence && Convicts(t, r.value)
    ensures r.None? ==> forall e :: e in evidence ==> !Convicts(t, e)
  {
    if evidence == [] then None
    else if Convicts(t, evidence[0]) then Some(evidence[0])
    else Conviction(t, evidence[1..])
  }

  /** The evidence for which an observation blocks an address that is not blocked already. */
  function Grounds(net: Net, t: Tunables, ip: string, evidence: seq<Evidence>): Option<Evidence> {
    if !Armed(t) || ip == "" || Exempt(net, t, ip) then None else Conviction(t, evidence)
  }

  type Blocks = map<string, Block>

  predicate Running(blocked: Blocks, ip: string, now: int) { ip in blocked && blocked[ip].until > now }

  function Observed(net: Net, t: Tunables, blocked: Blocks, ip: string, evidence: seq<Evidence>, now: int): Blocks {
    var grounds := Grounds(net, t, ip, evidence);
    if grounds.None? || Running(blocked, ip, now) then blocked
    else blocked[ip := Block(now + t.duration, grounds.value.signal, grounds.value.score)]
  }

  function Swept(blocked: Blocks, now: int): Blocks {
    map ip | ip in blocked && blocked[ip].until > now :: blocked[ip]
  }

  function Answer(t: Tunables, blocked: Blocks, ip: string, now: int): Option<Decision> {
    if !Armed(t) || !Running(blocked, ip, now) then None
    else
      var b := blocked[ip];
      Some(Decision("temp_block", "", "", "gateway", b.signal + " crossed its threshold at the gateway", "", "", "",
                    "", 0,
                    (b.until - now) / SECOND, None, None, ""))
  }

  class Reflex {
    const net: Net
    var tun: Tunables
    var blocked: Blocks

    /** The settings given must be acceptable; otherwise the source does not start. */
    constructor (net: Net, cfg: Config)
      requires Acceptable(net, cfg)
      ensures this.net == net && tun == TunablesOf(cfg) && blocked == map[]
    {
      this.net := net;
      tun := TunablesOf(cfg);
      blocked := map[];
    }

    /** New settings, or none of them. Blocks already in force keep their deadlines. */
    method Apply(cfg: Config) returns (ok: bool)
      modifies this`tun
      ensures ok == Acceptable(net, cfg)
      ensures tun == if ok then TunablesOf(cfg) else old(tun)
    {
      var t := BuildTunables(net, cfg);
      if t.None? {
        return false;
      }
      tun := t.value;
      return true;
    }

    method Observe(ip: string, evidence: seq<Evidence>, now: int)
      modifies this`blocked
      ensures blocked == Observed(net, tun, old(blocked), ip, evidence, now)
    {
      var t := tun;
      if !Armed(t) || ip == "" || Exempt(net, t, ip) {
        return;
      }
      for i := 0 to |evidence|
        invariant blocked == old(blocked)
        invariant Conviction(t, evidence) == Conviction(t, evidence[i..])
      {
        var ev := evidence[i];
        assert evidence[i..][1..] == evidence[i + 1..];
        if !ev.thresholdCross || ev.signal !in t.signals {
          continue;
        }
        if ev.score < t.minScore {
          continue;
        }
        if ip !in blocked || !(blocked[ip].until > now) {
          blocked := blocked[ip := Block(now + t.duration, ev.signal, ev.score)];
        }
        return;
      }
    }

    method Lookup(ip: string, now: int) returns (answer: Option<Decision>)
      ensures answer == Answer(tun, blocked, ip, now)
    {
      if !Armed(tun) || ip !in blocked {
        return None;
      }
      var b := blocked[ip];
      var remaining := b.until - now;
      if remaining <= 0 {
        return None;
      }
      return Some(Decision("temp_block", "", "", "gateway", b.signal + " crossed its threshold at the gateway", "", "",
                           "", "", 0,
                           remaining / SECOND, None, None, ""));
    }

    method Sweep(now: int)
      modifies this`blocked
      ensures blocked == Swept(old(blocked), now)
    {
      var todo := blocked.Keys;
      ghost var start := blocked;
      while todo != {}
        invariant todo <= blocked.Keys <= start.Keys
        invariant forall ip :: ip in start ==> (ip in blocked <==> ip in todo || start[ip].until > now)
        invariant forall ip :: ip in blocked ==> blocked[ip] == start[ip]
        decreases todo
      {
        var ip :| ip in todo;
        todo := todo - {ip};
        if !(blocked[ip].until > now) {
          blocked := blocked - {ip};
        }
      }
    }
  }
}
