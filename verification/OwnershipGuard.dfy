/** The guard that lets a caller read only what it owns. */
module OwnershipGuard {
  import opened Common
  import opened Json
  import opened HeldResponses
  import opened Sums
  import Text

  /** JSON text is read and written by a library. */
  datatype Codec = Codec(decode: Bytes -> Option<Value>, encode: Value -> Option<Bytes>)

  datatype Rule = Rule(template: string, ownerField: Path, list: bool, listField: Path)

  datatype Tunables = Tunables(enabled: bool, denyUnverified: bool, maxBodyBytes: int)

  const DEFAULT_MAX_BODY: int := 1_048_576

  function Ascii(s: string): Bytes { seq(|s|, i requires 0 <= i < |s| => (s[i] as int % 256) as bv8) }

  /** bytes.TrimRight(p, "\n") */
  function TrimNewlines(p: Bytes): (r: Bytes)
    ensures r <= p && (r != [] ==> r[|r| - 1] != 10)
    ensures forall i :: |r| <= i < |p| ==> p[i] == 10
  {
    if p != [] && p[|p| - 1] == 10 then TrimNewlines(p[..|p| - 1]) else p
  }

  // ---------------------------------------------------------------- what the answer is worth

  function OwnerOf(item: Value, field: Path): string { ClaimString(Lookup(item, field)) }

  /** An item stays when the caller owns it, or when its owner cannot be read and that is let through. */
  predicate Stays(item: Value, field: Path, caller: string, denyUnverified: bool) {
    var owner := OwnerOf(item, field);
    (Lookup(item, field).Some? && owner == caller) || (owner == "" && !denyUnverified)
  }

  function Kept(items: seq<Value>, field: Path, caller: string, denyUnverified: bool): seq<Value> {
    if items == [] then []
    else
      var last := items[|items| - 1];
      Kept(items[..|items| - 1], field, caller, denyUnverified)
        + (if Stays(last, field, caller, denyUnverified) then [last] else [])
  }

  function FirstForeign(items: seq<Value>, field: Path, caller: string, denyUnverified: bool): string {
    if items == [] then ""
    else
      var before := FirstForeign(items[..|items| - 1], field, caller, denyUnverified);
      var last := items[|items| - 1];
      if before == "" && !Stays(last, field, caller, denyUnverified) then OwnerOf(last, field) else before
  }

  datatype Verdict =
    | PassedOn
    | Empty
    | Unverifiable
    | Foreign(owner: string)
    | Owned
    | AllOwned
    | Filtered(root: Value, kept: seq<Value>, removed: nat, firstForeign: string)

  predicate Compressed(header: Header) {
    var encoding := Get(header, "Content-Encoding");
    encoding != "" && Text.Upper(encoding) != "IDENTITY"
  }

  /** The same letters, in whatever case. */
  ghost predicate SameIgnoringCase(s: string, lower: string) {
    |s| == |lower| && forall i :: 0 <= i < |s| ==> s[i] == lower[i] || s[i] as int + 32 == lower[i] as int
  }

  /** A body can be read exactly when its answer names no encoding, or says that there is none. */
  lemma CompressedExactly(header: Header)
    ensures !Compressed(header) <==>
            || "Content-Encoding" !in header || header["Content-Encoding"] == [] || header["Content-Encoding"][0] == ""
            || SameIgnoringCase(header["Content-Encoding"][0], "identity")
  {
    var encoding := Get(header, "Content-Encoding");
    var upper := Text.Upper(encoding);
    var want := "IDENTITY";
    if |encoding| == 8 {
      forall i | 0 <= i < 8 ensures upper[i] == want[i] <==> encoding[i] == want[i] || encoding[i] == "identity"[i] {
        assert upper[i] == Text.UpperChar(encoding[i]);
      }
      assert upper == want <==> forall i :: 0 <= i < 8 ==> upper[i] == want[i];
    }
  }

  function JudgeObject(root: Value, rule: Rule, caller: string): Verdict {
    var owner := OwnerOf(root, rule.ownerField);
    if owner == "" then Unverifiable else if owner != caller then Foreign(owner) else Owned
  }

  function JudgeList(root: Value, rule: Rule, caller: string, denyUnverified: bool): (v: Verdict)
    ensures v.Filtered? ==>
              v.root == root && Lookup(root, rule.listField).Some? && Lookup(root, rule.listField).value.Array?
  {
    match Lookup(root, rule.listField)
    case Some(Array(items)) =>
      var kept := Kept(items, rule.ownerField, caller, denyUnverified);
      KeptIsShorter(items, rule.ownerField, caller, denyUnverified);
      if |kept| == |items| then AllOwned
      else Filtered(root, kept, |items| - |kept|, FirstForeign(items, rule.ownerField, caller, denyUnverified))
    case _ => Unverifiable
  }

  function Judge(h: Held, rule: Rule, caller: string, denyUnverified: bool, codec: Codec): Verdict {
    if h.streaming && !h.overflow then PassedOn
    else if !h.overflow && h.body == [] then Empty
    else if h.overflow || Compressed(h.header) then Unverifiable
    else match codec.decode(h.body)
      case None => Unverifiable
      case Some(root) => if rule.list then JudgeList(root, rule, caller, denyUnverified)
        else JudgeObject(root, rule, caller)
  }

  lemma {:induction false} KeptIsShorter(items: seq<Value>, field: Path, caller: string, denyUnverified: bool)
    ensures |Kept(items, field, caller, denyUnverified)| <= |items|
    ensures |Kept(items, field, caller, denyUnverified)| == |items| ==>
              Kept(items, field, caller, denyUnverified) == items
  {
    if items != [] {
      KeptIsShorter(items[..|items| - 1], field, caller, denyUnverified);
    }
  }

  // ---------------------------------------------------------------- what the client gets

  function JsonAnswer(c: Client, status: int, body: Bytes): Client {
    c.(header := c.header["Content-Type" := ["application/json"]]["Cache-Control" := ["no-store"]]).WithStatus(status)
      .WithBytes(body)
  }

  const NOT_FOUND: Bytes := Ascii("{\"success\":false,\"message\":\"Not found\"}")
  const AUTHENTICATION_REQUIRED: Bytes := Ascii("{\"success\":false,\"message\":\"Authentication required\"}")

  /** The one refusal: it tells a caller as little as a missing object would. */
  function Refused(c: Client): Client { JsonAnswer(c, 404, NOT_FOUND) }

  function Rewritten(h: Held, body: Bytes): Client {
    h.client.(header := h.client.header + (h.header - {"Content-Length", "ETag"})).WithStatus(h.StatusCode())
      .WithBytes(body)
  }

  function Answer(h: Held, v: Verdict, rule: Rule, denyUnverified: bool, codec: Codec): Client {
    match v
    case PassedOn => h.client
    case Empty => h.Released().client
    case Owned => h.Released().client
    case AllOwned => h.Released().client
    case Unverifiable => if denyUnverified then Refused(h.client) else h.Released().client
    case Foreign(_) => Refused(h.client)
    case Filtered(root, kept, _, _) =>
      match Replace(root, rule.listField, Array(kept))
      case None => Refused(h.client)
      case Some(filtered) =>
        match codec.encode(filtered)
        case None => Refused(h.client)
        case Some(bytes) => Rewritten(h, TrimNewlines(bytes))
  }

  // ---------------------------------------------------------------- evidence

  datatype Reason = OwnerMismatch | ForgedToken | NoToken | ItemsRemoved | UnverifiableAnswer

  datatype Evidence = Clean
    | Refusal(template: string, reason: Reason, caller: string, owner: string, removed: nat, recentViolations: nat,
              score: int)

  datatype Recorded = Recorded(at: int, requestId: string, evidence: Evidence)

  const VIOLATION_WINDOW: int := 300_000_000_000
  const MAX_TRACKED_CLIENTS: nat := 10_000
  const MAX_TRACKED_VIOLATIONS: nat := 64

  predicate Crossed(reason: Reason) { reason == OwnerMismatch || reason == ForgedToken }

  function InWindow(times: seq<int>, now: int): (r: seq<int>)
    ensures |r| <= |times|
  {
    if times == [] then []
    else
      var last := times[|times| - 1];
      InWindow(times[..|times| - 1], now) + (if now - last <= VIOLATION_WINDOW then [last] else [])
  }

  function Recent(times: seq<int>, now: int, add: bool): (r: seq<int>)
    ensures |times| <= MAX_TRACKED_VIOLATIONS ==> |r| <= MAX_TRACKED_VIOLATIONS
  {
    var kept := InWindow(times, now);
    if !add then kept
    else (if |kept| >= MAX_TRACKED_VIOLATIONS then kept[1..] else kept) + [now]
  }

  function Score(reason: Reason, recent: nat): int {
    if Crossed(reason) then (if recent >= 3 then 100 else 80)
    else if reason == ItemsRemoved then 30
    else 0
  }

  /** m without the clients whose evidence expired, and without one stalest client when that was not enough. */
  ghost predicate MadeRoom(last: map<string, Recorded>, now: int, r: map<string, Recorded>) {
    var live := map ip | ip in last && now - last[ip].at <= VIOLATION_WINDOW :: last[ip];
    if |live| >= MAX_TRACKED_CLIENTS
    then exists ip :: ip in live && (forall j :: j in live ==> live[ip].at <= live[j].at) && r == live - {ip}
    else r == live
  }

  /** A client that is not tracked yet makes room first when the table is full. */
  ghost predicate RoomFor(last: map<string, Recorded>, ip: string, now: int, roomy: map<string, Recorded>) {
    if ip !in last && |last| >= MAX_TRACKED_CLIENTS then MadeRoom(last, now, roomy) else roomy == last
  }

  /** Two of the times lie no more than five minutes back. */
  ghost predicate TwoRecent(times: seq<int>, now: int) {
    exists p, q :: 0 <= p < q < |times| && now - times[p] <= 300 * 1_000_000_000
      && now - times[q] <= 300 * 1_000_000_000
  }

  ghost predicate OneRecent(times: seq<int>, now: int) {
    exists p :: 0 <= p < |times| && now - times[p] <= 300 * 1_000_000_000
  }

  lemma {:induction false} InWindowCounts(times: seq<int>, now: int)
    ensures |InWindow(times, now)| >= 1 <==> OneRecent(times, now)
    ensures |InWindow(times, now)| >= 2 <==> TwoRecent(times, now)
  {
    if times != [] {
      var front, last := times[..|times| - 1], times[|times| - 1];
      InWindowCounts(front, now);
      if now - last <= VIOLATION_WINDOW && OneRecent(front, now) {
        var p :| 0 <= p < |front| && now - front[p] <= 300 * 1_000_000_000;
        assert times[p] == front[p] && times[|front|] == last;
      }
    }
  }

  /** A client's violations within the window, and now when it counts. */
  function RecentAt(violations: map<string, seq<int>>, ip: string, now: int, add: bool): seq<int> {
    Recent(if ip in violations then violations[ip] else [], now, add)
  }

  /** The violations after a client's window is pruned, and now added to it. */
  function AfterRecent(violations: map<string, seq<int>>, ip: string, now: int, add: bool): map<string, seq<int>> {
    var times := RecentAt(violations, ip, now, add);
    if times == [] then violations - {ip} else violations[ip := times]
  }

  lemma RecentBounded(times: seq<int>, now: int, add: bool)
    requires |times| <= MAX_TRACKED_VIOLATIONS
    ensures |Recent(times, now, add)| <= MAX_TRACKED_VIOLATIONS
  {
  }

  ghost predicate TablesOk(last: map<string, Recorded>, violations: map<string, seq<int>>) {
    && |last| <= MAX_TRACKED_CLIENTS && "" !in last
    && violations.Keys <= last.Keys
    && forall ip :: ip in violations ==> 0 < |violations[ip]| <= MAX_TRACKED_VIOLATIONS
  }

  /** A refusal, as it is reported to the guard. */
  datatype Incident = Incident(requestId: string, template: string, reason: Reason, caller: string, owner: string,
                               removed: nat, now: int)

  /** What the guard remembers. */
  datatype Memory = Memory(last: map<string, Recorded>, violations: map<string, seq<int>>)

  /** The evidence about an incident, which counts the client's recent violations. */
  function EvidenceOf(violations: map<string, seq<int>>, ip: string, i: Incident): Recorded {
    var recent := |RecentAt(violations, ip, i.now, Crossed(i.reason))|;
    Recorded(i.now, i.requestId,
             Refusal(i.template, i.reason, i.caller, i.owner, i.removed, recent, Score(i.reason, recent)))
  }

  /** Asking for someone else's object, or with a forged token, is worth 80 points, and 100 from the third time within
      five minutes; a cut list is worth 30, and a missing token or an unreadable answer nothing. */
  lemma ScoreExactly(violations: map<string, seq<int>>, ip: string, i: Incident)
    ensures var score := EvidenceOf(violations, ip, i).evidence.score;
            && (i.reason in {OwnerMismatch, ForgedToken} ==>
                  score == if ip in violations && TwoRecent(violations[ip], i.now) then 100 else 80)
            && (i.reason == ItemsRemoved ==> score == 30)
            && (i.reason in {NoToken, UnverifiableAnswer} ==> score == 0)
  {
    InWindowCounts(if ip in violations then violations[ip] else [], i.now);
    hide InWindow;
  }

  /** The incident is recorded, after making room for a new client in a full table. */
  ghost predicate RecordedFrom(before: Memory, after: Memory, ip: string, i: Incident) {
    exists roomy :: RoomFor(before.last, ip, i.now, roomy) && after == WithIncident(before, roomy, ip, i)
  }

  function WithIncident(before: Memory, roomy: map<string, Recorded>, ip: string, i: Incident): Memory {
    Memory(roomy[ip := EvidenceOf(before.violations, ip, i)],
           AfterRecent(before.violations, ip, i.now, Crossed(i.reason)) - (before.last.Keys - roomy.Keys))
  }

  /** An allowed read takes back the evidence of the one before it, but not the violations. */
  function Cleared(before: Memory, ip: string, requestId: string): Memory {
    if ip in before.last then before.(last := before.last[ip := Recorded(before.last[ip].at, requestId, Clean)])
    else before
  }

  class Guard {
    var last: map<string, Recorded>
    var violations: map<string, seq<int>>

    /** Both maps are bounded: every client with violations is a tracked client. */
    ghost predicate Valid()
      reads this
    {
      TablesOk(last, violations)
    }

    ghost function Contents(): Memory
      reads this
    {
      Memory(last, violations)
    }

    constructor ()
      ensures Valid() && last == map[] && violations == map[]
    {
      last, violations := map[], map[];
    }

    method RecentViolations(ip: string, now: int, add: bool) returns (count: nat)
      modifies this`violations
      ensures count == |RecentAt(old(violations), ip, now, add)|
      ensures violations == AfterRecent(old(violations), ip, now, add)
    {
      var times := if ip in violations then violations[ip] else [];
      var kept: seq<int> := [];
      for i := 0 to |times|
        invariant kept == InWindow(times[..i], now)
      {
        assert times[..i + 1][..i] == times[..i];
        if now - times[i] <= VIOLATION_WINDOW {
          kept := kept + [times[i]];
        }
      }
      assert times[..|times|] == times;
      if add {
        if |kept| >= MAX_TRACKED_VIOLATIONS {
          kept := kept[1..];
        }
        kept := kept + [now];
      }
      if |kept| == 0 {
        violations := violations - {ip};
        return 0;
      }
      violations := violations[ip := kept];
      count := |kept|;
    }

    /** Forgets the clients whose evidence has expired, and if that is not enough, the one recorded longest ago. */
    method DropOldest(now: int)
      requires "" !in last
      modifies this
      ensures MadeRoom(old(last), now, last)
      ensures violations == old(violations) - (old(last).Keys - last.Keys)
    {
      var live, stalest := Expire(last, now);
      if |live| >= MAX_TRACKED_CLIENTS && stalest != "" {
        live := live - {stalest};
      }
      violations := violations - (last.Keys - live.Keys);
      last := live;
    }

    /** Makes room when a new client finds the table full, and stores its evidence. */
    method Remember(ip: string, hit: Recorded) returns (ghost roomy: map<string, Recorded>)
      requires "" !in last
      modifies this
      ensures RoomFor(old(last), ip, hit.at, roomy)
      ensures last == roomy[ip := hit]
      ensures violations == old(violations) - (old(last).Keys - roomy.Keys)
    {
      hide MadeRoom;
      if ip !in last && |last| >= MAX_TRACKED_CLIENTS {
        DropOldest(hit.at);
      }
      roomy := last;
      last := last[ip := hit];
    }

    method Record(ip: string, i: Incident) returns (ghost roomy: map<string, Recorded>)
      requires Valid() && ip != ""
      modifies this
      ensures Valid()
      ensures RoomFor(old(last), ip, i.now, roomy)
      ensures Contents() == WithIncident(old(Contents()), roomy, ip, i)
      ensures RecordedFrom(old(Contents()), Contents(), ip, i)
      ensures last[ip].evidence.recentViolations == (if ip in violations then |violations[ip]| else 0)
    {
      hide Score, AfterRecent, RecentAt, RoomFor, TablesOk;
      NoNamelessClient(last, violations);
      ghost var lastBefore, before := last, violations;
      var recent := RecentViolations(ip, i.now, Crossed(i.reason));
      var evidence := Refusal(i.template, i.reason, i.caller, i.owner, i.removed, recent, Score(i.reason, recent));
      roomy := Remember(ip, Recorded(i.now, i.requestId, evidence));
      RecordKeeps(lastBefore, before, ip, i.now, Crossed(i.reason), roomy, last[ip]);
    }

    /** Forgets the last evidence of a client after an allowed read. */
    method Clear(ip: string, requestId: string)
      requires Valid()
      modifies this`last
      ensures Valid()
      ensures Contents() == Cleared(old(Contents()), ip, requestId)
    {
      if ip in last {
        MapSizes(last, ip, Recorded(last[ip].at, requestId, Clean));
        last := last[ip := Recorded(last[ip].at, requestId, Clean)];
      }
    }
  }

  lemma NoNamelessClient(last: map<string, Recorded>, violations: map<string, seq<int>>)
    requires TablesOk(last, violations)
    ensures "" !in last
  {
  }

  lemma RecordKeeps(last: map<string, Recorded>, violations: map<string, seq<int>>, ip: string, now: int, add: bool,
                    roomy: map<string, Recorded>, hit: Recorded)
    requires TablesOk(last, violations) && ip != "" && RoomFor(last, ip, now, roomy)
    ensures var after := AfterRecent(violations, ip, now, add) - (last.Keys - roomy.Keys);
            && TablesOk(roomy[ip := hit], after)
            && |RecentAt(violations, ip, now, add)| == (if ip in after then |after[ip]| else 0)
  {
    hide AfterRecent, RecentAt, RoomFor, TablesOk;
    BoundedViolations(last, violations);
    RoomKeeps(last, ip, now, roomy, hit);
    WindowKeeps(violations, ip, now, add);
    TablesKept(last, violations, ip, roomy, hit, AfterRecent(violations, ip, now, add));
  }

  lemma BoundedViolations(last: map<string, Recorded>, violations: map<string, seq<int>>)
    requires TablesOk(last, violations)
    ensures |last| <= MAX_TRACKED_CLIENTS
    ensures forall c :: c in violations ==> 0 < |violations[c]| <= MAX_TRACKED_VIOLATIONS
  {
  }

  lemma TablesKept(last: map<string, Recorded>, violations: map<string, seq<int>>, ip: string,
                   roomy: map<string, Recorded>, hit: Recorded, recent: map<string, seq<int>>)
    requires TablesOk(last, violations) && ip != "" && roomy.Keys <= last.Keys && ip !in last.Keys - roomy.Keys
    requires |roomy[ip := hit]| <= MAX_TRACKED_CLIENTS && recent.Keys <= violations.Keys + {ip}
    requires forall c :: c in recent ==> 0 < |recent[c]| <= MAX_TRACKED_VIOLATIONS
    ensures TablesOk(roomy[ip := hit], recent - (last.Keys - roomy.Keys))
  {
  }

  lemma RoomKeeps(last: map<string, Recorded>, ip: string, now: int, roomy: map<string, Recorded>, hit: Recorded)
    requires |last| <= MAX_TRACKED_CLIENTS && RoomFor(last, ip, now, roomy)
    ensures |roomy[ip := hit]| <= MAX_TRACKED_CLIENTS && roomy.Keys <= last.Keys && ip !in last.Keys - roomy.Keys
  {
    MapSizes(roomy, ip, hit);
    hide MadeRoom;
    if ip !in last && |last| >= MAX_TRACKED_CLIENTS {
      RoomMade(last, now, roomy);
    }
  }

  lemma WindowKeeps(violations: map<string, seq<int>>, ip: string, now: int, add: bool)
    requires forall c :: c in violations ==> 0 < |violations[c]| <= MAX_TRACKED_VIOLATIONS
    ensures var after := AfterRecent(violations, ip, now, add);
            && after.Keys <= violations.Keys + {ip}
            && (forall c :: c in after ==> 0 < |after[c]| <= MAX_TRACKED_VIOLATIONS)
            && |RecentAt(violations, ip, now, add)| == (if ip in after then |after[ip]| else 0)
  {
    RecentBounded(if ip in violations then violations[ip] else [], now, add);
    hide Recent;
  }

  lemma RoomMade(last: map<string, Recorded>, now: int, r: map<string, Recorded>)
    requires MadeRoom(last, now, r) && |last| <= MAX_TRACKED_CLIENTS
    ensures |r| < MAX_TRACKED_CLIENTS
    ensures forall ip :: ip in r ==> ip in last && r[ip] == last[ip]
  {
    var live := map ip | ip in last && now - last[ip].at <= VIOLATION_WINDOW :: last[ip];
    if |live| >= MAX_TRACKED_CLIENTS {
      var ip :| ip in live && r == live - {ip};
      assert live.Keys <= last.Keys;
      SubsetSize(live.Keys, last.Keys);
      assert r.Keys == live.Keys - {ip};
      assert |r| == |r.Keys| && |live| == |live.Keys| && |last| == |last.Keys|;
    }
  }

  /** The clients whose evidence has not expired, and the one of them seen longest ago. */
  method Expire(last: map<string, Recorded>, now: int) returns (live: map<string, Recorded>, stalest: string)
    requires "" !in last
    ensures live == map ip | ip in last && now - last[ip].at <= VIOLATION_WINDOW :: last[ip]
    ensures stalest == "" <==> live == map[]
    ensures stalest != "" ==> stalest in live && forall j :: j in live ==> live[stalest].at <= live[j].at
  {
    live, stalest := map[], "";
    var oldest := 0;
    var todo := last.Keys;
    while todo != {}
      invariant todo <= last.Keys
      invariant live == map ip | ip in last && ip !in todo && now - last[ip].at <= VIOLATION_WINDOW :: last[ip]
      invariant stalest == "" <==> live == map[]
      invariant stalest != "" ==> stalest in live && oldest == live[stalest].at && forall j :: j in live ==>
                  oldest <= live[j].at
      decreases todo
    {
      var ip :| ip in todo;
      todo := todo - {ip};
      var hit := last[ip];
      if now - hit.at <= VIOLATION_WINDOW {
        live := live[ip := hit];
        if stalest == "" || hit.at < oldest {
          stalest, oldest := ip, hit.at;
        }
      }
    }
  }

  // ---------------------------------------------------------------- deciding

  method WriteJson(w: ResponseWriter, status: int, body: Bytes)
    modifies w
    ensures w.View() == JsonAnswer(old(w.View()), status, body)
  {
    w.SetHeader("Content-Type", ["application/json"]);
    w.SetHeader("Cache-Control", ["no-store"]);
    w.WriteHeader(status);
    w.Write(body);
  }

  method Refuse(w: ResponseWriter)
    modifies w
    ensures w.View() == Refused(old(w.View()))
  {
    WriteJson(w, 404, NOT_FOUND);
  }

  /** The walk over a list: the items that stay, and the first owner of one that does not. */
  method FilterItems(items: seq<Value>, field: Path, caller: string, denyUnverified: bool)
    returns (kept: seq<Value>, removed: nat, firstForeign: string)
    ensures kept == Kept(items, field, caller, denyUnverified)
    ensures removed == |items| - |kept|
    ensures firstForeign == FirstForeign(items, field, caller, denyUnverified)
  {
    hide Lookup;
    kept, removed, firstForeign := [], 0, "";
    for i := 0 to |items|
      invariant kept == Kept(items[..i], field, caller, denyUnverified)
      invariant removed == i - |kept|
      invariant firstForeign == FirstForeign(items[..i], field, caller, denyUnverified)
    {
      assert items[..i + 1][..i] == items[..i];
      var item := items[i];
      var found := Lookup(item, field);
      var owner := ClaimString(found);
      assert found.None? ==> owner == "";
      hide ClaimString;
      if found.Some? && owner == caller {
        kept := kept + [item];
      } else if (found.None? || owner == "") && !denyUnverified {
        kept := kept + [item];
      } else {
        removed := removed + 1;
        firstForeign := if firstForeign != "" then firstForeign else owner;
      }
    }
    assert items[..|items|] == items;
  }

  /** Sends the list with other people's items removed. */
  method SendFiltered(held: HeldResponse, rule: Rule, root: Value, kept: seq<Value>, codec: Codec)
    modifies held, held.dst
    ensures held.dst.View() == Answer(old(held.View()), Filtered(root, kept, 0, ""), rule, true, codec)
  {
    var filtered := Replace(root, rule.listField, Array(kept));
    if filtered.None? {
      Refuse(held.dst);
      return;
    }
    var out := codec.encode(filtered.value);
    if out.None? {
      Refuse(held.dst);
      return;
    }
    held.header := held.header - {"Content-Length", "ETag"};
    held.CopyHeaderTo(held.dst);
    var status := held.StatusCode();
    held.dst.WriteHeader(status);
    held.dst.Write(TrimNewlines(out.value));
  }

  /** What the guard remembers of a settled read: an answer that was passed on leaves no trace. */
  ghost predicate Noted(before: Memory, after: Memory, ip: string, requestId: string, template: string, caller: string,
                        v: Verdict, now: int)
  {
    match v
    case PassedOn => after == before
    case Empty => after == before
    case Owned => after == Cleared(before, ip, requestId)
    case AllOwned => after == Cleared(before, ip, requestId)
    case Unverifiable =>
      RecordedFrom(before, after, ip, Incident(requestId, template, UnverifiableAnswer, caller, "", 0, now))
    case Foreign(owner) =>
      RecordedFrom(before, after, ip, Incident(requestId, template, OwnerMismatch, caller, owner, 0, now))
    case Filtered(_, _, removed, firstForeign) =>
      RecordedFrom(before, after, ip, Incident(requestId, template, ItemsRemoved, caller, firstForeign, removed, now))
  }

  /** Reads the owner of the held answer and settles what the client gets. */
  method Decide(guard: Guard, held: HeldResponse, rule: Rule, caller: string, ip: string, requestId: string,
                tun: Tunables, codec: Codec, now: int)
    returns (ghost verdict: Verdict)
    requires guard.Valid() && ip != ""
    modifies guard, held, held.dst
    ensures guard.Valid()
    ensures verdict == Judge(old(held.View()), rule, caller, tun.denyUnverified, codec)
    ensures held.dst.View() == Answer(old(held.View()), verdict, rule, tun.denyUnverified, codec)
    ensures Noted(old(guard.Contents()), guard.Contents(), ip, requestId, rule.template, caller, verdict, now)
  {
    if held.streaming && !held.overflow {
      return PassedOn;
    }
    if !held.overflow && |held.body| == 0 {
      held.Release();
      return Empty;
    }
    var root := if held.overflow || Compressed(held.header) then None else codec.decode(held.body);
    if root.None? {
      SettleUnverifiable(guard, held, rule, caller, ip, requestId, tun, codec, now);
      return Unverifiable;
    }
    if !rule.list {
      verdict := DecideObject(guard, held, rule, root.value, caller, ip, requestId, tun, codec, now);
    } else {
      verdict := DecideList(guard, held, rule, root.value, caller, ip, requestId, tun, codec, now);
    }
  }

  method SettleUnverifiable(guard: Guard, held: HeldResponse, rule: Rule, caller: string, ip: string,
                            requestId: string, tun: Tunables,
                            ghost codec: Codec, now: int)
    requires guard.Valid() && ip != ""
    modifies guard, held, held.dst
    ensures guard.Valid()
    ensures held.dst.View() == Answer(old(held.View()), Unverifiable, rule, tun.denyUnverified, codec)
    ensures Noted(old(guard.Contents()), guard.Contents(), ip, requestId, rule.template, caller, Unverifiable, now)
  {
    hide WithIncident, RecordedFrom, RoomFor, TablesOk, Refused, Held.Released;
    var _ := guard.Record(ip, Incident(requestId, rule.template, UnverifiableAnswer, caller, "", 0, now));
    if tun.denyUnverified {
      Refuse(held.dst);
    } else {
      held.Release();
    }
  }

  method SettleForeign(guard: Guard, held: HeldResponse, rule: Rule, ownerId: string, caller: string, ip: string,
                       requestId: string,
                       ghost tun: Tunables, ghost codec: Codec, now: int)
    requires guard.Valid() && ip != ""
    modifies guard, held.dst
    ensures guard.Valid()
    ensures held.dst.View() == Answer(old(held.View()), Foreign(ownerId), rule, tun.denyUnverified, codec)
    ensures Noted(old(guard.Contents()), guard.Contents(), ip, requestId, rule.template, caller, Foreign(ownerId), now)
  {
    hide WithIncident, RecordedFrom, RoomFor, TablesOk, Refused;
    var _ := guard.Record(ip, Incident(requestId, rule.template, OwnerMismatch, caller, ownerId, 0, now));
    Refuse(held.dst);
  }

  method SettleOwned(guard: Guard, held: HeldResponse, rule: Rule, caller: string, ip: string, requestId: string,
                     tun: Tunables,
                     ghost codec: Codec, now: int, ghost verdict: Verdict)
    requires guard.Valid() && ip != "" && (verdict.Owned? || verdict.AllOwned?)
    modifies guard, held.dst
    ensures guard.Valid()
    ensures held.dst.View() == Answer(old(held.View()), verdict, rule, tun.denyUnverified, codec)
    ensures Noted(old(guard.Contents()), guard.Contents(), ip, requestId, rule.template, caller, verdict, now)
  {
    guard.Clear(ip, requestId);
    held.Release();
  }

  method SettleFiltered(guard: Guard, held: HeldResponse, rule: Rule, root: Value, kept: seq<Value>, removed: nat,
                        firstForeign: string,
                        caller: string, ip: string, requestId: string, tun: Tunables, codec: Codec, now: int)
    requires guard.Valid() && ip != ""
    modifies guard, held, held.dst
    ensures guard.Valid()
    ensures held.dst.View() ==
            Answer(old(held.View()), Filtered(root, kept, removed, firstForeign), rule, tun.denyUnverified, codec)
    ensures Noted(old(guard.Contents()), guard.Contents(), ip, requestId, rule.template, caller,
                  Filtered(root, kept, removed, firstForeign), now)
  {
    hide WithIncident, RecordedFrom, RoomFor, TablesOk, Refused, Rewritten, Replace, TrimNewlines;
    var _ := guard.Record(ip, Incident(requestId, rule.template, ItemsRemoved, caller, firstForeign, removed, now));
    SendFiltered(held, rule, root, kept, codec);
  }

  method DecideObject(guard: Guard, held: HeldResponse, rule: Rule, root: Value, caller: string, ip: string,
                      requestId: string, tun: Tunables,
                      codec: Codec, now: int)
    returns (ghost verdict: Verdict)
    requires guard.Valid() && ip != ""
    modifies guard, held, held.dst
    ensures guard.Valid()
    ensures verdict == JudgeObject(root, rule, caller)
    ensures held.dst.View() == Answer(old(held.View()), verdict, rule, tun.denyUnverified, codec)
    ensures Noted(old(guard.Contents()), guard.Contents(), ip, requestId, rule.template, caller, verdict, now)
  {
    hide Answer, Noted, Guard.Valid, Lookup;
    var owner := Lookup(root, rule.ownerField);
    var ownerId := ClaimString(owner);
    if owner.None? || ownerId == "" {
      SettleUnverifiable(guard, held, rule, caller, ip, requestId, tun, codec, now);
      return Unverifiable;
    }
    if ownerId != caller {
      SettleForeign(guard, held, rule, ownerId, caller, ip, requestId, tun, codec, now);
      return Foreign(ownerId);
    }
    SettleOwned(guard, held, rule, caller, ip, requestId, tun, codec, now, Owned);
    return Owned;
  }

  method DecideList(guard: Guard, held: HeldResponse, rule: Rule, root: Value, caller: string, ip: string,
                    requestId: string, tun: Tunables,
                    codec: Codec, now: int)
    returns (ghost verdict: Verdict)
    requires guard.Valid() && ip != ""
    modifies guard, held, held.dst
    ensures guard.Valid()
    ensures verdict == JudgeList(root, rule, caller, tun.denyUnverified)
    ensures held.dst.View() == Answer(old(held.View()), verdict, rule, tun.denyUnverified, codec)
    ensures Noted(old(guard.Contents()), guard.Contents(), ip, requestId, rule.template, caller, verdict, now)
  {
    hide Answer, Noted, Kept, FirstForeign, Guard.Valid, Guard.Contents, Lookup;
    var listValue := Lookup(root, rule.listField);
    if listValue.None? || !listValue.value.Array? {
      SettleUnverifiable(guard, held, rule, caller, ip, requestId, tun, codec, now);
      return Unverifiable;
    }
    var kept, removed, firstForeign := FilterItems(listValue.value.items, rule.ownerField, caller, tun.denyUnverified);
    if removed == 0 {
      SettleOwned(guard, held, rule, caller, ip, requestId, tun, codec, now, AllOwned);
      return AllOwned;
    }
    SettleFiltered(guard, held, rule, root, kept, removed, firstForeign, caller, ip, requestId, tun, codec, now);
    return Filtered(root, kept, removed, firstForeign);
  }

  // ---------------------------------------------------------------- the middleware

  datatype Identity = Forged | Missing | Caller(id: string, bypasses: bool)

  function Direct(c: Client, call: Call): Client {
    match call
    case SetHeader(key, values) => c.(header := c.header[key := values])
    case WriteHeader(code) => c.WithStatus(code)
    case Write(p) => c.WithBytes(p)
  }

  function DirectAll(c: Client, calls: seq<Call>): Client {
    if calls == [] then c else Direct(DirectAll(c, calls[..|calls| - 1]), calls[|calls| - 1])
  }

  method ServeDirect(w: ResponseWriter, calls: seq<Call>)
    modifies w
    ensures w.View() == DirectAll(old(w.View()), calls)
  {
    for i := 0 to |calls|
      invariant w.View() == DirectAll(old(w.View()), calls[..i])
    {
      assert calls[..i + 1][..i] == calls[..i];
      match calls[i]
      case SetHeader(key, values) => w.SetHeader(key, values);
      case WriteHeader(code) => w.WriteHeader(code);
      case Write(p) => w.Write(p);
    }
    assert calls[..|calls|] == calls;
  }

  function JudgedAnswer(client: Client, calls: seq<Call>, rule: Rule, caller: string, tun: Tunables,
                        codec: Codec): Verdict
  {
    Judge(AfterAll(HeldResponses.Fresh(tun.maxBodyBytes, !tun.denyUnverified, client), calls), rule, caller,
          tun.denyUnverified, codec)
  }

  /** What the client of a protected read receives, given everything the backend does. */
  function Protected(client: Client, calls: seq<Call>, rule: Rule, caller: string, tun: Tunables, codec: Codec): Client
  {
    var held := AfterAll(HeldResponses.Fresh(tun.maxBodyBytes, !tun.denyUnverified, client), calls);
    Answer(held, JudgedAnswer(client, calls, rule, caller, tun, codec), rule, tun.denyUnverified, codec)
  }

  function Unauthenticated(c: Client): Client {
    JsonAnswer(c.(header := c.header["WWW-Authenticate" := ["Bearer error=\"invalid_token\""]]), 401,
               AUTHENTICATION_REQUIRED)
  }

  method Middleware(guard: Guard, w: ResponseWriter, calls: seq<Call>, rule: Option<Rule>, who: Identity, ip: string,
                    requestId: string,
                    tun: Tunables, codec: Codec, now: int)
    requires guard.Valid() && ip != ""
    modifies guard, w
    ensures guard.Valid()
    ensures w.View() ==
      if !tun.enabled || rule.None? then DirectAll(old(w.View()), calls)
      else if !who.Caller? then Unauthenticated(old(w.View()))
      else if who.bypasses then DirectAll(old(w.View()), calls)
      else Protected(old(w.View()), calls, rule.value, who.id, tun, codec)
    ensures var before, after := old(guard.Contents()), guard.Contents();
      if !tun.enabled || rule.None? then after == before
      else if !who.Caller? then
        RecordedFrom(before, after, ip,
                     Incident(requestId, rule.value.template, if who.Forged? then ForgedToken else NoToken, "", "", 0,
                              now))
      else if who.bypasses then after == before
      else Noted(before, after, ip, requestId, rule.value.template, who.id,
                 JudgedAnswer(old(w.View()), calls, rule.value, who.id, tun, codec), now)
  {
    hide RecordedFrom, WithIncident, Noted, Judge, Answer;
    if !tun.enabled || rule.None? {
      ServeDirect(w, calls);
      return;
    }
    if !who.Caller? {
      var reason := if who.Forged? then ForgedToken else NoToken;
      var _ := guard.Record(ip, Incident(requestId, rule.value.template, reason, "", "", 0, now));
      w.SetHeader("WWW-Authenticate", ["Bearer error=\"invalid_token\""]);
      WriteJson(w, 401, AUTHENTICATION_REQUIRED);
      return;
    }
    if who.bypasses {
      ServeDirect(w, calls);
      return;
    }
    var held := new HeldResponse(w, tun.maxBodyBytes, !tun.denyUnverified);
    Serve(held, calls);
    var _ := Decide(guard, held, rule.value, who.id, ip, requestId, tun, codec, now);
  }

  // ---------------------------------------------------------------- containment

  /** The answer is the caller's own: nothing, its object, its whole list, or that list without other people's items. */
  ghost predicate CallersOwn(answer: Client, status: int, body: Bytes, rule: Rule, caller: string, codec: Codec) {
    && answer.status == status
    && ((body == [] && answer.body == [])
        || (codec.decode(body).Some? &&
            var root := codec.decode(body).value;
            (!rule.list && answer.body == body && OwnerOf(root, rule.ownerField) == caller)
            || (rule.list && answer.body == body && OwnsWholeList(root, rule, caller, true))
            || (rule.list && exists filtered ::
                  OwnPartOfList(root, filtered, rule, caller, true) && IsText(answer.body, filtered, codec))))
  }

  ghost predicate IsText(body: Bytes, root: Value, codec: Codec) {
    codec.encode(root).Some? && body == TrimNewlines(codec.encode(root).value)
  }

  /** The item names the caller as its owner, or nobody, and such items are let through. */
  ghost predicate MayRead(item: Value, field: Path, caller: string, denyUnverified: bool) {
    OwnerOf(item, field) == caller || (OwnerOf(item, field) == "" && !denyUnverified)
  }

  ghost predicate OwnsWholeList(root: Value, rule: Rule, caller: string, denyUnverified: bool) {
    var list := Lookup(root, rule.listField);
    list.Some? && list.value.Array? && forall i :: 0 <= i < |list.value.items| ==>
      MayRead(list.value.items[i], rule.ownerField, caller, denyUnverified)
  }

  /** filtered is root with its list cut down to the items the caller may read, in order, and nothing else changed. */
  ghost predicate OwnPartOfList(root: Value, filtered: Value, rule: Rule, caller: string, denyUnverified: bool) {
    var list := Lookup(root, rule.listField);
    && list.Some? && list.value.Array?
    && Lookup(filtered, rule.listField).Some? && Lookup(filtered, rule.listField).value.Array?
    && OwnItemsOf(Lookup(filtered, rule.listField).value.items, list.value.items, rule.ownerField, caller,
                  denyUnverified)
    && forall q: Path :: Apart(rule.listField, q) ==> Lookup(filtered, q) == Lookup(root, q)
  }

  /** kept lists exactly the items the caller may read, in their order: at[] gives their positions. */
  ghost predicate OwnItemsAt(kept: seq<Value>, items: seq<Value>, field: Path, caller: string, denyUnverified: bool,
                             at: seq<nat>) {
    && |at| == |kept|
    && (forall i :: 0 <= i < |at| ==> at[i] < |items| && kept[i] == items[at[i]])
    && (forall i, j :: 0 <= i < j < |at| ==> at[i] < at[j])
    && (forall k :: 0 <= k < |items| ==> (MayRead(items[k], field, caller, denyUnverified) <==> k in at))
  }

  ghost predicate OwnItemsOf(kept: seq<Value>, items: seq<Value>, field: Path, caller: string, denyUnverified: bool) {
    exists at :: OwnItemsAt(kept, items, field, caller, denyUnverified, at)
  }

  lemma OwnItemsStep(kept: seq<Value>, items: seq<Value>, field: Path, caller: string, denyUnverified: bool,
                     at: seq<nat>, last: Value)
    requires OwnItemsAt(kept, items, field, caller, denyUnverified, at)
    ensures if MayRead(last, field, caller, denyUnverified)
            then OwnItemsAt(kept + [last], items + [last], field, caller, denyUnverified, at + [|items|])
            else OwnItemsAt(kept, items + [last], field, caller, denyUnverified, at)
  {
    hide MayRead;
    var more := items + [last];
    forall i | 0 <= i < |at| ensures at[i] < |items| && more[at[i]] == kept[i] {}
    forall k | 0 <= k < |items| ensures MayRead(more[k], field, caller, denyUnverified) <==> k in at {
      assert more[k] == items[k];
    }
    assert |items| !in at;
    assert more[|items|] == last;
  }

  lemma StaysExactly(item: Value, field: Path, caller: string, denyUnverified: bool)
    requires caller != ""
    ensures Stays(item, field, caller, denyUnverified) <==> MayRead(item, field, caller, denyUnverified)
  {
    hide Lookup;
  }

  lemma {:induction false} KeptAreOwn(items: seq<Value>, field: Path, caller: string, denyUnverified: bool)
    returns (at: seq<nat>)
    requires caller != ""
    ensures OwnItemsAt(Kept(items, field, caller, denyUnverified), items, field, caller, denyUnverified, at)
  {
    hide Lookup, OwnItemsAt, Stays, MayRead;
    if items == [] {
      at := [];
      NoItems(field, caller, denyUnverified);
    } else {
      var front, last := items[..|items| - 1], items[|items| - 1];
      var before := KeptAreOwn(front, field, caller, denyUnverified);
      var kept := Kept(front, field, caller, denyUnverified);
      OwnItemsStep(kept, front, field, caller, denyUnverified, before, last);
      assert items == front + [last];
      StaysExactly(last, field, caller, denyUnverified);
      assert kept + [] == kept;
      at := if MayRead(last, field, caller, denyUnverified) then before + [|front|] else before;
    }
  }

  lemma NoItems(field: Path, caller: string, denyUnverified: bool)
    ensures OwnItemsAt([], [], field, caller, denyUnverified, [])
  {
  }

  /** A caller's read is contained: whatever the backend does, a successful answer reaches the client only as the
      caller's own. */
  lemma Containment(client: Client, calls: seq<Call>, rule: Rule, caller: string, tun: Tunables, codec: Codec)
    requires client.status == 0 && client.body == [] && caller != "" && tun.denyUnverified && tun.maxBodyBytes >= 0
    requires (forall i :: 0 <= i < |calls| ==> ValidCall(calls[i])) && Success(FirstStatus(calls))
    ensures var answer := Protected(client, calls, rule, caller, tun, codec);
            var status := if FirstStatus(calls) == 0 then 200 else FirstStatus(calls);
            answer == Refused(client) || CallersOwn(answer, status, Body(calls), rule, caller, codec)
  {
    HeldBack(tun.maxBodyBytes, client, calls);
    var held := AfterAll(HeldResponses.Fresh(tun.maxBodyBytes, false, client), calls);
    hide AfterAll, HeaderAfter, Body, FirstStatus;
    JudgedContained(held, rule, caller, tun, codec);
  }

  lemma JudgedContained(held: Held, rule: Rule, caller: string, tun: Tunables, codec: Codec)
    requires held.client.status == 0 && held.client.body == [] && caller != "" && tun.denyUnverified
    requires !held.streaming && (held.overflow ==> held.body == [])
    ensures var v := Judge(held, rule, caller, true, codec);
            var answer := Answer(held, v, rule, true, codec);
            answer == Refused(held.client)
              || (!held.overflow && CallersOwn(answer, held.StatusCode(), held.body, rule, caller, codec))
  {
    hide Refused, CallersOwn, TrimNewlines;
    var v := Judge(held, rule, caller, true, codec);
    if v.Filtered? {
      FilteredContained(held, v, rule, caller, codec);
    } else if v.AllOwned? {
      AllOwnedContained(held, rule, caller, codec);
    } else if v.Owned? || v.Empty? {
      ReleasedContained(held, v, rule, caller, codec);
    }
  }

  lemma ReleasedContained(held: Held, v: Verdict, rule: Rule, caller: string, codec: Codec)
    requires held.client.status == 0 && held.client.body == [] && !held.streaming
    requires v == Judge(held, rule, caller, true, codec) && (v.Owned? || v.Empty?)
    ensures !held.overflow
            && CallersOwn(Answer(held, v, rule, true, codec), held.StatusCode(), held.body, rule, caller, codec)
  {
    hide OwnsWholeList, OwnPartOfList, TrimNewlines;
  }

  lemma AllOwnedContained(held: Held, rule: Rule, caller: string, codec: Codec)
    requires held.client.status == 0 && held.client.body == [] && !held.streaming && caller != ""
    requires Judge(held, rule, caller, true, codec).AllOwned?
    ensures !held.overflow
            && CallersOwn(Answer(held, AllOwned, rule, true, codec), held.StatusCode(), held.body, rule, caller, codec)
  {
    var root := codec.decode(held.body).value;
    var items := Lookup(root, rule.listField).value.items;
    NothingRemoved(items, rule.ownerField, caller);
    forall i | 0 <= i < |items| ensures MayRead(items[i], rule.ownerField, caller, true) {
      assert Stays(items[i], rule.ownerField, caller, true);
    }
    assert OwnsWholeList(root, rule, caller, true);
    hide OwnsWholeList, OwnPartOfList, TrimNewlines, Kept, Lookup;
  }

  lemma {:induction false} NothingRemoved(items: seq<Value>, field: Path, caller: string)
    requires |Kept(items, field, caller, true)| == |items|
    ensures forall i :: 0 <= i < |items| ==> Stays(items[i], field, caller, true)
  {
    hide Stays;
    if items != [] {
      KeptIsShorter(items[..|items| - 1], field, caller, true);
      NothingRemoved(items[..|items| - 1], field, caller);
    }
  }

  lemma FilteredContained(held: Held, v: Verdict, rule: Rule, caller: string, codec: Codec)
    requires held.client.status == 0 && held.client.body == [] && !held.streaming && caller != ""
    requires v == Judge(held, rule, caller, true, codec) && v.Filtered?
    ensures var answer := Answer(held, v, rule, true, codec);
            answer == Refused(held.client)
              || (!held.overflow && CallersOwn(answer, held.StatusCode(), held.body, rule, caller, codec))
  {
    var list := Array(v.kept);
    ReplaceFound(v.root, rule.listField, list);
    var filtered := Replace(v.root, rule.listField, list).value;
    forall q: Path | Apart(rule.listField, q) ensures Lookup(filtered, q) == Lookup(v.root, q) {
      ReplaceElsewhere(v.root, rule.listField, list, q);
    }
    var at := KeptAreOwn(Lookup(v.root, rule.listField).value.items, rule.ownerField, caller, true);
    assert OwnPartOfList(v.root, filtered, rule, caller, true);
    hide OwnPartOfList, OwnsWholeList, Refused, Kept, Lookup, Replace, TrimNewlines;
  }

  /** How the backend split its answer into writes makes no difference to what the client gets. */
  lemma SplittingIsInvisible(client: Client, calls: seq<Call>, others: seq<Call>, rule: Rule, caller: string,
                             tun: Tunables, codec: Codec)
    requires tun.denyUnverified && tun.maxBodyBytes >= 0
    requires forall i :: 0 <= i < |calls| ==> ValidCall(calls[i])
    requires forall i :: 0 <= i < |others| ==> ValidCall(others[i])
    requires FirstStatus(calls) == FirstStatus(others) && Success(FirstStatus(calls))
    requires Body(calls) == Body(others) && HeaderAfter(calls) == HeaderAfter(others)
    ensures Protected(client, calls, rule, caller, tun, codec) == Protected(client, others, rule, caller, tun, codec)
  {
    HeldBack(tun.maxBodyBytes, client, calls);
    HeldBack(tun.maxBodyBytes, client, others);
    hide Judge, Answer, AfterAll, Body, FirstStatus, HeaderAfter;
  }
}
