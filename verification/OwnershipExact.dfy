/** What a caller receives of a protected read, and what the guard remembers of it, from the backend's calls alone. */
module OwnershipExact {
  import opened Common
  import opened Json
  import opened HeldResponses
  import opened OwnershipGuard

  // ---- Answers that carry nobody's object ---------------------------------

  ghost predicate Untouched(client: Client) { client.status == 0 && client.body == [] }

  /** An answer that is not a success passes the guard as it is, and leaves no trace. */
  lemma ErrorsPassOn(client: Client, calls: seq<Call>, rule: Rule, caller: string, tun: Tunables, codec: Codec)
    requires Untouched(client) && tun.maxBodyBytes >= 0
    requires (forall i :: 0 <= i < |calls| ==> ValidCall(calls[i])) && !Success(FirstStatus(calls))
    ensures Protected(client, calls, rule, caller, tun, codec) ==
            Delivered(client, FirstStatus(calls), HeaderAtStatus(calls), Body(calls))
    ensures JudgedAnswer(client, calls, rule, caller, tun, codec) == PassedOn
  {
    ErrorsStream(tun.maxBodyBytes, !tun.denyUnverified, client, calls);
    hide AfterAll, Body, FirstStatus, HeaderAtStatus, Delivered;
  }

  /** So does a success without a body. */
  lemma EmptyPassesOn(client: Client, calls: seq<Call>, rule: Rule, caller: string, tun: Tunables, codec: Codec)
    requires Untouched(client) && tun.maxBodyBytes >= 0
    requires (forall i :: 0 <= i < |calls| ==> ValidCall(calls[i])) && Success(FirstStatus(calls)) && Body(calls) == []
    ensures Protected(client, calls, rule, caller, tun, codec) ==
            Delivered(client, if FirstStatus(calls) == 0 then 200 else FirstStatus(calls), HeaderAfter(calls), [])
    ensures JudgedAnswer(client, calls, rule, caller, tun, codec) == Empty
  {
    if tun.denyUnverified {
      HeldBack(tun.maxBodyBytes, client, calls);
    } else {
      OverflowStreams(tun.maxBodyBytes, client, calls);
    }
    hide AfterAll, Body, FirstStatus, HeaderAfter, HeaderAtOverflow, Judge, Answer, Delivered;
    EmptyReleased(AfterAll(HeldResponses.Fresh(tun.maxBodyBytes, !tun.denyUnverified, client), calls), rule, caller,
                  tun.denyUnverified, codec);
  }

  lemma EmptyReleased(held: Held, rule: Rule, caller: string, denyUnverified: bool, codec: Codec)
    requires Untouched(held.client) && !held.streaming && !held.overflow && held.body == []
    ensures Judge(held, rule, caller, denyUnverified, codec) == Empty
    ensures Answer(held, Empty, rule, denyUnverified, codec) ==
            Delivered(held.client, held.StatusCode(), held.header, [])
  {
  }

  ghost predicate SentAsAnswered(answer: Client, client: Client, calls: seq<Call>) {
    && answer.status == FirstStatus(calls) && answer.body == Body(calls)
    && answer.header == client.header + HeaderAfter(calls)
    && answer.sentHeader ==
       if FirstStatus(calls) == 0 then client.sentHeader else client.header + HeaderAtStatus(calls)
  }

  /** A read that is not protected reaches the client as the backend answers it. */
  lemma {:induction false} DirectExactly(client: Client, calls: seq<Call>)
    requires Untouched(client) && forall i :: 0 <= i < |calls| ==> ValidCall(calls[i])
    ensures SentAsAnswered(DirectAll(client, calls), client, calls)
  {
    hide SentAsAnswered;
    if calls == [] {
      NothingSent(client);
    } else {
      var front := calls[..|calls| - 1];
      DirectExactly(client, front);
      OneMoreCall(DirectAll(client, front), client, calls);
    }
  }

  lemma NothingSent(client: Client)
    requires Untouched(client)
    ensures SentAsAnswered(client, client, [])
  {
    assert client.header + map[] == client.header;
  }

  lemma OneMoreCall(before: Client, client: Client, calls: seq<Call>)
    requires calls != [] && ValidCall(calls[|calls| - 1])
    requires SentAsAnswered(before, client, calls[..|calls| - 1])
    ensures SentAsAnswered(Direct(before, calls[|calls| - 1]), client, calls)
  {
    var front := calls[..|calls| - 1];
    var header := HeaderAfter(front);
    match calls[|calls| - 1]
    case SetHeader(key, values) =>
      assert (client.header + header)[key := values] == client.header + header[key := values];
    case WriteHeader(code) =>
    case Write(p) =>
  }

  /** Without a token, or with a forged one, the client learns that it has to authenticate, and nothing else. */
  lemma UnauthenticatedExactly(client: Client)
    requires Untouched(client)
    ensures var answer := Unauthenticated(client);
            && answer.status == 401
            && answer.body == Ascii("{\"success\":false,\"message\":\"Authentication required\"}")
            && answer.sentHeader == client.header["WWW-Authenticate" := ["Bearer error=\"invalid_token\""]]
                                    ["Content-Type" := ["application/json"]]["Cache-Control" := ["no-store"]]
  {
    hide Ascii;
    assert [] + AUTHENTICATION_REQUIRED == AUTHENTICATION_REQUIRED;
  }

  // ---- Answers that cannot be checked --------------------------------------

  /** A 404 that says nothing but that, whatever the backend answered. */
  ghost predicate TellsNothing(answer: Client, client: Client) {
    && answer.status == 404 && answer.body == Ascii("{\"success\":false,\"message\":\"Not found\"}")
    && answer.sentHeader == client.header["Content-Type" := ["application/json"]]["Cache-Control" := ["no-store"]]
  }

  lemma RefusalTellsNothing(client: Client)
    requires Untouched(client)
    ensures TellsNothing(Refused(client), client)
  {
    hide Ascii;
    assert [] + NOT_FOUND == NOT_FOUND;
  }

  ghost predicate Refuses(answer: Client, client: Client) { answer == Refused(client) && TellsNothing(answer, client) }

  /** The whole answer; when it was too long to be held, with the headers set until then. */
  ghost function Whole(client: Client, calls: seq<Call>, limit: int): Client {
    Delivered(client, FirstStatus(calls),
              if |Body(calls)| > limit then HeaderAtOverflow(calls, limit) else HeaderAfter(calls), Body(calls))
  }

  /** An answer that cannot be checked is refused, or passed on where the rules let it through. */
  ghost predicate Unchecked(answer: Client, client: Client, calls: seq<Call>, tun: Tunables) {
    if tun.denyUnverified then Refuses(answer, client) else answer == Whole(client, calls, tun.maxBodyBytes)
  }

  /** The body fits, its answer names no encoding, and it is JSON. */
  ghost predicate Readable(calls: seq<Call>, tun: Tunables, codec: Codec) {
    |Body(calls)| <= tun.maxBodyBytes && !Compressed(HeaderAfter(calls)) && codec.decode(Body(calls)).Some?
  }

  /** A read that the backend answers with a success and a body. */
  ghost predicate Answered(client: Client, calls: seq<Call>, tun: Tunables) {
    && Untouched(client) && tun.maxBodyBytes >= 0
    && (forall i :: 0 <= i < |calls| ==> ValidCall(calls[i])) && Success(FirstStatus(calls)) && Body(calls) != []
  }

  /** What is held of such an answer. */
  ghost predicate HeldIs(h: Held, client: Client, calls: seq<Call>, tun: Tunables) {
    && h.status == FirstStatus(calls) != 0 && (h.overflow <==> |Body(calls)| > tun.maxBodyBytes)
    && (!h.overflow ==> !h.streaming && h.header == HeaderAfter(calls) && h.body == Body(calls) && h.client == client)
    && (h.overflow ==> if tun.denyUnverified then !h.streaming && h.client == client
                       else h.streaming && h.client == Whole(client, calls, tun.maxBodyBytes))
  }

  lemma HeldExactly(client: Client, calls: seq<Call>, tun: Tunables)
    requires Answered(client, calls, tun)
    ensures HeldIs(AfterAll(HeldResponses.Fresh(tun.maxBodyBytes, !tun.denyUnverified, client), calls), client, calls,
                   tun)
  {
    if FirstStatus(calls) == 0 {
      BodyNeedsStatus(calls);
    }
    if tun.denyUnverified {
      HeldBack(tun.maxBodyBytes, client, calls);
    } else {
      OverflowStreams(tun.maxBodyBytes, client, calls);
    }
    hide AfterAll, Body, FirstStatus, HeaderAfter, HeaderAtOverflow;
  }

  lemma {:induction false} BodyNeedsStatus(calls: seq<Call>)
    requires FirstStatus(calls) == 0
    ensures Body(calls) == []
  {
    if calls != [] {
      BodyNeedsStatus(calls[..|calls| - 1]);
    }
  }

  lemma ReleasedIsWhole(held: Held, client: Client, calls: seq<Call>, tun: Tunables)
    requires HeldIs(held, client, calls, tun) && Untouched(client) && (held.overflow ==> !tun.denyUnverified)
    ensures held.Released().client == Whole(client, calls, tun.maxBodyBytes)
  {
    hide Body, FirstStatus, HeaderAfter, HeaderAtOverflow;
    assert [] + held.body == held.body;
  }

  lemma UncheckedAnswered(held: Held, client: Client, calls: seq<Call>, rule: Rule, tun: Tunables, codec: Codec)
    requires HeldIs(held, client, calls, tun) && Untouched(client)
    ensures Unchecked(Answer(held, Unverifiable, rule, tun.denyUnverified, codec), client, calls, tun)
  {
    hide Refused, HeldIs, Whole, TellsNothing;
    RefusalTellsNothing(client);
    if tun.denyUnverified {
      ClientWaits(held, client, calls, tun);
    } else {
      ReleasedIsWhole(held, client, calls, tun);
    }
  }

  lemma ClientWaits(held: Held, client: Client, calls: seq<Call>, tun: Tunables)
    requires HeldIs(held, client, calls, tun) && (tun.denyUnverified || !held.overflow)
    ensures held.client == client
  {
  }

  // ---- Objects ---------------------------------------------------------------

  /** Exactly when a caller gets the object it asked for: when the answer is readable and names the caller as its owner.
      An answer that names somebody else is refused, and one that names nobody cannot be checked. */
  lemma ObjectReadExactly(client: Client, calls: seq<Call>, rule: Rule, caller: string, tun: Tunables, codec: Codec)
    requires Answered(client, calls, tun) && caller != "" && !rule.list
    ensures var answer := Protected(client, calls, rule, caller, tun, codec);
            var owner := if Readable(calls, tun, codec) then OwnerOf(codec.decode(Body(calls)).value, rule.ownerField)
                         else "";
            && (owner == "" ==> Unchecked(answer, client, calls, tun))
            && (owner == caller ==> answer == Delivered(client, FirstStatus(calls), HeaderAfter(calls), Body(calls)))
            && (owner != "" && owner != caller ==> Refuses(answer, client))
            && JudgedAnswer(client, calls, rule, caller, tun, codec) ==
               if owner == "" then Unverifiable else if owner == caller then Owned else Foreign(owner)
  {
    HeldExactly(client, calls, tun);
    hide AfterAll, Body, FirstStatus, HeaderAfter, HeaderAtOverflow, Refused, OwnerOf, Compressed, Unchecked, Refuses,
      Delivered, Held.Released;
    var held := AfterAll(HeldResponses.Fresh(tun.maxBodyBytes, !tun.denyUnverified, client), calls);
    UncheckedAnswered(held, client, calls, rule, tun, codec);
    Refusal(client);
    if !held.overflow {
      ReleasedIsWhole(held, client, calls, tun);
    }
  }

  lemma Refusal(client: Client)
    requires Untouched(client)
    ensures Refuses(Refused(client), client)
  {
    RefusalTellsNothing(client);
  }

  // ---- Lists -----------------------------------------------------------------

  /** The body is a list, as the rule describes it. */
  ghost predicate IsList(root: Value, rule: Rule) {
    match Lookup(root, rule.listField) case Some(Array(_)) => true case _ => false
  }

  /** The list unchanged, or some text of the list cut to what the caller may read, with the backend's status and
      headers; a cut list that cannot be written is refused. */
  ghost predicate ListDelivered(client: Client, answer: Client, status: int, header: Header, body: Bytes, root: Value,
                                rule: Rule, caller: string, tun: Tunables, codec: Codec)
  {
    if OwnsWholeList(root, rule, caller, tun.denyUnverified) then answer == Delivered(client, status, header, body)
    else exists filtered :: OwnPartOfList(root, filtered, rule, caller, tun.denyUnverified) &&
           if codec.encode(filtered).Some?
           then answer ==
             Delivered(client, status, header - {"Content-Length", "ETag"}, TrimNewlines(codec.encode(filtered).value))
           else Refuses(answer, client)
  }

  /** Exactly what a caller gets of a list it asked for: a readable list reaches it unchanged when it may read every
      item; otherwise it gets the list cut to what it may read, as long as that can be written; and an answer that is
      not such a list cannot be checked. */
  lemma ListReadExactly(client: Client, calls: seq<Call>, rule: Rule, caller: string, tun: Tunables, codec: Codec)
    requires Answered(client, calls, tun) && caller != "" && rule.list
    ensures var body, answer := Body(calls), Protected(client, calls, rule, caller, tun, codec);
            if Readable(calls, tun, codec) && IsList(codec.decode(body).value, rule)
            then ListDelivered(client, answer, FirstStatus(calls), HeaderAfter(calls), body, codec.decode(body).value,
                               rule, caller, tun, codec)
            else Unchecked(answer, client, calls, tun)
                 && JudgedAnswer(client, calls, rule, caller, tun, codec) == Unverifiable
  {
    HeldExactly(client, calls, tun);
    var held := AfterAll(HeldResponses.Fresh(tun.maxBodyBytes, !tun.denyUnverified, client), calls);
    hide AfterAll, Body, FirstStatus, HeaderAfter, HeaderAtOverflow, Refused, Compressed, Unchecked, ListDelivered,
      Answer, Lookup, Kept, FirstForeign;
    if Readable(calls, tun, codec) && IsList(codec.decode(Body(calls)).value, rule) {
      ListAnswered(held, client, calls, codec.decode(Body(calls)).value, rule, caller, tun, codec);
    } else {
      UncheckedAnswered(held, client, calls, rule, tun, codec);
    }
  }

  lemma ListAnswered(held: Held, client: Client, calls: seq<Call>, root: Value, rule: Rule, caller: string,
                     tun: Tunables, codec: Codec)
    requires HeldIs(held, client, calls, tun) && !held.overflow && Untouched(client) && caller != "" && rule.list
    requires Readable(calls, tun, codec) && root == codec.decode(Body(calls)).value && IsList(root, rule)
    requires Body(calls) != []
    ensures var v := Judge(held, rule, caller, tun.denyUnverified, codec);
            ListDelivered(client, Answer(held, v, rule, tun.denyUnverified, codec), FirstStatus(calls),
                          HeaderAfter(calls), Body(calls), root, rule, caller, tun, codec)
  {
    hide Body, FirstStatus, HeaderAfter, HeaderAtOverflow, Compressed;
    var v := Judge(held, rule, caller, tun.denyUnverified, codec);
    assert v == JudgeList(root, rule, caller, tun.denyUnverified);
    WholeListExactly(Lookup(root, rule.listField).value.items, rule.ownerField, caller, tun.denyUnverified);
    if OwnsWholeList(root, rule, caller, tun.denyUnverified) {
      ReleasedIsWhole(held, client, calls, tun);
      assert v == AllOwned by { hide Stays, MayRead; }
      hide Lookup, Kept, JudgeList, Delivered, Held.Released, OwnsWholeList, MayRead;
    } else {
      CutListAnswered(held, root, rule, caller, tun, codec);
    }
  }

  /** Nothing is removed exactly when the caller may read every item. */
  lemma {:induction false} WholeListExactly(items: seq<Value>, field: Path, caller: string, denyUnverified: bool)
    requires caller != ""
    ensures |Kept(items, field, caller, denyUnverified)| <= |items|
    ensures |Kept(items, field, caller, denyUnverified)| == |items| <==>
            forall i :: 0 <= i < |items| ==> MayRead(items[i], field, caller, denyUnverified)
  {
    hide Stays, MayRead;
    if items != [] {
      WholeListExactly(items[..|items| - 1], field, caller, denyUnverified);
      StaysExactly(items[|items| - 1], field, caller, denyUnverified);
    }
  }

  lemma CutListAnswered(held: Held, root: Value, rule: Rule, caller: string, tun: Tunables, codec: Codec)
    requires Untouched(held.client) && !held.streaming && held.status != 0
    requires caller != "" && IsList(root, rule) && !OwnsWholeList(root, rule, caller, tun.denyUnverified)
    ensures var answer := Answer(held, JudgeList(root, rule, caller, tun.denyUnverified), rule, tun.denyUnverified,
                                 codec);
            ListDelivered(held.client, answer, held.status, held.header, held.body, root, rule, caller, tun, codec)
  {
    hide OwnPartOfList, OwnsWholeList, Refused, Kept, Lookup, Replace, TrimNewlines, JudgeList, Refuses, MayRead,
      Rewritten, Delivered, Untouched, IsList;
    ListCut(root, rule, caller, tun.denyUnverified);
    Refusal(held.client);
    var v := JudgeList(root, rule, caller, tun.denyUnverified);
    var filtered := Replace(root, rule.listField, Array(v.kept)).value;
    if codec.encode(filtered).Some? {
      RewrittenIsDelivered(held, TrimNewlines(codec.encode(filtered).value));
    }
  }

  lemma ListCut(root: Value, rule: Rule, caller: string, denyUnverified: bool)
    requires caller != "" && IsList(root, rule) && !OwnsWholeList(root, rule, caller, denyUnverified)
    ensures var v := JudgeList(root, rule, caller, denyUnverified);
            && v.Filtered? && v.root == root && Replace(root, rule.listField, Array(v.kept)).Some?
            && OwnPartOfList(root, Replace(root, rule.listField, Array(v.kept)).value, rule, caller, denyUnverified)
  {
    WholeListExactly(Lookup(root, rule.listField).value.items, rule.ownerField, caller, denyUnverified);
    OwnPartFound(root, rule, caller, denyUnverified);
    hide Lookup, Kept, Replace, OwnPartOfList, MayRead, FirstForeign;
  }

  lemma RewrittenIsDelivered(held: Held, text: Bytes)
    requires Untouched(held.client) && held.status != 0
    ensures Rewritten(held, text) ==
            Delivered(held.client, held.status, held.header - {"Content-Length", "ETag"}, text)
  {
    assert [] + text == text;
  }

  lemma OwnPartFound(root: Value, rule: Rule, caller: string, denyUnverified: bool)
    requires caller != "" && IsList(root, rule)
    ensures var list := Array(Kept(Lookup(root, rule.listField).value.items, rule.ownerField, caller, denyUnverified));
            && Replace(root, rule.listField, list).Some?
            && OwnPartOfList(root, Replace(root, rule.listField, list).value, rule, caller, denyUnverified)
  {
    var items := Lookup(root, rule.listField).value.items;
    var list := Array(Kept(items, rule.ownerField, caller, denyUnverified));
    ReplaceFound(root, rule.listField, list);
    var filtered := Replace(root, rule.listField, list).value;
    forall q: Path | Apart(rule.listField, q) ensures Lookup(filtered, q) == Lookup(root, q) {
      ReplaceElsewhere(root, rule.listField, list, q);
    }
    var at := KeptAreOwn(items, rule.ownerField, caller, denyUnverified);
    assert OwnItemsOf(list.items, items, rule.ownerField, caller, denyUnverified);
    hide Kept, Lookup, Replace;
  }

  // ---- What is remembered of a list -------------------------------------------

  function Hidden(items: seq<Value>, field: Path, caller: string, denyUnverified: bool): set<int> {
    set k | 0 <= k < |items| && OwnerOf(items[k], field) != caller && (OwnerOf(items[k], field) != "" || denyUnverified)
  }

  /** The first owner that is named by an item the caller may not read; nobody, when none of them names one. */
  ghost predicate IsFirstForeign(items: seq<Value>, field: Path, hidden: set<int>, owner: string)
    requires forall k :: k in hidden ==> 0 <= k < |items|
  {
    if owner == "" then forall k :: k in hidden ==> OwnerOf(items[k], field) == ""
    else exists k :: k in hidden && OwnerOf(items[k], field) == owner
           && forall j :: j in hidden && j < k ==> OwnerOf(items[j], field) == ""
  }

  /** A list that the caller may read clears it; otherwise the number of removed items and the first foreign owner go
      into its evidence. */
  lemma ListJudgedExactly(root: Value, rule: Rule, caller: string, denyUnverified: bool)
    requires caller != "" && IsList(root, rule)
    ensures var v, items := JudgeList(root, rule, caller, denyUnverified), Lookup(root, rule.listField).value.items;
            var hidden := Hidden(items, rule.ownerField, caller, denyUnverified);
            && (hidden == {} ==> v == AllOwned)
            && (hidden != {} ==> v.Filtered? && v.removed == |hidden|
                                 && IsFirstForeign(items, rule.ownerField, hidden, v.firstForeign))
  {
    var items := Lookup(root, rule.listField).value.items;
    HiddenExactly(items, rule.ownerField, caller, denyUnverified);
    hide Hidden, IsFirstForeign, Kept, FirstForeign;
  }

  lemma {:induction false} HiddenExactly(items: seq<Value>, field: Path, caller: string, denyUnverified: bool)
    requires caller != ""
    ensures var hidden := Hidden(items, field, caller, denyUnverified);
            && |items| - |Kept(items, field, caller, denyUnverified)| == |hidden|
            && IsFirstForeign(items, field, hidden, FirstForeign(items, field, caller, denyUnverified))
  {
    hide Stays, OwnerOf, IsFirstForeign, Hidden;
    if items == [] {
      NoneHidden(field, caller, denyUnverified);
    } else {
      var front, last := items[..|items| - 1], items[|items| - 1];
      HiddenExactly(front, field, caller, denyUnverified);
      StaysExactly(last, field, caller, denyUnverified);
      OneMoreItem(front, last, field, caller, denyUnverified);
      OneMoreForeign(front, last, field, caller, denyUnverified, FirstForeign(front, field, caller, denyUnverified));
      assert front + [last] == items;
    }
  }

  lemma NoneHidden(field: Path, caller: string, denyUnverified: bool)
    ensures Hidden([], field, caller, denyUnverified) == {}
    ensures IsFirstForeign([], field, Hidden([], field, caller, denyUnverified), "")
  {
  }

  lemma OneMoreItem(front: seq<Value>, last: Value, field: Path, caller: string, denyUnverified: bool)
    ensures var more, hidden := Hidden(front + [last], field, caller, denyUnverified),
                                Hidden(front, field, caller, denyUnverified);
            && more == hidden + (if MayRead(last, field, caller, denyUnverified) then {} else {|front|})
            && |front| !in hidden
  {
    hide OwnerOf;
    var items := front + [last];
    assert items[|front|] == last && forall i :: 0 <= i < |front| ==> items[i] == front[i];
  }

  lemma OneMoreForeign(front: seq<Value>, last: Value, field: Path, caller: string, denyUnverified: bool, owner: string)
    requires IsFirstForeign(front, field, Hidden(front, field, caller, denyUnverified), owner)
    ensures IsFirstForeign(front + [last], field, Hidden(front + [last], field, caller, denyUnverified),
                           if owner == "" && !MayRead(last, field, caller, denyUnverified) then OwnerOf(last, field)
                           else owner)
  {
    hide OwnerOf, MayRead;
    var items, hidden := front + [last], Hidden(front, field, caller, denyUnverified);
    OneMoreItem(front, last, field, caller, denyUnverified);
    assert items[|front|] == last && forall i :: 0 <= i < |front| ==> items[i] == front[i];
    assert forall k :: k in hidden ==> k < |front|;
    hide Hidden;
    if owner != "" {
      var k :| k in hidden && OwnerOf(front[k], field) == owner
        && forall j :: j in hidden && j < k ==> OwnerOf(front[j], field) == "";
      assert OwnerOf(items[k], field) == owner;
    }
  }

  // ---- What a refusal changes ---------------------------------------------------

  /** A refusal is remembered for its own client. Every other client is remembered as before, except the ones that make
      room when a new client meets a full table: those whose evidence is older than five minutes, and when that is not
      enough, one more; such a client is forgotten altogether. */
  lemma RefusalRemembered(before: Memory, after: Memory, ip: string, i: Incident, other: string)
    requires TablesOk(before.last, before.violations) && RecordedFrom(before, after, ip, i) && other != ip
    ensures ip in after.last && after.last[ip] == EvidenceOf(before.violations, ip, i)
            && Tells(after.last[ip], i)
    ensures OthersAsBefore(before, after, other)
    ensures other in before.last && other !in after.last ==>
              ip !in before.last && |before.last| >= 10_000
    ensures i.reason in {OwnerMismatch, ForgedToken} ==> ip in after.violations && i.now in after.violations[ip]
  {
    hide WithIncident, RoomFor, EvidenceOf, TablesOk, OthersAsBefore, Tells;
    var roomy :| RoomFor(before.last, ip, i.now, roomy) && after == WithIncident(before, roomy, ip, i);
    RoomIsLess(before.last, ip, i.now, roomy);
    OwnRemembered(before, roomy, ip, i);
    EvidenceTells(before.violations, ip, i);
    OthersRemembered(before, roomy, ip, i, other);
  }

  ghost predicate Tells(r: Recorded, i: Incident) {
    && r.at == i.now && r.requestId == i.requestId && r.evidence.Refusal?
    && r.evidence.template == i.template && r.evidence.reason == i.reason && r.evidence.caller == i.caller
    && r.evidence.owner == i.owner && r.evidence.removed == i.removed
  }

  lemma EvidenceTells(violations: map<string, seq<int>>, ip: string, i: Incident)
    ensures Tells(EvidenceOf(violations, ip, i), i)
  {
    hide RecentAt, Score;
  }

  ghost predicate OthersAsBefore(before: Memory, after: Memory, other: string) {
    if other in after.last then
      && other in before.last && after.last[other] == before.last[other]
      && (other in after.violations <==> other in before.violations)
      && (other in after.violations ==> after.violations[other] == before.violations[other])
    else other !in after.violations
  }

  lemma OwnRemembered(before: Memory, roomy: map<string, Recorded>, ip: string, i: Incident)
    requires TablesOk(before.last, before.violations) && roomy.Keys <= before.last.Keys
    requires ip in before.last ==> roomy == before.last
    ensures var after := WithIncident(before, roomy, ip, i);
            && ip in after.last && after.last[ip] == EvidenceOf(before.violations, ip, i)
            && (i.reason in {OwnerMismatch, ForgedToken} ==> ip in after.violations && i.now in after.violations[ip])
  {
    hide Score, InWindow, TablesOk, EvidenceOf;
    var times := RecentAt(before.violations, ip, i.now, Crossed(i.reason));
    assert Crossed(i.reason) ==> times[|times| - 1] == i.now;
  }

  lemma OthersRemembered(before: Memory, roomy: map<string, Recorded>, ip: string, i: Incident, other: string)
    requires TablesOk(before.last, before.violations) && roomy.Keys <= before.last.Keys && other != ip
    requires forall j :: j in roomy ==> roomy[j] == before.last[j]
    ensures OthersAsBefore(before, WithIncident(before, roomy, ip, i), other)
    ensures other in roomy <==> other in WithIncident(before, roomy, ip, i).last
  {
    hide RecentAt, EvidenceOf;
  }

  lemma RoomIsLess(last: map<string, Recorded>, ip: string, now: int, roomy: map<string, Recorded>)
    requires RoomFor(last, ip, now, roomy)
    ensures roomy.Keys <= last.Keys && forall j :: j in roomy ==> roomy[j] == last[j]
    ensures ip in last || |last| < 10_000 ==> roomy == last
  {
  }
}
