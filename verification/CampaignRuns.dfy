/** Campaign memory over whole runs of merges, responses and reviews. */
module CampaignRuns {
  import opened Common
  import opened Sums
  import opened Campaigns
  import opened CampaignMemory
  import Models

  datatype Memory = Memory(stored: Store, counter: nat)

  /** One thing that happens to the repository. order is the order in which the store lists its campaigns. */
  datatype Op =
    | Merge(sightings: seq<Campaign>, order: seq<Campaign>)
    | Respond(id: nat, lastAction: Option<Models.Action>, alerted: bool)
    | Review(seen: set<nat>)

  function AsStore(known: seq<Campaign>): Store {
    if known == [] then map[] else AsStore(known[..|known| - 1])[known[|known| - 1].id := known[|known| - 1]]
  }

  lemma {:induction false} AsStoreLists(known: seq<Campaign>)
    requires forall i, j :: 0 <= i < j < |known| ==> known[i].id != known[j].id
    ensures Lists(known, AsStore(known))
  {
    if known != [] {
      var before := known[..|known| - 1];
      AsStoreLists(before);
      forall id | id in AsStore(known) ensures HasId(known, id) {
        if id == known[|known| - 1].id {
          assert HasId(known, id);
        } else {
          assert HasId(before, id);
          var i :| 0 <= i < |before| && before[i].id == id;
          assert known[i].id == id;
        }
      }
    }
  }

  ghost predicate Legal(m: Memory, op: Op) {
    match op
    case Merge(sightings, order) =>
      && Lists(order, m.stored)
      && (forall c :: c in sightings ==> IsSighting(c) && c.confidence <= 1.0)
    case Respond(id, _, _) => id in m.stored
    case Review(_) => true
  }

  function After(m: Memory, op: Op, window: real): Memory {
    match op
    case Merge(sightings, order) =>
      var f := FoldAll(order, m.counter, sightings, window);
      Memory(AsStore(f.known), f.counter)
    case Respond(id, lastAction, alerted) =>
      if id in m.stored then m.(stored := m.stored[id := m.stored[id].(lastAction := lastAction, alerted := alerted)])
      else m
    case Review(seen) => m.(stored := Reviewed(m.stored, seen))
  }

  function Run(ops: seq<Op>, window: real): Memory {
    if ops == [] then Memory(map[], 0) else After(Run(ops[..|ops| - 1], window), ops[|ops| - 1], window)
  }

  ghost predicate LegalRun(ops: seq<Op>, window: real) {
    ops == [] || (LegalRun(ops[..|ops| - 1], window) && Legal(Run(ops[..|ops| - 1], window), ops[|ops| - 1]))
  }

  /** The campaigns an operation folds a sighting into. */
  function Touched(m: Memory, op: Op, window: real): set<nat> {
    match op
    case Merge(sightings, order) =>
      var f := FoldAll(order, m.counter, sightings, window);
      set t | t in f.touched && t < |f.known| :: f.known[t].id
    case _ => {}
  }

  /** The reviews that did not see the campaign, counted from the last merge into it. */
  function QuietReviews(ops: seq<Op>, window: real, id: nat): nat {
    if ops == [] then 0
    else
      var before, op := ops[..|ops| - 1], ops[|ops| - 1];
      var soFar := QuietReviews(before, window, id);
      if id in Touched(Run(before, window), op, window) then 0
      else if op.Review? && id !in op.seen then soFar + 1
      else soFar
  }

  lemma MergeStored(m: Memory, op: Op, window: real)
    requires op.Merge? && Legal(m, op) && StoreValid(m.stored, m.counter)
    ensures var f := FoldAll(op.order, m.counter, op.sightings, window);
            && OnlyTouched(op.order, f) && Numbered(f.known, f.counter) && Awake(f)
            && Lists(f.known, After(m, op, window).stored)
            && StoreValid(After(m, op, window).stored, f.counter)
  {
    ListedNumbers(op.order, m.stored, m.counter);
    MergeTouches(op.order, m.counter, op.sightings, window);
    MergeWakes(op.order, m.counter, op.sightings, window);
    var f := FoldAll(op.order, m.counter, op.sightings, window);
    AsStoreLists(f.known);
    NumbersStored(f.known, AsStore(f.known), f.counter);
  }

  /** A merge wakes what it touches, and leaves every other campaign as it was. */
  lemma MergeEffect(m: Memory, op: Op, window: real, id: nat)
    requires op.Merge? && Legal(m, op) && StoreValid(m.stored, m.counter) && id in After(m, op, window).stored
    ensures var c := After(m, op, window).stored[id];
            if id in Touched(m, op, window) then c.status == Active && c.quietCycles == 0
            else id in m.stored && c == m.stored[id]
  {
    MergeStored(m, op, window);
    var f := FoldAll(op.order, m.counter, op.sightings, window);
    hide FoldAll, AsStore;
    assert HasId(f.known, id);
    var i :| 0 <= i < |f.known| && f.known[i].id == id;
    if id in Touched(m, op, window) {
      var t :| t in f.touched && t < |f.known| && f.known[t].id == id;
      assert t == i;
    } else {
      assert i !in f.touched;
      assert f.known[i] == op.order[i];
    }
  }

  /** Exactly the campaigns with three or more quiet reviews since their last sighting are contained. */
  ghost predicate QuietExactly(c: Campaign, reviews: nat) {
    && c.quietCycles == Min(3, reviews)
    && (c.status == Contained <==> reviews >= 3)
  }

  lemma {:induction false} ContainedExactly(ops: seq<Op>, window: real, id: nat)
    requires LegalRun(ops, window)
    ensures StoreValid(Run(ops, window).stored, Run(ops, window).counter)
    ensures id in Run(ops, window).stored ==> QuietExactly(Run(ops, window).stored[id], QuietReviews(ops, window, id))
  {
    if ops != [] {
      var before, op := ops[..|ops| - 1], ops[|ops| - 1];
      ContainedExactly(before, window, id);
      StepQuiet(Run(before, window), op, window, id, QuietReviews(before, window, id));
      hide After, Touched, Legal, QuietExactly;
    }
  }

  lemma StepQuiet(m: Memory, op: Op, window: real, id: nat, reviews: nat)
    requires Legal(m, op) && StoreValid(m.stored, m.counter)
    requires id in m.stored ==> QuietExactly(m.stored[id], reviews)
    ensures StoreValid(After(m, op, window).stored, After(m, op, window).counter)
    ensures id in After(m, op, window).stored ==>
              QuietExactly(After(m, op, window).stored[id],
                           if id in Touched(m, op, window) then 0 else if op.Review? && id !in op.seen then reviews + 1
                           else reviews)
  {
    hide FoldAll, AsStore;
    if op.Merge? {
      MergeStored(m, op, window);
      if id in After(m, op, window).stored {
        MergeEffect(m, op, window, id);
      }
    }
  }

  // ---- Conservation -----------------------------------------------------

  function EventCounts(stored: Store): map<nat, int> { map id | id in stored :: stored[id].eventCount }

  /** The events of all stored campaigns. */
  ghost function StoredEvents(stored: Store): int { Total(EventCounts(stored)) }

  function StoredAddresses(stored: Store): set<string> { set id, ip | id in stored && ip in stored[id].ips :: ip }

  lemma ListsInit(known: seq<Campaign>, stored: Store)
    requires Lists(known, stored) && known != []
    ensures Lists(known[..|known| - 1], stored - {known[|known| - 1].id})
  {
    var before, last := known[..|known| - 1], known[|known| - 1];
    forall id | id in stored - {last.id} ensures HasId(before, id) {
      assert HasId(known, id);
      var i :| 0 <= i < |known| && known[i].id == id;
      assert before[i].id == id;
    }
  }

  lemma EventsWithout(stored: Store, id: nat)
    requires id in stored
    ensures StoredEvents(stored) == stored[id].eventCount + StoredEvents(stored - {id})
  {
    TotalSplit(EventCounts(stored), id);
    assert EventCounts(stored - {id}) == EventCounts(stored) - {id};
  }

  lemma NoneListed(known: seq<Campaign>, stored: Store)
    requires Lists(known, stored) && known == []
    ensures stored == map[]
  {
    assert forall id :: id in stored ==> HasId(known, id);
  }

  lemma {:induction false} ListedEvents(known: seq<Campaign>, stored: Store)
    requires Lists(known, stored)
    ensures StoredEvents(stored) == Events(known)
  {
    if known == [] {
      NoneListed(known, stored);
      assert EventCounts(stored) == map[];
    } else {
      var last := known[|known| - 1];
      assert last.id in stored && stored[last.id] == last;
      ListsInit(known, stored);
      EventsWithout(stored, last.id);
      hide Lists, StoredEvents;
      ListedEvents(known[..|known| - 1], stored - {last.id});
    }
  }

  lemma ListedAddresses(known: seq<Campaign>, stored: Store)
    requires Lists(known, stored)
    ensures StoredAddresses(stored) == Covered(known)
  {
    forall ip ensures ip in StoredAddresses(stored) <==> ip in Covered(known) {
      if ip in StoredAddresses(stored) {
        var id :| id in stored && ip in stored[id].ips;
        assert HasId(known, id);
        var i :| 0 <= i < |known| && known[i].id == id;
        assert ip in known[i].ips;
      }
      if ip in Covered(known) {
        var i :| 0 <= i < |known| && ip in known[i].ips;
        assert known[i].id in stored && ip in stored[known[i].id].ips;
      }
    }
  }

  /** The events, and the addresses, of everything the correlation agent ever reported. */
  function Reported(ops: seq<Op>): int {
    if ops == [] then 0
    else Reported(ops[..|ops| - 1]) + (if ops[|ops| - 1].Merge? then Events(ops[|ops| - 1].sightings) else 0)
  }

  function ReportedAddresses(ops: seq<Op>): set<string> {
    if ops == [] then {}
    else ReportedAddresses(ops[..|ops| - 1]) + (if ops[|ops| - 1].Merge? then Covered(ops[|ops| - 1].sightings) else {})
  }

  lemma StepConserves(m: Memory, op: Op, window: real)
    requires Legal(m, op) && StoreValid(m.stored, m.counter)
    ensures StoredEvents(After(m, op, window).stored) == StoredEvents(m.stored)
            + (if op.Merge? then Events(op.sightings) else 0)
    ensures StoredAddresses(After(m, op, window).stored) == StoredAddresses(m.stored)
            + (if op.Merge? then Covered(op.sightings) else {})
  {
    hide FoldAll, AsStore, Covered, Events, Numbered, Total;
    var later := After(m, op, window).stored;
    if op.Merge? {
      MergeStored(m, op, window);
      MergeConserves(op.order, m.counter, op.sightings, window);
      ListedEvents(op.order, m.stored);
      ListedAddresses(op.order, m.stored);
      var f := FoldAll(op.order, m.counter, op.sightings, window);
      ListedEvents(f.known, later);
      ListedAddresses(f.known, later);
    } else {
      SameCampaigns(m.stored, later);
    }
  }

  lemma SameCampaigns(stored: Store, later: Store)
    requires stored.Keys == later.Keys
    requires forall id :: id in stored ==>
               later[id].ips == stored[id].ips && later[id].eventCount == stored[id].eventCount
    ensures StoredEvents(later) == StoredEvents(stored)
    ensures StoredAddresses(later) == StoredAddresses(stored)
  {
    assert EventCounts(later) == EventCounts(stored);
  }

  /** Over a whole run the memory holds exactly the events and the addresses that were ever reported. */
  lemma {:induction false} NothingIsLost(ops: seq<Op>, window: real)
    requires LegalRun(ops, window)
    ensures StoredEvents(Run(ops, window).stored) == Reported(ops)
    ensures StoredAddresses(Run(ops, window).stored) == ReportedAddresses(ops)
  {
    if ops == [] {
      assert EventCounts(map[]) == map[];
    } else {
      var before, op := ops[..|ops| - 1], ops[|ops| - 1];
      NothingIsLost(before, window);
      ContainedExactly(before, window, 0);
      StepConserves(Run(before, window), op, window);
      hide After, StoredEvents, StoredAddresses, Legal, StoreValid;
    }
  }

  // ---- Monotonicity -----------------------------------------------------

  ghost predicate Certainty(stored: Store) { forall id :: id in stored ==> stored[id].confidence <= 1.0 }

  lemma StepGrows(m: Memory, op: Op, window: real, id: nat)
    requires Legal(m, op) && StoreValid(m.stored, m.counter) && Certainty(m.stored)
    ensures Certainty(After(m, op, window).stored)
    ensures id in m.stored ==> id in After(m, op, window).stored && Grew(m.stored[id], After(m, op, window).stored[id])
  {
    hide FoldAll, AsStore;
    if op.Merge? {
      MergeStored(m, op, window);
      ListedNumbers(op.order, m.stored, m.counter);
      MergeGrows(op.order, m.counter, op.sightings, window);
      var f, later := FoldAll(op.order, m.counter, op.sightings, window), After(m, op, window).stored;
      forall k | k in later ensures later[k].confidence <= 1.0 {
        assert HasId(f.known, k);
      }
      if id in m.stored {
        assert HasId(op.order, id);
        var i :| 0 <= i < |op.order| && op.order[i].id == id;
        assert f.known[i].id == id;
      }
    }
  }

  lemma {:induction false} RunIsCertain(ops: seq<Op>, window: real)
    requires LegalRun(ops, window)
    ensures Certainty(Run(ops, window).stored)
    ensures StoreValid(Run(ops, window).stored, Run(ops, window).counter)
  {
    ContainedExactly(ops, window, 0);
    if ops != [] {
      var before, op := ops[..|ops| - 1], ops[|ops| - 1];
      RunIsCertain(before, window);
      StepGrows(Run(before, window), op, window, 0);
    }
  }

  /** Once remembered, a campaign stays remembered, and loses no confidence, severity, stage or address. */
  lemma {:induction false} MemoryOnlyGrows(ops: seq<Op>, window: real, n: nat, id: nat)
    requires LegalRun(ops, window) && n <= |ops| && id in Run(ops[..n], window).stored
    ensures id in Run(ops, window).stored && Grew(Run(ops[..n], window).stored[id], Run(ops, window).stored[id])
  {
    RunIsCertain(ops, window);
    if n == |ops| {
      assert ops[..n] == ops;
    } else {
      var before, op := ops[..|ops| - 1], ops[|ops| - 1];
      assert before[..n] == ops[..n];
      MemoryOnlyGrows(before, window, n, id);
      RunIsCertain(before, window);
      StepGrows(Run(before, window), op, window, id);
      GrewTwice(Run(ops[..n], window).stored[id], Run(before, window).stored[id], Run(ops, window).stored[id]);
    }
  }
}
