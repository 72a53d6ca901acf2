/** The campaign repository, and what holds of its memory over a whole run. */
module CampaignMemory {
  import opened Common
  import opened Sums
  import opened Campaigns
  import Models

  type Store = map<nat, Campaign>

  /** known lists the stored campaigns, each once, in any order. */
  ghost predicate Lists(known: seq<Campaign>, stored: Store) {
    && (forall i, j :: 0 <= i < j < |known| ==> known[i].id != known[j].id)
    && (forall i :: 0 <= i < |known| ==> known[i].id in stored && stored[known[i].id] == known[i])
    && (forall id :: id in stored ==> HasId(known, id))
  }

  ghost predicate HasId(known: seq<Campaign>, id: nat) {
    exists i :: 0 <= i < |known| && known[i].id == id
  }

  ghost predicate StoreValid(stored: Store, counter: nat) {
    forall id :: id in stored ==> 1 <= id <= counter && stored[id].id == id
  }

  lemma ListedNumbers(known: seq<Campaign>, stored: Store, counter: nat)
    requires Lists(known, stored) && StoreValid(stored, counter)
    ensures Numbered(known, counter)
  {
  }

  function Quieter(c: Campaign): Campaign {
    c.(quietCycles := c.quietCycles + 1, status := if c.quietCycles + 1 >= CONTAINED_AFTER then Contained else c.status)
  }

  predicate Unseen(c: Campaign, seen: set<nat>) { c.id !in seen && c.status == Active }

  /** A review of the campaigns that are not still to come. */
  function ReviewedBut(stored: Store, seen: set<nat>, todo: set<nat>): Store {
    map id | id in stored :: if id !in todo && Unseen(stored[id], seen) then Quieter(stored[id]) else stored[id]
  }

  function Reviewed(stored: Store, seen: set<nat>): Store { ReviewedBut(stored, seen, {}) }

  lemma ReviewOne(stored: Store, seen: set<nat>, todo: set<nat>, id: nat)
    requires id in stored && id in todo
    ensures ReviewedBut(stored, seen, todo - {id}) ==
            ReviewedBut(stored, seen, todo)[id := if Unseen(stored[id], seen) then Quieter(stored[id]) else stored[id]]
  {
    hide Unseen, Quieter;
  }

  lemma ReviewKeepsNumbers(stored: Store, seen: set<nat>, counter: nat)
    requires StoreValid(stored, counter)
    ensures StoreValid(Reviewed(stored, seen), counter)
  {
  }

  // ---- What one fold leaves alone ---------------------------------------

  /** Only touched positions change, numbers stay in place, and every new position is touched. */
  ghost predicate OnlyTouched(was: seq<Campaign>, f: Folding) {
    && |was| <= |f.known|
    && (forall t :: t in f.touched ==> t < |f.known|)
    && (forall i :: 0 <= i < |was| ==> f.known[i].id == was[i].id && (i in f.touched || f.known[i] == was[i]))
    && (forall i :: |was| <= i < |f.known| ==> i in f.touched)
  }

  lemma FoldTouches(was: seq<Campaign>, f: Folding, candidate: Campaign, window: real)
    requires OnlyTouched(was, f) && Numbered(f.known, f.counter)
    ensures OnlyTouched(was, Fold(f, candidate, window))
    ensures Numbered(Fold(f, candidate, window).known, Fold(f, candidate, window).counter)
  {
    hide BestMatch, Continued;
    match BestMatch(candidate, f.known, window) {
      case Unmatched =>
        OneMoreTouched(f.touched, |f.known|);
        assert (f.known + [candidate])[|f.known|] == candidate;
      case Matched(at, basis) =>
        OneMoreTouched(f.touched, at);
    }
  }

  lemma OneMoreTouched(touched: seq<nat>, t: nat)
    ensures forall i :: i in touched + [t] <==> i in touched || i == t
  {
  }

  lemma {:induction false} MergeTouches(known: seq<Campaign>, counter: nat, sightings: seq<Campaign>, window: real)
    requires Numbered(known, counter)
    ensures OnlyTouched(known, FoldAll(known, counter, sightings, window))
    ensures var f := FoldAll(known, counter, sightings, window); Numbered(f.known, f.counter)
  {
    if sightings != [] {
      var before := sightings[..|sightings| - 1];
      MergeTouches(known, counter, before, window);
      FoldTouches(known, FoldAll(known, counter, before, window), sightings[|sightings| - 1], window);
    }
  }

  /** A campaign as the correlation agent builds it. */
  predicate IsSighting(c: Campaign) { c.status == Active && c.quietCycles == 0 }

  ghost predicate Awake(f: Folding) {
    forall t :: t in f.touched && t < |f.known| ==> f.known[t].status == Active && f.known[t].quietCycles == 0
  }

  lemma FoldWakes(was: seq<Campaign>, f: Folding, candidate: Campaign, window: real)
    requires IsSighting(candidate) && Awake(f) && OnlyTouched(was, f)
    ensures Awake(Fold(f, candidate, window))
  {
    hide BestMatch, Continued;
  }

  lemma {:induction false} MergeWakes(known: seq<Campaign>, counter: nat, sightings: seq<Campaign>, window: real)
    requires Numbered(known, counter)
    requires forall c :: c in sightings ==> IsSighting(c)
    ensures Awake(FoldAll(known, counter, sightings, window))
  {
    if sightings != [] {
      var before := sightings[..|sightings| - 1];
      MergeWakes(known, counter, before, window);
      MergeTouches(known, counter, before, window);
      FoldWakes(known, FoldAll(known, counter, before, window), sightings[|sightings| - 1], window);
    }
  }

  // ---- The repository ---------------------------------------------------

  /** While the touched campaigns are being saved. */
  ghost predicate Saving(stored: Store, was: seq<Campaign>, f: Folding, done: seq<nat>) {
    && (forall i :: 0 <= i < |f.known| && i in done ==> f.known[i].id in stored && stored[f.known[i].id] == f.known[i])
    && (forall i :: 0 <= i < |was| && i !in done ==> was[i].id in stored && stored[was[i].id] == was[i])
    && (forall id :: id in stored ==> HasId(f.known, id))
  }

  lemma SaveOne(stored: Store, was: seq<Campaign>, f: Folding, done: seq<nat>, t: nat)
    requires OnlyTouched(was, f) && Numbered(f.known, f.counter) && Saving(stored, was, f, done) && t < |f.known|
    ensures Saving(stored[f.known[t].id := f.known[t]], was, f, done + [t])
  {
    assert HasId(f.known, f.known[t].id);
  }

  lemma SavedAll(stored: Store, was: seq<Campaign>, f: Folding)
    requires OnlyTouched(was, f) && Numbered(f.known, f.counter) && Saving(stored, was, f, f.touched)
    ensures Lists(f.known, stored)
  {
  }

  lemma SavingStarts(stored: Store, was: seq<Campaign>, f: Folding)
    requires OnlyTouched(was, f) && Lists(was, stored)
    ensures Saving(stored, was, f, [])
  {
    forall id | id in stored ensures HasId(f.known, id) {
      assert HasId(was, id);
      var i :| 0 <= i < |was| && was[i].id == id;
      assert f.known[i].id == id;
    }
  }

  /** The campaigns a merge returns, as they stand in the end. */
  ghost predicate Results(result: seq<Campaign>, f: Folding) {
    && |result| == |f.touched|
    && forall k :: 0 <= k < |result| ==> f.touched[k] < |f.known| && result[k] == f.known[f.touched[k]]
  }

  method FoldSightings(known: seq<Campaign>, counter: nat, sightings: seq<Campaign>, window: real) returns (f: Folding)
    ensures f == FoldAll(known, counter, sightings, window)
  {
    f := Folding(known, counter, []);
    for i := 0 to |sightings|
      invariant f == FoldAll(known, counter, sightings[..i], window)
    {
      assert sightings[..i + 1][..i] == sightings[..i];
      var candidate := sightings[i];
      var m := FindMatch(candidate, f.known, window);
      match m
      case Unmatched =>
        f := Folding(f.known + [candidate.(id := f.counter + 1)], f.counter + 1, f.touched + [|f.known|]);
      case Matched(at, basis) =>
        var c := Continue(f.known[at], candidate, basis);
        f := f.(known := f.known[at := c], touched := f.touched + [at]);
    }
    assert sightings[..|sightings|] == sightings;
  }

  /** An operation that falls silent for two hours, or for four of the longest policies, continues its campaign when it
      returns. */
  lemma PauseContinues(candidate: Campaign, known: seq<Campaign>, i: nat, maximumPolicyDuration: nat, window: real)
    requires window >= 7200.0 && window >= 4.0 * maximumPolicyDuration as real
    requires i < |known| && SameOperation(candidate, known[i], MaxR(7200.0, 4.0 * maximumPolicyDuration as real))
    ensures BestMatch(candidate, known, window).Matched?
  {
    MatchExactly(candidate, known, window);
    hide Overlap, BestMatch, BehaviourScore, SameField;
    assert SameOperation(candidate, known[i], window);
  }

  class CampaignRepository {
    var stored: Store
    var counter: nat
    var window: real

    ghost predicate Valid()
      reads this
    {
      StoreValid(stored, counter)
    }

    constructor ()
      ensures Valid() && stored == map[] && counter == 0 && window == 7200.0
    {
      stored, counter, window := map[], 0, 7200.0;
    }

    /** Sets how long a silence may last within one campaign: two hours, or four of the longest policies if that is
        more. */
    method ApplyConfig(maximumPolicyDuration: nat)
      requires Valid()
      modifies this`window
      ensures window >= 7200.0 && window >= 4.0 * maximumPolicyDuration as real
      ensures window == 7200.0 || window == 4.0 * maximumPolicyDuration as real
    {
      window := MaxR(7200.0, 4.0 * maximumPolicyDuration as real);
    }

    method All() returns (known: seq<Campaign>)
      requires Valid()
      ensures Lists(known, stored)
    {
      known := [];
      var todo := stored.Keys;
      while todo != {}
        invariant todo <= stored.Keys
        invariant forall i :: 0 <= i < |known| ==>
                    known[i].id in stored && known[i].id !in todo && stored[known[i].id] == known[i]
        invariant forall i, j :: 0 <= i < j < |known| ==> known[i].id != known[j].id
        invariant forall id :: id in stored && id !in todo ==> HasId(known, id)
        decreases todo
      {
        var id :| id in todo;
        ghost var before := known;
        known := known + [stored[id]];
        todo := todo - {id};
        assert known[|before|].id == id;
        forall k | k in stored && k !in todo ensures HasId(known, k) {
          if k != id {
            assert HasId(before, k);
            var i :| 0 <= i < |before| && before[i].id == k;
            assert known[i].id == k;
          }
        }
      }
    }

    /** Merges the sightings of one cycle into the known campaigns, which the store lists in some order. */
    method Merge(sightings: seq<Campaign>) returns (result: seq<Campaign>, ghost was: seq<Campaign>)
      requires Valid()
      modifies this`stored, this`counter
      ensures Valid() && Lists(was, old(stored))
      ensures var f := FoldAll(was, old(counter), sightings, window);
              && Lists(f.known, stored) && counter == f.counter
              && Results(result, f)
    {
      var known := All();
      was := known;
      ListedNumbers(was, stored, counter);
      var f := FoldSightings(known, counter, sightings, window);
      MergeTouches(was, counter, sightings, window);
      SavingStarts(stored, was, f);
      counter := f.counter;
      result := SaveTouched(f, was);
      SavedAll(stored, was, f);
      NumbersStored(f.known, stored, counter);
    }

    method SaveTouched(f: Folding, ghost was: seq<Campaign>) returns (result: seq<Campaign>)
      requires OnlyTouched(was, f) && Numbered(f.known, f.counter)
      requires Saving(stored, was, f, [])
      modifies this`stored
      ensures Saving(stored, was, f, f.touched)
      ensures Results(result, f)
    {
      result := [];
      hide Saving, Numbered;
      for i := 0 to |f.touched|
        invariant Saving(stored, was, f, f.touched[..i])
        invariant |result| == i && forall k :: 0 <= k < i ==>
                    f.touched[k] < |f.known| && result[k] == f.known[f.touched[k]]
      {
        var t := f.touched[i];
        assert t in f.touched;
        SaveOne(stored, was, f, f.touched[..i], t);
        assert f.touched[..i + 1] == f.touched[..i] + [t];
        stored := stored[f.known[t].id := f.known[t]];
        result := result + [f.known[t]];
      }
      assert f.touched[..|f.touched|] == f.touched;
    }

    /** One more quiet cycle for every active campaign that saw no evidence; three of them contain it. */
    method Review(seen: set<nat>) returns (changed: set<nat>)
      requires Valid()
      modifies this`stored
      ensures Valid()
      ensures stored == Reviewed(old(stored), seen)
      ensures changed == set id | id in old(stored) && Unseen(old(stored)[id], seen)
    {
      hide Unseen, Quieter;
      changed := {};
      var todo := stored.Keys;
      ghost var start := stored;
      ReviewKeepsNumbers(start, seen, counter);
      while todo != {}
        invariant todo <= start.Keys
        invariant stored == ReviewedBut(start, seen, todo)
        invariant changed == set id | id in start && id !in todo && Unseen(start[id], seen)
        decreases todo
      {
        var id :| id in todo;
        var campaign := stored[id];
        ReviewOne(start, seen, todo, id);
        todo := todo - {id};
        if Unseen(campaign, seen) {
          campaign := CountQuiet(campaign);
          changed := changed + {id};
          stored := stored[id := campaign];
        }
      }
    }
  }

  method CountQuiet(c: Campaign) returns (q: Campaign)
    ensures q == Quieter(c)
  {
    q := c.(quietCycles := c.quietCycles + 1);
    if q.quietCycles >= CONTAINED_AFTER {
      q := q.(status := Contained);
    }
  }

  /** A known campaign goes on. */
  method Continue(existing: Campaign, sighting: Campaign, basis: Basis) returns (c: Campaign)
    ensures c == Continued(existing, sighting, basis)
  {
    var campaign := existing;
    if basis == Behaviour {
      campaign := campaign.(rotations := campaign.rotations + 1);
    }
    if Restrained(campaign) && (campaign.status == Contained || basis == Behaviour) {
      campaign := campaign.(persistence := campaign.persistence + 1);
    }
    c := Absorb(campaign, sighting);
    if c.status == Contained {
      c := c.(status := Active, alerted := false);
    }
    c := c.(quietCycles := 0);
  }

  lemma NumbersStored(known: seq<Campaign>, stored: Store, counter: nat)
    requires Lists(known, stored) && Numbered(known, counter)
    ensures StoreValid(stored, counter)
  {
    forall id | id in stored ensures 1 <= id <= counter && stored[id].id == id {
      assert HasId(known, id);
    }
  }
}
