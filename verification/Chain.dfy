/** Choosing among the sources of decisions. */
module Chain {
  import opened Common
  import opened PolicyStore

  /** How much an action restricts; an unknown label ranks lowest. */
  function Severity(action: string): int {
    if action == "throttle" then 1
    else if action == "block" || action == "temp_block" || action == "temporary_block" then 2
    else if action == "escalate" then 3
    else 0
  }

  predicate Blocks(action: string) { action in {"block", "temp_block", "temporary_block"} }

  /** Escalation is above every spelling of a block, a block above a throttle, and a throttle above everything else. */
  lemma SeverityExactly(a: string, b: string)
    ensures Severity(a) > Severity(b) <==>
            || (a == "escalate" && b != "escalate")
            || (Blocks(a) && !Blocks(b) && b != "escalate")
            || (a == "throttle" && b != "throttle" && !Blocks(b) && b != "escalate")
  {
  }

  /** The decision a chain enforces, given what each source answers: the first human one if there is any, and otherwise
      the first of the most severe. */
  ghost predicate Prevails(answers: seq<Option<Decision>>, r: Option<Decision>) {
    match r
    case None => forall i :: 0 <= i < |answers| ==> answers[i].None?
    case Some(d) =>
      exists k :: 0 <= k < |answers| && answers[k] == r
        && (if FromPerson(d) then NoHumanBefore(answers, k) else MostSevere(answers, k))
  }

  ghost predicate NoHumanBefore(answers: seq<Option<Decision>>, k: nat)
    requires k < |answers|
  {
    forall i :: 0 <= i < k && answers[i].Some? ==> !FromPerson(answers[i].value)
  }

  ghost predicate MostSevere(answers: seq<Option<Decision>>, k: nat)
    requires k < |answers| && answers[k].Some?
  {
    forall i :: 0 <= i < |answers| && answers[i].Some? ==>
      && !FromPerson(answers[i].value)
      && Severity(answers[i].value.action) <= Severity(answers[k].value.action)
      && (i < k ==> Severity(answers[i].value.action) < Severity(answers[k].value.action))
  }

  /** Up to position n no human decision was seen, and at is the first of the most severe. */
  ghost predicate BestSoFar(answers: seq<Option<Decision>>, n: nat, chosen: Option<Decision>, at: nat)
    requires n <= |answers|
  {
    && (forall i :: 0 <= i < n && answers[i].Some? ==> !FromPerson(answers[i].value))
    && (chosen.None? ==> forall i :: 0 <= i < n ==> answers[i].None?)
    && (chosen.Some? ==>
          && at < n && answers[at] == chosen
          && (forall i :: 0 <= i < n && answers[i].Some? ==>
              Severity(answers[i].value.action) <= Severity(chosen.value.action))
          && (forall i :: 0 <= i < at && answers[i].Some? ==>
              Severity(answers[i].value.action) < Severity(chosen.value.action)))
  }

  /** answers holds what each source says of the request; a missing source answers None. */
  method Pick(answers: seq<Option<Decision>>) returns (chosen: Option<Decision>)
    ensures Prevails(answers, chosen)
  {
    chosen := None;
    ghost var at := 0;
    hide Severity, Priority, FromPerson;
    for i := 0 to |answers|
      invariant BestSoFar(answers, i, chosen, at)
    {
      if answers[i].None? {
        continue;
      }
      var d := answers[i].value;
      HumanExactly(d);
      if Priority(d) == HUMAN_PRIORITY {
        assert NoHumanBefore(answers, i);
        return Some(d);
      }
      if chosen.None? || Severity(d.action) > Severity(chosen.value.action) {
        chosen, at := Some(d), i;
      }
    }
    assert chosen.Some? ==> MostSevere(answers, at);
  }

  /** Only a human decision, or an action at least as severe, takes the place of an answer; and a human decision always
      does. */
  lemma OnlyWorseOrHumanReplaces(answers: seq<Option<Decision>>, r: Option<Decision>, i: nat)
    requires Prevails(answers, r) && i < |answers| && answers[i].Some?
    ensures r.Some?
    ensures FromPerson(r.value) || Severity(r.value.action) >= Severity(answers[i].value.action)
    ensures FromPerson(answers[i].value) ==> FromPerson(r.value)
  {
  }

  /** What prevails is determined by the answers. */
  lemma OnePrevails(answers: seq<Option<Decision>>, r: Option<Decision>, r': Option<Decision>)
    requires Prevails(answers, r) && Prevails(answers, r')
    ensures r == r'
  {
    if r.Some? && r'.Some? {
      var k :| 0 <= k < |answers| && answers[k] == r
        && (if FromPerson(r.value) then NoHumanBefore(answers, k) else MostSevere(answers, k));
      var k' :| 0 <= k' < |answers| && answers[k'] == r'
        && (if FromPerson(r'.value) then NoHumanBefore(answers, k') else MostSevere(answers, k'));
      assert k <= k' || answers[k'].Some?;
    }
  }
}
