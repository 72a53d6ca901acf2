/** What the route table promises. */
module RouteLaws {
  import opened Common
  import opened Paths
  import Text
  import opened Routes

  /** The template's segments with its wildcards replaced by values, in order. */
  function Fill(segments: seq<Segment>, values: seq<string>): seq<string>
    requires |values| == Wildcards(segments)
  {
    if segments == [] then []
    else
      var last := |segments| - 1;
      if segments[last].Wildcard? then Fill(segments[..last], values[..|values| - 1]) + [values[|values| - 1]]
      else Fill(segments[..last], values) + [segments[last].text]
  }

  function Wildcards(segments: seq<Segment>): nat {
    if segments == [] then 0
    else Wildcards(segments[..|segments| - 1]) + (if segments[|segments| - 1].Wildcard? then 1 else 0)
  }

  lemma {:induction false} FillRebuilds(segments: seq<Segment>, parts: seq<string>)
    requires |segments| == |parts|
    requires forall i :: 0 <= i < |parts| && segments[i].Literal? ==> parts[i] == segments[i].text
    ensures |ParamsOf(segments, parts)| == Wildcards(segments)
    ensures Fill(segments, ParamsOf(segments, parts)) == parts
  {
    if segments != [] {
      var last := |segments| - 1;
      var before := ParamsOf(segments[..last], parts[..last]);
      FillRebuilds(segments[..last], parts[..last]);
      assert parts == parts[..last] + [parts[last]];
      assert (before + [parts[last]])[..|before|] == before;
      assert before + [] == before;
    }
  }

  /** Filling the matched template with the reported values gives back the path. */
  lemma ParamsRebuildPath(routes: seq<Route>, verb: string, path: string)
    requires BestFor(routes, verb, path).Some?
    ensures var r := BestFor(routes, verb, path).value;
            && |Parts(path)| == |r.segments|
            && |ParamsOf(r.segments, Parts(path))| == Wildcards(r.segments)
            && Join(Fill(r.segments, ParamsOf(r.segments, Parts(path)))) == TrimSlash(path)
  {
    var r := BestFor(routes, verb, path).value;
    FillRebuilds(r.segments, Parts(path));
    JoinSplit(TrimSlash(path));
  }

  predicate NoneEmpty(values: seq<string>) { forall i :: 0 <= i < |values| ==> values[i] != "" }

  lemma {:induction false} FillMatches(r: Route, values: seq<string>)
    requires |values| == Wildcards(r.segments) && NoneEmpty(values)
    ensures Matches(r, Fill(r.segments, values))
    decreases |r.segments|
  {
    if r.segments != [] {
      var last := |r.segments| - 1;
      var before := r.(segments := r.segments[..last]);
      FillMatches(before, if r.segments[last].Wildcard? then values[..|values| - 1] else values);
      assert forall i :: 0 <= i < last ==> before.segments[i] == r.segments[i];
    }
  }

  /** The values are read back as they were filled in: a template and its values are all there is to a path it
      matches. */
  lemma {:induction false} ParamsOfFill(segments: seq<Segment>, values: seq<string>)
    requires |values| == Wildcards(segments)
    ensures |Fill(segments, values)| == |segments|
    ensures ParamsOf(segments, Fill(segments, values)) == values
  {
    if segments != [] {
      var last := |segments| - 1;
      var fewer := if segments[last].Wildcard? then values[..|values| - 1] else values;
      ParamsOfFill(segments[..last], fewer);
      assert Fill(segments, values)[..last] == Fill(segments[..last], fewer);
      assert values == if segments[last].Wildcard? then fewer + [values[|values| - 1]] else fewer + [];
    }
  }

  // ---- Order ------------------------------------------------------------

  /** Two different routes fit equally well, and none fits better. */
  ghost predicate Tied(routes: seq<Route>, verb: string, parts: seq<string>) {
    exists i, j :: 0 <= i < |routes| && 0 <= j < |routes| && routes[i] != routes[j] && IsMost(routes, verb, parts, i)
      && IsMost(routes, verb, parts, j)
  }

  ghost predicate IsMost(routes: seq<Route>, verb: string, parts: seq<string>, i: nat)
    requires i < |routes|
  {
    && routes[i].verb == verb && Matches(routes[i], parts)
    && forall k :: 0 <= k < |routes| && routes[k].verb == verb && Matches(routes[k], parts) ==>
         routes[k].literals <= routes[i].literals
  }

  lemma SameElements(routes: seq<Route>, other: seq<Route>, i: nat) returns (j: nat)
    requires multiset(routes) == multiset(other) && i < |routes|
    ensures j < |other| && other[j] == routes[i]
  {
    assert routes[i] in multiset(routes);
    assert routes[i] in other;
    j :| 0 <= j < |other| && other[j] == routes[i];
  }

  lemma UntiedAgree(routes: seq<Route>, other: seq<Route>, verb: string, parts: seq<string>)
    requires multiset(routes) == multiset(other) && !Tied(routes, verb, parts)
    ensures BestOf(other, verb, parts) == BestOf(routes, verb, parts)
  {
    hide Matches;
    var at, at' := BestAt(routes, verb, parts), BestAt(other, verb, parts);
    if at.Some? {
      var j := SameElements(routes, other, at.value);
    }
    if at'.Some? {
      var i := SameElements(other, routes, at'.value);
      forall k | 0 <= k < |routes| && routes[k].verb == verb && Matches(routes[k], parts)
        ensures routes[k].literals <= routes[i].literals
      {
        var k' := SameElements(routes, other, k);
      }
      assert IsMost(routes, verb, parts, i);
      assert IsMost(routes, verb, parts, at.value);
    }
  }

  function MovedFirst(routes: seq<Route>, t: nat): seq<Route>
    requires t < |routes|
  {
    [routes[t]] + (routes[..t] + routes[t + 1..])
  }

  lemma MovedFirstWins(routes: seq<Route>, t: nat, verb: string, parts: seq<string>)
    requires t < |routes| && IsMost(routes, verb, parts, t)
    ensures multiset(MovedFirst(routes, t)) == multiset(routes)
    ensures BestOf(MovedFirst(routes, t), verb, parts) == Some(routes[t])
  {
    hide Matches;
    var other := MovedFirst(routes, t);
    assert routes == routes[..t] + [routes[t]] + routes[t + 1..];
    var at := BestAt(other, verb, parts);
    assert other[0] == routes[t];
    if at.Some? {
      var i := SameElements(other, routes, at.value);
    }
  }

  /** The order of the templates never matters to a request exactly when no two of its best routes tie. */
  lemma OrderMattersOnlyInTies(routes: seq<Route>, verb: string, parts: seq<string>)
    ensures (forall other: seq<Route> :: multiset(other) == multiset(routes) ==>
               BestOf(other, verb, parts) == BestOf(routes, verb, parts))
            <==> !Tied(routes, verb, parts)
  {
    if Tied(routes, verb, parts) {
      var i, j :| 0 <= i < |routes| && 0 <= j < |routes| && routes[i] != routes[j] && IsMost(routes, verb, parts, i)
        && IsMost(routes, verb, parts, j);
      MovedFirstWins(routes, i, verb, parts);
      MovedFirstWins(routes, j, verb, parts);
    } else {
      forall other: seq<Route> | multiset(other) == multiset(routes)
        ensures BestOf(other, verb, parts) == BestOf(routes, verb, parts)
      {
        UntiedAgree(routes, other, verb, parts);
      }
    }
  }

  // ---- No two routes match the same requests -----------------------------

  /** Segments with every wildcard filled with the same value. */
  function Sample(segments: seq<Segment>, value: string): (r: seq<string>)
    ensures |r| == |segments|
  {
    seq(|segments|, i requires 0 <= i < |segments| => if segments[i].Wildcard? then value else segments[i].text)
  }

  ghost predicate SameRequests(r: Route, s: Route) {
    forall path :: Matches(r, Parts(path)) == Matches(s, Parts(path))
  }

  lemma SampleMatches(r: Route, value: string)
    requires WellFormed(r) && value != "" && SlashFree(value)
    ensures Matches(r, Parts("/" + Join(Sample(r.segments, value))))
    ensures Parts("/" + Join(Sample(r.segments, value))) == Sample(r.segments, value)
  {
    PartsOf(Sample(r.segments, value));
  }

  /** Two routes match the same paths only when their segments are equal. */
  lemma SameRequestsExactly(r: Route, s: Route)
    requires WellFormed(r) && WellFormed(s)
    ensures SameRequests(r, s) <==> r.segments == s.segments
  {
    if SameRequests(r, s) {
      SampleMatches(r, "x");
      SampleMatches(r, "y");
      SampleMatches(s, "x");
      SampleMatches(s, "y");
      hide WellFormed, Parts, Join;
      assert Matches(s, Sample(r.segments, "x")) && Matches(s, Sample(r.segments, "y"));
      assert Matches(r, Sample(s.segments, "x")) && Matches(r, Sample(s.segments, "y"));
      forall i | 0 <= i < |r.segments| ensures r.segments[i] == s.segments[i] {
        assert Sample(r.segments, "x")[i] == (if r.segments[i].Wildcard? then "x" else r.segments[i].text);
        assert Sample(r.segments, "y")[i] == (if r.segments[i].Wildcard? then "y" else r.segments[i].text);
        assert Sample(s.segments, "x")[i] == (if s.segments[i].Wildcard? then "x" else s.segments[i].text);
        assert Sample(s.segments, "y")[i] == (if s.segments[i].Wildcard? then "y" else s.segments[i].text);
      }
    }
  }

  /** Two accepted routes of one method never match the same set of paths. */
  lemma AcceptedRoutesDiffer(routes: seq<Route>, i: nat, j: nat)
    requires AllWellFormed(routes) && NoClash(routes)
    requires i < j < |routes| && routes[i].verb == routes[j].verb
    ensures !SameRequests(routes[i], routes[j])
  {
    SameRequestsExactly(routes[i], routes[j]);
    assert !Clash(routes[i], routes[j]);
  }

  /** The converse fails: a literal * is taken for a wildcard, so a table is refused although its routes match different
      paths. */
  lemma StarIsMistaken()
    ensures Accepted(["GET /*"]) && Accepted(["GET /{id}"]) && !Accepted(["GET /*", "GET /{id}"])
    ensures Admissible("GET /*") && Admissible("GET /{id}") && !SameRequests(RouteOf("GET /*"), RouteOf("GET /{id}"))
  {
    StarRoute();
    WildcardRoute();
    hide Compiled, SplitTemplate, WellFormed, SameRequests, RouteOf, NoClash, Clash;
    OneIsAccepted("GET /*");
    OneIsAccepted("GET /{id}");
    SameRequestsExactly(RouteOf("GET /*"), RouteOf("GET /{id}"));
    ClashIsRefused("GET /*", "GET /{id}");
  }

  lemma OneIsAccepted(template: string)
    requires Admissible(template)
    ensures Accepted([template])
  {
    hide Admissible, RouteOf;
  }

  lemma ClashIsRefused(template: string, other: string)
    requires Admissible(template) && Admissible(other)
             && Rendered(RouteOf(template).segments) == Rendered(RouteOf(other).segments)
    requires RouteOf(template).verb == RouteOf(other).verb
    ensures !Accepted([template, other])
  {
    hide Admissible, RouteOf, Rendered;
    var routes := RoutesOf([template, other]);
    assert Clash(routes[0], routes[1]);
  }

  lemma StarRoute()
    ensures Admissible("GET /*") && WellFormed(RouteOf("GET /*"))
    ensures RouteOf("GET /*").verb == "GET" && RouteOf("GET /*").segments == [Literal("*")]
    ensures Rendered([Literal("*")]) == ["*"]
  {
    hide FieldsFrom, Fields, SplitTemplate, Parts, WellFormed, Literals, IsParameter;
    assert "GET /" + "*" == "GET /*" && "/" + "*" == "/*";
    assert !IsParameter("*") && SlashFree("*") && IsBlankFree("*") by {
      PlainStar();
    }
    OneSegment("*");
    CompiledWellFormed("GET /*");
  }

  lemma PlainStar()
    ensures !IsParameter("*") && SlashFree("*") && IsBlankFree("*")
  {
  }

  lemma WildcardRoute()
    ensures Admissible("GET /{id}") && WellFormed(RouteOf("GET /{id}"))
    ensures RouteOf("GET /{id}").verb == "GET" && RouteOf("GET /{id}").segments == [Wildcard]
    ensures Rendered([Wildcard]) == ["*"]
  {
    hide FieldsFrom, Fields, SplitTemplate, Parts, WellFormed, Literals, IsParameter;
    assert "GET /" + "{id}" == "GET /{id}" && "/" + "{id}" == "/{id}";
    assert IsParameter("{id}") && SlashFree("{id}") && IsBlankFree("{id}") by {
      PlainId();
    }
    OneSegment("{id}");
    CompiledWellFormed("GET /{id}");
  }

  lemma PlainId()
    ensures IsParameter("{id}") && SlashFree("{id}") && IsBlankFree("{id}")
  {
  }

  lemma OneSegment(part: string)
    requires part != "" && SlashFree(part) && IsBlankFree(part)
    ensures SplitTemplate("GET /" + part) == Some(Template("GET", "/" + part))
    ensures Parts("/" + part) == [part]
  {
    GetTemplate("/" + part);
    assert "GET /" + part == "GET " + ("/" + part);
    assert ("/" + part)[1..] == part;
    SplitOne(part);
  }

  lemma GetTemplate(path: string)
    requires path != "" && path[0] == '/' && IsBlankFree(path)
    ensures SplitTemplate("GET " + path) == Some(Template("GET", path))
  {
    var s0 := "GET " + path;
    var s1, s2, s3, s4 := s0[1..], s0[2..], s0[3..], s0[4..];
    assert s1[1..] == s2 && s2[1..] == s3 && s3[1..] == s4 == path;
    OneWord(path, "");
    hide IsBlankFree;
    assert FieldsFrom(s3, "GET") == ["GET"] + FieldsFrom(path, "");
    assert "GE" + ['T'] == "GET" && "G" + ['E'] == "GE" && "" + ['G'] == "G";
    assert FieldsFrom(s2, "GE") == FieldsFrom(s3, "GET");
    assert FieldsFrom(s1, "G") == FieldsFrom(s2, "GE");
    assert FieldsFrom(s0, "") == FieldsFrom(s1, "G");
    assert "" + path == path;
    assert Fields(s0) == ["GET", path];
    assert Text.Upper("GET") == "GET";
  }

  lemma {:induction false} OneWord(rest: string, word: string)
    requires IsBlankFree(rest) && word + rest != ""
    ensures FieldsFrom(rest, word) == [word + rest]
  {
    if rest == "" {
      assert word + rest == word;
    } else {
      OneWord(rest[1..], word + [rest[0]]);
      assert word + [rest[0]] + rest[1..] == word + rest;
    }
  }

  /** The bound on the number of segments hides no match: no admissible route matches a longer path. */
  lemma BoundHidesNothing(routes: seq<Route>, verb: string, path: string)
    requires forall i :: 0 <= i < |routes| ==> |routes[i].segments| <= MAX_PATH_SEGMENTS
    ensures BestFor(routes, verb, path) == BestOf(routes, verb, Parts(path))
  {
  }
}
