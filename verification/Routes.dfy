/** The table of route templates, and how it answers a request. */
module Routes {
  import opened Common
  import opened Text
  import opened Paths

  datatype Segment = Literal(text: string) | Wildcard

  datatype Route = Route(verb: string, template: string, segments: seq<Segment>, literals: nat)

  const UNMATCHED: string := "<unmatched>"
  const MAX_PATH_SEGMENTS: nat := 24

  // ---- Compiling --------------------------------------------------------

  /** The blank-free words of a text, in order; word holds the one being read. */
  function FieldsFrom(s: string, word: string): seq<string> {
    if s == "" then (if word == "" then [] else [word])
    else if IsBlank(s[0]) then (if word == "" then [] else [word]) + FieldsFrom(s[1..], "")
    else FieldsFrom(s[1..], word + [s[0]])
  }

  /** strings.Fields */
  function Fields(s: string): seq<string> { FieldsFrom(s, "") }

  datatype Template = Template(verb: string, path: string)

  function SplitTemplate(raw: string): Option<Template> {
    var fields := Fields(raw);
    if |fields| == 2 && fields[1] != "" && fields[1][0] == '/' then Some(Template(Upper(fields[0]), fields[1]))
    else None
  }

  predicate IsParameter(part: string) { part != "" && part[0] == '{' && part[|part| - 1] == '}' }

  function SegmentOf(part: string): Segment { if IsParameter(part) then Wildcard else Literal(part) }

  /** A segment takes any value exactly when it is a name in braces. */
  lemma SegmentExactly(part: string)
    ensures SegmentOf(part) == Wildcard <==> exists name :: part == "{" + name + "}"
    ensures SegmentOf(part) == Wildcard || SegmentOf(part) == Literal(part)
  {
    if IsParameter(part) {
      assert part == "{" + part[1..|part| - 1] + "}";
    }
  }

  function SegmentsOf(parts: seq<string>): (r: seq<Segment>)
    ensures |r| == |parts|
  {
    seq(|parts|, i requires 0 <= i < |parts| => SegmentOf(parts[i]))
  }

  function Literals(segments: seq<Segment>): nat {
    if segments == [] then 0
    else Literals(segments[..|segments| - 1]) + (if segments[|segments| - 1].Literal? then 1 else 0)
  }

  function Compiled(t: Template): Route {
    var segments := SegmentsOf(Parts(t.path));
    Route(t.verb, t.path, segments, Literals(segments))
  }

  method Compile(path: string) returns (segments: seq<Segment>, literals: nat)
    ensures segments == SegmentsOf(Parts(path)) && literals == Literals(segments)
  {
    hide IsParameter, Parts, Literals, SegmentsOf;
    var parts := Parts(path);
    CompileNone();
    segments, literals := [], 0;
    for i := 0 to |parts|
      invariant segments == SegmentsOf(parts[..i]) && literals == Literals(segments)
    {
      CompileOne(parts, i);
      if IsParameter(parts[i]) {
        segments := segments + [Wildcard];
      } else {
        segments, literals := segments + [Literal(parts[i])], literals + 1;
      }
    }
    assert parts[..|parts|] == parts;
  }

  lemma CompileNone()
    ensures SegmentsOf([]) == [] && Literals([]) == 0
  {
  }

  lemma CompileOne(parts: seq<string>, i: nat)
    requires i < |parts|
    ensures var before, last := SegmentsOf(parts[..i]), SegmentOf(parts[i]);
            && SegmentsOf(parts[..i + 1]) == before + [last]
            && Literals(before + [last]) == Literals(before) + (if last.Literal? then 1 else 0)
  {
    hide IsParameter;
    var before, last := SegmentsOf(parts[..i]), SegmentOf(parts[i]);
    assert (before + [last])[..i] == before;
  }

  function Render(segment: Segment): string { if segment.Wildcard? then "*" else segment.text }

  function Rendered(segments: seq<Segment>): (r: seq<string>)
    ensures |r| == |segments|
  {
    seq(|segments|, i requires 0 <= i < |segments| => Render(segments[i]))
  }

  function Shape(segments: seq<Segment>): string {
    if segments == [] then "" else Shape(segments[..|segments| - 1]) + "/" + Render(segments[|segments| - 1])
  }

  function KeyOf(r: Route): string { r.verb + " " + Shape(r.segments) }

  /** Two routes that are taken for the same: the same method, and the same segments once a literal * is read as a
      wildcard. */
  predicate Clash(r: Route, s: Route) { r.verb == s.verb && Rendered(r.segments) == Rendered(s.segments) }

  ghost predicate SegmentsSlashFree(segments: seq<Segment>) {
    forall i :: 0 <= i < |segments| && segments[i].Literal? ==> SlashFree(segments[i].text)
  }

  ghost predicate WellFormed(r: Route) {
    && IsBlankFree(r.verb)
    && r.segments != [] && SegmentsSlashFree(r.segments)
    && r.literals == Literals(r.segments)
  }

  ghost predicate IsBlankFree(s: string) { forall i :: 0 <= i < |s| ==> !IsBlank(s[i]) }

  lemma {:induction false} FieldsBlankFree(s: string, word: string)
    requires IsBlankFree(word)
    ensures forall i :: 0 <= i < |FieldsFrom(s, word)| ==> IsBlankFree(FieldsFrom(s, word)[i])
  {
    if s != "" {
      if IsBlank(s[0]) {
        FieldsBlankFree(s[1..], "");
      } else {
        FieldsBlankFree(s[1..], word + [s[0]]);
      }
    }
  }

  lemma CompiledWellFormed(raw: string)
    requires SplitTemplate(raw).Some?
    ensures WellFormed(Compiled(SplitTemplate(raw).value))
  {
    var t := SplitTemplate(raw).value;
    FieldsBlankFree(raw, "");
    SplitSlashFree(TrimSlash(t.path));
    hide Split, FieldsFrom, Literals;
  }

  lemma {:induction false} ShapeIsJoin(segments: seq<Segment>)
    requires segments != []
    ensures Shape(segments) == "/" + Join(Rendered(segments))
  {
    var before, last := segments[..|segments| - 1], segments[|segments| - 1];
    if before != [] {
      ShapeIsJoin(before);
      JoinLast(Rendered(before), Render(last));
      assert Rendered(segments) == Rendered(before) + [Render(last)];
    } else {
      assert Rendered(segments) == [Render(last)];
    }
  }

  lemma RenderedSlashFree(segments: seq<Segment>)
    requires SegmentsSlashFree(segments)
    ensures AllSlashFree(Rendered(segments))
  {
  }

  /** Equal keys mean a clash, and nothing else does. */
  lemma KeysClash(r: Route, s: Route)
    requires WellFormed(r) && WellFormed(s)
    ensures KeyOf(r) == KeyOf(s) <==> Clash(r, s)
  {
    ShapeIsJoin(r.segments);
    ShapeIsJoin(s.segments);
    RenderedSlashFree(r.segments);
    RenderedSlashFree(s.segments);
    SplitJoin(Rendered(r.segments));
    SplitJoin(Rendered(s.segments));
    hide Shape, Rendered, Join, Split, Literals, SlashFree;
    if KeyOf(r) == KeyOf(s) {
      assert ' ' !in r.verb && ' ' !in s.verb;
      SplitsOnce(' ', r.verb, "/" + Join(Rendered(r.segments)), s.verb, "/" + Join(Rendered(s.segments)));
      assert ("/" + Join(Rendered(r.segments)))[1..] == Join(Rendered(r.segments));
      assert ("/" + Join(Rendered(s.segments)))[1..] == Join(Rendered(s.segments));
    }
  }

  /** A template that can be in a table. */
  predicate Admissible(raw: string) {
    var t := SplitTemplate(raw);
    t.Some? && |Compiled(t.value).segments| <= MAX_PATH_SEGMENTS
  }

  /** A template is a method and a path that starts with a slash, with blanks between them, and has 24 segments at
      most. */
  lemma AdmissibleExactly(raw: string)
    ensures Admissible(raw) <==>
            && |Fields(raw)| == 2 && "/" <= Fields(raw)[1] && |Parts(Fields(raw)[1])| <= 24
    ensures Admissible(raw) ==> RouteOf(raw).verb == Upper(Fields(raw)[0]) && RouteOf(raw).template == Fields(raw)[1]
  {
    hide Fields, Parts, Literals;
  }

  function RouteOf(raw: string): Route
    requires Admissible(raw)
  {
    Compiled(SplitTemplate(raw).value)
  }

  function RoutesOf(templates: seq<string>): (r: seq<Route>)
    requires forall i :: 0 <= i < |templates| ==> Admissible(templates[i])
    ensures |r| == |templates|
  {
    seq(|templates|, i requires 0 <= i < |templates| => RouteOf(templates[i]))
  }

  ghost predicate NoClash(routes: seq<Route>) {
    forall i, j :: 0 <= i < j < |routes| ==> !Clash(routes[i], routes[j])
  }

  /** A list of templates that makes a table: every one of them is admissible, and no two of them clash. */
  ghost predicate Accepted(templates: seq<string>) {
    && (forall i :: 0 <= i < |templates| ==> Admissible(templates[i]))
    && NoClash(RoutesOf(templates))
  }

  ghost predicate HasKey(routes: seq<Route>, key: string) {
    exists i :: 0 <= i < |routes| && KeyOf(routes[i]) == key
  }

  ghost predicate AllWellFormed(routes: seq<Route>) {
    forall i :: 0 <= i < |routes| ==> WellFormed(routes[i])
  }

  method NewTable(templates: seq<string>) returns (routes: Option<seq<Route>>)
    ensures routes.Some? <==> Accepted(templates)
    ensures routes.Some? ==> routes.value == RoutesOf(templates) && AllWellFormed(routes.value) && NoClash(routes.value)
  {
    hide SplitTemplate, Compiled, KeyOf, NoClash, HasKey, WellFormed;
    var built: seq<Route> := [];
    var seen: set<string> := {};
    NothingBuilt();
    for i := 0 to |templates|
      invariant forall j :: 0 <= j < i ==> Admissible(templates[j])
      invariant built == RoutesOf(templates[..i]) && AllWellFormed(built) && NoClash(built)
      invariant forall key :: key in seen <==> HasKey(built, key)
    {
      var t := SplitTemplate(templates[i]);
      if t.None? {
        assert !Admissible(templates[i]);
        return None;
      }
      var route := NewRoute(t.value);
      if |route.segments| > MAX_PATH_SEGMENTS {
        assert !Admissible(templates[i]);
        return None;
      }
      var key := KeyOf(route);
      CompiledWellFormed(templates[i]);
      ClashByKey(built, route);
      if key in seen {
        ClashesStay(templates, i, built, route);
        return None;
      }
      OneMoreKey(built, route);
      seen := seen + {key};
      built := built + [route];
    }
    assert templates[..|templates|] == templates;
    return Some(built);
  }

  method NewRoute(t: Template) returns (r: Route)
    ensures r == Compiled(t)
  {
    var segments, literals := Compile(t.path);
    return Route(t.verb, t.path, segments, literals);
  }

  lemma NothingBuilt()
    ensures NoClash([]) && forall key :: !HasKey([], key)
  {
  }

  lemma ClashByKey(built: seq<Route>, route: Route)
    requires AllWellFormed(built) && NoClash(built) && WellFormed(route)
    ensures NoClash(built + [route]) <==> !HasKey(built, KeyOf(route))
  {
    forall i | 0 <= i < |built| ensures KeyOf(built[i]) == KeyOf(route) <==> Clash(built[i], route) {
      KeysClash(built[i], route);
    }
    hide KeyOf, Clash, WellFormed;
    var more := built + [route];
    assert more[|built|] == route && forall i :: 0 <= i < |built| ==> more[i] == built[i];
    assert forall i, j :: 0 <= i < j < |more| ==> (Clash(more[i], more[j]) <==> j == |built| && Clash(more[i], route));
    assert forall i :: 0 <= i < |built| ==> (Clash(more[i], more[|built|]) <==> KeyOf(built[i]) == KeyOf(route));
  }

  lemma OneMoreKey(built: seq<Route>, route: Route)
    ensures forall key :: HasKey(built + [route], key) <==> HasKey(built, key) || key == KeyOf(route)
  {
    hide KeyOf;
    var more := built + [route];
    forall key ensures HasKey(more, key) <==> HasKey(built, key) || key == KeyOf(route) {
      if HasKey(built, key) {
        var i :| 0 <= i < |built| && KeyOf(built[i]) == key;
        assert KeyOf(more[i]) == key;
      }
      assert KeyOf(more[|built|]) == KeyOf(route);
    }
  }

  lemma ClashesStay(templates: seq<string>, i: nat, built: seq<Route>, route: Route)
    requires i < |templates| && forall j :: 0 <= j <= i ==> Admissible(templates[j])
    requires built == RoutesOf(templates[..i]) && route == RouteOf(templates[i]) && !NoClash(built + [route])
    ensures !Accepted(templates)
  {
    hide Admissible, RouteOf, NoClash;
    if forall j :: 0 <= j < |templates| ==> Admissible(templates[j]) {
      var all := RoutesOf(templates);
      assert all[..i + 1] == built + [route];
      PrefixClashes(all, i + 1);
    }
  }

  lemma PrefixClashes(routes: seq<Route>, n: nat)
    requires n <= |routes| && !NoClash(routes[..n])
    ensures !NoClash(routes)
  {
    hide Clash;
    var i, j :| 0 <= i < j < n && Clash(routes[..n][i], routes[..n][j]);
    assert Clash(routes[i], routes[j]);
  }

  /** Segment by segment: a wildcard takes any text but the empty one, a literal takes only itself. */
  predicate Matches(r: Route, parts: seq<string>) {
    && |parts| == |r.segments|
    && forall i :: 0 <= i < |parts| ==> if r.segments[i].Wildcard? then parts[i] != ""
    else parts[i] == r.segments[i].text
  }

  method MatchParts(r: Route, parts: seq<string>) returns (ok: bool)
    ensures ok == Matches(r, parts)
  {
    if |parts| != |r.segments| {
      return false;
    }
    for i := 0 to |parts|
      invariant forall j :: 0 <= j < i ==> if r.segments[j].Wildcard? then parts[j] != ""
                else parts[j] == r.segments[j].text
    {
      if r.segments[i].Wildcard? {
        if parts[i] == "" {
          return false;
        }
        continue;
      }
      if parts[i] != r.segments[i].text {
        return false;
      }
    }
    return true;
  }

  // ---- Matching ---------------------------------------------------------

  /** The position of the first route with the most literals among those that fit. */
  function BestAt(routes: seq<Route>, verb: string, parts: seq<string>): (r: Option<nat>)
    ensures FirstMost(routes, verb, parts, r)
  {
    if routes == [] then None
    else
      var last := |routes| - 1;
      var before := BestAt(routes[..last], verb, parts);
      if routes[last].verb == verb && Matches(routes[last], parts)
         && (before.None? || routes[last].literals > routes[before.value].literals)
        then Some(last) else before
  }

  /** Of the routes with the method whose segments match, the first with the most literals. */
  ghost predicate FirstMost(routes: seq<Route>, verb: string, parts: seq<string>, r: Option<nat>) {
    match r
    case None => forall i :: 0 <= i < |routes| ==> routes[i].verb != verb || !Matches(routes[i], parts)
    case Some(k) =>
      && k < |routes| && routes[k].verb == verb && Matches(routes[k], parts)
      && forall i :: 0 <= i < |routes| && routes[i].verb == verb && Matches(routes[i], parts) ==>
           if i < k then routes[i].literals < routes[k].literals else routes[i].literals <= routes[k].literals
  }

  function BestOf(routes: seq<Route>, verb: string, parts: seq<string>): Option<Route> {
    var at := BestAt(routes, verb, parts);
    if at.Some? then Some(routes[at.value]) else None
  }

  /** The route a request belongs to; a path with too many segments belongs to none. */
  function BestFor(routes: seq<Route>, verb: string, path: string): Option<Route> {
    if |Parts(path)| > MAX_PATH_SEGMENTS then None else BestOf(routes, verb, Parts(path))
  }

  /** A missing table matches nothing. */
  method Best(table: Option<seq<Route>>, verb: string, path: string) returns (best: Option<Route>, parts: seq<string>)
    ensures best == if table.None? then None else BestFor(table.value, verb, path)
    ensures best.Some? ==> parts == Parts(path) && best.value.verb == verb && Matches(best.value, parts)
  {
    if table.None? {
      return None, [];
    }
    parts := Parts(path);
    if |parts| > MAX_PATH_SEGMENTS {
      return None, [];
    }
    hide Matches;
    var routes := table.value;
    var at: Option<nat> := None;
    for i := 0 to |routes|
      invariant at == BestAt(routes[..i], verb, parts)
    {
      assert routes[..i + 1][..i] == routes[..i];
      var ok := MatchParts(routes[i], parts);
      if routes[i].verb != verb || !ok {
        continue;
      }
      if at.None? || routes[i].literals > routes[at.value].literals {
        at := Some(i);
      }
    }
    assert routes[..|routes|] == routes;
    best := if at.Some? then Some(routes[at.value]) else None;
  }

  method Match(table: Option<seq<Route>>, verb: string, path: string) returns (template: string)
    ensures template == if table.None? then UNMATCHED else TemplateFor(table.value, verb, path)
  {
    var best, _ := Best(table, verb, path);
    return if best.None? then UNMATCHED else best.value.template;
  }

  function TemplateFor(routes: seq<Route>, verb: string, path: string): string {
    var best := BestFor(routes, verb, path);
    if best.None? then UNMATCHED else best.value.template
  }

  /** The values in the wildcard segments, in order. */
  function ParamsOf(segments: seq<Segment>, parts: seq<string>): seq<string>
    requires |segments| == |parts|
  {
    if segments == [] then []
    else
      var last := |segments| - 1;
      ParamsOf(segments[..last], parts[..last]) + (if segments[last].Wildcard? then [parts[last]] else [])
  }

  method MatchParams(table: Option<seq<Route>>, verb: string, path: string)
    returns (template: string, params: seq<string>)
    ensures template == if table.None? then UNMATCHED else TemplateFor(table.value, verb, path)
    ensures var best := if table.None? then None else BestFor(table.value, verb, path);
            if best.None? then params == []
            else Matches(best.value, Parts(path)) && params == ParamsOf(best.value.segments, Parts(path))
  {
    var best, parts := Best(table, verb, path);
    if best.None? {
      return UNMATCHED, [];
    }
    var segments := best.value.segments;
    params := [];
    for i := 0 to |segments|
      invariant params == ParamsOf(segments[..i], parts[..i])
    {
      assert segments[..i + 1][..i] == segments[..i] && parts[..i + 1][..i] == parts[..i];
      if segments[i].Wildcard? {
        params := params + [parts[i]];
      }
    }
    assert segments[..|segments|] == segments && parts[..|segments|] == parts;
    return best.value.template, params;
  }
}
