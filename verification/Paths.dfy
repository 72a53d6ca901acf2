/** Paths as lists of segments. */
module Paths {

  /** strings.Split(s, "/") */
  function Split(s: string): (r: seq<string>)
    ensures |r| >= 1
  {
    if s == "" then [""]
    else
      var rest := Split(s[1..]);
      if s[0] == '/' then [""] + rest else [[s[0]] + rest[0]] + rest[1..]
  }

  /** strings.Join(parts, "/") */
  function Join(parts: seq<string>): string {
    if parts == [] then "" else if |parts| == 1 then parts[0] else parts[0] + "/" + Join(parts[1..])
  }

  predicate SlashFree(s: string) { '/' !in s }

  ghost predicate AllSlashFree(parts: seq<string>) { forall i :: 0 <= i < |parts| ==> SlashFree(parts[i]) }

  lemma {:induction false} SplitSlashFree(s: string)
    ensures AllSlashFree(Split(s))
  {
    if s != "" {
      SplitSlashFree(s[1..]);
    }
  }

  lemma {:induction false} JoinSplit(s: string)
    ensures Join(Split(s)) == s
  {
    if s != "" {
      var rest := Split(s[1..]);
      JoinSplit(s[1..]);
      if s[0] == '/' {
        assert ([""] + rest)[1..] == rest;
      } else {
        var all := [[s[0]] + rest[0]] + rest[1..];
        assert all[1..] == rest[1..];
      }
    }
  }

  lemma {:induction false} SplitOne(part: string)
    requires SlashFree(part)
    ensures Split(part) == [part]
  {
    if part != "" {
      assert part[0] in part;
      assert forall c :: c in part[1..] ==> c in part;
      SplitOne(part[1..]);
      assert [part[0]] + part[1..] == part;
    }
  }

  lemma {:induction false} SplitFirst(part: string, rest: string)
    requires SlashFree(part)
    ensures Split(part + "/" + rest) == [part] + Split(rest)
  {
    var s := part + "/" + rest;
    if part == "" {
      assert s[1..] == rest;
    } else {
      assert part[0] in part;
      assert forall c :: c in part[1..] ==> c in part;
      assert s[1..] == part[1..] + "/" + rest;
      SplitFirst(part[1..], rest);
      assert [part[0]] + part[1..] == part;
    }
  }

  lemma {:induction false} SplitJoin(parts: seq<string>)
    requires parts != [] && AllSlashFree(parts)
    ensures Split(Join(parts)) == parts
  {
    if |parts| == 1 {
      SplitOne(parts[0]);
    } else {
      SplitFirst(parts[0], Join(parts[1..]));
      SplitJoin(parts[1..]);
    }
  }

  lemma {:induction false} JoinLast(parts: seq<string>, last: string)
    requires parts != []
    ensures Join(parts + [last]) == Join(parts) + "/" + last
  {
    if |parts| == 1 {
      assert (parts + [last])[1..] == [last];
    } else {
      JoinLast(parts[1..], last);
      assert (parts + [last])[1..] == parts[1..] + [last];
    }
  }

  function TrimSlash(path: string): string { if path != "" && path[0] == '/' then path[1..] else path }

  function Parts(path: string): (r: seq<string>)
    ensures |r| >= 1
  {
    Split(TrimSlash(path))
  }

  /** Every list of slash-free segments is the list of some path. */
  lemma PartsOf(parts: seq<string>)
    requires parts != [] && AllSlashFree(parts)
    ensures Parts("/" + Join(parts)) == parts
  {
    SplitJoin(parts);
  }
}
