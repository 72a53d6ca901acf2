/** Text normalised before it is matched against SQL injection patterns. Text is ASCII. */
module SqlText {
  import opened Common
  import opened Text

  /** A comment ends here. */
  predicate EndsAt(s: string, k: nat) { k + 2 <= |s| && s[k] == '*' && s[k + 1] == '/' }

  lemma EndsExactly(s: string, k: nat)
    ensures EndsAt(s, k) <==> k + 2 <= |s| && s[k..k + 2] == "*/"
  {
    if k + 2 <= |s| {
      assert s[k..k + 2] == [s[k], s[k + 1]];
    }
  }

  /** Where the first comment end is. */
  function ClosingAt(s: string): (r: Option<nat>)
    ensures r.Some? ==> EndsAt(s, r.value) && forall k: nat :: k < r.value ==> !EndsAt(s, k)
    ensures r.None? ==> forall k: nat :: !EndsAt(s, k)
  {
    if |s| < 2 then None
    else if EndsAt(s, 0) then Some(0)
    else
      var rest := ClosingAt(s[1..]);
      assert forall k: nat :: k > 0 ==> EndsAt(s, k) == EndsAt(s[1..], k - 1);
      if rest.Some? then Some(rest.value + 1) else None
  }

  predicate Opens(s: string) { |s| >= 2 && s[0] == '/' && s[1] == '*' }

  /** A block comment starts here and is closed later. */
  predicate ClosedHere(s: string) { Opens(s) && ClosingAt(s[2..]).Some? }

  function AfterComment(s: string): (r: string)
    requires ClosedHere(s)
    ensures |r| < |s|
  {
    s[ClosingAt(s[2..]).value + 4..]
  }

  /** The text with every closed block comment replaced by a space. */
  function Stripped(text: string): string
    decreases |text|
  {
    if text == "" then ""
    else if ClosedHere(text) then " " + Stripped(AfterComment(text))
    else [text[0]] + Stripped(text[1..])
  }

  function Normalized(text: string): string { Upper(Stripped(text)) }

  /** One step of the scanner: a closed comment becomes a space, any other character stays. */
  lemma StripOneMore(text: string, i: nat)
    requires i < |text|
    ensures ClosedHere(text[i..]) <==> Opens(text[i..]) && ClosingAt(text[i + 2..]).Some?
    ensures ClosedHere(text[i..]) ==>
              var k := ClosingAt(text[i + 2..]).value;
              i + k + 4 <= |text| && Stripped(text[i..]) == " " + Stripped(text[i + k + 4..])
    ensures !ClosedHere(text[i..]) ==> Stripped(text[i..]) == [text[i]] + Stripped(text[i + 1..])
  {
    var rest := text[i..];
    assert rest[1..] == text[i + 1..];
    if Opens(rest) {
      assert rest[2..] == text[i + 2..];
      if ClosedHere(rest) {
        assert AfterComment(rest) == text[i + ClosingAt(text[i + 2..]).value + 4..];
      }
    }
  }

  method NormalizeSqlText(text: string) returns (r: string)
    ensures r == Normalized(text)
  {
    hide Stripped, ClosingAt, Upper, ClosedHere;
    var normalized, i := "", 0;
    assert text[0..] == text;
    while i < |text|
      invariant 0 <= i <= |text|
      invariant normalized + Stripped(text[i..]) == Stripped(text)
      decreases |text| - i
    {
      StripOneMore(text, i);
      if text[i] == '/' && i + 1 < |text| && text[i + 1] == '*' {
        var end := ClosingAt(text[i + 2..]);
        if end.Some? {
          normalized := normalized + " ";
          i := i + end.value + 4;
          continue;
        }
      }
      normalized := normalized + [text[i]];
      i := i + 1;
    }
    NothingStripped();
    assert text[i..] == "" && normalized + "" == normalized;
    return Upper(normalized);
  }

  lemma NothingStripped()
    ensures Stripped("") == ""
  {
  }

  predicate Contains(s: string, part: string) {
    exists i :: 0 <= i <= |s| - |part| && OccursAt(s, part, i)
  }

  predicate OccursAt(s: string, part: string, i: nat)
    requires i <= |s| - |part|
  {
    s[i..i + |part|] == part
  }

  /** A part occurs exactly when the text is the part with something before it and something after it. */
  lemma ContainsExactly(s: string, part: string)
    ensures Contains(s, part) <==> exists a: string, b: string :: Around(s, a, part, b)
  {
    if Contains(s, part) {
      var i :| 0 <= i <= |s| - |part| && OccursAt(s, part, i);
      assert Around(s, s[..i], part, s[i + |part|..]);
    }
    if a: string, b: string :| Around(s, a, part, b) {
      assert s[|a|..|a| + |part|] == part;
      assert OccursAt(s, part, |a|);
    }
  }

  predicate Around(s: string, a: string, part: string, b: string) { s == a + part + b }

  /** The patterns that occur in the text, both normalised, in the order they were configured. */
  function MatchesOf(text: string, patterns: seq<string>): seq<string> {
    if patterns == [] then []
    else
      var last := patterns[|patterns| - 1];
      MatchesOf(text, patterns[..|patterns| - 1])
        + (if Contains(Normalized(text), Normalized(last)) then [last] else [])
  }

  method FindMatches(text: string, patterns: seq<string>) returns (matched: seq<string>)
    ensures matched == MatchesOf(text, patterns)
  {
    hide Contains, Normalized;
    var normalizedText := NormalizeSqlText(text);
    matched := [];
    for i := 0 to |patterns|
      invariant matched == MatchesOf(text, patterns[..i])
    {
      assert patterns[..i + 1][..i] == patterns[..i];
      var pattern := NormalizeSqlText(patterns[i]);
      if Contains(normalizedText, pattern) {
        matched := matched + [patterns[i]];
      }
    }
    assert patterns[..|patterns|] == patterns;
  }

  // ---- Laws -------------------------------------------------------------

  /** Some block comment in s is closed. */
  ghost predicate HasClosedComment(s: string) {
    exists i :: 0 <= i < |s| && ClosedHere(s[i..])
  }

  lemma ClosedLater(c: char, s: string)
    ensures HasClosedComment([c] + s) <==> ClosedHere([c] + s) || HasClosedComment(s)
  {
    var all := [c] + s;
    if HasClosedComment(all) {
      var i :| 0 <= i < |all| && ClosedHere(all[i..]);
      if i > 0 {
        assert all[i..] == s[i - 1..];
      } else {
        assert all[i..] == all;
      }
    }
    if HasClosedComment(s) {
      var i :| 0 <= i < |s| && ClosedHere(s[i..]);
      assert all[i + 1..] == s[i..];
    }
    if ClosedHere(all) {
      assert all[0..] == all;
    }
  }

  lemma NoClosingLater(s: string, n: nat)
    requires ClosingAt(s).None? && n <= |s|
    ensures ClosingAt(s[n..]).None?
  {
    assert forall k: nat :: EndsAt(s[n..], k) == EndsAt(s, n + k);
  }

  lemma {:induction false} UnclosedUnchanged(s: string)
    requires ClosingAt(s).None?
    ensures Stripped(s) == s
    decreases |s|
  {
    if s != "" {
      if |s| >= 2 {
        NoClosingLater(s, 2);
      }
      NoClosingLater(s, 1);
      UnclosedUnchanged(s[1..]);
      assert [s[0]] + s[1..] == s;
    }
  }

  lemma {:induction false} StrippedHasNone(text: string)
    ensures !HasClosedComment(Stripped(text))
    decreases |text|
  {
    if text == "" {
    } else if ClosedHere(text) {
      StrippedHasNone(AfterComment(text));
      ClosedLater(' ', Stripped(AfterComment(text)));
    } else {
      StrippedHasNone(text[1..]);
      ClosedLater(text[0], Stripped(text[1..]));
      var rest := Stripped(text[1..]);
      if Opens([text[0]] + rest) {
        StartsWithStar(text[1..]);
        assert text[2..] == text[1..][1..];
        UnclosedUnchanged(text[2..]);
        assert ([text[0]] + rest)[2..] == text[2..];
      }
    }
  }

  /** A star at the start of the result was at the start of the text. */
  lemma StartsWithStar(s: string)
    requires Stripped(s) != "" && Stripped(s)[0] == '*'
    ensures s != "" && s[0] == '*' && Stripped(s) == "*" + Stripped(s[1..])
  {
  }

  lemma {:induction false} NothingToStrip(s: string)
    requires !HasClosedComment(s)
    ensures Stripped(s) == s
    decreases |s|
  {
    if s != "" {
      ClosedLater(s[0], s[1..]);
      assert [s[0]] + s[1..] == s;
      NothingToStrip(s[1..]);
    }
  }

  lemma UpperMarks(c: char)
    ensures (UpperChar(c) == '*' <==> c == '*') && (UpperChar(c) == '/' <==> c == '/')
  {
  }

  lemma UpperClosing(s: string)
    ensures ClosingAt(Upper(s)) == ClosingAt(s)
  {
    forall k: nat ensures EndsAt(Upper(s), k) == EndsAt(s, k) {
      if k + 2 <= |s| {
        UpperMarks(s[k]);
        UpperMarks(s[k + 1]);
      }
    }
    hide Upper, EndsAt;
  }

  lemma UpperTail(s: string, n: nat)
    requires n <= |s|
    ensures Upper(s)[n..] == Upper(s[n..])
  {
  }

  lemma UpperFirst(c: char, s: string)
    ensures Upper([c] + s) == [UpperChar(c)] + Upper(s)
  {
  }

  lemma UpperComment(s: string)
    ensures ClosedHere(Upper(s)) <==> ClosedHere(s)
    ensures ClosedHere(s) ==> AfterComment(Upper(s)) == Upper(AfterComment(s))
  {
    if |s| >= 2 {
      UpperMarks(s[0]);
      UpperMarks(s[1]);
      UpperTail(s, 2);
      UpperClosing(s[2..]);
      if ClosedHere(s) {
        UpperTail(s, ClosingAt(s[2..]).value + 4);
      }
    }
  }

  /** Case does not matter to stripping. */
  lemma {:induction false} UpperStripped(text: string)
    ensures Stripped(Upper(text)) == Upper(Stripped(text))
    decreases |text|
  {
    if text != "" {
      UpperComment(text);
      UpperTail(text, 1);
      hide ClosedHere, AfterComment;
      if ClosedHere(text) {
        UpperStripped(AfterComment(text));
        UpperFirst(' ', Stripped(AfterComment(text)));
      } else {
        UpperStripped(text[1..]);
        UpperFirst(text[0], Stripped(text[1..]));
      }
      hide Upper, UpperChar;
    }
  }

  /** What is left has no closed comment, and normalising it again changes nothing. */
  lemma NormalizingOnceIsEnough(text: string)
    ensures !HasClosedComment(Normalized(text))
    ensures Normalized(Normalized(text)) == Normalized(text)
  {
    UpperStripped(text);
    StrippedHasNone(Upper(text));
    NothingToStrip(Normalized(text));
    UpperIdempotent(Stripped(text));
  }

  lemma CaseIsInvisible(text: string)
    ensures Normalized(Upper(text)) == Normalized(text)
  {
    UpperStripped(text);
    UpperIdempotent(Stripped(text));
  }

  /** Reading the text meets a comment that the text does not close. */
  predicate LeavesOpen(a: string)
    decreases |a|
  {
    if a == "" then false
    else if ClosedHere(a) then LeavesOpen(AfterComment(a))
    else Opens(a) || LeavesOpen(a[1..])
  }

  /** A comment closed within a is closed there whatever follows. */
  lemma ClosedTogether(a: string, x: string)
    requires ClosedHere(a)
    ensures ClosedHere(a + x) && AfterComment(a + x) == AfterComment(a) + x
  {
    var k := ClosingAt(a[2..]).value;
    assert (a + x)[2..] == a[2..] + x;
    assert EndsAt(a[2..] + x, k);
    assert forall j: nat :: j < k ==> EndsAt(a[2..] + x, j) == EndsAt(a[2..], j);
    assert ClosingAt(a[2..] + x) == Some(k);
    assert (a + x)[k + 4..] == a[k + 4..] + x;
  }

  lemma PlainTogether(a: string, x: string)
    requires a != "" && !Opens(a) && (x == "" || !(a[|a| - 1] == '/' && x[0] == '*'))
    ensures !ClosedHere(a + x) && (a + x)[0] == a[0] && (a + x)[1..] == a[1..] + x
  {
  }

  /** Text that leaves no comment open is normalised on its own, whatever follows it. */
  lemma {:induction false} StrippedInParts(a: string, x: string)
    requires !LeavesOpen(a)
    requires a == "" || x == "" || !(a[|a| - 1] == '/' && x[0] == '*')
    ensures Stripped(a + x) == Stripped(a) + Stripped(x)
    decreases |a|
  {
    if a == "" {
      assert a + x == x;
    } else if ClosedHere(a) {
      var rest := AfterComment(a);
      assert rest == "" || rest[|rest| - 1] == a[|a| - 1];
      StrippedInParts(rest, x);
      CommentStep(a, x);
      hide *;
    } else {
      PlainTogether(a, x);
      StrippedInParts(a[1..], x);
      PlainStep(a, x);
      hide *;
    }
  }

  lemma StrippedComment(text: string)
    requires ClosedHere(text)
    ensures Stripped(text) == " " + Stripped(AfterComment(text))
  {
  }

  lemma StrippedPlain(text: string)
    requires text != "" && !ClosedHere(text)
    ensures Stripped(text) == [text[0]] + Stripped(text[1..])
  {
  }

  lemma CommentStep(a: string, x: string)
    requires ClosedHere(a) && Stripped(AfterComment(a) + x) == Stripped(AfterComment(a)) + Stripped(x)
    ensures Stripped(a + x) == Stripped(a) + Stripped(x)
  {
    hide Stripped, AfterComment, ClosedHere;
    ClosedTogether(a, x);
    StrippedComment(a);
    StrippedComment(a + x);
    assert " " + (Stripped(AfterComment(a)) + Stripped(x)) == " " + Stripped(AfterComment(a)) + Stripped(x);
  }

  lemma PlainStep(a: string, x: string)
    requires a != "" && !ClosedHere(a) && !ClosedHere(a + x) && Stripped(a[1..] + x) == Stripped(a[1..]) + Stripped(x)
    ensures Stripped(a + x) == Stripped(a) + Stripped(x)
  {
    hide Stripped, AfterComment, ClosedHere;
    StrippedPlain(a);
    StrippedPlain(a + x);
    assert (a + x)[1..] == a[1..] + x;
    assert [a[0]] + (Stripped(a[1..]) + Stripped(x)) == [a[0]] + Stripped(a[1..]) + Stripped(x);
  }

  lemma CommentAlone(c: string, b: string)
    requires ClosingAt(c).None?
    ensures Stripped("/*" + c + "*/" + b) == " " + Stripped(b)
  {
    var s := "/*" + c + "*/" + b;
    var tail := c + "*/" + b;
    assert s[2..] == tail;
    assert EndsAt(tail, |c|);
    assert forall k: nat :: k < |c| ==> EndsAt(tail, k) == EndsAt(c, k);
    assert ClosingAt(tail) == Some(|c|);
    assert s[|c| + 4..] == b;
  }

  /** A closed comment counts for a space: wherever one starts, no pattern matches the text more or less than it matches
      the text with a space there. */
  lemma CommentIsSpace(a: string, c: string, b: string)
    requires !LeavesOpen(a) && ClosingAt(c).None?
    ensures Normalized(a + ("/*" + c + "*/" + b)) == Normalized(a + (" " + b))
  {
    StrippedInParts(a, "/*" + c + "*/" + b);
    StrippedInParts(a, " " + b);
    CommentAlone(c, b);
    assert (" " + b)[1..] == b;
  }

  lemma {:induction false} CommentHidesNothing(a: string, c: string, b: string, patterns: seq<string>)
    requires !LeavesOpen(a) && ClosingAt(c).None?
    ensures MatchesOf(a + ("/*" + c + "*/" + b), patterns) == MatchesOf(a + (" " + b), patterns)
  {
    CommentIsSpace(a, c, b);
    if patterns != [] {
      CommentHidesNothing(a, c, b, patterns[..|patterns| - 1]);
      hide Contains, Normalized, LeavesOpen;
    }
  }

  /** A comment that is never closed hides no text after it. */
  lemma OpenCommentIsKept(a: string, t: string)
    requires !LeavesOpen(a) && ClosingAt(t).None?
    ensures Normalized(a + ("/*" + t)) == Normalized(a) + Upper("/*" + t)
  {
    StrippedInParts(a, "/*" + t);
    var s := "/*" + t;
    assert s[2..] == t;
    UnclosedUnchanged(t);
    assert Stripped(s) == s by {
      assert s[1..] == "*" + t;
      assert ("*" + t)[1..] == t;
    }
    assert Upper(Stripped(a) + s) == Upper(Stripped(a)) + Upper(s);
  }
}
