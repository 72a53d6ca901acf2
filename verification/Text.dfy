/** ASCII text operations. */
module Text {

  function UpperChar(c: char): char {
    if 'a' <= c <= 'z' then (c as int - 32) as char else c
  }

  function Upper(s: string): (r: string)
    ensures |r| == |s|
    ensures forall i :: 0 <= i < |s| ==> r[i] == UpperChar(s[i])
  {
    seq(|s|, i requires 0 <= i < |s| => UpperChar(s[i]))
  }

  const LOWER: string := "abcdefghijklmnopqrstuvwxyz"
  const UPPER: string := "ABCDEFGHIJKLMNOPQRSTUVWXYZ"

  /** Every small letter becomes its capital, and nothing else changes. */
  lemma UpperExactly(c: char, k: nat)
    ensures k < 26 && c == LOWER[k] ==> UpperChar(c) == UPPER[k]
    ensures c !in LOWER ==> UpperChar(c) == c
  {
    if 'a' <= c <= 'z' {
      assert LOWER[c as int - 97] == c;
    }
  }

  predicate NulFree(s: string) { '\0' !in s }

  /** The text before the first separator, and the text after it, are determined by the whole. */
  lemma SplitsOnce(separator: char, a: string, x: string, b: string, y: string)
    requires separator !in a && separator !in b && a + [separator] + x == b + [separator] + y
    ensures a == b && x == y
  {
    var whole := a + [separator] + x;
    assert whole[|a|] == separator && whole[|b|] == separator;
    assert forall i :: 0 <= i < |a| ==> whole[i] == a[i] && a[i] in a;
    assert forall i :: 0 <= i < |b| ==> whole[i] == b[i] && b[i] in b;
    assert |a| == |b|;
    assert whole[..|a|] == a && whole[..|b|] == b;
    assert whole[|a| + 1..] == x && whole[|b| + 1..] == y;
  }

  /** White space to Go's unicode package. */
  predicate IsBlank(c: char) { c in " \t\n\r\U{0B}\U{0C}" }

  /** White space to Python's str, which adds the four separators. */
  predicate IsSpace(c: char) { IsBlank(c) || '\U{1C}' <= c <= '\U{1F}' }

  /** Tab, line feed, vertical tab, form feed, carriage return and space; and the separators 28 to 31. */
  lemma SpaceExactly(c: char)
    ensures IsBlank(c) <==> c as int in {9, 10, 11, 12, 13, 32}
    ensures IsSpace(c) <==> c as int in {9, 10, 11, 12, 13, 28, 29, 30, 31, 32}
  {
  }

  function TrimLeft(space: char -> bool, s: string): (r: string)
    ensures r == "" || !space(r[0])
    ensures |r| <= |s|
    ensures forall c :: c in r ==> c in s
    ensures s != "" && !space(s[0]) ==> r == s
  {
    if s != "" && space(s[0]) then TrimLeft(space, s[1..]) else s
  }

  function TrimRight(space: char -> bool, s: string): (r: string)
    ensures r == "" || !space(r[|r| - 1])
    ensures |r| <= |s|
    ensures r <= s
    ensures s != "" && !space(s[|s| - 1]) ==> r == s
  {
    if s != "" && space(s[|s| - 1]) then TrimRight(space, s[..|s| - 1]) else s
  }

  /** s is r with characters around it that are all spaces. */
  ghost predicate WithoutEnds(space: char -> bool, s: string, r: string) {
    exists i, j :: 0 <= i <= j <= |s| && r == s[i..j]
      && (forall k :: 0 <= k < i || j <= k < |s| ==> space(s[k]))
  }

  lemma {:induction false} TrimLeftExactly(space: char -> bool, s: string)
    ensures var r := TrimLeft(space, s);
            r == s[|s| - |r|..] && forall k :: 0 <= k < |s| - |r| ==> space(s[k])
  {
    if s != "" && space(s[0]) {
      TrimLeftExactly(space, s[1..]);
    }
  }

  lemma {:induction false} TrimRightExactly(space: char -> bool, s: string)
    ensures forall k :: |TrimRight(space, s)| <= k < |s| ==> space(s[k])
  {
    if s != "" && space(s[|s| - 1]) {
      TrimRightExactly(space, s[..|s| - 1]);
    }
  }

  lemma BothEnds(space: char -> bool, s: string)
    ensures WithoutEnds(space, s, TrimRight(space, TrimLeft(space, s)))
  {
    var left := TrimLeft(space, s);
    var r := TrimRight(space, left);
    TrimLeftExactly(space, s);
    TrimRightExactly(space, left);
    hide TrimLeft, TrimRight;
    var i := |s| - |left|;
    assert r == s[i..i + |r|];
    forall k | i + |r| <= k < |s| ensures space(s[k]) {
      assert s[k] == left[k - i];
    }
  }

  /** str.strip() and strings.TrimSpace take the blanks around a text away and nothing else. */
  lemma StripExactly(s: string)
    ensures WithoutEnds(IsSpace, s, Strip(s)) && WithoutEnds(IsBlank, s, TrimSpace(s))
  {
    BothEnds(IsSpace, s);
    BothEnds(IsBlank, s);
  }

  /** str.strip() */
  function Strip(s: string): (r: string)
    ensures r == "" || (!IsSpace(r[0]) && !IsSpace(r[|r| - 1]))
  {
    TrimRight(IsSpace, TrimLeft(IsSpace, s))
  }

  /** strings.TrimSpace */
  function TrimSpace(s: string): (r: string)
    ensures r == "" || (!IsBlank(r[0]) && !IsBlank(r[|r| - 1]))
  {
    TrimRight(IsBlank, TrimLeft(IsBlank, s))
  }

  /** Order of text by its characters. */
  function TextLeq(s: string, t: string): bool {
    if s == "" then true
    else if t == "" then false
    else if s[0] != t[0] then s[0] < t[0]
    else TextLeq(s[1..], t[1..])
  }

  lemma {:induction false} TextTotal(s: string, t: string)
    ensures TextLeq(s, t) || TextLeq(t, s)
  {
    if s != "" && t != "" && s[0] == t[0] {
      TextTotal(s[1..], t[1..]);
    }
  }

  lemma {:induction false} TextTransitive(s: string, t: string, u: string)
    requires TextLeq(s, t) && TextLeq(t, u)
    ensures TextLeq(s, u)
  {
    if s != "" && t != "" && u != "" && s[0] == t[0] && t[0] == u[0] {
      TextTransitive(s[1..], t[1..], u[1..]);
    }
  }

  lemma UpperIdempotent(s: string)
    ensures Upper(Upper(s)) == Upper(s)
  {
  }

  lemma {:induction false} UpperKeepsSpaces(c: char)
    ensures IsSpace(UpperChar(c)) == IsSpace(c)
  {
  }

  /** The text before the first occurrence of c: s.split(c, 1)[0]. */
  function Before(s: string, c: char): (r: string)
    ensures r <= s
    ensures c !in r
    ensures c !in s ==> r == s
  {
    if s == "" || s[0] == c then "" else [s[0]] + Before(s[1..], c)
  }
}
