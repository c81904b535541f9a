/** The string methods that names and addresses are built from. */
module Text {

  /** `str.isspace` for one character; `strip()` and the regular expression `\s` both use it. */
  predicate IsSpace(c: char)
  {
    || '\t' <= c <= '\r' || '\U{1C}' <= c <= ' ' || c == '\U{85}' || c == '\U{A0}'
    || c == '\U{1680}' || '\U{2000}' <= c <= '\U{200A}' || c == '\U{2028}' || c == '\U{2029}'
    || c == '\U{202F}' || c == '\U{205F}' || c == '\U{3000}'
  }

  function LowerChar(c: char): char
  {
    if 'A' <= c <= 'Z' then (c as int + 32) as char else c
  }

  /** `s.lower()` on ASCII text. */
  function Lower(s: string): (r: string)
    ensures |r| == |s| && forall i | 0 <= i < |s| :: r[i] == LowerChar(s[i])
  {
    seq(|s|, i requires 0 <= i < |s| => LowerChar(s[i]))
  }

  function StripLeft(s: string, p: char -> bool): (r: string)
    ensures |r| <= |s| && r == s[|s| - |r|..]
    ensures forall c | c in s[..|s| - |r|] :: p(c)
    ensures r == "" || !p(r[0])
  {
    if s == "" || !p(s[0]) then s else
      var r := StripLeft(s[1..], p);
      assert s[..|s| - |r|] == [s[0]] + s[1..][..|s[1..]| - |r|];
      r
  }

  function StripRight(s: string, p: char -> bool): (r: string)
    ensures |r| <= |s| && r == s[..|r|]
    ensures forall c | c in s[|r|..] :: p(c)
    ensures r == "" || !p(r[|r| - 1])
  {
    if s == "" || !p(s[|s| - 1]) then s else
      var r := StripRight(s[..|s| - 1], p);
      assert s[|r|..] == s[..|s| - 1][|r|..] + [s[|s| - 1]];
      r
  }

  /** `s.strip(...)`: characters satisfying `p` removed from both ends. */
  function Strip(s: string, p: char -> bool): string
  {
    StripRight(StripLeft(s, p), p)
  }

  predicate Trimmed(s: string, p: char -> bool)
  {
    s == "" || (!p(s[0]) && !p(s[|s| - 1]))
  }

  lemma StripLeftCuts(s: string, p: char -> bool) returns (margin: string)
    ensures s == margin + StripLeft(s, p) && forall c | c in margin :: p(c)
  {
    var rest := StripLeft(s, p);
    hide StripLeft;
    margin := s[..|s| - |rest|];
    assert s == margin + s[|s| - |rest|..];
  }

  lemma StripRightCuts(s: string, p: char -> bool) returns (margin: string)
    ensures s == StripRight(s, p) + margin && forall c | c in margin :: p(c)
  {
    var rest := StripRight(s, p);
    hide StripRight;
    margin := s[|rest|..];
    assert s == s[..|rest|] + margin;
  }

  lemma Assoc(a: string, b: string, c: string)
    ensures a + (b + c) == (a + b) + c
  {
  }

  /** Stripping cuts off both ends, and only characters that satisfy `p`. */
  lemma StripCuts(s: string, p: char -> bool) returns (left: string, right: string)
    ensures s == left + Strip(s, p) + right && Trimmed(Strip(s, p), p)
    ensures forall c | c in left + right :: p(c)
  {
    var mid := StripLeft(s, p);
    left := StripLeftCuts(s, p);
    right := StripRightCuts(mid, p);
    Assoc(left, Strip(s, p), right);
  }

  lemma StripSplits(s: string, p: char -> bool) returns (left: string, right: string)
    ensures s == left + Strip(s, p) + right
  {
    left, right := StripCuts(s, p);
  }

  lemma StripKeepsTrimmed(s: string, p: char -> bool)
    requires Trimmed(s, p)
    ensures Strip(s, p) == s
  {
  }

  lemma {:induction false} StripLeftOf(a: string, t: string, p: char -> bool)
    requires (t != "" ==> !p(t[0])) && forall c | c in a :: p(c)
    ensures StripLeft(a + t, p) == t
  {
    if a == "" {
      assert a + t == t;
    } else {
      assert a[0] in a && (a + t)[1..] == a[1..] + t;
      StripLeftOf(a[1..], t, p);
    }
  }

  lemma {:induction false} StripRightOf(t: string, b: string, p: char -> bool)
    requires (t != "" ==> !p(t[|t| - 1])) && forall c | c in b :: p(c)
    ensures StripRight(t + b, p) == t
  {
    if b == "" {
      assert t + b == t;
    } else {
      assert b[|b| - 1] in b && (t + b)[..|t + b| - 1] == t + b[..|b| - 1];
      StripRightOf(t, b[..|b| - 1], p);
    }
  }

  /** Stripping removes exactly what surrounds a trimmed text. */
  lemma StripRemovesMargins(a: string, s: string, b: string, p: char -> bool)
    requires s != "" && Trimmed(s, p)
    requires forall c | c in a + b :: p(c)
    ensures Strip(a + s + b, p) == s
  {
    assert a + s + b == a + (s + b) && (s + b)[0] == s[0];
    StripLeftOf(a, s + b, p);
    StripRightOf(s, b, p);
  }

  predicate Blank(s: string)
  {
    forall c | c in s :: IsSpace(c)
  }

  lemma BlankStrips(s: string)
    ensures Strip(s, IsSpace) == "" <==> Blank(s)
  {
    hide Strip, IsSpace;
    var left, right := StripCuts(s, IsSpace);
    var mid := Strip(s, IsSpace);
    assert mid != "" ==> mid[0] in s;
    assert mid == "" ==> s == left + right;
  }

  /** Blank margins do not matter to `strip()`. */
  lemma StripMargins(left: string, s: string, right: string)
    requires Blank(left) && Blank(right)
    ensures Strip(left + s + right, IsSpace) == Strip(s, IsSpace)
  {
    hide Strip, IsSpace;
    var mid := Strip(s, IsSpace);
    if mid == "" {
      BlankStrips(s);
      BlankStrips(left + s + right);
    } else {
      var l, r := StripCuts(s, IsSpace);
      Assoc(left, l, mid);
      Assoc(left, l + mid, r);
      Assoc(left + l + mid, r, right);
      StripRemovesMargins(left + l, mid, r + right, IsSpace);
    }
  }
}
