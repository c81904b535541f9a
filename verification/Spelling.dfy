/** What `normalize` makes of an ASCII text, character by character in one pass. */
module Spelling {
  import opened Text
  import opened Naming

  predicate IsLetterOrDigit(c: char)
  {
    'a' <= c <= 'z' || 'A' <= c <= 'Z' || '0' <= c <= '9'
  }

  /** White space, hyphen, dot, apostrophe, underscore. */
  predicate IsBreak(c: char)
  {
    c in {' ', '\t', '\n', '\U{0B}', '\U{0C}', '\r', '\U{1C}', '\U{1D}', '\U{1E}', '\U{1F}', '-', '.', '\'', '_'}
  }

  function Small(c: char): char
  {
    if 'A' <= c <= 'Z' then (c as int - 'A' as int + 'a' as int) as char else c
  }

  /** Each run of breaks as one underscore, each letter or digit small, anything else not at all. */
  function OnePass(s: string): string
    decreases |s|
  {
    if s == "" then ""
    else if IsBreak(s[0]) then "_" + OnePass(StripLeft(s[1..], IsBreak))
    else if IsLetterOrDigit(s[0]) then [Small(s[0])] + OnePass(s[1..])
    else OnePass(s[1..])
  }

  lemma BreaksAreGaps(c: char)
    requires c <= '\U{7F}'
    ensures IsBreak(c) <==> IsSeparator(c) || c == '_'
    ensures LowerChar(c) == Small(c) && (IsLetterOrDigit(c) <==> IsAlnum(LowerChar(c)))
    ensures IsBreak(LowerChar(c)) <==> IsBreak(c)
    ensures IsLetterOrDigit(LowerChar(c)) <==> IsLetterOrDigit(c)
  {
  }

  /** Small letters and other ASCII characters. */
  predicate IsSmall(s: string)
  {
    forall c | c in s :: c <= '\U{7F}' && LowerChar(c) == c
  }

  lemma SmallRest(s: string, margin: string, rest: string)
    requires IsSmall(s) && s == margin + rest
    ensures IsSmall(rest)
  {
    hide LowerChar;
    assert forall c | c in rest :: c in s;
  }

  lemma {:induction false} DropsOn(margin: string, rest: string)
    requires forall c | c in margin :: IsBreak(c)
    ensures StripLeft(margin + rest, IsBreak) == StripLeft(rest, IsBreak)
    decreases |margin|
  {
    hide IsBreak;
    if margin == "" {
      assert margin + rest == rest;
    } else {
      assert margin[0] in margin && (margin + rest)[1..] == margin[1..] + rest;
      assert forall c | c in margin[1..] :: c in margin;
      DropsOn(margin[1..], rest);
    }
  }

  /** Cutting a run of separators and then breaks is cutting the breaks. */
  lemma SeparatorsAreBreaks(s: string)
    requires IsSmall(s)
    ensures StripLeft(StripLeft(s, IsSeparator), IsBreak) == StripLeft(s, IsBreak)
    ensures IsSmall(StripLeft(s, IsSeparator))
  {
    hide StripLeft, IsSeparator, IsBreak, LowerChar;
    var rest := StripLeft(s, IsSeparator);
    var margin := StripLeftCuts(s, IsSeparator);
    forall c | c in margin ensures IsBreak(c) {
      assert c in s;
      BreaksAreGaps(c);
    }
    DropsOn(margin, rest);
    SmallRest(s, margin, rest);
  }

  /** What is left to turn after a break. */
  lemma AfterBreak(x: string) returns (next: string)
    requires IsSmall(x) && x != "" && IsBreak(x[0])
    ensures IsSmall(next) && |next| < |x| && Underscore(x) == "_" + Underscore(next)
    ensures StripLeft(next, IsBreak) == StripLeft(x, IsBreak) == StripLeft(x[1..], IsBreak)
  {
    hide StripLeft, IsSeparator, IsBreak, LowerChar;
    assert x == [x[0]] + x[1..] && x[0] in x;
    BreaksAreGaps(x[0]);
    SmallRest(x, [x[0]], x[1..]);
    DropsOn([x[0]], x[1..]);
    next := if IsSeparator(x[0]) then StripLeft(x[1..], IsSeparator) else x[1..];
    SeparatorsAreBreaks(x[1..]);
  }

  lemma AfterOther(x: string)
    requires IsSmall(x) && x != "" && !IsBreak(x[0])
    ensures IsSmall(x[1..]) && x[0] != '_' && Underscore(x) == [x[0]] + Underscore(x[1..])
  {
    hide StripLeft, IsSeparator, LowerChar;
    assert x == [x[0]] + x[1..] && x[0] in x;
    BreaksAreGaps(x[0]);
    SmallRest(x, [x[0]], x[1..]);
  }

  lemma CollapseStep(c: char, u: string)
    ensures c != '_' ==> Collapse([c] + u) == [c] + Collapse(u)
    ensures c != '_' ==> Collapse("_" + ([c] + u)) == "_" + Collapse([c] + u)
    ensures Collapse("_" + ("_" + u)) == Collapse("_" + u)
  {
    assert ([c] + u)[1..] == u && ("_" + ([c] + u))[1..] == [c] + u && ("_" + ("_" + u))[1..] == "_" + u;
  }

  /** Once an underscore is out, further breaks add nothing. */
  lemma {:induction false} RunCollapses(x: string)
    requires IsSmall(x)
    ensures Collapse("_" + Underscore(x)) == "_" + Collapse(Underscore(StripLeft(x, IsBreak)))
    decreases |x|
  {
    if x == "" {
      assert Collapse("_") == "_" + Collapse("");
    } else if IsBreak(x[0]) {
      hide StripLeft, IsBreak, Underscore, Collapse, IsSmall;
      var next := AfterBreak(x);
      CollapseStep('_', Underscore(next));
      RunCollapses(next);
    } else {
      hide StripLeft, IsBreak, Underscore, Collapse, IsSmall;
      AfterOther(x);
      NoBreakToDrop(x);
      CollapseStep(x[0], Underscore(x[1..]));
    }
  }

  lemma NoBreakToDrop(x: string)
    requires x != "" && !IsBreak(x[0])
    ensures StripLeft(x, IsBreak) == x
  {
  }

  lemma KeepBreak(u: string)
    ensures Keep("_" + u) == "_" + Keep(u)
  {
    assert ("_" + u)[1..] == u;
  }

  lemma KeepOther(c: char, u: string)
    requires c != '_'
    ensures Keep([c] + u) == if IsAlnum(c) then [c] + Keep(u) else Keep(u)
  {
    assert ([c] + u)[1..] == u;
  }

  lemma SmallPassed(c: char)
    requires c <= '\U{7F}' && LowerChar(c) == c
    ensures Small(c) == c && (IsLetterOrDigit(c) <==> IsAlnum(c))
  {
  }

  lemma {:induction false} StagesAreOnePass(t: string)
    requires IsSmall(t)
    ensures Keep(Collapse(Underscore(t))) == OnePass(t)
    decreases |t|
  {
    if t == "" {
      assert Keep("") == "";
    } else if IsBreak(t[0]) {
      hide StripLeft, IsBreak, Underscore, Collapse, Keep, IsSmall, IsLetterOrDigit, Small;
      var next := AfterBreak(t);
      var left := StripLeft(t[1..], IsBreak);
      RunCollapses(next);
      KeepBreak(Collapse(Underscore(left)));
      RestIsSmall(t);
      StagesAreOnePass(left);
    } else {
      hide StripLeft, IsBreak, Underscore, Collapse, Keep, IsLetterOrDigit, IsAlnum, Small;
      AfterOther(t);
      assert t[0] in t;
      hide IsSmall, LowerChar;
      SmallPassed(t[0]);
      CollapseStep(t[0], Underscore(t[1..]));
      KeepOther(t[0], Collapse(Underscore(t[1..])));
      StagesAreOnePass(t[1..]);
    }
  }

  lemma RestIsSmall(t: string)
    requires IsSmall(t) && t != ""
    ensures IsSmall(StripLeft(t[1..], IsBreak))
  {
    hide StripLeft, IsBreak, LowerChar;
    var margin := StripLeftCuts(t[1..], IsBreak);
    assert t == [t[0]] + t[1..];
    SmallRest(t, [t[0]], t[1..]);
    SmallRest(t[1..], margin, StripLeft(t[1..], IsBreak));
  }

  lemma AsciiRest(s: string)
    requires Ascii(s) && s != ""
    ensures s[0] <= '\U{7F}' && Ascii(s[1..])
    ensures Lower(s) != "" && Lower(s)[0] == LowerChar(s[0]) && Lower(s)[1..] == Lower(s[1..])
  {
    hide LowerChar;
    assert s[0] in s && forall c | c in s[1..] :: c in s;
  }

  lemma {:induction false} LowerStripsAlike(s: string)
    requires Ascii(s)
    ensures StripLeft(Lower(s), IsBreak) == Lower(StripLeft(s, IsBreak)) && Ascii(StripLeft(s, IsBreak))
    decreases |s|
  {
    if s != "" {
      hide IsBreak, LowerChar, Ascii, Lower;
      AsciiRest(s);
      BreaksAreGaps(s[0]);
      LowerStripsAlike(s[1..]);
    }
  }

  lemma {:induction false} CapitalsPassAlike(s: string)
    requires Ascii(s)
    ensures OnePass(Lower(s)) == OnePass(s)
    decreases |s|
  {
    if s != "" {
      hide IsBreak, IsLetterOrDigit, LowerChar, Small, StripLeft, Ascii, Lower;
      AsciiRest(s);
      BreaksAreGaps(s[0]);
      SmallIsSmall(s[0]);
      LowerStripsAlike(s[1..]);
      CapitalsPassAlike(s[1..]);
      CapitalsPassAlike(StripLeft(s[1..], IsBreak));
    }
  }

  lemma SmallIsSmall(c: char)
    ensures Small(LowerChar(c)) == Small(c) == LowerChar(c) && LowerChar(LowerChar(c)) == LowerChar(c)
  {
  }

  /** The normal form of an ASCII text: the one pass over it, without underscores at the ends. */
  lemma NormalizeIsOnePass(fold: string -> string, raw: string)
    requires LowersAscii(fold) && Ascii(raw)
    ensures Normalize(fold, raw) == Strip(OnePass(Strip(raw, IsSpace)), IsUnderscore)
  {
    hide Strip, Keep, Collapse, Underscore, OnePass, LowerChar;
    var s := Strip(raw, IsSpace);
    StripKeepsAscii(raw);
    assert fold(s) == Lower(s);
    forall c | c in Lower(s)
      ensures c <= '\U{7F}' && LowerChar(c) == c
    {
      var i :| 0 <= i < |s| && Lower(s)[i] == c;
      assert s[i] in s;
      SmallIsSmall(s[i]);
      LowerStaysAscii(s[i]);
    }
    StagesAreOnePass(Lower(s));
    CapitalsPassAlike(s);
  }

  lemma LowerStaysAscii(c: char)
    requires c <= '\U{7F}'
    ensures LowerChar(c) <= '\U{7F}'
  {
  }
}
