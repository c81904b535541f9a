/** Requested names: how the mailbox canonicalises one, and which ones it grants. */
module Naming {
  import opened Outcomes
  import opened Text

  const EVERYONE := "everyone"
  const ADMIN := "admin"
  const HOST := "host"

  const RESERVED_NAMES: set<string> :=
    {"local", "all", "any", "public", "me", EVERYONE, ADMIN, HOST}

  const MAX_LENGTH := 64

  predicate IsAlnum(c: char) { 'a' <= c <= 'z' || '0' <= c <= '9' }

  predicate IsUnderscore(c: char) { c == '_' }

  predicate IsSeparator(c: char) { IsSpace(c) || c == '-' || c == '.' || c == '\'' }

  /** `re.sub(r"[\s\-.']+", "_", s)`: each run of separators becomes one underscore. */
  function Underscore(s: string): string
    decreases |s|
  {
    if s == "" then ""
    else if IsSeparator(s[0]) then "_" + Underscore(StripLeft(s[1..], IsSeparator))
    else [s[0]] + Underscore(s[1..])
  }

  /** `re.sub(r"_{2,}", "_", s)`. */
  function Collapse(s: string): string
  {
    if s == "" then ""
    else if |s| >= 2 && s[0] == '_' && s[1] == '_' then Collapse(s[1..])
    else [s[0]] + Collapse(s[1..])
  }

  /** `re.sub(r"[^a-z0-9_]", "", s)`. */
  function Keep(s: string): string
  {
    if s == "" then "" else (if IsAlnum(s[0]) || s[0] == '_' then [s[0]] else "") + Keep(s[1..])
  }

  /** The text from which characters are dropped: everything before the last two stages. */
  function Collapsed(fold: string -> string, raw: string): string
  {
    Collapse(Underscore(fold(Strip(raw, IsSpace))))
  }

  /**
   `normalize`. `fold` stands for the Unicode steps: compatibility decomposition, dropping
   combining marks, lower-casing.
   */
  function Normalize(fold: string -> string, raw: string): string
  {
    Strip(Keep(Collapsed(fold, raw)), IsUnderscore)
  }

  /** The regular expression `[a-z0-9](?:[a-z0-9_]{0,62}[a-z0-9])?`, anchored at both ends. */
  predicate MatchesValid(s: string)
  {
    1 <= |s| <= MAX_LENGTH && IsAlnum(s[0]) && IsAlnum(s[|s| - 1])
    && forall c | c in s :: IsAlnum(c) || c == '_'
  }

  function Validate(fold: string -> string, raw: string): Result<string>
  {
    var candidate := Normalize(fold, raw);
    if candidate == "" then Err(NameUnavailable)
    else if candidate in RESERVED_NAMES then Err(NameUnavailable)
    else if !MatchesValid(candidate) then Err(NameUnavailable)
    else Ok(candidate)
  }

  // ------------------------------------------------------------ what comes out

  /** ASCII letters, digits and inner underscores only. */
  predicate Canonical(s: string)
  {
    (forall c | c in s :: IsAlnum(c) || c == '_') && Trimmed(s, IsUnderscore)
  }

  predicate HasDouble(s: string)
  {
    exists i | 0 <= i < |s| - 1 :: s[i] == '_' && s[i + 1] == '_'
  }

  predicate Ascii(s: string)
  {
    forall c | c in s :: c <= '\U{7F}'
  }

  /** On ASCII text the Unicode steps only lower-case. */
  ghost predicate LowersAscii(fold: string -> string)
  {
    forall s: string | Ascii(s) :: fold(s) == Lower(s)
  }

  lemma {:induction false} KeepIsClean(s: string)
    ensures forall c | c in Keep(s) :: IsAlnum(c) || c == '_'
  {
    if s != "" { KeepIsClean(s[1..]); }
  }

  lemma {:induction false} KeepKeepsClean(s: string)
    requires forall c | c in s :: IsAlnum(c) || c == '_'
    ensures Keep(s) == s
  {
    if s != "" { KeepKeepsClean(s[1..]); }
  }

  lemma {:induction false} UnderscoreKeepsClean(s: string)
    requires forall c | c in s :: !IsSeparator(c)
    ensures Underscore(s) == s
  {
    if s != "" { UnderscoreKeepsClean(s[1..]); }
  }

  lemma {:induction false} CollapseFixes(s: string)
    ensures Collapse(s) == s <==> !HasDouble(s)
    ensures |Collapse(s)| <= |s|
  {
    if s != "" {
      CollapseFixes(s[1..]);
      if HasDouble(s[1..]) {
        var i :| 0 <= i < |s[1..]| - 1 && s[1..][i] == '_' && s[1..][i + 1] == '_';
        assert s[i + 1] == '_' && s[i + 2] == '_';
      }
      if HasDouble(s) {
        var i :| 0 <= i < |s| - 1 && s[i] == '_' && s[i + 1] == '_';
        assert i > 0 ==> s[1..][i - 1] == '_' && s[1..][i] == '_';
      }
    }
  }

  lemma {:induction false} CollapseOutput(s: string)
    ensures !HasDouble(Collapse(s))
    ensures s != "" ==> Collapse(s) != "" && Collapse(s)[0] == s[0]
    ensures s != "" ==> Collapse(s)[|Collapse(s)| - 1] == s[|s| - 1]
    ensures forall c | c in Collapse(s) :: c in s
  {
    if s != "" { CollapseOutput(s[1..]); }
  }

  lemma NormalizeIsCanonical(fold: string -> string, raw: string)
    ensures Canonical(Normalize(fold, raw))
  {
    var kept := Keep(Collapsed(fold, raw));
    KeepIsClean(kept);
    KeepIsClean(Collapsed(fold, raw));
    var left, right := StripCuts(kept, IsUnderscore);
    assert forall c | c in Normalize(fold, raw) :: c in kept;
  }

  /** Lower-case ASCII text without separators. */
  predicate Plain(s: string)
  {
    forall c | c in s :: c <= '\U{7F}' && LowerChar(c) == c && !IsSeparator(c)
  }

  lemma PlainIsFixed(s: string)
    requires Plain(s)
    ensures Trimmed(s, IsSpace) && Lower(s) == s && Ascii(s) && Underscore(s) == s
  {
    assert s != "" ==> s[0] in s && s[|s| - 1] in s;
    forall i | 0 <= i < |s| ensures LowerChar(s[i]) == s[i] { assert s[i] in s; }
    UnderscoreKeepsClean(s);
  }

  lemma CollapsedPlain(fold: string -> string, s: string)
    requires LowersAscii(fold) && Plain(s)
    ensures Collapsed(fold, s) == Collapse(s)
  {
    PlainIsFixed(s);
    StripKeepsTrimmed(s, IsSpace);
  }

  lemma CollapseIsCanonical(s: string)
    requires Canonical(s)
    ensures Canonical(Collapse(s))
  {
    CollapseOutput(s);
  }

  /** On text that is already canonical, only doubled underscores are left to collapse. */
  lemma NormalizeCanonical(fold: string -> string, s: string)
    requires LowersAscii(fold) && Canonical(s)
    ensures Normalize(fold, s) == Collapse(s) && Canonical(Collapse(s))
  {
    hide Collapsed, Strip, Keep, LowersAscii, Collapse;
    assert Plain(s);
    CollapsedPlain(fold, s);
    CollapseIsCanonical(s);
    KeepKeepsClean(Collapse(s));
    StripKeepsTrimmed(Collapse(s), IsUnderscore);
  }

  /** A second application always settles: a third changes nothing. */
  lemma NormalizeSettles(fold: string -> string, raw: string)
    requires LowersAscii(fold)
    ensures var twice := Normalize(fold, Normalize(fold, raw));
      Normalize(fold, twice) == twice && !HasDouble(twice)
  {
    var once := Normalize(fold, raw);
    NormalizeIsCanonical(fold, raw);
    NormalizeCanonical(fold, once);
    NormalizeCanonical(fold, Collapse(once));
    CollapseOutput(once);
    CollapseFixes(Collapse(once));
  }

  // ------------------------------------------------------------ which spellings meet

  lemma LowerIsSpace(c: char)
    ensures IsSpace(LowerChar(c)) <==> IsSpace(c)
  {
  }

  lemma {:induction false} LowerThenStripLeft(s: string)
    ensures StripLeft(Lower(s), IsSpace) == Lower(StripLeft(s, IsSpace))
  {
    hide IsSpace, LowerChar;
    if s != "" {
      LowerIsSpace(s[0]);
      if IsSpace(s[0]) {
        assert Lower(s)[1..] == Lower(s[1..]);
        LowerThenStripLeft(s[1..]);
      }
    }
  }

  lemma {:induction false} LowerThenStripRight(s: string)
    ensures StripRight(Lower(s), IsSpace) == Lower(StripRight(s, IsSpace))
  {
    hide IsSpace, LowerChar;
    if s != "" {
      LowerIsSpace(s[|s| - 1]);
      if IsSpace(s[|s| - 1]) {
        assert Lower(s)[..|s| - 1] == Lower(s[..|s| - 1]);
        LowerThenStripRight(s[..|s| - 1]);
      }
    }
  }

  lemma StripKeepsAscii(s: string)
    requires Ascii(s)
    ensures Ascii(Strip(s, IsSpace))
  {
    var left, right := StripSplits(s, IsSpace);
    assert forall c | c in Strip(s, IsSpace) :: c in s;
  }

  /** Capitals make no second name. */
  lemma CaseIsIgnored(fold: string -> string, a: string, b: string)
    requires LowersAscii(fold) && Ascii(a) && Ascii(b) && Lower(a) == Lower(b)
    ensures Normalize(fold, a) == Normalize(fold, b)
  {
    hide Underscore, Collapse, Keep, Lower, Ascii, StripLeft, StripRight;
    forall s | s == a || s == b
      ensures fold(Strip(s, IsSpace)) == Strip(Lower(s), IsSpace)
    {
      StripKeepsAscii(s);
      LowerThenStripLeft(s);
      LowerThenStripRight(StripLeft(s, IsSpace));
    }
  }

  predicate IsWord(s: string)
  {
    s != "" && forall c | c in s :: IsAlnum(c)
  }

  lemma UnderscoreOfGap(gap: string, b: string)
    requires IsWord(b) && gap != "" && forall c | c in gap :: IsSeparator(c)
    ensures Underscore(gap + b) == "_" + b
  {
    hide IsSeparator, StripLeft;
    WordIsUnseparated(b);
    assert b[0] in b && gap[0] in gap;
    assert (gap + b)[1..] == gap[1..] + b;
    StripLeftOf(gap[1..], b, IsSeparator);
    UnderscoreKeepsClean(b);
  }

  lemma WordIsUnseparated(s: string)
    requires IsWord(s)
    ensures forall c | c in s :: !IsSeparator(c)
  {
  }

  lemma {:induction false} UnderscoreJoins(a: string, gap: string, b: string)
    requires IsWord(b) && gap != "" && forall c | c in gap :: IsSeparator(c)
    requires forall c | c in a :: IsAlnum(c)
    ensures Underscore(a + (gap + b)) == a + ("_" + b)
  {
    hide IsSeparator;
    if a == "" {
      UnderscoreOfGap(gap, b);
      assert a + (gap + b) == gap + b && a + ("_" + b) == "_" + b;
    } else {
      AlnumIsKept(a[0]);
      assert a[0] in a && (a + (gap + b))[1..] == a[1..] + (gap + b);
      UnderscoreJoins(a[1..], gap, b);
      assert a + ("_" + b) == [a[0]] + (a[1..] + ("_" + b));
    }
  }

  lemma AlnumIsKept(c: char)
    requires IsAlnum(c)
    ensures !IsSeparator(c)
  {
  }

  lemma JoinedIsCanonical(a: string, b: string)
    requires IsWord(a) && IsWord(b)
    ensures Canonical(a + "_" + b) && !HasDouble(a + "_" + b)
  {
    var s := a + "_" + b;
    assert a[0] in a && b[|b| - 1] in b && s[0] == a[0] && s[|s| - 1] == b[|b| - 1];
    assert forall i | 0 <= i < |a| :: s[i] == a[i] && s[i] in a;
    assert forall i | |a| < i < |s| :: s[i] == b[i - |a| - 1] && s[i] in b;
  }

  /** Any run of spaces, hyphens, dots and apostrophes between two words is one underscore. */
  lemma SeparatorsAreOneUnderscore(fold: string -> string, a: string, gap: string, b: string)
    requires LowersAscii(fold) && IsWord(a) && IsWord(b) && gap != ""
    requires forall c | c in gap :: IsSeparator(c) && c <= '\U{7F}'
    ensures Normalize(fold, a + gap + b) == a + "_" + b
  {
    var raw := a + gap + b;
    JoinedIsTrimmed(a, gap, b);
    StripKeepsTrimmed(raw, IsSpace);
    Assoc(a, gap, b);
    Assoc(a, "_", b);
    UnderscoreJoins(a, gap, b);
    JoinedIsCanonical(a, b);
    CollapseFixes(a + "_" + b);
    KeepKeepsClean(a + "_" + b);
    StripKeepsTrimmed(a + "_" + b, IsUnderscore);
  }

  lemma JoinedIsTrimmed(a: string, gap: string, b: string)
    requires IsWord(a) && IsWord(b) && forall c | c in gap :: IsSeparator(c) && c <= '\U{7F}'
    ensures var s := a + gap + b; Trimmed(s, IsSpace) && Ascii(s) && Lower(s) == s
  {
    var s := a + gap + b;
    assert a[0] in a && b[|b| - 1] in b && s[0] == a[0] && s[|s| - 1] == b[|b| - 1];
    forall i | 0 <= i < |s|
      ensures LowerChar(s[i]) == s[i]
    {
      assert s[i] in s;
      assert s[i] in a || s[i] in gap || s[i] in b;
    }
  }

  // ------------------------------------------------------------ when once is enough

  predicate HasAlnum(s: string)
  {
    exists c | c in s :: IsAlnum(c)
  }

  /** The parts of a text in which dropping `d` brings two inner underscores together. */
  ghost predicate FusesAt(t: string, u: string, d: string, v: string)
  {
    t == u + "_" + d + "_" + v && Keep(d) == "" && HasAlnum(u) && HasAlnum(v)
  }

  ghost predicate Fuses(t: string)
  {
    exists u, d, v :: FusesAt(t, u, d, v)
  }

  lemma {:induction false} KeepJoins(a: string, b: string)
    ensures Keep(a + b) == Keep(a) + Keep(b)
  {
    if a == "" {
      assert a + b == b;
    } else {
      hide Keep;
      var c, t := a[0], a[1..];
      KeepJoins(t, b);
      KeepStep(c, t);
      KeepStep(c, t + b);
      Assoc([c], t, b);
      assert [c] + t == a;
      Assoc(if IsAlnum(c) || c == '_' then [c] else "", Keep(t), Keep(b));
    }
  }

  lemma {:induction false} KeepHolds(s: string, c: char)
    requires IsAlnum(c)
    ensures c in Keep(s) <==> c in s
  {
    if s != "" {
      KeepHolds(s[1..], c);
      assert s == [s[0]] + s[1..];
    }
  }

  /** A cut of the kept text comes from a cut of the text. */
  lemma {:induction false} KeepCut(t: string, x: string, c: char, y: string) returns (u: string, v: string)
    requires Keep(t) == x + [c] + y
    ensures t == u + [c] + v && Keep(u) == x && Keep(v) == y
  {
    if !(IsAlnum(t[0]) || t[0] == '_') {
      u, v := KeepCut(t[1..], x, c, y);
      u := [t[0]] + u;
      KeepJoins([t[0]], u[1..]);
    } else if x == "" {
      u, v := "", t[1..];
      assert Keep(t)[1..] == y;
    } else {
      assert (x + [c] + y)[1..] == x[1..] + [c] + y;
      u, v := KeepCut(t[1..], x[1..], c, y);
      u := [t[0]] + u;
      KeepJoins([t[0]], u[1..]);
      assert x == [x[0]] + x[1..];
    }
    assert t == u + [c] + v;
  }

  lemma AlnumStays(a: string, b: string)
    requires HasAlnum(a)
    ensures HasAlnum(a + b) && HasAlnum(b + a)
  {
    var c :| c in a && IsAlnum(c);
    assert c in a + b && c in b + a;
  }

  lemma InnerDouble(mid: string) returns (x: string, y: string)
    requires Canonical(mid) && HasDouble(mid)
    ensures mid == x + "_" + ("_" + y) && HasAlnum(x) && HasAlnum(y)
  {
    var i :| 0 <= i < |mid| - 1 && mid[i] == '_' && mid[i + 1] == '_';
    x, y := mid[..i], mid[i + 2..];
    assert mid[0] in mid && mid[|mid| - 1] in mid;
    assert x[0] == mid[0] && y[|y| - 1] == mid[|mid| - 1];
    assert x[0] in x && y[|y| - 1] in y;
  }

  lemma KeepCarriesAlnum(s: string)
    ensures HasAlnum(Keep(s)) <==> HasAlnum(s)
  {
    if HasAlnum(s) {
      var c :| c in s && IsAlnum(c);
      KeepHolds(s, c);
    }
    if HasAlnum(Keep(s)) {
      var c :| c in Keep(s) && IsAlnum(c);
      KeepHolds(s, c);
    }
  }

  lemma KeptDoubleFuses(t: string, x: string, y: string)
    requires Keep(t) == x + "_" + ("_" + y) && HasAlnum(x) && HasAlnum(y)
    ensures Fuses(t)
  {
    var u, w := KeepCut(t, x, '_', "_" + y);
    assert Keep(w) == "" + "_" + y;
    var d, v := KeepCut(w, "", '_', y);
    KeepCarriesAlnum(u);
    KeepCarriesAlnum(v);
    assert t == u + "_" + d + "_" + v;
    assert FusesAt(t, u, d, v);
  }

  lemma DoubleComesFromFusing(t: string)
    requires Canonical(Strip(Keep(t), IsUnderscore)) && HasDouble(Strip(Keep(t), IsUnderscore))
    ensures Fuses(t)
  {
    var mid := Strip(Keep(t), IsUnderscore);
    var left, right := StripSplits(Keep(t), IsUnderscore);
    var x, y := InnerDouble(mid);
    AlnumStays(x, left);
    AlnumStays(y, right);
    Assoc(x, "_", "_" + y);
    Assoc(left, x, "_" + ("_" + y));
    Assoc(left + x, "_" + ("_" + y), right);
    Assoc("_", "_" + y, right);
    Assoc("_", y, right);
    Assoc(left + x, "_", "_" + (y + right));
    KeptDoubleFuses(t, left + x, y + right);
  }

  lemma AlnumSurvives(s: string, margin: string, rest: string)
    requires HasAlnum(s) && (forall c | c in margin :: IsUnderscore(c))
    requires s == margin + rest || s == rest + margin
    ensures rest != ""
  {
    var c :| c in s && IsAlnum(c);
    assert c in margin || c in rest;
  }

  lemma DoubleWithinMargins(a: string, x: string, y: string, b: string)
    requires x != "" && y != "" && x[0] != '_' && y[|y| - 1] != '_'
    requires (forall c | c in a :: IsUnderscore(c)) && (forall c | c in b :: IsUnderscore(c))
    ensures HasDouble(Strip((a + x) + "__" + (y + b), IsUnderscore))
  {
    var mid := x + "__" + y;
    Assoc(a, x, "__");
    Assoc(a, x + "__", y);
    Assoc((a + x) + "__", y, b);
    assert mid[0] == x[0] && mid[|mid| - 1] == y[|y| - 1];
    StripRemovesMargins(a, mid, b, IsUnderscore);
    assert mid[|x|] == '_' && mid[|x| + 1] == '_';
  }

  lemma DoubleBetweenSurvivesStrip(x: string, y: string)
    requires HasAlnum(x) && HasAlnum(y)
    ensures HasDouble(Strip(x + "__" + y, IsUnderscore))
  {
    var x', y' := StripLeft(x, IsUnderscore), StripRight(y, IsUnderscore);
    var a := StripLeftCuts(x, IsUnderscore);
    var b := StripRightCuts(y, IsUnderscore);
    AlnumSurvives(x, a, x');
    AlnumSurvives(y, b, y');
    DoubleWithinMargins(a, x', y', b);
  }

  lemma FusingMakesDouble(t: string, u: string, d: string, v: string)
    requires FusesAt(t, u, d, v)
    ensures HasDouble(Strip(Keep(t), IsUnderscore))
  {
    KeepJoins(u + "_" + d + "_", v);
    KeepJoins(u + "_" + d, "_");
    KeepJoins(u + "_", d);
    KeepJoins(u, "_");
    assert Keep(t) == Keep(u) + "__" + Keep(v);
    KeepCarriesAlnum(u);
    KeepCarriesAlnum(v);
    DoubleBetweenSurvivesStrip(Keep(u), Keep(v));
  }

  /**
   One application settles exactly when dropping characters brings no two underscores
   together between letters or digits. In particular it does when nothing is dropped.
   */
  lemma NormalizeIsIdempotentUnlessFusing(fold: string -> string, raw: string)
    requires LowersAscii(fold)
    ensures Normalize(fold, Normalize(fold, raw)) == Normalize(fold, raw) <==> !Fuses(Collapsed(fold, raw))
  {
    var t := Collapsed(fold, raw);
    var once := Normalize(fold, raw);
    NormalizeIsCanonical(fold, raw);
    NormalizeCanonical(fold, once);
    CollapseFixes(once);
    if HasDouble(once) { DoubleComesFromFusing(t); }
    if Fuses(t) {
      var u, d, v :| FusesAt(t, u, d, v);
      FusingMakesDouble(t, u, d, v);
    }
  }

  lemma DoubleInside(a: string, mid: string, b: string)
    requires HasDouble(mid)
    ensures HasDouble(a + mid + b)
  {
    var i :| 0 <= i < |mid| - 1 && mid[i] == '_' && mid[i + 1] == '_';
    var t := a + mid + b;
    assert t[|a| + i] == '_' && t[|a| + i + 1] == '_';
  }

  lemma NothingDroppedNothingFused(fold: string -> string, raw: string)
    requires Keep(Collapsed(fold, raw)) == Collapsed(fold, raw)
    ensures !Fuses(Collapsed(fold, raw))
  {
    var t := Collapsed(fold, raw);
    CollapseOutput(Underscore(fold(Strip(raw, IsSpace))));
    if Fuses(t) {
      var u, d, v :| FusesAt(t, u, d, v);
      FusingMakesDouble(t, u, d, v);
      var left, right := StripSplits(t, IsUnderscore);
      DoubleInside(left, Strip(t, IsUnderscore), right);
    }
  }

  lemma KeepStep(c: char, t: string)
    ensures Keep([c] + t) == (if IsAlnum(c) || c == '_' then [c] else "") + Keep(t)
  {
    assert ([c] + t)[1..] == t;
  }

  /** Plain idempotence fails: `a_!_b` gives `a__b`, which gives `a_b`. */
  lemma NormalizeIsNotIdempotent(fold: string -> string, a: char, x: char, b: char)
    requires LowersAscii(fold) && IsAlnum(a) && IsAlnum(b)
    requires x <= '\U{7F}' && LowerChar(x) == x && !IsSeparator(x) && !IsAlnum(x) && x != '_'
    ensures Normalize(fold, [a, '_', x, '_', b]) == [a, '_', '_', b]
    ensures Normalize(fold, [a, '_', '_', b]) == [a, '_', b]
  {
    var s, once := [a, '_', x, '_', b], [a, '_', '_', b];
    ExampleIsPlain(a, x, b);
    ExampleIsCanonical(a, b);
    CollapsedPlain(fold, s);
    KeepOfExample(a, x, b);
    StripKeepsTrimmed(once, IsUnderscore);
    NormalizeCanonical(fold, once);
    CollapseOfExample(a, b);
  }

  lemma ExampleIsPlain(a: char, x: char, b: char)
    requires IsAlnum(a) && IsAlnum(b)
    requires x <= '\U{7F}' && LowerChar(x) == x && !IsSeparator(x) && x != '_'
    ensures var s := [a, '_', x, '_', b]; Plain(s) && Collapse(s) == s
  {
    hide Collapse, IsSeparator;
    CollapseFixes([a, '_', x, '_', b]);
    assert !IsSeparator(a) && !IsSeparator('_') && !IsSeparator(b) by { AlnumIsNoSeparator(a); AlnumIsNoSeparator(b); }
  }

  lemma AlnumIsNoSeparator(c: char)
    requires IsAlnum(c) || c == '_'
    ensures !IsSeparator(c) && !IsSeparator('_') && c <= '\U{7F}' && LowerChar(c) == c
  {
  }

  lemma ExampleIsCanonical(a: char, b: char)
    requires IsAlnum(a) && IsAlnum(b)
    ensures Canonical([a, '_', '_', b])
  {
  }

  lemma KeepOfExample(a: char, x: char, b: char)
    requires IsAlnum(a) && IsAlnum(b) && !IsAlnum(x) && x != '_'
    ensures Keep([a, '_', x, '_', b]) == [a, '_', '_', b]
  {
    KeepStep(b, []);
    KeepStep('_', [b]);
    KeepStep(x, ['_', b]);
    KeepStep('_', [x, '_', b]);
    KeepStep(a, ['_', x, '_', b]);
    assert [b] + [] == [b] && ['_'] + [b] == ['_', b] && [x] + ['_', b] == [x, '_', b];
    assert ['_'] + [x, '_', b] == ['_', x, '_', b] && [a] + ['_', x, '_', b] == [a, '_', x, '_', b];
  }

  lemma CollapseOfExample(a: char, b: char)
    requires IsAlnum(a) && IsAlnum(b)
    ensures Collapse([a, '_', '_', b]) == [a, '_', b]
  {
    var s := [a, '_', '_', b];
    CollapseFixes(['_', b]);
    assert s[1..] == ['_', '_', b] && s[1..][1..] == ['_', b];
  }

  // ------------------------------------------------------------ what is granted

  lemma CanonicalIsValid(c: string)
    requires Canonical(c)
    ensures MatchesValid(c) <==> c != "" && |c| <= MAX_LENGTH
  {
    assert c != "" ==> c[0] in c && c[|c| - 1] in c;
  }

  /** Granted exactly the unreserved canonical forms of at most 64 characters. */
  lemma ValidateGrants(fold: string -> string, raw: string, name: string)
    ensures Validate(fold, raw) == Ok(name) <==>
      && name == Normalize(fold, raw) && name != "" && name !in RESERVED_NAMES && |name| <= MAX_LENGTH
    ensures Validate(fold, raw).Ok? || Validate(fold, raw) == Err(NameUnavailable)
  {
    NormalizeIsCanonical(fold, raw);
    CanonicalIsValid(Normalize(fold, raw));
  }
}
