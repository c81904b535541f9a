/** When one application of `normalize` is enough, as a condition on the requested text itself. */
module Fusing {
  import opened Text
  import opened Naming

  predicate IsWordChar(c: char) { IsAlnum(LowerChar(c)) }

  predicate IsGap(c: char) { IsSeparator(c) || c == '_' }

  predicate HasWord(s: string)
  {
    exists c | c in s :: IsWordChar(c)
  }

  /** Some character is neither kept nor turned into an underscore. */
  predicate DropsOne(s: string)
  {
    exists c | c in s :: !IsWordChar(c) && !IsGap(c)
  }

  ghost predicate FusesBetween(s: string, u: string, p: char, d: string, q: char, v: string)
  {
    && s == u + [p] + d + [q] + v
    && HasWord(u) && IsGap(p) && !HasWord(d) && DropsOne(d) && IsGap(q) && HasWord(v)
  }

  /**
   A dropped character stands between two separators or underscores, with a letter or digit
   somewhere on each side and none between the two.
   */
  ghost predicate DropsBetweenGaps(s: string)
  {
    exists u, p, d, q, v :: FusesBetween(s, u, p, d, q, v)
  }

  // ------------------------------------------------------------ scanning for it

  /** Before any word; in one; after a gap; after a gap and a drop; after another gap; and a word again. */
  datatype State = Lead | Word | Gap | Dropped | Pending | Found

  function Next(q: State, c: char): State
  {
    if IsWordChar(c) then (if q.Pending? || q.Found? then Found else Word)
    else if IsGap(c) then
      match q
      case Word => Gap
      case Dropped => Pending
      case _ => q
    else if q.Gap? then Dropped else q
  }

  function Scan(q: State, s: string): State
    decreases |s|
  {
    if s == "" then q else Scan(Next(q, s[0]), s[1..])
  }

  lemma {:induction false} ScanJoins(q: State, a: string, b: string)
    ensures Scan(q, a + b) == Scan(Scan(q, a), b)
    decreases |a|
  {
    if a == "" {
      assert a + b == b;
    } else {
      assert (a + b)[1..] == a[1..] + b;
      ScanJoins(Next(q, a[0]), a[1..], b);
    }
  }

  lemma ScanOne(q: State, c: char)
    ensures Scan(q, [c]) == Next(q, c)
  {
    assert Scan(Next(q, c), [c][1..]) == Next(q, c);
  }

  /** What each state says of the text scanned. */
  ghost predicate Means(q: State, s: string)
  {
    match q
    case Lead => true
    case Word => HasWord(s)
    case Gap => exists u, p, d :: s == u + [p] + d && HasWord(u) && IsGap(p) && !HasWord(d)
    case Dropped => exists u, p, d :: s == u + [p] + d && HasWord(u) && IsGap(p) && !HasWord(d) && DropsOne(d)
    case Pending => exists u, p, d, g, e ::
      s == u + [p] + d + [g] + e && HasWord(u) && IsGap(p) && !HasWord(d) && DropsOne(d) && IsGap(g)
    case Found => DropsBetweenGaps(s)
  }

  lemma WordGrows(s: string, c: char)
    ensures HasWord(s + [c]) <==> HasWord(s) || IsWordChar(c)
    ensures DropsOne(s + [c]) <==> DropsOne(s) || (!IsWordChar(c) && !IsGap(c))
  {
    assert c in s + [c] && forall x :: x in s + [c] <==> x in s || x == c;
  }

  lemma NextMeans(q: State, s: string, c: char)
    requires Means(q, s)
    ensures Means(Next(q, c), s + [c])
  {
    hide HasWord, DropsOne, IsWordChar, IsGap;
    WordGrows(s, c);
    match q
    case Lead =>
    case Word => if Next(q, c).Gap? { GapBegins(s, c); }
    case Gap =>
      var u, p, d :| s == u + [p] + d && HasWord(u) && IsGap(p) && !HasWord(d);
      WordGrows(d, c);
      assert s + [c] == u + [p] + (d + [c]);
    case Dropped =>
      var u, p, d :| s == u + [p] + d && HasWord(u) && IsGap(p) && !HasWord(d) && DropsOne(d);
      WordGrows(d, c);
      assert s + [c] == u + [p] + (d + [c]) && s + [c] == u + [p] + d + [c] + "";
    case Pending =>
      var u, p, d, g, e :|
        s == u + [p] + d + [g] + e && HasWord(u) && IsGap(p) && !HasWord(d) && DropsOne(d) && IsGap(g);
      WordGrows(e, c);
      assert s + [c] == u + [p] + d + [g] + (e + [c]);
      assert HasWord(e + [c]) ==> FusesBetween(s + [c], u, p, d, g, e + [c]);
    case Found =>
      var u, p, d, g, v :| FusesBetween(s, u, p, d, g, v);
      WordGrows(v, c);
      assert FusesBetween(s + [c], u, p, d, g, v + [c]);
  }

  lemma GapBegins(s: string, c: char)
    requires HasWord(s) && IsGap(c)
    ensures Means(Gap, s + [c])
  {
    assert s + [c] == s + [c] + "" && !HasWord("");
  }

  lemma {:induction false} ScanMeans(s: string)
    ensures Means(Scan(Lead, s), s)
    decreases |s|
  {
    if s != "" {
      hide Means, Next;
      var rest, c := s[..|s| - 1], s[|s| - 1];
      assert s == rest + [c];
      ScanMeans(rest);
      ScanJoins(Lead, rest, [c]);
      ScanOne(Scan(Lead, rest), c);
      NextMeans(Scan(Lead, rest), rest, c);
    }
  }

  /** Past the first word character the scan never forgets that there was one. */
  lemma {:induction false} ScanPastWord(q: State, s: string)
    requires !q.Lead? || HasWord(s)
    ensures !Scan(q, s).Lead?
    decreases |s|
  {
    if s != "" {
      assert s == [s[0]] + s[1..];
      assert HasWord(s) ==> IsWordChar(s[0]) || HasWord(s[1..]);
      ScanPastWord(Next(q, s[0]), s[1..]);
    }
  }

  predicate PastGap(q: State) { q.Gap? || PastDrop(q) }

  predicate PastDrop(q: State) { q.Dropped? || PastPending(q) }

  predicate PastPending(q: State) { q.Pending? || q.Found? }

  lemma {:induction false} ScanPastDrop(q: State, d: string)
    requires PastGap(q) && !HasWord(d) && (PastDrop(q) || DropsOne(d))
    ensures PastDrop(Scan(q, d))
    decreases |d|
  {
    if d != "" {
      hide IsWordChar, IsGap;
      assert d == [d[0]] + d[1..] && d[0] in d;
      assert DropsOne(d) ==> (!IsWordChar(d[0]) && !IsGap(d[0])) || DropsOne(d[1..]);
      ScanPastDrop(Next(q, d[0]), d[1..]);
    }
  }

  lemma {:induction false} ScanPastPending(q: State, v: string)
    requires PastPending(q) && (q.Found? || HasWord(v))
    ensures Scan(q, v) == Found
    decreases |v|
  {
    if v != "" {
      hide IsWordChar, IsGap;
      assert v == [v[0]] + v[1..];
      assert HasWord(v) ==> IsWordChar(v[0]) || HasWord(v[1..]);
      ScanPastPending(Next(q, v[0]), v[1..]);
    }
  }

  lemma GapsAdvance(q: State, c: char)
    requires IsGap(c)
    ensures !q.Lead? ==> PastGap(Next(q, c))
    ensures PastDrop(q) ==> PastPending(Next(q, c))
  {
    assert !IsWordChar(c);
  }

  /** The scan finds it exactly if it is there. */
  lemma ScanDecides(s: string)
    ensures Scan(Lead, s) == Found <==> DropsBetweenGaps(s)
  {
    ScanMeans(s);
    if DropsBetweenGaps(s) {
      var u, p, d, q, v :| FusesBetween(s, u, p, d, q, v);
      ScanJoins(Lead, u + [p] + d + [q], v);
      ScanJoins(Lead, u + [p] + d, [q]);
      ScanJoins(Lead, u + [p], d);
      ScanJoins(Lead, u, [p]);
      ScanSegments(u, p, d, q, v);
    }
  }

  lemma ScanSegments(u: string, p: char, d: string, q: char, v: string)
    requires HasWord(u) && IsGap(p) && !HasWord(d) && DropsOne(d) && IsGap(q) && HasWord(v)
    ensures Scan(Scan(Scan(Scan(Scan(Lead, u), [p]), d), [q]), v) == Found
  {
    hide Scan, Next, HasWord, DropsOne, IsGap, PastGap, PastDrop;
    var afterU := Scan(Lead, u);
    ScanPastWord(Lead, u);
    ScanOne(afterU, p);
    GapsAdvance(afterU, p);
    var afterD := Scan(Scan(afterU, [p]), d);
    ScanPastDrop(Scan(afterU, [p]), d);
    ScanOne(afterD, q);
    GapsAdvance(afterD, q);
    ScanPastPending(Scan(afterD, [q]), v);
  }

  // ------------------------------------------------------------ what the first stages leave of it

  lemma SameClass(c: char)
    ensures IsWordChar(LowerChar(c)) == IsWordChar(c) && IsGap(LowerChar(c)) == IsGap(c)
  {
  }

  lemma {:induction false} ScanLower(q: State, s: string)
    ensures Scan(q, Lower(s)) == Scan(q, s)
    decreases |s|
  {
    if s != "" {
      SameClass(s[0]);
      assert Lower(s)[1..] == Lower(s[1..]);
      ScanLower(Next(q, s[0]), s[1..]);
    }
  }

  lemma GapTwice(q: State, c: char, d: char)
    requires IsGap(c) && IsGap(d)
    ensures Next(Next(q, c), d) == Next(q, c) && Next(q, c) == Next(q, d) && (Next(q, c) == Found <==> q == Found)
  {
    assert !IsWordChar(c) && !IsWordChar(d);
  }

  /** A run of gaps counts as one, and as none before the first word or where the text ends. */
  lemma {:induction false} ScanGaps(q: State, g: string)
    requires forall c | c in g :: IsGap(c)
    ensures Scan(q, g) == (if g == "" then q else Next(q, '_'))
    ensures Scan(Lead, g) == Lead && (Scan(q, g) == Found <==> q == Found)
    decreases |g|
  {
    if g != "" {
      assert g[0] in g && forall c | c in g[1..] :: c in g;
      GapTwice(q, g[0], '_');
      GapTwice(Lead, g[0], '_');
      GapTwice(q, '_', '_');
      ScanGaps(Next(q, g[0]), g[1..]);
    }
  }

  lemma ScanStrip(s: string)
    ensures Scan(Lead, Strip(s, IsSpace)) == Found <==> Scan(Lead, s) == Found
  {
    hide Strip;
    var left, right := StripCuts(s, IsSpace);
    var mid := Strip(s, IsSpace);
    forall c | c in left || c in right ensures IsGap(c) { assert c in left + right; }
    ScanJoins(Lead, left + mid, right);
    ScanJoins(Lead, left, mid);
    ScanGaps(Lead, left);
    ScanGaps(Scan(Lead, mid), right);
  }

  lemma {:induction false} ScanUnderscore(q: State, s: string)
    ensures Scan(q, Underscore(s)) == Scan(q, s)
    decreases |s|
  {
    if s != "" {
      hide StripLeft, Next, IsSeparator;
      if IsSeparator(s[0]) {
        var rest := StripLeft(s[1..], IsSeparator);
        var run := StripLeftCuts(s[1..], IsSeparator);
        assert s == [s[0]] + s[1..] && s == ([s[0]] + run) + rest;
        forall c | c in [s[0]] + run ensures IsGap(c) {}
        ScanJoins(q, [s[0]] + run, rest);
        ScanGaps(q, [s[0]] + run);
        ScanJoins(q, "_", Underscore(rest));
        ScanOne(q, '_');
        ScanUnderscore(Next(q, '_'), rest);
      } else {
        assert ([s[0]] + Underscore(s[1..]))[1..] == Underscore(s[1..]);
        ScanUnderscore(Next(q, s[0]), s[1..]);
      }
    }
  }

  lemma {:induction false} ScanCollapse(q: State, s: string)
    ensures Scan(q, Collapse(s)) == Scan(q, s)
    decreases |s|
  {
    if s != "" {
      hide Next;
      if |s| >= 2 && s[0] == '_' && s[1] == '_' {
        GapTwice(q, '_', '_');
        assert s[1..][0] == '_';
        ScanCollapse(q, s[1..]);
      } else {
        assert ([s[0]] + Collapse(s[1..]))[1..] == Collapse(s[1..]);
        ScanCollapse(Next(q, s[0]), s[1..]);
      }
    }
  }

  /** It is in the requested text exactly if it is in what the first stages leave. */
  lemma StagesKeepIt(fold: string -> string, raw: string)
    requires LowersAscii(fold) && Ascii(raw)
    ensures DropsBetweenGaps(Collapsed(fold, raw)) <==> DropsBetweenGaps(raw)
  {
    hide DropsBetweenGaps, Scan, Strip, Underscore, Collapse, Lower, Ascii;
    var s := Strip(raw, IsSpace);
    StripKeepsAscii(raw);
    assert fold(s) == Lower(s);
    ScanDecides(raw);
    ScanStrip(raw);
    ScanLower(Lead, s);
    ScanUnderscore(Lead, Lower(s));
    ScanCollapse(Lead, Underscore(Lower(s)));
    ScanDecides(Collapsed(fold, raw));
  }

  // ------------------------------------------------------------ the last stages

  /** Small letters, no separator, no doubled underscore. */
  predicate Tidy(t: string)
  {
    (forall c | c in t :: LowerChar(c) == c && !IsSeparator(c)) && !HasDouble(t)
  }

  lemma Prefixed(c: char, t: string, rest: string, margin: string)
    requires !IsSeparator(c) && (c == '_' || c in margin)
    requires forall x | x in t :: !IsSeparator(x) && (x == '_' || x in rest)
    ensures forall x | x in [c] + t :: !IsSeparator(x) && (x == '_' || x in margin + rest)
  {
    hide IsSeparator;
  }

  /** The first character that comes out, and what is left to turn after it. */
  lemma UnderscoreHead(s: string) returns (c: char, margin: string, rest: string)
    requires s != ""
    ensures s == margin + rest && margin != "" && Underscore(s) == [c] + Underscore(rest)
    ensures !IsSeparator(c) && (c == '_' || c in margin)
  {
    hide StripLeft, IsSeparator;
    if IsSeparator(s[0]) {
      AlnumIsNoSeparator('_');
      var run := StripLeftCuts(s[1..], IsSeparator);
      c, margin, rest := '_', [s[0]] + run, StripLeft(s[1..], IsSeparator);
      assert s[1..] == run + rest && s == [s[0]] + s[1..];
      Assoc([s[0]], run, rest);
    } else {
      c, margin, rest := s[0], [s[0]], s[1..];
    }
  }

  lemma {:induction false} UnderscoreSeparates(s: string)
    ensures forall c | c in Underscore(s) :: !IsSeparator(c) && (c == '_' || c in s)
    decreases |s|
  {
    assert s == "" ==> Underscore(s) == "";
    hide Underscore, IsSeparator;
    if s != "" {
      var c, margin, rest := UnderscoreHead(s);
      UnderscoreSeparates(rest);
      Prefixed(c, Underscore(rest), rest, margin);
    }
  }

  lemma CollapsedIsTidy(fold: string -> string, raw: string)
    requires LowersAscii(fold) && Ascii(raw)
    ensures Tidy(Collapsed(fold, raw))
  {
    hide Strip, Underscore, Collapse, IsSeparator, HasDouble;
    var s := Strip(raw, IsSpace);
    StripKeepsAscii(raw);
    UnderscoreSeparates(Lower(s));
    CollapseOutput(Underscore(Lower(s)));
    forall c | c in Lower(s) ensures LowerChar(c) == c {}
    assert LowerChar('_') == '_';
  }

  lemma WordsAreAlnum(t: string, s: string)
    requires Tidy(t) && forall c | c in s :: c in t
    ensures HasWord(s) <==> HasAlnum(s)
  {
  }

  lemma {:induction false} KeepsNothing(d: string)
    requires forall c | c in d :: !IsAlnum(c) && c != '_'
    ensures Keep(d) == ""
  {
    if d != "" {
      assert d[0] in d && forall c | c in d[1..] :: c in d;
      KeepsNothing(d[1..]);
    }
  }

  lemma {:induction false} Narrow(t: string, u: string, p: char, d: string, q: char, v: string)
    requires Tidy(t) && FusesBetween(t, u, p, d, q, v)
    ensures Fuses(t)
    decreases |d|
  {
    hide IsSeparator, HasDouble, IsAlnum;
    assert p in t && q in t && (forall c | c in u || c in d || c in v :: c in t);
    assert p == '_' && q == '_';
    if '_' !in d {
      WordsAreAlnum(t, u);
      WordsAreAlnum(t, v);
      forall c | c in d ensures !IsAlnum(c) {}
      KeepsNothing(d);
      assert FusesAt(t, u, d, v);
    } else {
      var i :| 0 <= i < |d| && d[i] == '_';
      var x, y := d[..i], d[i + 1..];
      assert d == x + ['_'] + y;
      forall c | c in x || c in y ensures !IsWordChar(c) { assert c in d; }
      if DropsOne(x) {
        assert t == u + [p] + x + ['_'] + (y + [q] + v);
        assert HasWord(y + [q] + v) by { WordWithin(v, y + [q], ""); }
        Narrow(t, u, p, x, '_', y + [q] + v);
      } else {
        assert DropsOne(y);
        assert t == (u + [p] + x) + ['_'] + y + [q] + v;
        assert HasWord(u + [p] + x) by { WordWithin(u, "", [p] + x); assert "" + u + ([p] + x) == u + [p] + x; }
        Narrow(t, u + [p] + x, '_', y, q, v);
      }
    }
  }

  lemma WordWithin(s: string, a: string, b: string)
    requires HasWord(s)
    ensures HasWord(a + s + b) && HasWord(a + s)
  {
    var c :| c in s && IsWordChar(c);
    assert c in a + s && c in a + s + b;
  }

  lemma FusesIsDrop(t: string)
    requires Tidy(t)
    ensures Fuses(t) <==> DropsBetweenGaps(t)
  {
    if Fuses(t) {
      var u, d, v :| FusesAt(t, u, d, v);
      FuseDrops(t, u, d, v);
    }
    if DropsBetweenGaps(t) {
      var u, p, d, q, v :| FusesBetween(t, u, p, d, q, v);
      Narrow(t, u, p, d, q, v);
    }
  }

  lemma FuseDrops(t: string, u: string, d: string, v: string)
    requires Tidy(t) && FusesAt(t, u, d, v)
    ensures DropsBetweenGaps(t)
  {
    hide IsSeparator, IsAlnum;
    assert forall c | c in u || c in d || c in v :: c in t;
    WordsAreAlnum(t, u);
    WordsAreAlnum(t, v);
    if d == "" { AdjacentDoubles(u, v); }
    NothingKept(d);
    assert d[0] in d;
    assert FusesBetween(t, u, '_', d, '_', v);
  }

  lemma AdjacentDoubles(u: string, v: string)
    ensures HasDouble(u + "_" + "" + "_" + v)
  {
    var t := u + "_" + "" + "_" + v;
    assert t[|u|] == '_' && t[|u| + 1] == '_';
  }

  lemma {:induction false} NothingKept(d: string)
    requires Keep(d) == ""
    ensures forall c | c in d :: !IsAlnum(c) && c != '_'
  {
    if d != "" {
      NothingKept(d[1..]);
      assert d == [d[0]] + d[1..];
    }
  }

  /**
   One application of `normalize` settles an ASCII text exactly if it has no dropped character
   between two separators or underscores that have a letter or digit on each side and none between.
   */
  lemma NormalizeIsIdempotentExactlyIf(fold: string -> string, raw: string)
    requires LowersAscii(fold) && Ascii(raw)
    ensures Normalize(fold, Normalize(fold, raw)) == Normalize(fold, raw) <==> !DropsBetweenGaps(raw)
  {
    hide Normalize, DropsBetweenGaps, Fuses, Ascii, Tidy, Collapsed;
    NormalizeIsIdempotentUnlessFusing(fold, raw);
    CollapsedIsTidy(fold, raw);
    FusesIsDrop(Collapsed(fold, raw));
    StagesKeepIt(fold, raw);
  }
}
