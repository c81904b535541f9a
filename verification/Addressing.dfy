/** Addresses: `name@hub`, and the local actor name one refers to. */
module Addressing {
  import opened Outcomes
  import opened Text
  import Naming

  const LOCAL := "local"

  datatype Address = Address(name: string, hub: string)
  {
    function Print(): string
    {
      name + "@" + hub
    }

    predicate IsLocalTo(hubName: string)
    {
      hub == LOCAL || hub == hubName
    }
  }

  function Count(s: string, c: char): nat
  {
    if s == "" then 0 else (if s[0] == c then 1 else 0) + Count(s[1..], c)
  }

  /** Where the first `c` stands, or the length if there is none. */
  function Find(s: string, c: char): (i: nat)
    ensures i <= |s| && c !in s[..i] && (i < |s| ==> s[i] == c)
  {
    if s == "" || s[0] == c then 0 else
      var i := 1 + Find(s[1..], c);
      assert s[..i] == [s[0]] + s[1..][..i - 1];
      i
  }

  /** `s.partition("@")`, without the separator. */
  function Before(s: string): string
  {
    s[..Find(s, '@')]
  }

  function After(s: string): string
  {
    if Find(s, '@') < |s| then s[Find(s, '@') + 1..] else ""
  }

  function Parse(text: string): Result<Address>
  {
    var raw := Strip(text, IsSpace);
    var name, hub := Strip(Before(raw), IsSpace), Strip(After(raw), IsSpace);
    if raw == "" then Err(MalformedAddress)
    else if Count(raw, '@') > 1 then Err(MalformedAddress)
    else if name == "" then Err(MalformedAddress)
    else if Count(raw, '@') > 0 && hub == "" then Err(MalformedAddress)
    else Ok(Address(Lower(name), Lower(if hub == "" then LOCAL else hub)))
  }

  /** The local actor name an address refers to, refusing what this mailbox cannot reach. */
  function LocalName(text: string, hubName: string): Result<string>
  {
    match Parse(text)
    case Err(e) => Err(e)
    case Ok(address) => if address.IsLocalTo(hubName) then Ok(address.name) else Err(RemoteMailbox)
  }

  // ------------------------------------------------------------ printing and parsing

  /** What a parsed half of an address looks like: no "@", no outer space, no capital. */
  predicate Half(s: string)
  {
    s != "" && '@' !in s && Trimmed(s, IsSpace) && Lower(s) == s
  }

  lemma {:induction false} CountNone(s: string, c: char)
    ensures Count(s, c) == 0 <==> c !in s
  {
    if s != "" {
      CountNone(s[1..], c);
      assert s == [s[0]] + s[1..];
    }
  }

  lemma {:induction false} CountJoins(a: string, b: string, c: char)
    ensures Count(a + b, c) == Count(a, c) + Count(b, c)
  {
    if a == "" {
      assert a + b == b;
    } else {
      assert (a + b)[1..] == a[1..] + b;
      CountJoins(a[1..], b, c);
    }
  }

  lemma {:induction false} FindJoins(a: string, b: string)
    requires '@' !in a
    ensures Find(a + "@" + b, '@') == |a|
  {
    var s := a + "@" + b;
    assert s[|a|] == '@' && s[..|a|] == a;
  }

  lemma PartitionJoins(a: string, b: string)
    requires '@' !in a && '@' !in b
    ensures var s := a + "@" + b; Before(s) == a && After(s) == b && Count(s, '@') == 1
  {
    FindJoins(a, b);
    CountJoins(a + "@", b, '@');
    CountJoins(a, "@", '@');
    CountNone(a, '@');
    CountNone(b, '@');
    assert Count("@", '@') == 1;
  }

  lemma PartitionBare(a: string)
    requires '@' !in a
    ensures Before(a) == a && After(a) == "" && Count(a, '@') == 0
  {
    CountNone(a, '@');
  }

  /** Reading `name@hub` with both halves in parsed form gives back the halves. */
  lemma ParsePrinted(name: string, hub: string)
    requires Half(name) && Half(hub)
    ensures Parse(name + "@" + hub) == Ok(Address(name, hub))
  {
    var s := name + "@" + hub;
    PartitionJoins(name, hub);
    assert s[0] == name[0] && s[|s| - 1] == hub[|hub| - 1];
    StripKeepsTrimmed(s, IsSpace);
    StripKeepsTrimmed(name, IsSpace);
    StripKeepsTrimmed(hub, IsSpace);
  }

  lemma ParseBare(name: string)
    requires Half(name)
    ensures Parse(name) == Ok(Address(name, LOCAL))
  {
    PartitionBare(name);
    StripKeepsTrimmed(name, IsSpace);
    assert Strip("", IsSpace) == "";
    LocalIsHalf();
  }

  lemma LowerOfTrimmed(s: string)
    requires Trimmed(s, IsSpace) && s != "" && '@' !in s
    ensures Half(Lower(s))
  {
    var r := Lower(s);
    assert forall i | 0 <= i < |s| :: r[i] != '@' by {
      forall i | 0 <= i < |s| ensures r[i] != '@' { assert s[i] in s; }
    }
    assert Lower(r) == r;
  }

  lemma StripSubset(s: string, c: char)
    requires c !in s
    ensures c !in Strip(s, IsSpace) && Trimmed(Strip(s, IsSpace), IsSpace)
  {
    var left, right := StripCuts(s, IsSpace);
    assert c !in left + Strip(s, IsSpace) + right;
  }

  lemma {:induction false} OneSeparator(s: string)
    requires Count(s, '@') <= 1
    ensures '@' !in Before(s) && '@' !in After(s)
  {
    var i := Find(s, '@');
    if i < |s| {
      assert s == s[..i] + ("@" + s[i + 1..]);
      CountJoins(s[..i], "@" + s[i + 1..], '@');
      CountJoins("@", s[i + 1..], '@');
      assert Count("@", '@') == 1;
      CountNone(s[i + 1..], '@');
    }
  }

  lemma HalfOf(s: string)
    requires '@' !in s && Strip(s, IsSpace) != ""
    ensures Half(Lower(Strip(s, IsSpace)))
  {
    StripSubset(s, '@');
    LowerOfTrimmed(Strip(s, IsSpace));
  }

  lemma LocalIsHalf()
    ensures Half(LOCAL)
  {
    assert |LOCAL| == 5;
    LowerOfTrimmed(LOCAL);
    assert Lower(LOCAL) == LOCAL;
  }

  /** Both halves that `Parse` returns are in parsed form. */
  lemma ParseGivesHalves(text: string)
    requires Parse(text).Ok?
    ensures Half(Parse(text).value.name) && Half(Parse(text).value.hub)
  {
    var raw := Strip(text, IsSpace);
    OneSeparator(raw);
    HalfOf(Before(raw));
    LocalIsHalf();
    if Strip(After(raw), IsSpace) != "" {
      HalfOf(After(raw));
    }
  }

  /** Printing a parsed address and parsing it again changes nothing. */
  lemma PrintRoundTrips(text: string)
    requires Parse(text).Ok?
    ensures Parse(Parse(text).value.Print()) == Parse(text)
  {
    ParseGivesHalves(text);
    ParsePrinted(Parse(text).value.name, Parse(text).value.hub);
  }

  /** Lower case, without surrounding space. */
  function Clean(s: string): string
  {
    Lower(Strip(s, IsSpace))
  }

  /** `text` is `a@b` with neither half blank. */
  ghost predicate SplitsAt(text: string, a: string, b: string)
  {
    text == a + "@" + b && '@' !in a && '@' !in b && !Blank(a) && !Blank(b)
  }

  lemma BlankHasNoAt(s: string)
    requires Blank(s)
    ensures '@' !in s
  {
  }

  lemma SplitParses(text: string, a: string, b: string)
    requires SplitsAt(text, a, b)
    ensures Parse(text) == Ok(Address(Clean(a), Clean(b)))
  {
    hide Strip, IsSpace, Lower;
    var la, a' := StripOuterLeft(a);
    var rb, b' := StripOuterRight(b);
    Assoc(la, a', "@");
    Assoc(la, a' + "@", b');
    Assoc(a + "@", b', rb);
    var raw := a' + "@" + b';
    assert raw[0] == a'[0] && raw[|raw| - 1] == b'[|b'| - 1];
    StripRemovesMargins(la, raw, rb, IsSpace);
    PartitionJoins(a', b');
    StripMargins(la, a', "");
    StripMargins("", b', rb);
    BlankStrips(a);
    BlankStrips(b);
    assert la + a' + "" == a && "" + b' + rb == b;
  }

  lemma StripOuterLeft(s: string) returns (margin: string, rest: string)
    requires !Blank(s)
    ensures s == margin + rest && Blank(margin) && rest != "" && !IsSpace(rest[0])
    ensures '@' !in s ==> '@' !in rest
  {
    rest := StripLeft(s, IsSpace);
    margin := StripLeftCuts(s, IsSpace);
  }

  lemma StripOuterRight(s: string) returns (margin: string, rest: string)
    requires !Blank(s)
    ensures s == rest + margin && Blank(margin) && rest != "" && !IsSpace(rest[|rest| - 1])
    ensures '@' !in s ==> '@' !in rest
  {
    rest := StripRight(s, IsSpace);
    margin := StripRightCuts(s, IsSpace);
  }

  lemma BareParses(text: string)
    requires '@' !in text && !Blank(text)
    ensures Parse(text) == Ok(Address(Clean(text), LOCAL))
  {
    hide Lower, IsSpace, Strip, Find, Count, Half, Blank;
    var raw := Strip(text, IsSpace);
    StripSubset(text, '@');
    PartitionBare(raw);
    StripKeepsTrimmed(raw, IsSpace);
    StripKeepsTrimmed("", IsSpace);
    assert Lower(LOCAL) == LOCAL by { LocalLowers(); }
    BlankStrips(text);
  }

  lemma LocalLowers()
    ensures Lower(LOCAL) == LOCAL
  {
    LocalIsHalf();
  }

  lemma PartitionRejoins(raw: string)
    requires '@' in raw
    ensures raw == Before(raw) + "@" + After(raw)
  {
    assert raw[..|raw|] == raw;
  }

  lemma ParsedSplits(text: string)
    requires Parse(text).Ok? && '@' in text
    ensures exists a, b :: SplitsAt(text, a, b)
  {
    hide Lower, IsSpace, Strip, Before, After, Count, Blank;
    var raw := Strip(text, IsSpace);
    var left, right := StripCuts(text, IsSpace);
    MarginsAreBlank(left, right);
    BlankHasNoAt(left);
    BlankHasNoAt(right);
    OneSeparator(raw);
    PartitionRejoins(raw);
    Rejoin(left, Before(raw), After(raw), right);
    CountNone(raw, '@');
    var a, b := left + Before(raw), After(raw) + right;
    StripMargins(left, Before(raw), "");
    StripMargins("", After(raw), right);
    assert left + Before(raw) + "" == a && "" + After(raw) + right == b;
    BlankStrips(a);
    BlankStrips(b);
    assert SplitsAt(text, a, b);
  }

  lemma MarginsAreBlank(left: string, right: string)
    requires forall c | c in left + right :: IsSpace(c)
    ensures Blank(left) && Blank(right) && Blank("")
  {
    forall c | c in left || c in right ensures IsSpace(c) { assert c in left + right; }
  }

  lemma Rejoin(left: string, a: string, b: string, right: string)
    ensures left + (a + "@" + b) + right == (left + a) + "@" + (b + right)
  {
    Assoc(left, a, "@");
    Assoc(left, a + "@", b);
    Assoc(left + a + "@", b, right);
  }

  /**
   Exactly what parses: a text that is not blank and has no `@`, naming an actor here, or two
   halves around the only `@`, neither blank. The halves lose their outer space and capitals.
   */
  lemma ParseGrammar(text: string, address: Address)
    ensures Parse(text) == Ok(address) <==>
      || ('@' !in text && !Blank(text) && address == Address(Clean(text), LOCAL))
      || (exists a, b :: SplitsAt(text, a, b) && address == Address(Clean(a), Clean(b)))
    ensures Parse(text).Ok? || Parse(text) == Err(MalformedAddress)
  {
    hide Clean, Strip, IsSpace, Lower;
    if '@' !in text && !Blank(text) { BareParses(text); }
    forall a, b | SplitsAt(text, a, b)
      ensures Parse(text) == Ok(Address(Clean(a), Clean(b)))
    {
      SplitParses(text, a, b);
    }
    if Parse(text).Ok? {
      BlankStrips(text);
      if '@' in text {
        ParsedSplits(text);
      }
    }
  }

  /** The names of local actors are in parsed form, so reading one back gives it unchanged. */
  lemma LocalNameSettles(text: string, hubName: string)
    requires LocalName(text, hubName).Ok?
    ensures Half(LocalName(text, hubName).value)
    ensures LocalName(LocalName(text, hubName).value, hubName) == LocalName(text, hubName)
  {
    ParseGivesHalves(text);
    ParseBare(LocalName(text, hubName).value);
  }

  /** Bare, `@local` and `@hub` spellings of a parsed-form name are one actor; other hubs are refused. */
  lemma ThreeSpellings(name: string, hubName: string, elsewhere: string)
    requires Half(name) && Half(hubName) && Half(elsewhere) && elsewhere != LOCAL && elsewhere != hubName
    ensures LocalName(name, hubName) == Ok(name)
    ensures LocalName(name + "@" + LOCAL, hubName) == Ok(name)
    ensures LocalName(name + "@" + hubName, hubName) == Ok(name)
    ensures LocalName(name + "@" + elsewhere, hubName) == Err(RemoteMailbox)
  {
    LocalIsHalf();
    ParseBare(name);
    ParsePrinted(name, LOCAL);
    ParsePrinted(name, hubName);
    ParsePrinted(name, elsewhere);
  }

  /** Every name the mailbox grants is in parsed form. */
  lemma GrantedNamesAreHalves(fold: string -> string, raw: string)
    requires Naming.Validate(fold, raw).Ok?
    ensures Half(Naming.Validate(fold, raw).value)
  {
    Naming.NormalizeIsCanonical(fold, raw);
    CanonicalIsHalf(Naming.Normalize(fold, raw));
  }

  /** So its bare, `@local` and `@hub` spellings are all that actor, and at any other hub it is refused. */
  lemma GrantedNamesAreReachable(fold: string -> string, raw: string, hubName: string, elsewhere: string)
    requires Naming.Validate(fold, raw).Ok?
    requires Half(hubName) && Half(elsewhere) && elsewhere != "local" && elsewhere != hubName
    ensures var name := Naming.Validate(fold, raw).value;
      && LocalName(name, hubName) == Ok(name)
      && LocalName(name + "@" + "local", hubName) == Ok(name)
      && LocalName(name + "@" + hubName, hubName) == Ok(name)
      && LocalName(name + "@" + elsewhere, hubName) == Err(RemoteMailbox)
  {
    hide LocalName, Naming.Normalize, Naming.MatchesValid, Half;
    GrantedNamesAreHalves(fold, raw);
    ThreeSpellings(Naming.Validate(fold, raw).value, hubName, elsewhere);
  }

  lemma CanonicalIsHalf(name: string)
    requires Naming.Canonical(name) && name != ""
    ensures Half(name)
  {
    assert name[0] in name && name[|name| - 1] in name;
    forall i | 0 <= i < |name| ensures Lower(name)[i] == name[i] { assert name[i] in name; }
    assert '@' !in name;
  }
}
