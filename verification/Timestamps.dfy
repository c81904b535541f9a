/** The `isoformat` strings that the mailbox compares in place of instants. */
module Timestamps {
  import opened Ordering

  /** A UTC `datetime`. Field order is chronological order. */
  datatype Instant = Instant(year: nat, month: nat, day: nat, hour: nat, minute: nat, second: nat, micros: nat)
  {
    predicate Valid()
    {
      && 1 <= year <= 9999 && 1 <= month <= 12 && 1 <= day <= 31
      && hour < 24 && minute < 60 && second < 60 && micros < 1000000
    }

    predicate IsBefore(that: Instant)
    {
      || year < that.year
      || (year == that.year && (month < that.month
      || (month == that.month && (day < that.day
      || (day == that.day && (hour < that.hour
      || (hour == that.hour && (minute < that.minute
      || (minute == that.minute && (second < that.second
      || (second == that.second && micros < that.micros)))))))))))
    }
  }

  function Power10(n: nat): (p: nat)
    ensures p > 0
  {
    if n == 0 then 1 else 10 * Power10(n - 1)
  }

  function Digit(d: nat): (c: char)
    requires d < 10
    ensures '0' <= c <= '9'
  {
    (d + 48) as char
  }

  /** `n` in exactly `width` decimal digits. */
  function Pad(n: nat, width: nat): string
    requires n < Power10(width)
    decreases width
  {
    if width == 0 then "" else
      var p := Power10(width - 1);
      LeadingDigit(n, p);
      [Digit(n / p)] + Pad(n % p, width - 1)
  }

  lemma LeadingDigit(n: nat, p: nat)
    requires p > 0 && n < 10 * p
    ensures n / p < 10 && n == p * (n / p) + n % p && n % p < p
  {
    Scaled(p, 10, n / p);
  }

  lemma Scaled(p: nat, a: nat, b: nat)
    requires p > 0
    ensures a <= b <==> p * a <= p * b
  {
  }

  /** `isoformat` writes the fraction only when there is one. */
  function Fraction(micros: nat): string
    requires micros < 1000000
  {
    (if micros == 0 then "" else assert Power10(6) == 1000000; "." + Pad(micros, 6)) + "+00:00"
  }

  function Clock(t: Instant): string
    requires t.Valid()
  {
    assert Power10(2) == 100;
    Pad(t.hour, 2) + (":" + (Pad(t.minute, 2) + (":" + (Pad(t.second, 2) + Fraction(t.micros)))))
  }

  function Iso(t: Instant): string
    requires t.Valid()
  {
    assert Power10(2) == 100 && Power10(4) == 10000;
    Pad(t.year, 4) + ("-" + (Pad(t.month, 2) + ("-" + (Pad(t.day, 2) + ("T" + Clock(t))))))
  }

  lemma LessByHead(c: char, d: char, x: string, y: string)
    ensures Less([c] + x, [d] + y) <==> c < d || (c == d && Less(x, y))
  {
    assert ([c] + x)[1..] == x && ([d] + y)[1..] == y;
  }

  /** The leading digit `q` and the rest `r` of a fixed-width number. */
  lemma PadStep(n: nat, width: nat, x: string) returns (q: nat, r: nat)
    requires width > 0 && n < Power10(width)
    ensures q < 10 && r < Power10(width - 1) && n == Power10(width - 1) * q + r
    ensures Pad(n, width) + x == [Digit(q)] + (Pad(r, width - 1) + x)
  {
    LeadingDigit(n, Power10(width - 1));
    q, r := n / Power10(width - 1), n % Power10(width - 1);
  }

  lemma LeadingDigitDecides(p: nat, q: nat, r: nat, q': nat, r': nat)
    requires r < p && r' < p
    ensures p * q + r < p * q' + r' <==> q < q' || (q == q' && r < r')
    ensures p * q + r == p * q' + r' <==> q == q' && r == r'
  {
    Scaled(p, q + 1, q');
    Scaled(p, q' + 1, q);
  }

  /** Fixed-width numbers compare as numbers, and hand equal ones on to what follows. */
  lemma {:induction false} PadOrder(m: nat, n: nat, width: nat, x: string, y: string)
    requires m < Power10(width) && n < Power10(width)
    ensures Less(Pad(m, width) + x, Pad(n, width) + y) <==> m < n || (m == n && Less(x, y))
    decreases width
  {
    if width == 0 {
      assert Pad(m, 0) + x == x && Pad(n, 0) + y == y;
    } else {
      var q, r := PadStep(m, width, x);
      var q', r' := PadStep(n, width, y);
      PadOrder(r, r', width - 1, x, y);
      LeadingDigitDecides(Power10(width - 1), q, r, q', r');
      LessByHead(Digit(q), Digit(q'), Pad(r, width - 1) + x, Pad(r', width - 1) + y);
    }
  }

  /** The order of the fractions, including the one that is not written: `+` sorts before `.`. */
  lemma FractionOrder(a: nat, b: nat)
    requires a < 1000000 && b < 1000000
    ensures Less(Fraction(a), Fraction(b)) <==> a < b
  {
    assert Power10(6) == 1000000;
    LessIsTotal("+00:00", "+00:00");
    if a > 0 && b > 0 {
      hide Less;
      PadOrder(a, b, 6, "+00:00", "+00:00");
      LessByHead('.', '.', Pad(a, 6) + "+00:00", Pad(b, 6) + "+00:00");
      WrittenFraction(a);
      WrittenFraction(b);
    } else if a > 0 {
      assert Fraction(a)[0] == '.' && Fraction(b)[0] == '+';
    } else if b > 0 {
      assert Fraction(a)[0] == '+' && Fraction(b)[0] == '.';
    }
  }

  lemma WrittenFraction(micros: nat)
    requires 0 < micros < 1000000
    ensures Power10(6) == 1000000 && Fraction(micros) == ['.'] + (Pad(micros, 6) + "+00:00")
  {
    assert Power10(6) == 1000000;
  }

  lemma FieldOrder(m: nat, n: nat, width: nat, sep: char, x: string, y: string)
    requires m < Power10(width) && n < Power10(width)
    ensures Less(Pad(m, width) + ([sep] + x), Pad(n, width) + ([sep] + y)) <==> m < n || (m == n && Less(x, y))
  {
    PadOrder(m, n, width, [sep] + x, [sep] + y);
    LessByHead(sep, sep, x, y);
  }

  lemma ClockOrder(a: Instant, b: Instant)
    requires a.Valid() && b.Valid()
    ensures Less(Clock(a), Clock(b)) <==>
      || a.hour < b.hour
      || (a.hour == b.hour && (a.minute < b.minute
      || (a.minute == b.minute && (a.second < b.second
      || (a.second == b.second && a.micros < b.micros)))))
  {
    assert Power10(2) == 100;
    FractionOrder(a.micros, b.micros);
    PadOrder(a.second, b.second, 2, Fraction(a.micros), Fraction(b.micros));
    var x, y := Pad(a.second, 2) + Fraction(a.micros), Pad(b.second, 2) + Fraction(b.micros);
    FieldOrder(a.minute, b.minute, 2, ':', x, y);
    FieldOrder(a.hour, b.hour, 2, ':', Pad(a.minute, 2) + (":" + x), Pad(b.minute, 2) + (":" + y));
  }

  /** Comparing the strings compares the instants. */
  lemma StringOrderIsTimeOrder(a: Instant, b: Instant)
    requires a.Valid() && b.Valid()
    ensures Less(Iso(a), Iso(b)) <==> a.IsBefore(b)
  {
    assert Power10(2) == 100 && Power10(4) == 10000;
    ClockOrder(a, b);
    FieldOrder(a.day, b.day, 2, 'T', Clock(a), Clock(b));
    var x, y := Pad(a.day, 2) + ("T" + Clock(a)), Pad(b.day, 2) + ("T" + Clock(b));
    FieldOrder(a.month, b.month, 2, '-', x, y);
    FieldOrder(a.year, b.year, 4, '-', Pad(a.month, 2) + ("-" + x), Pad(b.month, 2) + ("-" + y));
  }

  /** Different instants have different strings, so equal strings are equal instants. */
  lemma IsoIsInjective(a: Instant, b: Instant)
    requires a.Valid() && b.Valid() && Iso(a) == Iso(b)
    ensures a == b
  {
    StringOrderIsTimeOrder(a, b);
    StringOrderIsTimeOrder(b, a);
    LessIsTotal(Iso(a), Iso(b));
  }

  // ------------------------------------------------------------ what is written

  /** The number that decimal digits write. */
  function Number(digits: string): int
  {
    if digits == "" then 0
    else 10 * Number(digits[..|digits| - 1]) + (digits[|digits| - 1] as int - '0' as int)
  }

  lemma {:induction false} NumberByHead(c: char, digits: string)
    ensures Number([c] + digits) == (c as int - '0' as int) * Power10(|digits|) + Number(digits)
    decreases |digits|
  {
    var all := [c] + digits;
    if digits == "" {
      assert all[..0] == "";
    } else {
      var front := digits[..|digits| - 1];
      assert all[..|all| - 1] == [c] + front;
      NumberByHead(c, front);
    }
  }

  lemma DigitReads(q: nat, p: nat)
    requires q < 10
    ensures (Digit(q) as int - '0' as int) * p == p * q
  {
    assert Digit(q) as int - '0' as int == q;
  }

  lemma {:induction false} PadReads(n: nat, width: nat)
    requires n < Power10(width)
    ensures |Pad(n, width)| == width && Number(Pad(n, width)) == n
    decreases width
  {
    if width > 0 {
      var q, r := PadStep(n, width, "");
      assert Pad(n, width) + "" == Pad(n, width) && Pad(r, width - 1) + "" == Pad(r, width - 1);
      PadReads(r, width - 1);
      NumberByHead(Digit(q), Pad(r, width - 1));
      hide Power10, Pad, Number;
      DigitReads(q, Power10(width - 1));
    }
  }

  /** `s` starts with a number of that many digits, and goes on as `rest`. */
  ghost predicate Writes(s: string, digits: nat, n: nat, rest: string)
  {
    |s| >= digits && Number(s[..digits]) == n && s[digits..] == rest
  }

  lemma PadWrites(n: nat, width: nat, rest: string)
    requires n < Power10(width)
    ensures Writes(Pad(n, width) + rest, width, n, rest)
  {
    PadReads(n, width);
    var s := Pad(n, width) + rest;
    assert s[..width] == Pad(n, width) && s[width..] == rest;
  }

  /** Year, month, day, hour, minute and second, each at its width; a fraction if there is one; the UTC offset. */
  lemma IsoIsWritten(t: Instant)
    returns (a: string, b: string, c: string, d: string, e: string, f: string, g: string)
    requires t.Valid()
    ensures Writes(Iso(t), 4, t.year, "-" + a) && Writes(a, 2, t.month, "-" + b) && Writes(b, 2, t.day, "T" + c)
    ensures Writes(c, 2, t.hour, ":" + d) && Writes(d, 2, t.minute, ":" + e) && Writes(e, 2, t.second, f)
    ensures if t.micros == 0 then f == "+00:00" else f == "." + g && Writes(g, 6, t.micros, "+00:00")
  {
    assert Power10(2) == 100 && Power10(4) == 10000 && Power10(6) == 1000000;
    hide Power10, Writes, Pad;
    f := Fraction(t.micros);
    g := if t.micros == 0 then "" else Pad(t.micros, 6) + "+00:00";
    e := Pad(t.second, 2) + f;
    d := Pad(t.minute, 2) + (":" + e);
    c := Clock(t);
    b := Pad(t.day, 2) + ("T" + c);
    a := Pad(t.month, 2) + ("-" + b);
    PadWrites(t.year, 4, "-" + a);
    PadWrites(t.month, 2, "-" + b);
    PadWrites(t.day, 2, "T" + c);
    PadWrites(t.hour, 2, ":" + d);
    PadWrites(t.minute, 2, ":" + e);
    PadWrites(t.second, 2, f);
    if t.micros > 0 {
      PadWrites(t.micros, 6, "+00:00");
      WrittenFraction(t.micros);
    }
  }
}
