/** The display of a plan's monthly cost: integer cents shown as dollars with
    two decimals and a comma between groups of three digits ("1,234.56"),
    the output of `number_format(cents / 100, 2)`, computed exactly. */
module MoneyFormat {
  import opened Wrappers

  predicate IsDigit(c: char)
  {
    '0' <= c <= '9'
  }

  predicate AllDigits(s: string)
  {
    forall i :: 0 <= i < |s| ==> IsDigit(s[i])
  }

  function DigitChar(d: nat): (c: char)
    requires d < 10
    ensures IsDigit(c) && DigitValue(c) == d
  {
    ('0' as int + d) as char
  }

  function DigitValue(c: char): (d: nat)
    requires IsDigit(c)
    ensures d < 10
  {
    c as int - '0' as int
  }

  /** The decimal numeral of `n`, without leading zeros. */
  function Digits(n: nat): (r: string)
    ensures |r| >= 1 && AllDigits(r)
    ensures r[0] == '0' ==> n == 0 && r == "0"
  {
    if n < 10 then [DigitChar(n)] else Digits(n / 10) + [DigitChar(n % 10)]
  }

  /** The number a string of decimal digits denotes. */
  function Value(s: string): nat
    requires AllDigits(s)
  {
    if |s| == 0 then 0 else Value(s[..|s| - 1]) * 10 + DigitValue(s[|s| - 1])
  }

  lemma {:induction false} ValueOfDigits(n: nat)
    ensures Value(Digits(n)) == n
  {
    var r := Digits(n);
    if n >= 10 {
      assert r[..|r| - 1] == Digits(n / 10);
      ValueOfDigits(n / 10);
    }
  }

  /** `s` is digits in comma-separated groups: a leading group of one to three
      digits, then groups of exactly three. */
  predicate WellGrouped(s: string)
    decreases |s|
  {
    if |s| <= 3 then 1 <= |s| && AllDigits(s)
    else |s| >= 5 && s[|s| - 4] == ',' && AllDigits(s[|s| - 3..]) && WellGrouped(s[..|s| - 4])
  }

  /** Inserts a comma before every third digit counted from the right. */
  function Group(d: string): (r: string)
    requires 1 <= |d| && AllDigits(d)
    ensures WellGrouped(r)
    ensures Ungroup(r) == d
    decreases |d|
  {
    if |d| <= 3 then
      NoCommaUngroups(d);
      d
    else
      var head := Group(d[..|d| - 3]);
      var tail := d[|d| - 3..];
      var r := head + [','] + tail;
      assert r[..|r| - 4] == head;
      assert r[|r| - 3..] == tail;
      UngroupComma(head, tail);
      assert d[..|d| - 3] + tail == d;
      r
  }

  /** The string with its commas removed. */
  function Ungroup(s: string): (r: string)
    ensures |r| <= |s|
  {
    if |s| == 0 then [] else (if s[0] == ',' then [] else [s[0]]) + Ungroup(s[1..])
  }

  /** Removing the commas keeps every other character and no comma. */
  lemma {:induction false} UngroupChars(s: string)
    ensures forall c :: c in Ungroup(s) <==> c in s && c != ','
  {
    if |s| > 0 {
      UngroupChars(s[1..]);
      assert s == [s[0]] + s[1..];
    }
  }

  lemma {:induction false} UngroupAppend(a: string, b: string)
    ensures Ungroup(a + b) == Ungroup(a) + Ungroup(b)
  {
    if |a| == 0 {
      assert a + b == b;
    } else {
      assert (a + b)[1..] == a[1..] + b;
      UngroupAppend(a[1..], b);
    }
  }

  lemma {:induction false} NoCommaUngroups(s: string)
    requires AllDigits(s)
    ensures Ungroup(s) == s
  {
    if |s| > 0 {
      NoCommaUngroups(s[1..]);
    }
  }

  /** The digits of a well-grouped numeral, commas removed, are all digits. */
  lemma {:induction false} UngroupedDigits(s: string)
    requires WellGrouped(s)
    ensures AllDigits(Ungroup(s)) && |Ungroup(s)| >= 1
    decreases |s|
  {
    if |s| <= 3 {
      NoCommaUngroups(s);
    } else {
      var head := s[..|s| - 4];
      var tail := s[|s| - 3..];
      assert s == head + [','] + tail;
      UngroupedDigits(head);
      UngroupComma(head, tail);
    }
  }

  /** The two-digit numeral of `n`, with a leading zero below ten. */
  function TwoDigits(n: nat): (r: string)
    requires n < 100
    ensures |r| == 2 && AllDigits(r) && Value(r) == n
  {
    var r := [DigitChar(n / 10), DigitChar(n % 10)];
    assert r[..1] == [DigitChar(n / 10)];
    assert r[..1][..0] == [];
    assert Value(r[..1]) == n / 10;
    r
  }

  /** The formatted cost of `cents`: dollars grouped in thousands, a point,
      and the cents as two digits. */
  function FormatCost(cents: nat): (r: string)
    ensures |r| >= 4 && r[|r| - 3] == '.'
    ensures WellGrouped(r[..|r| - 3])
    ensures AllDigits(r[|r| - 2..]) && Value(r[|r| - 2..]) == cents % 100
    ensures AllDigits(Ungroup(r[..|r| - 3])) && Value(Ungroup(r[..|r| - 3])) == cents / 100
    ensures r[0] == '0' ==> cents < 100
    ensures cents < 100 ==> r[..|r| - 3] == "0"
  {
    var dollars := Digits(cents / 100);
    var grouped := Group(dollars);
    var r := grouped + ['.'] + TwoDigits(cents % 100);
    assert r[..|r| - 3] == grouped;
    assert r[|r| - 2..] == TwoDigits(cents % 100);
    ValueOfDigits(cents / 100);
    GroupedLeadingDigit(dollars);
    assert cents < 100 ==> dollars == "0";
    assert r[0] == grouped[0];
    r
  }

  /** Grouping keeps the leading digit. */
  lemma {:induction false} GroupedLeadingDigit(d: string)
    requires 1 <= |d| && AllDigits(d)
    ensures Group(d)[0] == d[0]
    decreases |d|
  {
    if |d| > 3 {
      GroupedLeadingDigit(d[..|d| - 3]);
    }
  }

  /** Reads a formatted cost back into cents; `None` for anything that is not
      a well-grouped amount with two decimals. */
  function ParseCost(s: string): (r: Option<nat>)
    ensures r.Some? <==> |s| >= 4 && s[|s| - 3] == '.' && AllDigits(s[|s| - 2..]) && WellGrouped(s[..|s| - 3])
  {
    if |s| >= 4 && s[|s| - 3] == '.' && AllDigits(s[|s| - 2..]) && WellGrouped(s[..|s| - 3]) then
      UngroupedDigits(s[..|s| - 3]);
      Some(Value(Ungroup(s[..|s| - 3])) * 100 + Value(s[|s| - 2..]))
    else None
  }

  /** Parsing undoes formatting, so the displayed cost determines the stored
      cost. */
  lemma FormatCostRoundTrip(cents: nat)
    ensures ParseCost(FormatCost(cents)) == Some(cents)
  {
  }

  lemma FormatCostInjective(a: nat, b: nat)
    requires FormatCost(a) == FormatCost(b)
    ensures a == b
  {
    FormatCostRoundTrip(a);
    FormatCostRoundTrip(b);
  }

  /** The formatted cost is the only display of `cents` that parses back to
      it without a leading zero in the dollars (other than a lone "0"): so
      "0,049.99" and "00.50" are ruled out. */
  lemma {:induction false} FormatCostCanonical(cents: nat, s: string)
    requires ParseCost(s) == Some(cents)
    requires s[0] == '0' ==> s[..|s| - 3] == "0"
    ensures s == FormatCost(cents)
  {
    var p := s[..|s| - 3];
    var t := s[|s| - 2..];
    ParsedParts(cents, s);
    TwoDigitsCanonical(t);
    DollarsCanonical(p);
    assert FormatCost(cents) == Group(Digits(cents / 100)) + ['.'] + TwoDigits(cents % 100);
    SplitAtPoint(s);
  }

  /** What a successful parse says about the two parts of the string. */
  lemma ParsedParts(cents: nat, s: string)
    requires ParseCost(s) == Some(cents)
    ensures WellGrouped(s[..|s| - 3]) && |s[|s| - 2..]| == 2 && AllDigits(s[|s| - 2..])
    ensures AllDigits(Ungroup(s[..|s| - 3]))
    ensures cents / 100 == Value(Ungroup(s[..|s| - 3])) && cents % 100 == Value(s[|s| - 2..])
  {
    var p := s[..|s| - 3];
    var t := s[|s| - 2..];
    UngroupedDigits(p);
    TwoDigitsCanonical(t);
    assert cents == Value(Ungroup(p)) * 100 + Value(t);
    DivModHundred(Value(Ungroup(p)), Value(t));
  }

  /** A well-grouped numeral without a leading zero (other than a lone "0")
      is the grouping of the numeral of its value. */
  lemma DollarsCanonical(p: string)
    requires WellGrouped(p)
    requires p[0] == '0' ==> p == "0"
    ensures AllDigits(Ungroup(p)) && Group(Digits(Value(Ungroup(p)))) == p
  {
    GroupUngroup(p);
    var d := Ungroup(p);
    GroupedLeadingDigit(d);
    if d[0] == '0' {
      NoCommaUngroups("0");
    }
    DigitsCanonical(d);
  }

  lemma SplitAtPoint(s: string)
    requires |s| >= 4 && s[|s| - 3] == '.'
    ensures s == s[..|s| - 3] + ['.'] + s[|s| - 2..]
  {
    assert s == s[..|s| - 3] + s[|s| - 3..];
  }

  lemma DivModHundred(q: nat, r: nat)
    requires r < 100
    ensures (q * 100 + r) / 100 == q && (q * 100 + r) % 100 == r
  {
  }

  /** Putting the commas back into a well-grouped numeral's digits gives the
      numeral back. */
  lemma {:induction false} GroupUngroup(s: string)
    requires WellGrouped(s)
    ensures AllDigits(Ungroup(s)) && |Ungroup(s)| >= 1
    ensures Group(Ungroup(s)) == s
    decreases |s|
  {
    UngroupedDigits(s);
    if |s| <= 3 {
      NoCommaUngroups(s);
    } else {
      var head := s[..|s| - 4];
      var tail := s[|s| - 3..];
      assert s == head + [','] + tail;
      GroupUngroup(head);
      UngroupComma(head, tail);
      var d := Ungroup(s);
      assert d[..|d| - 3] == Ungroup(head);
      assert d[|d| - 3..] == tail;
    }
  }

  /** Removing the commas around a comma-joined group of digits. */
  lemma UngroupComma(head: string, tail: string)
    requires AllDigits(tail)
    ensures Ungroup(head + [','] + tail) == Ungroup(head) + tail
  {
    var comma: string := [','];
    assert Ungroup(comma) == [] by {
      assert comma[1..] == [];
    }
    UngroupAppend(head, comma);
    UngroupAppend(head + comma, tail);
    NoCommaUngroups(tail);
    calc {
      Ungroup(head + comma + tail);
      Ungroup(head + comma) + Ungroup(tail);
      Ungroup(head) + tail;
    }
  }

  /** A numeral without leading zeros is the numeral of its value. */
  lemma {:induction false} DigitsCanonical(d: string)
    requires |d| >= 1 && AllDigits(d)
    requires d[0] == '0' ==> d == "0"
    ensures Digits(Value(d)) == d
    decreases |d|
  {
    var last := d[|d| - 1];
    assert DigitChar(DigitValue(last)) == last;
    if |d| == 1 {
      assert d[..0] == [];
      assert d == [last];
    } else {
      var p := d[..|d| - 1];
      assert p[0] == d[0];
      ValuePositive(p);
      DigitsCanonical(p);
      assert Value(d) / 10 == Value(p) && Value(d) % 10 == DigitValue(last);
      assert d == p + [last];
    }
  }

  /** A numeral whose leading digit is not zero denotes a positive number. */
  lemma {:induction false} ValuePositive(p: string)
    requires |p| >= 1 && AllDigits(p) && p[0] != '0'
    ensures Value(p) >= 1
    decreases |p|
  {
    if |p| > 1 {
      assert p[..|p| - 1][0] == p[0];
      ValuePositive(p[..|p| - 1]);
    } else {
      assert p[..0] == [];
    }
  }

  /** Two digits are the two-digit numeral of their value. */
  lemma TwoDigitsCanonical(t: string)
    requires |t| == 2 && AllDigits(t)
    ensures Value(t) < 100 && TwoDigits(Value(t)) == t
  {
    assert t[..1][..0] == [];
    assert Value(t[..1]) == DigitValue(t[0]);
    assert DigitChar(DigitValue(t[0])) == t[0];
    assert DigitChar(DigitValue(t[1])) == t[1];
  }
}
