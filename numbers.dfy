/** parseNumber: JavaScript's parseInt in base 10, applied after every comma
    has been removed, plus the decimal renderings of an integer that the
    report prints (`${n}`) and the comma-grouped form ("1,234,567") used by
    the rendered logs of `Extraction.Render`. */
module Numbers {
  import opened Wrappers
  import opened Text

  /** What parseNumber can return: a JavaScript number that is an integer, or NaN. */
  datatype Num = NaN | Int(value: int)

  predicate IsDigit(c: char) { '0' <= c <= '9' }

  predicate AllDigits(s: string) {
    forall k :: 0 <= k < |s| ==> IsDigit(s[k])
  }

  function DigitValue(c: char): (d: nat)
    requires IsDigit(c)
    ensures d <= 9
  {
    c as int - '0' as int
  }

  function DigitChar(d: nat): (c: char)
    requires d <= 9
    ensures IsDigit(c) && DigitValue(c) == d
  {
    ('0' as int + d) as char
  }

  /** `str.replaceAll(',', '')` */
  function RemoveCommas(s: string): string {
    if s == [] then [] else (if s[0] == ',' then [] else [s[0]]) + RemoveCommas(s[1..])
  }

  /** RemoveCommas keeps every other character, in order, and no comma. */
  lemma {:induction false} RemoveCommasSpec(s: string)
    ensures ',' !in RemoveCommas(s) && |RemoveCommas(s)| <= |s|
    ensures multiset(RemoveCommas(s)) == multiset(s)[',' := 0]
  {
    if s != [] {
      RemoveCommasSpec(s[1..]);
      assert s == [s[0]] + s[1..];
      assert multiset(s) == multiset([s[0]]) + multiset(s[1..]);
    }
  }

  /** The white space parseInt skips before the number. */
  function TrimStart(s: string): (r: string)
    ensures |r| <= |s|
  {
    if s != [] && IsJsSpace(s[0]) then TrimStart(s[1..]) else s
  }

  /** TrimStart drops the white space at the front, and nothing else. */
  lemma {:induction false} TrimStartSkipsSpaces(s: string)
    ensures TrimStart(s) == s[|s| - |TrimStart(s)|..]
    ensures TrimStart(s) == [] || !IsJsSpace(TrimStart(s)[0])
    ensures forall k :: 0 <= k < |s| - |TrimStart(s)| ==> IsJsSpace(s[k])
  {
    if s != [] && IsJsSpace(s[0]) {
      TrimStartSkipsSpaces(s[1..]);
    }
  }

  /** The length of the longest run of decimal digits at the front of `s`. */
  function LeadingDigits(s: string): (k: nat)
    ensures k <= |s|
  {
    if s != [] && IsDigit(s[0]) then 1 + LeadingDigits(s[1..]) else 0
  }

  /** LeadingDigits is the longest run of digits at the front. */
  lemma {:induction false} LeadingDigitsMaximal(s: string)
    ensures AllDigits(s[..LeadingDigits(s)])
    ensures LeadingDigits(s) == |s| || !IsDigit(s[LeadingDigits(s)])
  {
    if s != [] && IsDigit(s[0]) {
      LeadingDigitsMaximal(s[1..]);
      assert s[..LeadingDigits(s)] == [s[0]] + s[1..][..LeadingDigits(s[1..])];
    }
  }

  /** The value of a run of decimal digits, most significant first. */
  function DigitsValue(ds: string): nat
    requires AllDigits(ds)
  {
    if ds == [] then 0 else 10 * DigitsValue(ds[..|ds| - 1]) + DigitValue(ds[|ds| - 1])
  }

  predicate HasMinus(t: string) { t != [] && t[0] == '-' }

  function DropSign(t: string): string {
    if t != [] && (t[0] == '-' || t[0] == '+') then t[1..] else t
  }

  /** `parseInt(s, 10)`: leading white space is skipped, one optional sign is
      read, then the longest run of digits; whatever follows it is ignored.
      Without a digit the result is NaN. */
  function ParseInt(s: string): Num
  {
    var t := TrimStart(s);
    var u := DropSign(t);
    var k := LeadingDigits(u);
    LeadingDigitsMaximal(u);
    if k == 0 then NaN
    else if HasMinus(t) then Int(0 - DigitsValue(u[..k]))
    else Int(DigitsValue(u[..k]))
  }

  /** parseNumber: `undefined` reads as 0, anything else as parseInt of the comma-free text. */
  function ParseNumber(str: Option<string>): Num
  {
    match str
    case None => Int(0)
    case Some(s) => ParseInt(RemoveCommas(s))
  }

  /** Most significant digit first, no leading zeros. */
  function Digits(n: nat): (s: string)
    ensures |s| > 0 && AllDigits(s)
    ensures |s| > 1 ==> s[0] != '0'
  {
    if n < 10 then [DigitChar(n)] else Digits(n / 10) + [DigitChar(n % 10)]
  }

  /** How a template literal renders an integer-valued number. */
  function ToDecimal(n: int): string {
    if n < 0 then "-" + Digits(-n) else Digits(n)
  }

  /** Three digits with leading zeros, for a group after a comma. */
  function Pad3(r: nat): (s: string)
    requires r < 1000
    ensures |s| == 3 && AllDigits(s)
  {
    [DigitChar(r / 100), DigitChar(r / 10 % 10), DigitChar(r % 10)]
  }

  function GroupedNat(n: nat): string {
    if n < 1000 then Digits(n) else GroupedNat(n / 1000) + "," + Pad3(n % 1000)
  }

  /** The log's rendering of an amount, with a comma between groups of three digits. */
  function Grouped(n: int): string {
    if n < 0 then "-" + GroupedNat(-n) else GroupedNat(n)
  }

  lemma {:induction false} DigitsValueOfDigits(n: nat)
    ensures DigitsValue(Digits(n)) == n
  {
    var ds := Digits(n);
    if n < 10 {
      assert ds[..|ds| - 1] == [];
    } else {
      DigitsValueOfDigits(n / 10);
      assert ds[..|ds| - 1] == Digits(n / 10);
    }
  }

  lemma {:induction false} TrimStartKeeps(s: string)
    requires s != [] && !IsJsSpace(s[0])
    ensures TrimStart(s) == s
  {
  }

  lemma {:induction false} LeadingDigitsOfRun(d: string, junk: string)
    requires AllDigits(d)
    requires junk == [] || !IsDigit(junk[0])
    ensures LeadingDigits(d + junk) == |d|
  {
    if d != [] {
      assert (d + junk)[1..] == d[1..] + junk;
      LeadingDigitsOfRun(d[1..], junk);
    } else {
      assert d + junk == junk;
    }
  }

  /** parseInt reads back the decimal rendering of any integer, whatever
      non-digit text follows it. */
  lemma ParseIntOfDecimal(n: int, junk: string)
    requires junk == [] || !IsDigit(junk[0])
    ensures ParseInt(ToDecimal(n) + junk) == Int(n)
  {
    var m: nat := if n < 0 then -n else n;
    var s := ToDecimal(n) + junk;
    var d := Digits(m);
    TrimStartKeeps(s);
    var u := DropSign(s);
    if n < 0 {
      assert s == "-" + (d + junk);
      assert u == d + junk;
    } else {
      assert s == d + junk;
      assert u == d + junk;
    }
    LeadingDigitsOfRun(d, junk);
    assert u[..|d|] == d;
    DigitsValueOfDigits(m);
  }

  lemma {:induction false} RemoveCommasConcat(a: string, b: string)
    ensures RemoveCommas(a + b) == RemoveCommas(a) + RemoveCommas(b)
  {
    if a != [] {
      assert (a + b)[1..] == a[1..] + b;
      RemoveCommasConcat(a[1..], b);
    } else {
      assert a + b == b;
    }
  }

  lemma {:induction false} RemoveCommasOfDigits(s: string)
    requires AllDigits(s)
    ensures RemoveCommas(s) == s
  {
    if s != [] {
      RemoveCommasOfDigits(s[1..]);
      assert s == [s[0]] + s[1..];
    }
  }

  /** A number of at least four digits is its thousands followed by three padded digits. */
  lemma DigitsSplitThousands(n: nat)
    requires n >= 1000
    ensures Digits(n) == Digits(n / 1000) + Pad3(n % 1000)
  {
    var a := n / 10;
    var b := a / 10;
    var c := b / 10;
    ThousandsDigits(n);
    assert Digits(n) == Digits(a) + [DigitChar(n % 10)];
    assert Digits(a) == Digits(b) + [DigitChar(a % 10)];
    assert Digits(b) == Digits(c) + [DigitChar(b % 10)];
  }

  /** Dividing by ten three times is dividing by a thousand, and the three
      digits removed are those of the remainder. */
  lemma ThousandsDigits(n: nat)
    ensures n / 10 / 10 / 10 == n / 1000
    ensures n % 1000 / 100 == n / 10 / 10 % 10
    ensures n % 1000 / 10 % 10 == n / 10 % 10
    ensures n % 1000 % 10 == n % 10
  {
    var a := n / 10;
    var b := a / 10;
    var c := b / 10;
    assert n == 10 * a + n % 10;
    assert a == 10 * b + a % 10;
    assert b == 10 * c + b % 10;
    var r := 100 * (b % 10) + 10 * (a % 10) + n % 10;
    assert n == 1000 * c + r;
    assert 0 <= r < 1000;
    assert c == n / 1000 && r == n % 1000;
    assert r / 100 == b % 10;
    assert r / 10 == 10 * (b % 10) + a % 10;
    assert r / 10 % 10 == a % 10;
    assert r % 10 == n % 10;
  }

  lemma {:induction false} GroupedNatDigits(n: nat)
    ensures RemoveCommas(GroupedNat(n)) == Digits(n)
  {
    if n < 1000 {
      RemoveCommasOfDigits(Digits(n));
    } else {
      GroupedNatDigits(n / 1000);
      RemoveCommasConcat(GroupedNat(n / 1000) + ",", Pad3(n % 1000));
      RemoveCommasConcat(GroupedNat(n / 1000), ",");
      RemoveCommasOfDigits(Pad3(n % 1000));
      assert RemoveCommas(",") == [] by {
        assert ","[1..] == [];
      }
      DigitsSplitThousands(n);
    }
  }

  /** parseNumber reads back the comma-grouped rendering of any integer
      ("1,234,567" is 1234567, "-2,500" is -2500). */
  lemma GroupedRoundTrip(n: int)
    ensures ParseNumber(Some(Grouped(n))) == Int(n)
  {
    var m: nat := if n < 0 then -n else n;
    GroupedNatDigits(m);
    if n < 0 {
      RemoveCommasConcat("-", GroupedNat(m));
      assert RemoveCommas("-") == "-";
    }
    assert RemoveCommas(Grouped(n)) == ToDecimal(n);
    ParseIntOfDecimal(n, "");
    assert ToDecimal(n) + "" == ToDecimal(n);
  }

  /** `undefined` is 0; "1,234,567" is 1234567 and "-2,500" is -2500. */
  lemma ParseNumberExamples()
    ensures ParseNumber(None) == Int(0)
    ensures ParseNumber(Some("1,234,567")) == Int(1234567)
    ensures ParseNumber(Some("-2,500")) == Int(-2500)
  {
    GroupedRoundTrip(1234567);
    GroupedMillion();
    GroupedRoundTrip(-2500);
    GroupedThousands();
  }

  lemma GroupedMillion()
    ensures Grouped(1234567) == "1,234,567"
  {
    GroupedStep(1234, 1, 234, "1");
    GroupedStep(1234567, 1234, 567, "1,234");
  }

  lemma GroupedThousands()
    ensures Grouped(-2500) == "-2,500"
  {
    GroupedStep(2500, 2, 500, "2");
  }

  lemma GroupedStep(n: nat, hi: nat, lo: nat, g: string)
    requires n >= 1000 && n / 1000 == hi && n % 1000 == lo && GroupedNat(hi) == g
    ensures GroupedNat(n) == g + "," + [DigitChar(lo / 100), DigitChar(lo / 10 % 10), DigitChar(lo % 10)]
  {
  }

  /** Commas anywhere in the text do not change what parseNumber reads. */
  lemma {:induction false} CommasIgnored(a: string, b: string)
    ensures ParseNumber(Some(a + "," + b)) == ParseNumber(Some(a + b))
  {
    var x := a + "," + b;
    RemoveCommasConcat(a + ",", b);
    RemoveCommasConcat(a, ",");
    RemoveCommasConcat(a, b);
    assert RemoveCommas(",") == [] by {
      assert ","[1..] == [];
    }
    assert RemoveCommas(x) == RemoveCommas(a + b);
  }
}
