/**
 * `format_number` of the terminal UI: the decimal form of a count with a
 * comma between groups of three digits, obtained by reversing the digits,
 * putting a comma after every three digits that are followed by another
 * digit, and reversing back.  A missing count shows as "0".
 */
module NumberFormat {
  import opened Wrappers

  predicate IsDigit(c: char) {
    '0' <= c <= '9'
  }

  predicate AllDigits(s: string) {
    forall i :: 0 <= i < |s| ==> IsDigit(s[i])
  }

  function Digit(d: int): (c: char)
    requires 0 <= d < 10
    ensures IsDigit(c)
  {
    ('0' as int + d) as char
  }

  /** The decimal digits of a natural number, most significant first, without leading zeros. */
  function NatToString(n: nat): (s: string)
    ensures |s| >= 1 && AllDigits(s)
    ensures n < 10 <==> |s| == 1
  {
    if n < 10 then [Digit(n)] else NatToString(n / 10) + [Digit(n % 10)]
  }

  /** Ruby's `Integer#to_s`: a minus sign before the digits of a negative number. */
  function IntToString(n: int): string {
    if n < 0 then "-" + NatToString(-n) else NatToString(n)
  }

  function Reverse(s: string): (r: string)
    ensures |r| == |s|
  {
    if s == [] then [] else Reverse(s[1..]) + [s[0]]
  }

  /** `gsub(/(\d{3})(?=\d)/, '\1,')`: scanning left to right, three digits followed by a fourth get a comma after them. */
  function GroupDigits(s: string): string
    decreases |s|
  {
    if |s| >= 4 && AllDigits(s[..4]) then s[..3] + "," + GroupDigits(s[3..])
    else if s == [] then []
    else [s[0]] + GroupDigits(s[1..])
  }

  /** `s.reverse.gsub(...).reverse` */
  function Grouped(s: string): string {
    Reverse(GroupDigits(Reverse(s)))
  }

  function FormatNumber(num: Option<int>): (text: string)
    ensures num.None? ==> text == "0"
  {
    match num
    case None => "0"
    case Some(n) => Grouped(IntToString(n))
  }

  /** The string with every comma removed. */
  function RemoveCommas(s: string): (r: string)
    ensures |r| <= |s|
  {
    if s == [] then [] else (if s[0] == ',' then [] else [s[0]]) + RemoveCommas(s[1..])
  }

  lemma {:induction false} RemoveCommasAppend(x: string, y: string)
    ensures RemoveCommas(x + y) == RemoveCommas(x) + RemoveCommas(y)
  {
    if x == [] {
      assert x + y == y;
    } else {
      assert (x + y)[1..] == x[1..] + y;
      RemoveCommasAppend(x[1..], y);
    }
  }

  lemma {:induction false} RemoveCommasNone(s: string)
    requires ',' !in s
    ensures RemoveCommas(s) == s
  {
    if s != [] {
      RemoveCommasNone(s[1..]);
      assert s == [s[0]] + s[1..];
    }
  }

  lemma {:induction false} RemoveCommasReverse(s: string)
    ensures RemoveCommas(Reverse(s)) == Reverse(RemoveCommas(s))
  {
    if s != [] {
      RemoveCommasReverse(s[1..]);
      RemoveCommasAppend(Reverse(s[1..]), [s[0]]);
      RemoveCommasAppend(if s[0] == ',' then [] else [s[0]], RemoveCommas(s[1..]));
      ReverseAppend(if s[0] == ',' then [] else [s[0]], RemoveCommas(s[1..]));
    }
  }

  /** The reversed string reads the characters from the last to the first. */
  lemma {:induction false} ReverseIndex(s: string)
    ensures forall i :: 0 <= i < |s| ==> Reverse(s)[i] == s[|s| - 1 - i]
  {
    if s != [] {
      ReverseIndex(s[1..]);
    }
  }

  lemma {:induction false} ReverseAppend(x: string, y: string)
    ensures Reverse(x + y) == Reverse(y) + Reverse(x)
  {
    if x == [] {
      assert x + y == y;
    } else {
      assert (x + y)[1..] == x[1..] + y;
      ReverseAppend(x[1..], y);
    }
  }

  lemma {:induction false} ReverseReverse(s: string)
    ensures Reverse(Reverse(s)) == s
  {
    if s != [] {
      ReverseAppend(Reverse(s[1..]), [s[0]]);
      ReverseReverse(s[1..]);
      assert Reverse([s[0]]) == [s[0]] by {
        assert [s[0]][1..] == [];
      }
      assert s == [s[0]] + s[1..];
    }
  }

  /** The substitution only inserts commas: removing them gives back a comma-free input. */
  lemma {:induction false} GroupDigitsOnlyAddsCommas(s: string)
    requires ',' !in s
    ensures RemoveCommas(GroupDigits(s)) == s
  {
    if |s| >= 4 && AllDigits(s[..4]) {
      GroupDigitsOnlyAddsCommas(s[3..]);
      RemoveCommasAppend(s[..3] + ",", GroupDigits(s[3..]));
      RemoveCommasAppend(s[..3], ",");
      RemoveCommasNone(s[..3]);
      assert s == s[..3] + s[3..];
    } else if s != [] {
      GroupDigitsOnlyAddsCommas(s[1..]);
      RemoveCommasAppend([s[0]], GroupDigits(s[1..]));
      assert s == [s[0]] + s[1..];
    }
  }

  /** The number's own digits (and sign) come back when the commas are removed. */
  lemma FormatWithoutCommas(n: int)
    ensures RemoveCommas(FormatNumber(Some(n))) == IntToString(n)
  {
    var t := IntToString(n);
    assert ',' !in t by {
      if n < 0 {
        assert t == "-" + NatToString(-n);
      }
    }
    ReverseIndex(t);
    assert ',' !in Reverse(t);
    GroupDigitsOnlyAddsCommas(Reverse(t));
    RemoveCommasReverse(GroupDigits(Reverse(t)));
    ReverseReverse(t);
  }

  /** Strings too short to hold four digits pass through the substitution unchanged. */
  lemma {:induction false} GroupDigitsShort(s: string)
    requires |s| <= 3
    ensures GroupDigits(s) == s
  {
    if s != [] {
      GroupDigitsShort(s[1..]);
      assert s == [s[0]] + s[1..];
    }
  }

  /** Below one thousand no comma is inserted. */
  lemma SmallNumbers(n: int)
    requires -1000 < n < 1000
    ensures FormatNumber(Some(n)) == IntToString(n)
  {
    var m: nat := if n < 0 then -n else n;
    var digits := NatToString(m);
    DigitCount(m);
    GroupDigitsShort(Reverse(digits));
    ReverseReverse(digits);
    if n < 0 {
      GroupedSign(digits);
    }
  }

  lemma {:induction false} DigitCount(m: nat)
    requires m < 1000
    ensures |NatToString(m)| <= 3
  {
    if m >= 10 {
      DigitCount(m / 10);
      if m >= 100 {
        assert m / 10 >= 10;
      } else {
        assert m / 10 < 10;
      }
    }
  }

  /** A character that is not a digit at the end never takes part in a match. */
  lemma {:induction false} GroupDigitsTrailing(s: string, c: char)
    requires !IsDigit(c)
    ensures GroupDigits(s + [c]) == GroupDigits(s) + [c]
    decreases |s|
  {
    var t := s + [c];
    if |s| >= 4 && AllDigits(s[..4]) {
      assert t[..4] == s[..4] && t[..3] == s[..3] && t[3..] == s[3..] + [c];
      GroupDigitsTrailing(s[3..], c);
    } else if |s| == 3 && AllDigits(s) {
      assert !IsDigit(t[3]);
      assert !AllDigits(t[..4]);
      assert t[1..] == s[1..] + [c];
      GroupDigitsTrailing(s[1..], c);
    } else if s != [] {
      if |t| >= 4 {
        assert |s| >= 4 ==> t[..4] == s[..4];
        assert |s| == 3 ==> t[..4] == s + [c] && !IsDigit(t[..4][3]);
      }
      assert t[1..] == s[1..] + [c];
      GroupDigitsTrailing(s[1..], c);
    } else {
      assert GroupDigits(t) == [c] + GroupDigits(t[1..]);
      assert t[1..] == [];
    }
  }

  /** The last three digits of a number of at least four digits, with their leading zeros. */
  function LastThree(n: nat): (s: string)
    ensures |s| == 3 && AllDigits(s)
  {
    [Digit(n / 100 % 10), Digit(n / 10 % 10), Digit(n % 10)]
  }

  lemma SplitLastThree(n: nat)
    requires n >= 1000
    ensures NatToString(n) == NatToString(n / 1000) + LastThree(n)
  {
    assert n / 10 / 10 == n / 100;
    assert n / 100 / 10 == n / 1000;
    assert n / 10 % 10 == n / 10 % 10;
    assert n / 10 >= 100 && n / 100 >= 10;
    assert NatToString(n / 100) == NatToString(n / 1000) + [Digit(n / 100 % 10)];
    assert NatToString(n / 10) == NatToString(n / 100) + [Digit(n / 10 % 10)];
  }

  /** Three digits followed by a further digit are emitted with a comma after them. */
  lemma GroupDigitsStep(d: string, rest: string)
    requires |d| == 3 && AllDigits(d) && rest != [] && IsDigit(rest[0])
    ensures GroupDigits(d + rest) == d + "," + GroupDigits(rest)
  {
    var t := d + rest;
    assert t[..4] == d + [rest[0]];
    assert t[..3] == d && t[3..] == rest;
  }

  /** Grouping the digits of a number of four or more digits. */
  lemma GroupedSplit(high: string, low: string)
    requires |low| == 3 && AllDigits(low) && high != [] && IsDigit(high[|high| - 1])
    ensures Grouped(high + low) == Grouped(high) + "," + low
  {
    ReverseAppend(high, low);
    var rl, rh := Reverse(low), Reverse(high);
    ReverseIndex(low);
    ReverseIndex(high);
    assert |rl| == 3 && AllDigits(rl);
    assert IsDigit(rh[0]);
    GroupDigitsStep(rl, rh);
    ReverseAppend(rl + ",", GroupDigits(rh));
    ReverseAppend(rl, ",");
    ReverseReverse(low);
  }

  /**
   * A number of four or more digits is its thousands, formatted the same way,
   * then a comma and its last three digits.
   */
  lemma NatGrouping(n: nat)
    requires n >= 1000
    ensures FormatNumber(Some(n)) == FormatNumber(Some(n / 1000)) + "," + LastThree(n)
  {
    SplitLastThree(n);
    var high := NatToString(n / 1000);
    assert IsDigit(high[|high| - 1]);
    GroupedSplit(high, LastThree(n));
  }

  /** A leading minus sign is the last character of the reversed string and never matches. */
  lemma {:induction false} GroupedSign(digits: string)
    ensures Grouped("-" + digits) == "-" + Grouped(digits)
  {
    var rd := Reverse(digits);
    ReverseAppend("-", digits);
    assert Reverse("-") == "-";
    assert Reverse("-" + digits) == rd + ['-'];
    GroupDigitsTrailing(rd, '-');
    ReverseAppend(GroupDigits(rd), ['-']);
    assert Reverse(['-']) == "-";
  }

  /** A negative number is formatted as its magnitude with a minus sign in front. */
  lemma NegativeGrouping(n: int)
    requires n < 0
    ensures FormatNumber(Some(n)) == "-" + FormatNumber(Some(-n))
  {
    var digits := NatToString(-n);
    calc {
      FormatNumber(Some(n));
      Grouped(IntToString(n));
      { assert IntToString(n) == "-" + digits; }
      Grouped("-" + digits);
      { GroupedSign(digits); }
      "-" + Grouped(digits);
      { assert IntToString(-n) == digits; }
      "-" + FormatNumber(Some(-n));
    }
  }
}
