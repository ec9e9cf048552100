/** Trimming, and decimal numbers. */
module Text {
  import opened Wrappers
  import opened Numbers

  predicate IsSpace(c: char) {
    || '\t' <= c <= '\r' || c == ' ' || c == '\U{85}' || c == '\U{A0}' || c == '\U{1680}'
    || '\U{2000}' <= c <= '\U{200A}' || c == '\U{2028}' || c == '\U{2029}' || c == '\U{202F}'
    || c == '\U{205F}' || c == '\U{3000}'
  }

  function Trim(s: string): string {
    if s != "" && IsSpace(s[0]) then Trim(s[1..])
    else if s != "" && IsSpace(s[|s| - 1]) then Trim(s[..|s| - 1])
    else s
  }

  predicate NoEdgeSpace(s: string) {
    s != "" ==> !IsSpace(s[0]) && !IsSpace(s[|s| - 1])
  }

  lemma {:induction false} TrimEdges(s: string)
    ensures NoEdgeSpace(Trim(s)) && (NoEdgeSpace(s) ==> Trim(s) == s)
    decreases |s|
  {
    if s != "" && IsSpace(s[0]) {
      TrimEdges(s[1..]);
    } else if s != "" && IsSpace(s[|s| - 1]) {
      TrimEdges(s[..|s| - 1]);
    }
  }

  predicate Blank(s: string) {
    forall c :: c in s ==> IsSpace(c)
  }

  /** What is trimmed is blank. */
  lemma {:induction false} TrimSplits(s: string) returns (before: string, behind: string)
    ensures s == before + Trim(s) + behind && Blank(before) && Blank(behind)
    decreases |s|
  {
    if s != "" && IsSpace(s[0]) {
      before, behind := TrimSplits(s[1..]);
      before := [s[0]] + before;
    } else if s != "" && IsSpace(s[|s| - 1]) {
      before, behind := TrimSplits(s[..|s| - 1]);
      behind := behind + [s[|s| - 1]];
    } else {
      before, behind := "", "";
    }
  }

  /** There is only one way to take blanks off both ends. */
  lemma {:induction false} TrimUnique(before: string, s: string, behind: string)
    requires Blank(before) && Blank(behind) && NoEdgeSpace(s)
    ensures Trim(before + s + behind) == s
    decreases |before| + |behind|
  {
    var all := before + s + behind;
    if before != "" {
      assert all[1..] == before[1..] + s + behind;
      TrimUnique(before[1..], s, behind);
    } else if behind != "" {
      assert behind[|behind| - 1] in behind;
      if s == "" {
        assert behind[0] in behind && all[1..] == "" + s + behind[1..];
        TrimUnique("", s, behind[1..]);
      } else {
        assert all[..|all| - 1] == "" + s + behind[..|behind| - 1];
        TrimUnique("", s, behind[..|behind| - 1]);
      }
    } else {
      assert all == s;
      TrimEdges(s);
    }
  }

  lemma TrimsToNothing(s: string)
    ensures Trim(s) == "" <==> Blank(s)
  {
    if Trim(s) == "" {
      var before, behind := TrimSplits(s);
      assert s == before + behind;
    }
    if Blank(s) {
      assert s == s + "" + "";
      TrimUnique(s, "", "");
    }
  }

  // ---------------------------------------------------------------------------
  // Unsigned 64-bit numbers
  // ---------------------------------------------------------------------------

  predicate IsDigit(c: char) {
    '0' <= c <= '9'
  }

  function Value(digits: string): nat
    requires forall c :: c in digits ==> IsDigit(c)
  {
    if digits == "" then 0
    else
      assert digits[|digits| - 1] in digits && IsDigit(digits[|digits| - 1]);
      10 * Value(digits[..|digits| - 1]) + (digits[|digits| - 1] as int - '0' as int)
  }

  /** `str::parse::<u64>`: digits, after a plus sign at most, with no overflow. */
  function ParseU64(s: string): Option<nat> {
    var digits := if s != "" && s[0] == '+' then s[1..] else s;
    if digits == "" || exists c :: c in digits && !IsDigit(c) then None
    else if Value(digits) < U64_LIMIT then Some(Value(digits))
    else None
  }

  function Decimal(n: nat): (digits: string)
    ensures digits != "" && forall c :: c in digits ==> IsDigit(c)
  {
    if n < 10 then [('0' as int + n) as char] else Decimal(n / 10) + [('0' as int + n % 10) as char]
  }

  lemma {:induction false} DecimalValue(n: nat)
    ensures Value(Decimal(n)) == n
  {
    if n >= 10 {
      var init := Decimal(n / 10);
      assert Decimal(n)[..|Decimal(n)| - 1] == init;
      DecimalValue(n / 10);
    }
  }

  lemma ParseDecimal(n: nat)
    ensures ParseU64(Decimal(n)) == if n < U64_LIMIT then Some(n) else None
    ensures NoEdgeSpace(Decimal(n)) && ',' !in Decimal(n) && '-' !in Decimal(n)
  {
    var digits := Decimal(n);
    assert digits[0] in digits && digits[|digits| - 1] in digits;
    DecimalValue(n);
  }

  predicate Zeros(s: string) {
    forall c :: c in s ==> c == '0'
  }

  lemma {:induction false} ZerosDoNotCount(zeros: string, digits: string)
    requires Zeros(zeros) && forall c :: c in digits ==> IsDigit(c)
    ensures Value(zeros + digits) == Value(digits)
    decreases |zeros| + |digits|
  {
    if digits != "" {
      assert (zeros + digits)[..|zeros + digits| - 1] == zeros + digits[..|digits| - 1];
      ZerosDoNotCount(zeros, digits[..|digits| - 1]);
    } else if zeros != "" {
      var init := zeros[..|zeros| - 1];
      assert zeros[|zeros| - 1] in zeros && forall c :: c in init ==> c in zeros;
      assert init + "" == init && zeros + digits == zeros;
      ZerosDoNotCount(init, "");
    } else {
      assert zeros + digits == "";
    }
  }

  lemma LastDigit(init: string, last: char)
    requires IsDigit(last) && forall c :: c in init ==> IsDigit(c)
    ensures Value(init + [last]) == 10 * Value(init) + (last as int - '0' as int)
    ensures Decimal(Value(init + [last])) == (if Value(init) == 0 then "" else Decimal(Value(init))) + [last]
  {
    assert (init + [last])[..|init|] == init;
  }

  lemma {:induction false} DigitsSplit(digits: string) returns (zeros: string)
    requires digits != "" && forall c :: c in digits ==> IsDigit(c)
    ensures Zeros(zeros) && digits == zeros + Decimal(Value(digits))
  {
    var init, last := digits[..|digits| - 1], digits[|digits| - 1];
    assert last in digits && digits == init + [last];
    LastDigit(init, last);
    if init == "" {
      zeros := "";
    } else {
      zeros := DigitsSplit(init);
      if Value(init) == 0 {
        zeros := init;
      }
    }
  }

  /** A numeral: a plus sign or none, any zeros, and the number as it is printed. */
  predicate IsNumeral(s: string, sign: string, zeros: string, n: nat) {
    (sign == "" || sign == "+") && Zeros(zeros) && s == sign + zeros + Decimal(n)
  }

  ghost predicate Numeral(s: string, n: nat) {
    exists sign, zeros :: IsNumeral(s, sign, zeros, n)
  }

  lemma ZerosThenDigits(zeros: string, n: nat)
    requires Zeros(zeros)
    ensures forall c :: c in zeros + Decimal(n) ==> IsDigit(c)
    ensures Value(zeros + Decimal(n)) == n
  {
    ZerosDoNotCount(zeros, Decimal(n));
    DecimalValue(n);
  }

  lemma DigitsOfNumeral(s: string, sign: string, zeros: string, n: nat)
    requires IsNumeral(s, sign, zeros, n)
    ensures s != "" && (if s[0] == '+' then s[1..] else s) == zeros + Decimal(n)
  {
    var digits := zeros + Decimal(n);
    ZerosThenDigits(zeros, n);
    assert digits[0] in digits && IsDigit(digits[0]);
    assert s == sign + digits;
  }

  lemma SignedIsNumeral(sign: string, digits: string)
    requires (sign == "" || sign == "+") && digits != "" && forall c :: c in digits ==> IsDigit(c)
    ensures Numeral(sign + digits, Value(digits))
  {
    var zeros := DigitsSplit(digits);
    assert sign + (zeros + Decimal(Value(digits))) == sign + zeros + Decimal(Value(digits));
    assert IsNumeral(sign + digits, sign, zeros, Value(digits));
  }

  lemma ParsedIsNumeral(s: string)
    ensures ParseU64(s).Some? ==> Numeral(s, ParseU64(s).value) && ParseU64(s).value < U64_LIMIT
  {
    if ParseU64(s).Some? {
      if s[0] == '+' {
        assert s == "+" + s[1..];
        SignedIsNumeral("+", s[1..]);
      } else {
        assert s == "" + s;
        SignedIsNumeral("", s);
      }
    }
  }

  /** Exactly the numerals below the limit are read, as their numbers. */
  lemma ParseU64Exactly(s: string, n: nat)
    ensures ParseU64(s) == Some(n) <==> Numeral(s, n) && n < 0x1_0000_0000_0000_0000
  {
    ParsedIsNumeral(s);
    if sign, zeros :| IsNumeral(s, sign, zeros, n) {
      DigitsOfNumeral(s, sign, zeros, n);
      ZerosThenDigits(zeros, n);
    }
  }
}
