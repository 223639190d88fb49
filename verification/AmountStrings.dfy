/** Amounts of an asset as decimal strings, and back. */
module AmountStrings {
  import opened Options
  import opened Rounding
  import opened Amounts

  const INT64_MAX := 0x7FFF_FFFF_FFFF_FFFF

  function Power10(n: nat): (p: nat)
    ensures p > 0
  {
    if n == 0 then 1 else 10 * Power10(n - 1)
  }

  // ----- digits -----

  predicate IsDigit(c: char) {
    '0' <= c <= '9'
  }

  function DigitOf(n: nat): (c: char)
    requires n < 10
    ensures IsDigit(c)
  {
    '0' + n as char
  }

  function ValueOf(c: char): (n: nat)
    requires IsDigit(c)
    ensures n < 10
  {
    c as int - '0' as int
  }

  predicate AllDigits(s: string) {
    forall i :: 0 <= i < |s| ==> IsDigit(s[i])
  }

  /** `to_string` of a number that is not negative. */
  function Digits(n: nat): (s: string)
    ensures s != [] && AllDigits(s)
  {
    if n < 10 then [DigitOf(n)] else Digits(n / 10) + [DigitOf(n % 10)]
  }

  function IntToString(n: int): string {
    if n < 0 then "-" + Digits(-n) else Digits(n)
  }

  function ParseDigits(s: string): nat
    requires AllDigits(s)
  {
    if s == [] then 0 else 10 * ParseDigits(s[..|s| - 1]) + ValueOf(s[|s| - 1])
  }

  lemma {:induction false} DigitsRoundTrip(n: nat)
    ensures ParseDigits(Digits(n)) == n
  {
    var s := Digits(n);
    if n < 10 {
      assert s[..|s| - 1] == [];
    } else {
      DigitsRoundTrip(n / 10);
      assert s[..|s| - 1] == Digits(n / 10);
    }
  }

  /** A number with leading zeros up to a width. */
  function Fixed(n: nat, width: nat): (s: string)
    ensures |s| == width && AllDigits(s)
  {
    if width == 0 then [] else Fixed(n / 10, width - 1) + [DigitOf(n % 10)]
  }

  lemma {:induction false} FixedRoundTrip(n: nat, width: nat)
    requires n < Power10(width)
    ensures ParseDigits(Fixed(n, width)) == n
  {
    if width > 0 {
      var s := Fixed(n, width);
      FixedRoundTrip(n / 10, width - 1);
      assert s[..|s| - 1] == Fixed(n / 10, width - 1);
    }
  }

  /** The trick by which the source prints leading zeros. */
  lemma {:induction false} DigitsAfterPower(n: nat, width: nat)
    requires n < Power10(width)
    ensures Digits(Power10(width) + n) == "1" + Fixed(n, width)
  {
    if width == 0 {
      assert Digits(1) == "1";
    } else {
      var sum := Power10(width) + n;
      assert sum / 10 == Power10(width - 1) + n / 10 && sum % 10 == n % 10;
      DigitsAfterPower(n / 10, width - 1);
    }
  }

  // ----- std::stoll -----

  function DigitCount(s: string): (n: nat)
    ensures n <= |s| && AllDigits(s[..n]) && (n < |s| ==> !IsDigit(s[n]))
  {
    if s == [] || !IsDigit(s[0]) then 0 else 1 + DigitCount(s[1..])
  }

  /** Reads digits as far as there are any, after a sign; fails when there are none, and when the
      number does not fit. */
  function Stoll(s: string): Option<int> {
    var negative := s != [] && s[0] == '-';
    var rest := if negative then s[1..] else s;
    var n := DigitCount(rest);
    if n == 0 then
      None
    else
      var v := ParseDigits(rest[..n]);
      if v > INT64_MAX + (if negative then 1 else 0) then None else Some(if negative then 0 - v else v)
  }

  /** What a sign and digits come to, if there are digits and they fit. */
  function Number(negative: bool, digits: string): Option<int>
    requires AllDigits(digits)
  {
    if digits == "" then None
    else
      var v := ParseDigits(digits);
      if v > INT64_MAX + (if negative then 1 else 0) then None else Some(if negative then 0 - v else v)
  }

  /** It reads a sign and digits, whatever comes after them. */
  lemma {:induction false} StollReads(negative: bool, digits: string, rest: string)
    requires AllDigits(digits) && (rest != "" ==> !IsDigit(rest[0]))
    requires !negative && digits == "" && rest != "" ==> rest[0] != '-'
    ensures Stoll((if negative then "-" else "") + digits + rest) == Number(negative, digits)
  {
    var text := (if negative then "-" else "") + digits + rest;
    assert (if negative then text[1..] else text) == digits + rest;
    assert negative <==> text != "" && text[0] == '-';
    CountsDigits(digits, rest);
    assert (digits + rest)[..|digits|] == digits;
  }

  lemma {:induction false} CountsDigits(s: string, rest: string)
    requires AllDigits(s) && (rest != [] ==> !IsDigit(rest[0]))
    ensures DigitCount(s + rest) == |s|
  {
    if s == [] {
      assert s + rest == rest;
    } else {
      assert (s + rest)[1..] == s[1..] + rest;
      CountsDigits(s[1..], rest);
    }
  }

  // ----- printing -----

  /** Division and remainder of the source's language, towards zero. */
  function TruncatedQuotient(a: int, b: nat): int
    requires b > 0
  {
    if a >= 0 then a / b else -((-a) / b)
  }

  function TruncatedRemainder(a: int, b: nat): int
    requires b > 0
  {
    a - TruncatedQuotient(a, b) * b
  }

  function Abs(a: int): nat {
    if a < 0 then -a else a
  }

  /** `amount_to_string` */
  function AmountToString(amount: int, precision: nat): string {
    Print(amount, Power10(precision))
  }

  function Print(amount: int, scaled: nat): string
    requires scaled > 0
  {
    var whole := IntToString(TruncatedQuotient(amount, scaled));
    var decimals := Abs(TruncatedRemainder(amount, scaled));
    if decimals == 0 then
      whole
    else
      (if amount < 0 && whole == "0" then "-0" else whole) + "." + Digits(scaled + decimals)[1..]
  }

  // ----- parsing -----

  function IndexOf(s: string, c: char): (i: nat)
    ensures i <= |s| && (forall j :: 0 <= j < i ==> s[j] != c) && (i < |s| ==> s[i] == c)
  {
    if s == [] || s[0] == c then 0 else 1 + IndexOf(s[1..], c)
  }

  /** Digits, at most one sign and at most one point, in any order. */
  predicate Acceptable(s: string, negative: bool, decimal: bool) {
    s == []
    || (if IsDigit(s[0]) then Acceptable(s[1..], negative, decimal)
        else if s[0] == '-' && !negative then Acceptable(s[1..], true, decimal)
        else s[0] == '.' && !decimal && Acceptable(s[1..], negative, true))
  }

  function Padded(s: string, width: nat): string
    requires |s| <= width
    decreases width - |s|
  {
    if |s| < width then Padded(s + "0", width) else s
  }

  /** `substr(start, count)` */
  function Substring(s: string, start: nat, count: nat): string
    requires start <= |s|
  {
    s[start..Min(|s|, start + count)]
  }

  /** The substring that is read as the whole part. It starts behind the first character when there
      is a sign, and is as long as the position of the point. */
  function LeftHand(s: string): string {
    var point := IndexOf(s, '.');
    Substring(s, if '-' in s then 1 else 0, if point < |s| then point else |s|)
  }

  /** The whole part, scaled; nothing when it is empty. */
  function ScaledWhole(lhs: string, scaled: nat): Option<int> {
    if lhs == [] then
      Some(0)
    else
      match Stoll(lhs)
      case None => None
      case Some(v) => if Abs(v * scaled) > INT64_MAX then None else Some(v * scaled)
  }

  function WholePart(s: string, scaled: nat): Option<int> {
    ScaledWhole(LeftHand(s), scaled)
  }

  function DecimalPart(s: string, precision: nat): Option<int> {
    var point := IndexOf(s, '.');
    if point == |s| then
      Some(0)
    else
      var rhs := s[point + 1..];
      if |rhs| > precision then None
      else if precision == 0 then Some(0)
      else Stoll(Padded(rhs, precision))
  }

  /** What `amount_from_string` comes to. */
  function AmountFromString(s: string, precision: nat): Option<int> {
    if !Acceptable(s, false, false) then
      None
    else
      match (WholePart(s, Power10(precision)), DecimalPart(s, precision))
      case (Some(w), Some(d)) =>
        if w + d > MAX_SHARE_SUPPLY then None else Some(if '-' in s then -(w + d) else w + d)
      case _ => None
  }

  // ----- what is read -----

  /** The parts of a string: a leading sign, the characters up to the point, and those after it. */
  predicate HasSign(s: string) {
    s != "" && s[0] == '-'
  }

  function Body(s: string): string {
    if HasSign(s) then s[1..] else s
  }

  function Fraction(d: Option<string>): string {
    match d
    case None => ""
    case Some(digits) => "." + digits
  }

  /** The decimals of an amount, as the asset's precision scales them. */
  function Scaled(d: Option<string>, precision: nat): nat
    requires d.Some? ==> AllDigits(d.value) && |d.value| <= precision
  {
    match d
    case None => 0
    case Some(digits) => PaddedDigits(digits, precision); ParseDigits(Padded(digits, precision))
  }

  function DecimalsOf(d: Option<string>, precision: nat): Option<int>
    requires d.Some? ==> AllDigits(d.value)
  {
    if d.Some? && |d.value| > precision then None
    else if Scaled(d, precision) > INT64_MAX then None
    else Some(Scaled(d, precision))
  }

  /** The amount that a sign, whole digits and decimals stand for; nothing when there are too many
      decimals, or the amount is more than there may be, or a sign is followed by the point. */
  function Amount(negative: bool, whole: string, d: Option<string>, precision: nat): Option<int>
    requires AllDigits(whole) && (d.Some? ==> AllDigits(d.value))
  {
    if (d.Some? && |d.value| > precision) || (negative && whole == "" && d.Some?) then
      None
    else
      var v := ParseDigits(whole) * Power10(precision) + Scaled(d, precision);
      if v > MAX_SHARE_SUPPLY then None else Some(if negative then 0 - v else v)
  }

  lemma {:induction false} PaddedDigits(s: string, width: nat)
    requires AllDigits(s) && |s| <= width
    ensures AllDigits(Padded(s, width)) && |Padded(s, width)| == width
    decreases width - |s|
  {
    if |s| < width {
      PaddedDigits(s + "0", width);
    }
  }

  /** Where neither a sign nor a point is accepted any more there are only digits. */
  lemma {:induction false} OnlyDigits(s: string, decimal: bool)
    requires Acceptable(s, true, decimal) && (decimal || '.' !in s)
    ensures AllDigits(s)
  {
    if s != "" {
      assert s[0] in s && forall c :: c in s[1..] ==> c in s;
      OnlyDigits(s[1..], decimal);
    }
  }

  /** Where no sign is accepted any more there are digits, up to a point and behind it. */
  lemma {:induction false} SplitAtPoint(s: string) returns (whole: string, d: Option<string>)
    requires Acceptable(s, true, false)
    ensures AllDigits(whole) && (d.Some? ==> AllDigits(d.value)) && s == whole + Fraction(d)
  {
    if s == "" {
      whole, d := "", None;
    } else if s[0] == '.' {
      OnlyDigits(s[1..], true);
      whole, d := "", Some(s[1..]);
    } else {
      var rest;
      rest, d := SplitAtPoint(s[1..]);
      whole := [s[0]] + rest;
      Associates([s[0]], rest, Fraction(d));
    }
  }

  lemma {:induction false} WithoutSign(s: string, decimal: bool)
    requires Acceptable(s, false, decimal) && '-' !in s
    ensures Acceptable(s, true, decimal)
  {
    if s != "" {
      assert s[0] in s && forall c :: c in s[1..] ==> c in s;
      WithoutSign(s[1..], decimal || s[0] == '.');
    }
  }

  lemma {:induction false} DigitsAreAcceptable(a: string, b: string, negative: bool, decimal: bool)
    requires AllDigits(a)
    ensures Acceptable(a + b, negative, decimal) == Acceptable(b, negative, decimal)
  {
    if a == [] {
      assert a + b == b;
    } else {
      assert (a + b)[1..] == a[1..] + b;
      DigitsAreAcceptable(a[1..], b, negative, decimal);
    }
  }

  lemma {:induction false} FindsPoint(a: string, b: string)
    requires '.' !in a
    ensures IndexOf(a + b, '.') == |a| + IndexOf(b, '.')
  {
    if a == [] {
      assert a + b == b;
    } else {
      assert (a + b)[1..] == a[1..] + b;
      FindsPoint(a[1..], b);
    }
  }

  lemma {:induction false} AcceptsWritten(sign: string, digits: string, tail: string)
    requires (sign == "" || sign == "-") && AllDigits(digits)
    requires tail == "" || (tail[0] == '.' && AllDigits(tail[1..]))
    ensures Acceptable(sign + digits + tail, false, false)
    ensures '-' in sign + digits + tail <==> sign == "-"
    ensures IndexOf(sign + digits + tail, '.') == |sign + digits|
  {
    var s, negative := sign + digits + tail, sign == "-";
    assert Acceptable(tail, negative, false) by {
      if tail != "" {
        assert tail[1..] + "" == tail[1..];
        DigitsAreAcceptable(tail[1..], "", negative, true);
      }
    }
    DigitsAreAcceptable(digits, tail, negative, false);
    if negative {
      assert s[0] == '-' && s[1..] == digits + tail;
    } else {
      assert s == digits + tail;
    }
    FindsPoint(sign + digits, tail);
    assert forall i :: |sign| <= i < |s| ==> s[i] != '-' by {
      assert forall i :: |sign + digits| < i < |s| ==> s[i] == tail[1..][i - |sign + digits| - 1];
    }
  }

  /** With a sign the substring is shifted by one, so that it ends with the point. */
  lemma {:induction false} LeftHandIs(s: string, sign: string, digits: string, tail: string)
    requires s == sign + digits + tail && (sign == "" || sign == "-") && AllDigits(digits)
    requires (tail != "" ==> tail[0] == '.')
    requires ('-' in s <==> sign == "-") && IndexOf(s, '.') == |sign + digits|
    ensures LeftHand(s) == digits + if tail != "" && sign == "-" then "." else ""
  {
  }

  lemma {:induction false} ScaledWholeIs(digits: string, rest: string, scaled: nat)
    requires AllDigits(digits) && (rest == "" || rest == ".") && scaled > 0
    ensures ScaledWhole(digits + rest, scaled)
            == if digits == "" && rest != "" then None
               else if ParseDigits(digits) * scaled > INT64_MAX then None else Some(ParseDigits(digits) * scaled)
  {
    assert "" + digits + rest == digits + rest;
    StollReads(false, digits, rest);
    MulLe(1, scaled, ParseDigits(digits));
  }

  lemma {:induction false} DecimalPartIs(front: string, d: Option<string>, precision: nat)
    requires d.Some? ==> AllDigits(d.value)
    requires IndexOf(front + Fraction(d), '.') == |front|
    ensures DecimalPart(front + Fraction(d), precision)
            == DecimalsOf(d, precision)
  {
    if d.Some? {
      assert (front + Fraction(d))[|front| + 1..] == d.value;
      if |d.value| <= precision {
        PaddedDigits(d.value, precision);
        assert "" + Padded(d.value, precision) + "" == Padded(d.value, precision);
        StollReads(false, Padded(d.value, precision), "");
      }
    }
  }

  /** An accepted string whose only sign, if there is one, comes first is that sign, digits and
      decimals, and it is read as that; so it is refused only when it stands for no amount. */
  lemma {:induction false} ReadsAsWritten(s: string, precision: nat) returns (whole: string, d: Option<string>)
    requires Acceptable(s, false, false) && '-' !in Body(s)
    ensures AllDigits(whole) && (d.Some? ==> AllDigits(d.value))
    ensures s == (if HasSign(s) then "-" else "") + whole + Fraction(d)
    ensures AmountFromString(s, precision) == Amount(HasSign(s), whole, d, precision)
  {
    var sign, body := if HasSign(s) then "-" else "", Body(s);
    if !HasSign(s) {
      WithoutSign(s, false);
    }
    whole, d := SplitAtPoint(body);
    assert s == sign + body;
    Associates(sign, whole, Fraction(d));
    ReadsParts(HasSign(s), whole, d, precision);
  }

  lemma {:induction false} ReadsParts(negative: bool, whole: string, d: Option<string>, precision: nat)
    requires AllDigits(whole) && (d.Some? ==> AllDigits(d.value))
    ensures AmountFromString((if negative then "-" else "") + whole + Fraction(d), precision)
              == Amount(negative, whole, d, precision)
  {
    var sign, tail := if negative then "-" else "", Fraction(d);
    var s := sign + whole + tail;
    assert d.Some? ==> tail[1..] == d.value;
    AcceptsWritten(sign, whole, tail);
    LeftHandIs(s, sign, whole, tail);
    ScaledWholeIs(whole, if tail != "" && negative then "." else "", Power10(precision));
    DecimalPartIs(sign + whole, d, precision);
    SumsUp(s, negative, whole, d, precision, Power10(precision));
  }

  lemma {:induction false} SumsUp(s: string, negative: bool, whole: string, d: Option<string>, precision: nat,
                                  scaled: nat)
    requires AllDigits(whole) && (d.Some? ==> AllDigits(d.value)) && scaled == Power10(precision)
    requires Acceptable(s, false, false) && ('-' in s <==> negative)
    requires WholePart(s, scaled) == if negative && whole == "" && d.Some? then None
                                     else if ParseDigits(whole) * scaled > INT64_MAX then None
                                            else Some(ParseDigits(whole) * scaled)
    requires DecimalPart(s, precision) == DecimalsOf(d, precision)
    ensures AmountFromString(s, precision) == Amount(negative, whole, d, precision)
  {
    MulNonNeg(ParseDigits(whole), scaled);
  }

  // ----- a sign that does not come first -----

  /** What is read of the digits before the point, when there is a sign among them: the first
      character is ignored, and so is everything from the sign on, unless the sign is now first. */
  function MisreadWhole(before: string, after: string): Option<int>
    requires AllDigits(before) && AllDigits(after)
  {
    if |before| > 1 then Number(false, before[1..]) else Number(true, after)
  }

  /** What is read of the digits before the point, when the sign comes after it. */
  function WholeWithoutFirst(before: string): Option<int>
    requires AllDigits(before)
  {
    if before == "" then Some(0) else Number(false, before[1..])
  }

  /** What is read of decimals with a sign among them. */
  function MisreadDecimals(before: string, after: string, precision: nat): Option<int>
    requires AllDigits(before) && AllDigits(after)
  {
    if |before| + 1 + |after| > precision then None
    else if before != "" then Number(false, before)
    else PaddedDigits(after, precision - 1); Number(true, Padded(after, precision - 1))
  }

  /** The amount with the sign turned, if both parts could be read and it is not too large that way. */
  function Turned(whole: Option<int>, decimals: Option<int>, scaled: nat): Option<int> {
    match (whole, decimals)
    case (Some(w), Some(d)) =>
      if Abs(w * scaled) > INT64_MAX || w * scaled + d > MAX_SHARE_SUPPLY then None else Some(0 - (w * scaled + d))
    case _ => None
  }

  lemma {:induction false} TurnsSum(s: string, whole: Option<int>, decimals: Option<int>, precision: nat, scaled: nat)
    requires Acceptable(s, false, false) && '-' in s && scaled == Power10(precision)
    requires WholePart(s, scaled) == match whole
                                     case None => None
                                     case Some(w) => if Abs(w * scaled) > INT64_MAX then None else Some(w * scaled)
    requires DecimalPart(s, precision) == decimals
    ensures AmountFromString(s, precision) == Turned(whole, decimals, scaled)
  {
  }

  /** An accepted string with its sign inside, before the point. */
  lemma {:induction false} SignAmongWhole(before: string, after: string, d: Option<string>, precision: nat)
    requires before != "" && AllDigits(before) && AllDigits(after) && (d.Some? ==> AllDigits(d.value))
    ensures AmountFromString(before + "-" + after + Fraction(d), precision)
            == Turned(MisreadWhole(before, after), DecimalsOf(d, precision), Power10(precision))
  {
    var s := before + "-" + after + Fraction(d);
    InnerSignAccepted(before, after, d);
    DecimalPartIs(before + "-" + after, d, precision);
    InnerLeftHand(s, before, after, Fraction(d));
    if |before| > 1 {
      StollReads(false, before[1..], "-" + after + if d.Some? then "." else "");
    } else {
      StollReads(true, after, if d.Some? then "." else "");
    }
    assert Stoll(LeftHand(s)) == MisreadWhole(before, after);
    TurnsSum(s, MisreadWhole(before, after), DecimalPart(s, precision), precision, Power10(precision));
  }

  lemma {:induction false} InnerLeftHand(s: string, before: string, after: string, tail: string)
    requires s == before + "-" + after + tail && before != "" && '-' in s && IndexOf(s, '.') == |before + "-" + after|
    requires tail != "" ==> tail[0] == '.'
    ensures var rest := if tail != "" then "." else "";
            && LeftHand(s) != ""
            && (|before| > 1 ==> LeftHand(s) == "" + before[1..] + ("-" + after + rest))
            && (|before| == 1 ==> LeftHand(s) == "-" + after + rest)
  {
    var front, rest := before + "-" + after, if tail != "" then "." else "";
    WithoutFirst(front, tail);
    assert front[1..] == before[1..] + ("-" + after);
    Associates(before[1..], "-" + after, rest);
    assert |before| == 1 ==> before[1..] == "";
  }

  lemma {:induction false} WithoutFirst(front: string, tail: string)
    requires front != "" && (tail != "" ==> tail[0] == '.')
    ensures Substring(front + tail, 1, |front|) == front[1..] + if tail != "" then "." else ""
  {
  }

  lemma {:induction false} InnerSignAccepted(before: string, after: string, d: Option<string>)
    requires before != "" && AllDigits(before) && AllDigits(after) && (d.Some? ==> AllDigits(d.value))
    ensures var s := before + "-" + after + Fraction(d);
            && Acceptable(s, false, false) && '-' in s && IndexOf(s, '.') == |before + "-" + after|
  {
    var s, tail := before + "-" + after + Fraction(d), Fraction(d);
    assert s == before + ("-" + (after + tail));
    assert ("-" + (after + tail))[1..] == after + tail;
    assert Acceptable(tail, true, false) by {
      if d.Some? {
        assert tail[1..] == d.value && d.value + "" == d.value;
        DigitsAreAcceptable(d.value, "", true, true);
      }
    }
    DigitsAreAcceptable(after, tail, true, false);
    DigitsAreAcceptable(before, "-" + (after + tail), false, false);
    assert s[|before|] == '-';
    FindsPoint(before + "-" + after, tail);
  }

  /** An accepted string with its sign inside, after the point. */
  lemma {:induction false} SignAmongDecimals(whole: string, before: string, after: string, precision: nat)
    requires AllDigits(whole) && AllDigits(before) && AllDigits(after)
    ensures AmountFromString(whole + "." + before + "-" + after, precision)
            == Turned(WholeWithoutFirst(whole), MisreadDecimals(before, after, precision), Power10(precision))
  {
    var s := whole + "." + before + "-" + after;
    LateSignAccepted(whole, before, after);
    LateLeftHand(s, whole, before, after);
    if whole != "" {
      StollReads(false, whole[1..], ".");
    }
    if |before| + 1 + |after| <= precision {
      StollReadsDecimals(before, after, precision);
    }
    assert DecimalPart(s, precision) == MisreadDecimals(before, after, precision);
    TurnsSum(s, WholeWithoutFirst(whole), MisreadDecimals(before, after, precision), precision, Power10(precision));
  }

  lemma {:induction false} LateLeftHand(s: string, whole: string, before: string, after: string)
    requires s == whole + "." + before + "-" + after && '-' in s && IndexOf(s, '.') == |whole|
    ensures LeftHand(s) == if whole == "" then "" else "" + whole[1..] + "."
    ensures s[|whole| + 1..] == before + "-" + after
  {
  }

  lemma {:induction false} StollReadsDecimals(before: string, after: string, precision: nat)
    requires AllDigits(before) && AllDigits(after) && |before| + 1 + |after| <= precision
    ensures Stoll(Padded(before + "-" + after, precision)) == MisreadDecimals(before, after, precision)
  {
    PaddedBehind(before + "-", after, precision);
    PaddedDigits(after, precision - |before| - 1);
    StollReadsPadded(before, Padded(after, precision - |before| - 1));
  }

  lemma {:induction false} StollReadsPadded(before: string, padded: string)
    requires AllDigits(before) && AllDigits(padded)
    ensures Stoll(before + "-" + padded) == if before != "" then Number(false, before) else Number(true, padded)
  {
    if before != "" {
      assert before + "-" + padded == "" + before + ("-" + padded);
      StollReads(false, before, "-" + padded);
    } else {
      assert before + "-" + padded == "-" + padded + "";
      StollReads(true, padded, "");
    }
  }

  lemma {:induction false} LateSignAccepted(whole: string, before: string, after: string)
    requires AllDigits(whole) && AllDigits(before) && AllDigits(after)
    ensures var s := whole + "." + before + "-" + after;
            && Acceptable(s, false, false) && '-' in s && IndexOf(s, '.') == |whole|
  {
    var s, tail := whole + "." + before + "-" + after, "-" + after;
    assert s == whole + ("." + (before + tail)) && ("." + (before + tail))[1..] == before + tail;
    assert tail[1..] == after && after + "" == after;
    DigitsAreAcceptable(after, "", true, true);
    DigitsAreAcceptable(before, tail, false, true);
    DigitsAreAcceptable(whole, "." + (before + tail), false, false);
    assert s[|whole| + 1 + |before|] == '-';
    FindsPoint(whole, "." + (before + tail));
  }

  lemma {:induction false} PaddedBehind(a: string, b: string, width: nat)
    requires |a + b| <= width
    ensures Padded(a + b, width) == a + Padded(b, width - |a|)
    decreases width - |b|
  {
    if |a + b| < width {
      assert a + b + "0" == a + (b + "0");
      PaddedBehind(a, b + "0", width);
    }
  }

  /** These are all: an accepted string with a sign that does not come first is of one of the two
      forms, and read like that. */
  lemma {:induction false} MisplacedSign(s: string, precision: nat)
    returns (whole: string, before: string, after: string, d: Option<string>, late: bool)
    requires Acceptable(s, false, false) && '-' in s && s[0] != '-'
    ensures AllDigits(whole) && AllDigits(before) && AllDigits(after) && (d.Some? ==> AllDigits(d.value))
    ensures late ==>
      && s == whole + "." + before + "-" + after
      && AmountFromString(s, precision)
         == Turned(WholeWithoutFirst(whole), MisreadDecimals(before, after, precision), Power10(precision))
    ensures !late ==>
      && before != "" && s == before + "-" + after + Fraction(d)
      && AmountFromString(s, precision)
        == Turned(MisreadWhole(before, after), DecimalsOf(d, precision), Power10(precision))
  {
    var front, back := SplitAtSign(s, false);
    late := '.' in front;
    if late {
      var decimals;
      whole, decimals := SplitAtPoint(front);
      assert decimals.Some?;
      OnlyDigits(back, true);
      before, after, d := decimals.value, back, None;
      Associates(whole, ".", before);
      SignAmongDecimals(whole, before, after, precision);
    } else {
      OnlyDigits(front, false);
      whole, before := "", front;
      after, d := SplitAtPoint(back);
      Associates(before + "-", after, Fraction(d));
      SignAmongWhole(before, after, d, precision);
    }
  }

  lemma {:induction false} SplitAtSign(s: string, decimal: bool) returns (before: string, after: string)
    requires Acceptable(s, false, decimal) && '-' in s
    ensures s == before + "-" + after && (s[0] != '-' ==> before != "")
    ensures Acceptable(before, true, decimal) && Acceptable(after, true, decimal || '.' in before)
  {
    if s[0] == '-' {
      before, after := "", s[1..];
    } else {
      var rest;
      rest, after := SplitAtSign(s[1..], decimal || s[0] == '.');
      before := [s[0]] + rest;
      assert before[1..] == rest;
      Associates([s[0]], rest, "-");
      Associates([s[0]], rest + "-", after);
    }
  }

  /** Behind a digit and a sign more is read than there may be of any asset. */
  lemma {:induction false} EscapesTheLimit(first: char, digits: string)
    requires IsDigit(first) && AllDigits(digits) && MAX_SHARE_SUPPLY < ParseDigits(digits) <= INT64_MAX
    ensures AmountFromString([first] + "-" + digits, 0) == Some(ParseDigits(digits))
  {
    assert [first] + "-" + digits + Fraction(None) == [first] + "-" + digits;
    assert Power10(0) == 1;
    SignAmongWhole([first], digits, None, 0);
  }

  // ----- the round trip -----

  /** What is printed: a sign, the digits of the whole part, and the decimals if there are any. */
  function Written(negative: bool, whole: nat, decimals: nat, precision: nat): string {
    var front := (if negative then "-" else "") + Digits(whole);
    if decimals == 0 then front else front + ("." + Fixed(decimals, precision))
  }

  lemma {:induction false} QuotientIs(amount: int, scaled: nat, whole: nat, decimals: nat)
    requires scaled > 0 && decimals < scaled && Abs(amount) == whole * scaled + decimals
    ensures TruncatedQuotient(amount, scaled) == if amount < 0 then 0 - whole else whole
    ensures Abs(TruncatedRemainder(amount, scaled)) == decimals
    ensures amount < 0 && decimals == 0 ==> whole > 0
  {
    DivisionIs(Abs(amount), scaled, whole, decimals);
    assert (0 - whole) * scaled == 0 - whole * scaled;
  }

  lemma {:induction false} PrintsWritten(amount: int, scaled: nat, precision: nat, whole: nat, decimals: nat)
    requires decimals < scaled && Abs(amount) == whole * scaled + decimals
    requires Digits(scaled + decimals) == "1" + Fixed(decimals, precision)
    ensures Print(amount, scaled) == Written(amount < 0, whole, decimals, precision)
  {
    QuotientIs(amount, scaled, whole, decimals);
    SignOfZero(amount < 0, whole);
    assert Digits(scaled + decimals)[1..] == Fixed(decimals, precision);
    Associates((if amount < 0 then "-" else "") + Digits(whole), ".", Fixed(decimals, precision));
  }

  lemma {:induction false} Associates(a: string, b: string, c: string)
    ensures a + b + c == a + (b + c)
  {
  }

  /** The sign that the quotient zero does not show is written by hand. */
  lemma {:induction false} SignOfZero(negative: bool, whole: nat)
    ensures var text := IntToString(if negative then 0 - whole else whole);
            && (whole > 0 ==> text == (if negative then "-" else "") + Digits(whole) && text != "0")
            && (whole == 0 ==> text == Digits(whole) == "0" && "-" + Digits(whole) == "-0")
  {
    DigitsRoundTrip(whole);
    assert ParseDigits("0") == 0;
  }

  lemma {:induction false} ReadsWritten(negative: bool, whole: nat, decimals: nat, precision: nat, v: nat)
    requires decimals < Power10(precision) && v == whole * Power10(precision) + decimals <= MAX_SHARE_SUPPLY
    ensures AmountFromString(Written(negative, whole, decimals, precision), precision)
              == Some(if negative then 0 - v else v)
  {
    var d := Decimals(decimals, precision);
    DigitsRoundTrip(whole);
    ScaledBack(decimals, precision);
    WrittenInParts(negative, whole, decimals, precision);
    ReadsParts(negative, Digits(whole), d, precision);
    AmountIs(negative, Digits(whole), d, precision, v);
  }

  function Decimals(decimals: nat, precision: nat): (d: Option<string>)
    ensures d.Some? ==> AllDigits(d.value) && |d.value| == precision
  {
    if decimals == 0 then None else Some(Fixed(decimals, precision))
  }

  lemma {:induction false} ScaledBack(decimals: nat, precision: nat)
    requires decimals < Power10(precision)
    ensures Scaled(Decimals(decimals, precision), precision) == decimals
  {
    FixedRoundTrip(decimals, precision);
  }

  lemma {:induction false} WrittenInParts(negative: bool, whole: nat, decimals: nat, precision: nat)
    ensures Written(negative, whole, decimals, precision)
            == (if negative then "-" else "") + Digits(whole) + Fraction(Decimals(decimals, precision))
  {
  }

  lemma {:induction false} AmountIs(negative: bool, whole: string, d: Option<string>, precision: nat, v: nat)
    requires AllDigits(whole) && whole != "" && (d.Some? ==> AllDigits(d.value) && |d.value| <= precision)
    requires v == ParseDigits(whole) * Power10(precision) + Scaled(d, precision) <= MAX_SHARE_SUPPLY
    ensures Amount(negative, whole, d, precision) == Some(if negative then 0 - v else v)
  {
  }

  lemma {:induction false} Prints(amount: int, precision: nat, scaled: nat, whole: nat, decimals: nat)
    requires scaled == Power10(precision) && decimals < scaled && Abs(amount) == whole * scaled + decimals
    ensures AmountToString(amount, precision) == Written(amount < 0, whole, decimals, precision)
  {
    DigitsAfterPower(decimals, precision);
    PrintsWritten(amount, scaled, precision, whole, decimals);
  }

  lemma {:induction false} PrintedInParts(amount: int, precision: nat) returns (whole: nat, decimals: nat)
    ensures decimals < Power10(precision) && Abs(amount) == whole * Power10(precision) + decimals
    ensures AmountToString(amount, precision) == Written(amount < 0, whole, decimals, precision)
  {
    var scaled := Power10(precision);
    whole := Floor(Abs(amount), scaled);
    decimals := Abs(amount) - whole * scaled;
    Prints(amount, precision, scaled, whole, decimals);
  }

  /** Parsing what was printed gives the amount back. */
  lemma {:induction false} RoundTrip(amount: int, precision: nat)
    requires Abs(amount) <= MAX_SHARE_SUPPLY
    ensures AmountFromString(AmountToString(amount, precision), precision) == Some(amount)
  {
    var whole, decimals := PrintedInParts(amount, precision);
    ReadsWritten(amount < 0, whole, decimals, precision, Abs(amount));
  }

  // ----- the loops of amount_from_string -----

  /** Checks the characters one by one; tells whether there is a sign, and whether a point. */
  method CheckCharacters(s: string) returns (ok: bool, negative: bool, decimal: bool)
    ensures ok == Acceptable(s, false, false)
    ensures ok ==> negative == ('-' in s) && decimal == ('.' in s)
  {
    negative, decimal := false, false;
    for i := 0 to |s|
      invariant Acceptable(s, false, false) == Acceptable(s[i..], negative, decimal)
      invariant negative == ('-' in s[..i]) && decimal == ('.' in s[..i])
    {
      var c := s[i];
      assert s[i..][0] == c && s[i..][1..] == s[i + 1..];
      assert s[..i + 1] == s[..i] + [c];
      if IsDigit(c) {
        continue;
      }
      if c == '-' && !negative {
        negative := true;
        continue;
      }
      if c == '.' && !decimal {
        decimal := true;
        continue;
      }
      return false, negative, decimal;
    }
    assert s[..|s|] == s;
    ok := true;
  }

  /** `amount_from_string` */
  method ParseAmount(s: string, precision: nat) returns (r: Option<int>)
    ensures r == AmountFromString(s, precision)
  {
    var ok, negative, decimal := CheckCharacters(s);
    if !ok {
      return None;
    }
    var satoshis := 0;
    var point := IndexOf(s, '.');
    var whole := WholePart(s, Power10(precision));
    if whole.None? {
      return None;
    }
    satoshis := satoshis + whole.value;
    if decimal {
      var rhs := s[point + 1..];
      if |rhs| > precision {
        return None;
      }
      ghost var padded := Padded(rhs, precision);
      while |rhs| < precision
        invariant |rhs| <= precision && Padded(rhs, precision) == padded
      {
        rhs := rhs + "0";
      }
      if rhs != "" {
        var v := Stoll(rhs);
        if v.None? {
          return None;
        }
        satoshis := satoshis + v.value;
      }
    }
    if satoshis > MAX_SHARE_SUPPLY {
      return None;
    }
    r := Some(if negative then 0 - satoshis else satoshis);
  }
}
