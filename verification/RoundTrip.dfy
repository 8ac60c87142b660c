// What the parser reads back from what the printer sends out.
module RoundTrip {
  import opened Limits
  import opened Strtoul
  import opened Ntoa

  // ---------- Digits and their value ----------

  ghost predicate AllDigits(s: seq<char>, base: nat) {
    forall k :: 0 <= k < |s| ==> IsDigitOf(s[k], base)
  }

  function Zeros(n: nat): (r: seq<char>)
    ensures |r| == n && forall k :: 0 <= k < n ==> r[k] == '0'
  {
    if n == 0 then [] else ['0'] + Zeros(n - 1)
  }

  lemma DigitCharValue(d: nat, uppercase: bool)
    requires d < 36
    ensures DigitValue(DigitChar(d, uppercase)) == d
  {
  }

  // Printing a value digit by digit keeps the value.
  lemma {:induction false} DigitsValue(value: nat, base: nat, uppercase: bool)
    requires 2 <= base <= 36
    ensures Value(Reverse(RevDigits(value, base, uppercase)), base) == value
    ensures AllDigits(RevDigits(value, base, uppercase), base)
    decreases value
  {
    var d := DigitChar(value % base, uppercase);
    Quotient(value, base);
    OneDigit(value, base, uppercase);
    DigitCharValue(value % base, uppercase);
    if value < base {
      assert Reverse([d]) == [d];
      assert [d][..0] == [];
    } else {
      var rest := RevDigits(value / base, base, uppercase);
      DigitsValue(value / base, base, uppercase);
      ReverseCons(d, rest);
      assert (Reverse(rest) + [d])[..|rest|] == Reverse(rest);
    }
  }

  lemma {:induction false} LeadingZeros(n: nat, s: seq<char>, base: nat)
    ensures Value(Zeros(n) + s, base) == Value(s, base)
    decreases n + |s|
  {
    var all := Zeros(n) + s;
    if s == [] {
      if n > 0 {
        ZerosSnoc(n - 1);
        assert all[..n - 1] == Zeros(n - 1) + [];
        LeadingZeros(n - 1, [], base);
      }
    } else {
      assert all[..|all| - 1] == Zeros(n) + s[..|s| - 1];
      LeadingZeros(n, s[..|s| - 1], base);
    }
  }

  lemma ZerosSnoc(n: nat)
    ensures Zeros(n + 1) == Zeros(n) + ['0']
  {
  }

  function Pow8(n: nat): nat { if n == 0 then 1 else 8 * Pow8(n - 1) }

  // A value below a power of 8 has few digits in any base from 8 on.
  lemma {:induction false} DigitCount(value: nat, base: nat, uppercase: bool, n: nat)
    requires 8 <= base <= 36 && n > 0 && value < Pow8(n)
    ensures |RevDigits(value, base, uppercase)| <= n
    decreases value
  {
    OneDigit(value, base, uppercase);
    QuotientBound(value, base);
    if value / base != 0 {
      assert n != 1;
      DigitCount(value / base, base, uppercase, n - 1);
    }
  }

  lemma QuotientBound(value: nat, base: nat)
    requires base >= 8
    ensures value / base * 8 <= value
  {
    Quotient(value, base);
    var q := value / base;
    assert q * 8 <= q * base;
  }

  lemma WordFits(value: nat, base: nat, uppercase: bool)
    requires value < ULONG_LIMIT && 8 <= base <= 36
    ensures |RevDigits(value, base, uppercase)| <= 22
  {
    assert Pow8(4) == 4096;
    assert Pow8(8) == 4096 * 4096;
    assert Pow8(12) == 4096 * 4096 * 4096;
    assert Pow8(16) == 4096 * 4096 * 4096 * 4096;
    assert Pow8(20) == 4096 * 4096 * 4096 * 4096 * 4096;
    assert Pow8(22) == 64 * Pow8(20);
    DigitCount(value, base, uppercase, 22);
  }

  // ---------- Parsing blanks, a sign, digits and blanks ----------

  ghost predicate IsSign(sign: seq<char>) {
    sign == [] || sign == ['-'] || sign == ['+'] || sign == [' ']
  }

  function Shape(before: nat, sign: seq<char>, digits: seq<char>, after: nat): seq<char> {
    Spaces(before) + sign + digits + Spaces(after) + ['\0']
  }

  lemma SpacesEndIs(s: seq<char>, i: nat, j: nat)
    requires i <= j <= |s| && (forall k :: i <= k < j ==> IsSpace(s[k])) && (j < |s| ==> !IsSpace(s[j]))
    ensures SpacesEnd(s, i) == j
    decreases j - i
  {
  }

  lemma DigitsEndIs(s: seq<char>, base: nat, i: nat, j: nat)
    requires i <= j <= |s| && (forall k :: i <= k < j ==> IsDigitOf(s[k], base)) && (j < |s| ==> !IsDigitOf(s[j], base))
    ensures DigitsEnd(s, base, i) == j
    decreases j - i
  {
  }

  lemma ShapeParts(before: nat, sign: seq<char>, digits: seq<char>, after: nat)
    requires IsSign(sign)
    ensures
      var s, from, till := Shape(before, sign, digits, after), before + |sign|, before + |sign| + |digits|;
      && |s| == till + after + 1 && s[|s| - 1] == '\0'
      && (forall k :: 0 <= k < before ==> s[k] == ' ')
      && (sign != [] ==> s[before] == sign[0])
      && s[from..till] == digits
      && s[till] == if after > 0 then ' ' else '\0'
  {
  }

  // Where the parser finds the number: after the blanks and the sign, and up to the next blank.
  lemma ParseAt(s: seq<char>, before: nat, sign: seq<char>, till: nat, base: nat)
    requires IsSign(sign) && CString(s) && 2 <= base <= 35 && before + |sign| < till < |s|
    requires forall k :: 0 <= k < before ==> s[k] == ' '
    requires sign != [] ==> s[before] == sign[0]
    requires forall k :: before + |sign| <= k < till ==> IsDigitOf(s[k], base)
    requires s[till] == ' ' || s[till] == '\0'
    ensures Locate(s, base) == Numeral(sign == ['-'], base, before + |sign|, till)
  {
    var from := before + |sign|;
    PrefixAt(s, before, sign, till, base);
    DigitsEndIs(s, base, from, till);
  }

  lemma PrefixAt(s: seq<char>, before: nat, sign: seq<char>, till: nat, base: nat)
    requires IsSign(sign) && CString(s) && 2 <= base <= 35 && before + |sign| < till < |s|
    requires forall k :: 0 <= k < before ==> s[k] == ' '
    requires sign != [] ==> s[before] == sign[0]
    requires forall k :: before + |sign| <= k < till ==> IsDigitOf(s[k], base)
    requires s[till] == ' ' || s[till] == '\0'
    ensures Prefix(s, base) == (sign == ['-'], base, before + |sign|)
  {
    var from := before + |sign|;
    assert IsDigitOf(s[from], base);
    SpacesEndIs(s, 0, if sign == [' '] then from else before);
    assert from + 1 < till ==> IsDigitOf(s[from + 1], base);
    assert base == 16 ==> !HasHexPrefix(s, from);
  }

  lemma ParseShape(before: nat, sign: seq<char>, digits: seq<char>, after: nat, base: nat)
    requires IsSign(sign) && digits != [] && AllDigits(digits, base) && 2 <= base <= 35
    ensures
      var s := Shape(before, sign, digits, after);
      CString(s) && Locate(s, base) == Numeral(sign == ['-'], base, before + |sign|, before + |sign| + |digits|)
    ensures
      var s := Shape(before, sign, digits, after);
      s[before + |sign|..before + |sign| + |digits|] == digits
  {
    var s, from := Shape(before, sign, digits, after), before + |sign|;
    ShapeParts(before, sign, digits, after);
    forall k | from <= k < from + |digits| ensures IsDigitOf(s[k], base) {
      assert s[k] == digits[k - from];
    }
    ParseAt(s, before, sign, from + |digits|, base);
  }

  // Without digits there is nothing to find, and the result is 0.
  lemma ParseNothing(before: nat, sign: seq<char>, after: nat, base: nat)
    requires IsSign(sign) && 2 <= base <= 35
    ensures
      var s := Shape(before, sign, [], after);
      CString(s) && Locate(s, base).till == Locate(s, base).from && Result(s, base) == 0
  {
    var s := Shape(before, sign, [], after);
    assert forall k :: 0 <= k < |s| && k != before ==> s[k] == ' ' || k == |s| - 1;
    if sign == ['-'] || sign == ['+'] {
      SpacesEndIs(s, 0, before);
      DigitsEndIs(s, base, before + 1, before + 1);
    } else {
      SpacesEndIs(s, 0, |s| - 1);
      DigitsEndIs(s, base, |s| - 1, |s| - 1);
    }
  }

  // ---------- The round trip ----------

  lemma PadZerosIs(buf: seq<char>, n: nat)
    requires |buf| <= BUFFER_SIZE
    ensures
      var m := if n < BUFFER_SIZE then n else BUFFER_SIZE;
      PadZeros(buf, n) == buf + Zeros(if |buf| < m then m - |buf| else 0)
    decreases n - |buf|
  {
    if |buf| < n && |buf| < BUFFER_SIZE {
      PadZerosIs(buf + ['0'], n);
    }
  }

  lemma {:induction false} ReverseAppend(a: seq<char>, b: seq<char>)
    ensures Reverse(a + b) == Reverse(b) + Reverse(a)
  {
    if a == [] {
      assert a + b == b;
    } else {
      ReverseAppend(a[1..], b);
      assert (a + b)[1..] == a[1..] + b;
    }
  }

  lemma ReverseZeros(n: nat)
    ensures Reverse(Zeros(n)) == Zeros(n)
  {
  }

  // The sign that is printed when there is room for it.
  function SignOf(negative: bool, flags: Flags): seq<char> {
    if negative then ['-'] else if flags.plus then ['+'] else if flags.space then [' '] else []
  }

  function PaddedLength(value: nat, negative: bool, base: nat, prec: nat, width: nat, flags: Flags): nat
    requires 2 <= base <= 36
  {
    |Padded(Digits(value, base, flags), negative, prec, width, flags)|
  }

  lemma PaddedIs(digits: seq<char>, negative: bool, prec: nat, width: nat, flags: Flags) returns (n: nat)
    requires |digits| <= BUFFER_SIZE
    ensures Padded(digits, negative, prec, width, flags) == digits + Zeros(n)
    ensures |digits| + n <= BUFFER_SIZE
    ensures
      && |digits| < BUFFER_SIZE
      && (flags.left || (prec < BUFFER_SIZE && (flags.zeropad ==> PadWidth(negative, width, flags) < BUFFER_SIZE))) ==>
      |digits| + n < BUFFER_SIZE
  {
    n := 0;
    if !flags.left {
      PadZerosIs(digits, prec);
      var precise := PadZeros(digits, prec);
      n := |precise| - |digits|;
      if flags.zeropad {
        PadZerosIs(precise, PadWidth(negative, width, flags));
        var more := |PadZeros(precise, PadWidth(negative, width, flags))| - |precise|;
        ZerosAppend(n, more);
        assert digits + Zeros(n) + Zeros(more) == digits + (Zeros(n) + Zeros(more));
        n := n + more;
      }
    }
  }

  lemma ZerosAppend(m: nat, n: nat)
    ensures Zeros(m) + Zeros(n) == Zeros(m + n)
  {
  }

  // The sign that found room in the buffer.
  function SignPrinted(value: nat, negative: bool, base: nat, prec: nat, width: nat, flags: Flags): (sign: seq<char>)
    requires 2 <= base <= 36
    ensures IsSign(sign)
  {
    if PaddedLength(value, negative, base, prec, width, flags) < BUFFER_SIZE then SignOf(negative, flags) else []
  }

  lemma PlainBuffer(value: nat, negative: bool, base: nat, prec: nat, width: nat, flags: Flags)
    requires 2 <= base <= 36 && (!flags.hash || value == 0)
    ensures Buffer(value, negative, base, prec, width, flags) ==
            WithSign(Padded(Digits(value, base, flags), negative, prec, width, flags), negative, flags)
  {
  }

  lemma ReverseParts(a: seq<char>, b: seq<char>, c: seq<char>)
    ensures Reverse(a + b + c) == Reverse(c) + (Reverse(b) + Reverse(a))
  {
    ReverseAppend(a + b, c);
    ReverseAppend(a, b);
  }

  lemma ReverseShort(s: seq<char>)
    requires |s| <= 1
    ensures Reverse(s) == s
  {
  }

  lemma BufferShape(value: nat, negative: bool, base: nat, prec: nat, width: nat, flags: Flags) returns (n: nat)
    requires 2 <= base <= 36 && (!flags.hash || value == 0)
    ensures Reverse(Buffer(value, negative, base, prec, width, flags)) ==
            SignPrinted(value, negative, base, prec, width, flags) + (Zeros(n) + Reverse(Digits(value, base, flags)))
  {
    var digits, sign := Digits(value, base, flags), SignPrinted(value, negative, base, prec, width, flags);
    n := PaddedIs(digits, negative, prec, width, flags);
    PlainBuffer(value, negative, base, prec, width, flags);
    SignAppended(digits + Zeros(n), negative, flags);
    ReverseParts(digits, Zeros(n), sign);
    ReverseZeros(n);
    ReverseShort(sign);
  }

  lemma SignAppended(buf: seq<char>, negative: bool, flags: Flags)
    requires |buf| <= BUFFER_SIZE
    ensures WithSign(buf, negative, flags) == buf + if |buf| < BUFFER_SIZE then SignOf(negative, flags) else []
  {
  }

  lemma FieldShape(buf: seq<char>, width: nat, flags: Flags) returns (before: nat, after: nat)
    ensures Field(buf, width, flags) == Spaces(before) + Reverse(buf) + Spaces(after)
  {
    before := if !flags.left && !flags.zeropad then |Spaces(width - |buf|)| else 0;
    after := if flags.left then |Spaces(width - |buf|)| else 0;
    SpacesLength(width - |buf|);
  }

  // Without a base prefix, what is sent out are blanks, the sign, zeros, the digits, and blanks.
  lemma RenderedShape(value: nat, negative: bool, base: nat, prec: nat, width: nat, flags: Flags)
    returns (before: nat, n: nat, after: nat)
    requires 2 <= base <= 36 && (!flags.hash || value == 0)
    ensures
      Rendered(value, negative, base, prec, width, flags) + ['\0'] ==
      Shape(before, SignPrinted(value, negative, base, prec, width, flags),
            Zeros(n) + Reverse(Digits(value, base, flags)), after)
  {
    n := BufferShape(value, negative, base, prec, width, flags);
    before, after := FieldShape(Buffer(value, negative, base, prec, width, flags), PadWidth(negative, width, flags),
                                flags);
    Regroup(Spaces(before), SignPrinted(value, negative, base, prec, width, flags),
            Zeros(n) + Reverse(Digits(value, base, flags)), Spaces(after));
  }

  lemma Regroup(a: seq<char>, b: seq<char>, c: seq<char>, d: seq<char>)
    ensures a + (b + c) + d + ['\0'] == a + b + c + d + ['\0']
  {
  }

  lemma SpacesLength(n: int)
    ensures Spaces(|Spaces(n)|) == Spaces(n) && Spaces(0) == []
  {
  }

  // What printing is meant to say: the value, or its negation modulo 2^64.
  function Intended(value: nat, negative: bool): nat {
    if negative then (ULONG_LIMIT - value) % ULONG_LIMIT else value
  }

  // The sign is lost when zeros fill the whole buffer.
  predicate SignLost(negative: bool, prec: nat, width: nat, flags: Flags) {
    negative && !flags.left && (prec >= 32 || (flags.zeropad && width >= 33))
  }

  lemma BufferFullIff(value: nat, base: nat, prec: nat, width: nat, flags: Flags)
    requires value < ULONG_LIMIT && 8 <= base <= 36
    ensures PaddedLength(value, true, base, prec, width, flags) == BUFFER_SIZE <==> SignLost(true, prec, width, flags)
  {
    var digits := Digits(value, base, flags);
    WordFits(value, base, flags.uppercase);
    PadZerosIs(digits, prec);
    PadZerosIs(PadZeros(digits, prec), PadWidth(true, width, flags));
  }

  // Reading back what was printed gives the value, with the sign that found room in the buffer.
  lemma ReadBack(value: nat, negative: bool, base: nat, prec: nat, width: nat, flags: Flags)
    requires value < ULONG_LIMIT && 8 <= base <= 35 && (!flags.hash || value == 0)
    ensures
      var s := Rendered(value, negative, base, prec, width, flags) + ['\0'];
      CString(s) && Parsed(s, base) ==
        Intended(value, negative && !SignLost(negative, prec, width, flags))
  {
    var before, n, after := RenderedShape(value, negative, base, prec, width, flags);
    var body := Zeros(n) + Reverse(Digits(value, base, flags));
    BodyValue(value, base, n, flags);
    ReadShape(before, SignPrinted(value, negative, base, prec, width, flags), body, after, base);
    var n' := PaddedIs(Digits(value, base, flags), negative, prec, width, flags);
    if negative {
      BufferFullIff(value, base, prec, width, flags);
    }
  }

  lemma BodyValue(value: nat, base: nat, n: nat, flags: Flags)
    requires value < ULONG_LIMIT && 8 <= base <= 35
    ensures
      var body := Zeros(n) + Reverse(Digits(value, base, flags));
      AllDigits(body, base) && Value(body, base) == value
  {
    var digits := Digits(value, base, flags);
    WordFits(value, base, flags.uppercase);
    DigitsValue(value, base, flags.uppercase);
    LeadingZeros(n, Reverse(digits), base);
  }

  lemma ReadShape(before: nat, sign: seq<char>, body: seq<char>, after: nat, base: nat)
    requires IsSign(sign) && AllDigits(body, base) && 2 <= base <= 35 && Value(body, base) < ULONG_LIMIT
    ensures
      var s := Shape(before, sign, body, after);
      CString(s) && Parsed(s, base) == Intended(Value(body, base), sign == ['-'])
  {
    ShapeAgrees(before, sign, body, after, base);
    if body == [] {
      ParseNothing(before, sign, after, base);
    } else {
      ReadDigits(before, sign, body, after, base);
    }
  }

  lemma ReadDigits(before: nat, sign: seq<char>, body: seq<char>, after: nat, base: nat)
    requires IsSign(sign) && body != [] && AllDigits(body, base) && 2 <= base <= 35 && Value(body, base) < ULONG_LIMIT
    ensures
      var s := Shape(before, sign, body, after);
      CString(s) && Result(s, base) == Intended(Value(body, base), sign == ['-'])
  {
    var s, from := Shape(before, sign, body, after), before + |sign|;
    ParseShape(before, sign, body, after, base);
    ResultFrom(s, base, Numeral(sign == ['-'], base, from, from + |body|), body);
  }

  lemma ResultFrom(s: seq<char>, base: nat, n: Numeral, digits: seq<char>)
    requires CString(s) && Locate(s, base) == n && s[n.from..n.till] == digits && Value(digits, n.base) < ULONG_LIMIT
    ensures Result(s, base) == Intended(Value(digits, n.base), n.negative)
  {
  }

  // In what is printed the code and the standard see the same number.
  lemma ShapeAgrees(before: nat, sign: seq<char>, body: seq<char>, after: nat, base: nat)
    requires IsSign(sign) && AllDigits(body, base) && 2 <= base <= 35
    ensures
      var s := Shape(before, sign, body, after);
      CString(s) && Parsed(s, base) == Result(s, base)
  {
    var s, from := Shape(before, sign, body, after), before + |sign|;
    ShapeParts(before, sign, body, after);
    forall k | 0 <= k < |s| ensures s[k] == ' ' || !IsSpace(s[k]) {
      assert from <= k < from + |body| ==> s[k] == body[k - from] && IsDigitOf(body[k - from], base);
      assert from + |body| <= k < |s| - 1 ==> s[k] == Spaces(after)[k - from - |body|];
    }
    RightIff(s, base);
  }

  // The round trip fails exactly when the sign is lost and the value differs from its negation.
  lemma RoundTripIff(value: nat, negative: bool, base: nat, prec: nat, width: nat, flags: Flags)
    requires value < ULONG_LIMIT && 8 <= base <= 35 && (!flags.hash || value == 0)
    ensures
      Parsed(Rendered(value, negative, base, prec, width, flags) + ['\0'], base) == Intended(value, negative) <==>
      !SignLost(negative, prec, width, flags) || value == 0 || value == ULONG_LIMIT / 2
  {
    ReadBack(value, negative, base, prec, width, flags);
    NegationFixed(value);
  }

  lemma NegationFixed(value: nat)
    requires value < ULONG_LIMIT
    ensures Intended(value, true) == value <==> value == 0 || value == ULONG_LIMIT / 2
  {
  }

  // An instance: -1 printed with %033d is read back as 1.
  lemma MinusOneLost()
    ensures Parsed(Rendered(1, true, 10, 0, 33, ZeroPadded()) + ['\0'], 10) == 1 != Intended(1, true)
  {
    ReadBack(1, true, 10, 0, 33, ZeroPadded());
  }

  function ZeroPadded(): Flags { Flags(true, false, false, false, false, false, false) }

  // ---------- With a base prefix ----------

  function BasePrefix(base: nat, uppercase: bool): seq<char> {
    if base == 16 then ['0', if uppercase then 'X' else 'x'] else ['0']
  }

  lemma HashBuffer(value: nat, negative: bool, base: nat, flags: Flags)
    requires 0 < value < ULONG_LIMIT && (base == 8 || base == 16) && flags.hash && !flags.precision
    ensures Buffer(value, negative, base, 0, 0, flags) ==
            RevDigits(value, base, flags.uppercase) + Reverse(BasePrefix(base, flags.uppercase)) +
            SignOf(negative, flags)
  {
    var digits := RevDigits(value, base, flags.uppercase);
    WordFits(value, base, flags.uppercase);
    HashAppended(digits, base, flags);
    SignAppended(digits + Reverse(BasePrefix(base, flags.uppercase)), negative, flags);
  }

  lemma HashAppended(digits: seq<char>, base: nat, flags: Flags)
    requires 0 < |digits| <= 22 && (base == 8 || base == 16) && flags.hash
    ensures WithHash(digits, base, 0, 0, flags) == digits + Reverse(BasePrefix(base, flags.uppercase))
    ensures |Reverse(BasePrefix(base, flags.uppercase))| <= 2
  {
    var mark := if flags.uppercase then 'X' else 'x';
    var prefix := BasePrefix(base, flags.uppercase);
    assert Reverse(prefix) == if base == 16 then [mark, '0'] else ['0'];
    assert digits + [mark] + ['0'] == digits + [mark, '0'];
  }

  lemma HashShape(value: nat, negative: bool, base: nat, flags: Flags)
    requires 0 < value < ULONG_LIMIT && (base == 8 || base == 16) && flags.hash && !flags.precision
    ensures Rendered(value, negative, base, 0, 0, flags) ==
            SignOf(negative, flags) +
            (BasePrefix(base, flags.uppercase) + Reverse(RevDigits(value, base, flags.uppercase)))
  {
    HashBuffer(value, negative, base, flags);
    ReverseParts(RevDigits(value, base, flags.uppercase), Reverse(BasePrefix(base, flags.uppercase)),
                 SignOf(negative, flags));
    ReverseShort(SignOf(negative, flags));
    ReverseTwice(BasePrefix(base, flags.uppercase));
    NoBlanks(Buffer(value, negative, base, 0, 0, flags), flags);
  }

  lemma ReverseTwice(s: seq<char>)
    ensures Reverse(Reverse(s)) == s
  {
  }

  lemma NoBlanks(buf: seq<char>, flags: Flags)
    ensures Field(buf, 0, flags) == Reverse(buf)
  {
  }

  lemma ParsePrefixed(sign: seq<char>, base: nat, uppercase: bool, digits: seq<char>)
    requires IsSign(sign) && (base == 8 || base == 16) && digits != [] && AllDigits(digits, base)
    ensures
      var s := sign + (BasePrefix(base, uppercase) + digits) + ['\0'];
      var from := |sign| + if base == 16 then 2 else 0;
      && CString(s) && OnlyBlanks(s) && !BareX(s, 0) && Locate(s, 0) == Numeral(sign == ['-'], base, from, |s| - 1)
      && s[from..|s| - 1] == if base == 16 then digits else ['0'] + digits
  {
    var s := sign + (BasePrefix(base, uppercase) + digits) + ['\0'];
    var from := |sign| + if base == 16 then 2 else 0;
    var body := if base == 16 then digits else ['0'] + digits;
    PrefixedParts(sign, base, uppercase, digits);
    RunOfDigits(s, base, from, |s| - 1, body);
    PrefixRead(s, sign, base);
  }

  lemma RunOfDigits(s: seq<char>, base: nat, from: nat, till: nat, digits: seq<char>)
    requires from <= till < |s| && s[from..till] == digits && AllDigits(digits, base) && !IsDigitOf(s[till], base)
    ensures DigitsEnd(s, base, from) == till
    ensures digits != [] ==> IsDigitOf(s[from], base)
  {
    forall k | from <= k < till ensures IsDigitOf(s[k], base) {
      assert s[k] == digits[k - from];
    }
    DigitsEndIs(s, base, from, till);
  }

  lemma PrefixedParts(sign: seq<char>, base: nat, uppercase: bool, digits: seq<char>)
    requires base == 8 || base == 16
    ensures
      var s := sign + (BasePrefix(base, uppercase) + digits) + ['\0'];
      var from := |sign| + if base == 16 then 2 else 0;
      && |s| == |sign| + |BasePrefix(base, uppercase)| + |digits| + 1 && s[|s| - 1] == '\0'
      && s[..|sign|] == sign && s[|sign|] == '0' && (base == 16 ==> s[|sign| + 1] == if uppercase then 'X' else 'x')
      && s[from..|s| - 1] == if base == 16 then digits else ['0'] + digits
  {
    var prefix := BasePrefix(base, uppercase);
    var s := sign + (prefix + digits) + ['\0'];
    assert s[|sign|..|s| - 1] == prefix + digits;
    if base == 16 {
      assert s[|sign| + 2..|s| - 1] == (prefix + digits)[2..] == digits;
    }
  }

  // What the parser makes of the start of a prefixed number.
  lemma PrefixRead(s: seq<char>, sign: seq<char>, base: nat)
    requires IsSign(sign) && CString(s) && |s| >= |sign| + 2 && (base == 8 || base == 16)
    requires s[..|sign|] == sign && s[|sign|] == '0'
    requires
      var c := s[|sign| + 1];
      if base == 16 then c == 'x' || c == 'X' else IsDigitOf(c, 8) || c == '\0'
    requires base == 16 ==> |s| > |sign| + 2 && IsDigitOf(s[|sign| + 2], 16)
    ensures OnlyBlanks(s) && !BareX(s, 0)
    ensures Prefix(s, 0) == (sign == ['-'], base, |sign| + if base == 16 then 2 else 0)
  {
    assert sign != [] ==> s[0] == s[..|sign|][0];
    SpacesEndIs(s, 0, if sign == [' '] then 1 else 0);
  }

  lemma ResultIs(s: seq<char>, base: nat, n: Numeral, value: nat)
    requires CString(s) && Locate(s, base) == n && Value(s[n.from..n.till], n.base) == value < ULONG_LIMIT
    ensures Result(s, base) == Intended(value, n.negative)
  {
  }

  lemma ReadPrefixed(sign: seq<char>, base: nat, uppercase: bool, digits: seq<char>)
    requires IsSign(sign) && (base == 8 || base == 16) && digits != [] && AllDigits(digits, base)
    requires Value(digits, base) < ULONG_LIMIT
    ensures
      var s := sign + (BasePrefix(base, uppercase) + digits) + ['\0'];
      CString(s) && Parsed(s, 0) == Intended(Value(digits, base), sign == ['-'])
  {
    var s := sign + (BasePrefix(base, uppercase) + digits) + ['\0'];
    ParsePrefixed(sign, base, uppercase, digits);
    LeadingZero(digits, base);
    ResultIs(s, 0, Locate(s, 0), Value(digits, base));
    RightIff(s, 0);
  }

  lemma LeadingZero(digits: seq<char>, base: nat)
    ensures Value(['0'] + digits, base) == Value(digits, base)
  {
    LeadingZeros(1, digits, base);
    assert Zeros(1) == ['0'];
  }

  // A number printed with its base prefix and nothing else is read back without being told the base.
  lemma PrefixedRoundTrip(value: nat, negative: bool, base: nat, flags: Flags)
    requires value < ULONG_LIMIT && (base == 8 || base == 16) && flags.hash && !flags.precision
    ensures
      var s := Rendered(value, negative, base, 0, 0, flags) + ['\0'];
      CString(s) && Parsed(s, 0) == Intended(value, negative)
  {
    if value == 0 {
      ZeroShape(negative, base, flags);
      ReadZero(SignOf(negative, flags));
    } else {
      HashShape(value, negative, base, flags);
      DigitsValue(value, base, flags.uppercase);
      ReadPrefixed(SignOf(negative, flags), base, flags.uppercase, Reverse(RevDigits(value, base, flags.uppercase)));
    }
  }

  // Zero is printed without a prefix, and read as octal.
  lemma ReadZero(sign: seq<char>)
    requires IsSign(sign)
    ensures
      var s := sign + ['0'] + ['\0'];
      CString(s) && Parsed(s, 0) == 0
  {
    var s := sign + ['0'] + ['\0'];
    PrefixRead(s, sign, 8);
    DigitsEndIs(s, 8, |sign|, |sign| + 1);
    assert s[|sign|..|sign| + 1] == ['0'];
    ZeroValue();
    ResultIs(s, 0, Locate(s, 0), 0);
    RightIff(s, 0);
  }

  lemma ZeroValue()
    ensures Value(['0'], 8) == 0
  {
    assert ['0'][..0] == [];
  }

  lemma ZeroShape(negative: bool, base: nat, flags: Flags)
    requires (base == 8 || base == 16) && !flags.precision
    ensures Rendered(0, negative, base, 0, 0, flags) == SignOf(negative, flags) + ['0']
  {
    assert Digits(0, base, flags) == ['0'];
    PlainBuffer(0, negative, base, 0, 0, flags);
    SignAppended(['0'], negative, flags);
    ReverseAppend(['0'], SignOf(negative, flags));
    ReverseShort(SignOf(negative, flags));
    ReverseShort(['0']);
    NoBlanks(['0'] + SignOf(negative, flags), flags);
  }
}
