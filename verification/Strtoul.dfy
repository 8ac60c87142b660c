// Parsing unsigned numbers, with saturation instead of overflow.
module Strtoul {
  import opened Limits

  const ULONG_MAX: nat := 0xffff_ffff_ffff_ffff

  // ---------- Character classes, as the code has them ----------

  predicate IsAlpha(c: int) { 65 <= c < 90 || 97 <= c < 122 }

  predicate IsDigit(c: int) { 47 <= c <= 57 }

  predicate IsUpper(c: int) { 65 <= c < 90 }

  predicate IsBlank(c: char) { c == ' ' || c == '\t' }

  // ---------- Numbers in a base ----------

  // White space, as section 7.4.1.10 of ISO C has it: besides blanks and tabs, the line feed, the
  // vertical tab, the form feed and the carriage return.
  predicate IsSpace(c: char) { c == ' ' || 9 <= c as int <= 13 }

  // The value of a digit in the usual sense; 36 for anything else.
  function DigitValue(c: char): nat {
    if '0' <= c <= '9' then c as int - '0' as int
    else if 'a' <= c <= 'z' then c as int - 'a' as int + 10
    else if 'A' <= c <= 'Z' then c as int - 'A' as int + 10
    else 36
  }

  predicate IsDigitOf(c: char, base: nat) { DigitValue(c) < base }

  function Value(digits: seq<char>, base: nat): nat {
    if digits == [] then 0 else Value(digits[..|digits| - 1], base) * base + DigitValue(digits[|digits| - 1])
  }

  // Where the longest run of digits from i on ends.
  function DigitsEnd(s: seq<char>, base: nat, i: nat): (j: nat)
    requires i <= |s|
    ensures i <= j <= |s|
    ensures forall k :: i <= k < j ==> IsDigitOf(s[k], base)
    ensures j < |s| ==> !IsDigitOf(s[j], base)
    decreases |s| - i
  {
    if i < |s| && IsDigitOf(s[i], base) then DigitsEnd(s, base, i + 1) else i
  }

  function SpacesEnd(s: seq<char>, i: nat): (j: nat)
    requires i <= |s|
    ensures i <= j <= |s|
    ensures forall k :: i <= k < j ==> IsSpace(s[k])
    ensures j < |s| ==> !IsSpace(s[j])
    decreases |s| - i
  {
    if i < |s| && IsSpace(s[i]) then SpacesEnd(s, i + 1) else i
  }

  // ---------- What a call means ----------

  predicate CString(s: seq<char>) { |s| > 0 && s[|s| - 1] == '\0' }

  // The number in a string: after white space and a sign, a base and the run of its digits.
  datatype Numeral = Numeral(negative: bool, base: nat, from: nat, till: nat)

  predicate HasX(s: seq<char>, i: nat) {
    i + 1 < |s| && s[i] == '0' && (s[i + 1] == 'x' || s[i + 1] == 'X')
  }

  // The prefix belongs to the number only if a digit follows (section 7.22.1.4 of ISO C).
  predicate HasHexPrefix(s: seq<char>, i: nat) {
    HasX(s, i) && i + 2 < |s| && IsDigitOf(s[i + 2], 16)
  }

  function AfterSign(s: seq<char>, i: nat): (j: nat)
    requires CString(s) && i < |s|
    ensures i <= j < |s|
  {
    if s[i] == '-' || s[i] == '+' then i + 1 else i
  }

  function BaseAt(s: seq<char>, base: nat, i: nat): nat
    requires i < |s|
  {
    if base != 0 then base else if s[i] == '0' then 8 else 10
  }

  // Whether the number is negative, its base, and where its digits start.
  function Prefix(s: seq<char>, base: nat): (p: (bool, nat, nat))
    requires CString(s)
    ensures p.2 < |s|
  {
    var i := SpacesEnd(s, 0);
    var j := AfterSign(s, i);
    if (base == 0 || base == 16) && HasHexPrefix(s, j) then (s[i] == '-', 16, j + 2)
    else (s[i] == '-', BaseAt(s, base, j), j)
  }

  function Locate(s: seq<char>, base: nat): (n: Numeral)
    requires CString(s)
    ensures n.from <= n.till <= |s|
  {
    var (negative, b, from) := Prefix(s, base);
    Numeral(negative, b, from, DigitsEnd(s, b, from))
  }

  function Amount(s: seq<char>, n: Numeral): nat
    requires n.from <= n.till <= |s|
  {
    Value(s[n.from..n.till], n.base)
  }

  // The result: the exact value when it fits, negated modulo 2^64 after a minus; else the maximum.
  function ResultOf(s: seq<char>, n: Numeral): nat
    requires n.from <= n.till <= |s|
  {
    if Amount(s, n) > ULONG_MAX then ULONG_MAX
    else if n.negative then (ULONG_LIMIT - Amount(s, n)) % ULONG_LIMIT
    else Amount(s, n)
  }

  function Result(s: seq<char>, base: nat): nat
    requires CString(s)
  {
    ResultOf(s, Locate(s, base))
  }

  // Where parsing ends: behind the digits, or where it started if there are none.
  function EndOf(n: Numeral): nat {
    if n.till > n.from then n.till else 0
  }

  // ---------- What the code sees ----------

  // The digit the code sees in a character, computed in an unsigned char; 256 for none.
  function DigitSeen(c: char): nat {
    var code := c as int;
    if code >= 128 then 256
    else if IsDigit(code) then (code - 48) % 256
    else if IsAlpha(code) then code - (if IsUpper(code) then 65 - 10 else 97 - 10)
    else 256
  }

  method ReadDigit(c: char) returns (isDigit: bool, digit: nat)
    requires c as int < 256
    ensures isDigit <==> DigitSeen(c) < 256
    ensures isDigit ==> digit == DigitSeen(c)
  {
    var code := c as int;
    if code >= 128 {
      return false, 0;
    }
    if IsDigit(code) {
      return true, (code - 48) % 256;
    }
    if IsAlpha(code) {
      return true, code - (if IsUpper(code) then 65 - 10 else 97 - 10);
    }
    return false, 0;
  }

  lemma SeenRight(c: char, base: nat)
    requires base <= 36
    ensures DigitSeen(c) < base ==> IsDigitOf(c, base) && DigitSeen(c) == DigitValue(c)
    ensures IsDigitOf(c, base) && !(DigitSeen(c) < base) ==> base == 36 && (c == 'z' || c == 'Z')
    ensures c == 'z' || c == 'Z' ==> DigitSeen(c) == 256
  {
  }

  // Where the run of digits ends that the code sees.
  function SeenEnd(s: seq<char>, base: nat, i: nat): (j: nat)
    requires i <= |s|
    ensures i <= j <= |s|
    decreases |s| - i
  {
    if i < |s| && DigitSeen(s[i]) < base then SeenEnd(s, base, i + 1) else i
  }

  function BlanksEnd(s: seq<char>, i: nat): (j: nat)
    requires i <= |s|
    ensures i <= j <= |s|
    ensures forall k :: i <= k < j ==> IsBlank(s[k])
    ensures j < |s| ==> !IsBlank(s[j])
    decreases |s| - i
  {
    if i < |s| && IsBlank(s[i]) then BlanksEnd(s, i + 1) else i
  }

  // The prefix as the code reads it: it skips blanks and tabs only, and takes 0x for a prefix whatever
  // follows.
  function PrefixSeen(s: seq<char>, base: nat): (p: (bool, nat, nat))
    requires CString(s)
    ensures p.2 < |s|
  {
    var i := BlanksEnd(s, 0);
    var j := AfterSign(s, i);
    if (base == 0 || base == 16) && HasX(s, j) then (s[i] == '-', 16, j + 2)
    else (s[i] == '-', BaseAt(s, base, j), j)
  }

  function LocateSeen(s: seq<char>, base: nat): (n: Numeral)
    requires CString(s)
    ensures n.from <= n.till <= |s|
  {
    var (negative, b, from) := PrefixSeen(s, base);
    Numeral(negative, b, from, SeenEnd(s, b, from))
  }

  // What the code returns.
  function Parsed(s: seq<char>, base: nat): nat
    requires CString(s)
  {
    ResultOf(s, LocateSeen(s, base))
  }

  // The code sees all digits of a run up to the first z or Z.
  lemma {:induction false} SeenUpToLastLetter(s: seq<char>, base: nat, i: nat)
    requires i <= |s| && base <= 36
    ensures SeenEnd(s, base, i) <= DigitsEnd(s, base, i)
    ensures SeenEnd(s, base, i) == DigitsEnd(s, base, i) <==>
            base <= 35 || forall k :: i <= k < DigitsEnd(s, base, i) ==> s[k] != 'z' && s[k] != 'Z'
    decreases |s| - i
  {
    if i < |s| {
      SeenRight(s[i], base);
      SeenUpToLastLetter(s, base, i + 1);
    }
  }

  // ---------- Where the code agrees with the standard ----------

  // The white space at the start is blanks and tabs.
  predicate OnlyBlanks(s: seq<char>) {
    forall k :: 0 <= k < SpacesEnd(s, 0) ==> IsBlank(s[k])
  }

  // After white space and sign comes a 0x with no hexadecimal digit behind it.
  predicate BareX(s: seq<char>, base: nat)
    requires CString(s)
  {
    var j := AfterSign(s, SpacesEnd(s, 0));
    (base == 0 || base == 16) && HasX(s, j) && !HasHexPrefix(s, j)
  }

  predicate NoLastLetter(s: seq<char>, n: Numeral)
    requires n.till <= |s|
  {
    forall k :: n.from <= k < n.till ==> s[k] != 'z' && s[k] != 'Z'
  }

  predicate Agrees(s: seq<char>, base: nat)
    requires CString(s)
  {
    if OnlyBlanks(s) then !BareX(s, base) && (base == 36 ==> NoLastLetter(s, Locate(s, base)))
    else Locate(s, base).till == Locate(s, base).from
  }

  // The code is right, in its result and in where it ends, exactly if
  // - white space other than blanks and tabs comes at the start only of a string without a number,
  // - no bare 0x is read in base 0 or 16, and
  // - the digits hold no z or Z in base 36.
  lemma RightIff(s: seq<char>, base: nat)
    requires CString(s) && (base == 0 || 2 <= base <= 36)
    ensures Parsed(s, base) == Result(s, base) && EndOf(LocateSeen(s, base)) == EndOf(Locate(s, base)) <==>
            Agrees(s, base)
    ensures OnlyBlanks(s) && base != 36 ==> Parsed(s, base) == Result(s, base)
  {
    if !OnlyBlanks(s) {
      OtherSpace(s, base);
    } else if BareX(s, base) {
      BareXSeen(s, base);
    } else {
      SamePrefix(s, base);
      RightUnlessLastLetter(s, base);
    }
  }

  lemma SamePrefix(s: seq<char>, base: nat)
    requires CString(s) && OnlyBlanks(s) && !BareX(s, base)
    ensures PrefixSeen(s, base) == Prefix(s, base)
  {
    BlanksAreSpaces(s, 0);
  }

  lemma RightUnlessLastLetter(s: seq<char>, base: nat)
    requires CString(s) && PrefixSeen(s, base) == Prefix(s, base) && (base == 0 || 2 <= base <= 36)
    ensures
      var n, seen := Locate(s, base), LocateSeen(s, base);
      && (n == seen <==> base != 36 || NoLastLetter(s, n))
      && (EndOf(n) == EndOf(seen) ==> n == seen)
  {
    var (negative, b, from) := Prefix(s, base);
    SeenUpToLastLetter(s, b, from);
  }

  lemma {:induction false} BlanksAreSpaces(s: seq<char>, i: nat)
    requires i <= |s|
    ensures BlanksEnd(s, i) <= SpacesEnd(s, i)
    ensures BlanksEnd(s, i) == SpacesEnd(s, i) <==> forall k :: i <= k < SpacesEnd(s, i) ==> IsBlank(s[k])
    ensures BlanksEnd(s, i) < SpacesEnd(s, i) ==> IsSpace(s[BlanksEnd(s, i)])
    decreases |s| - i
  {
    if i < |s| && IsBlank(s[i]) {
      BlanksAreSpaces(s, i + 1);
    }
  }

  lemma NoDigits(s: seq<char>, n: Numeral)
    requires n.from == n.till <= |s|
    ensures ResultOf(s, n) == 0 && EndOf(n) == 0
  {
    assert s[n.from..n.till] == [];
  }

  lemma OneZero(s: seq<char>, n: Numeral)
    requires n.from + 1 == n.till <= |s| && s[n.from] == '0'
    ensures ResultOf(s, n) == 0 && EndOf(n) == n.till
  {
    assert s[n.from..n.till] == ['0'] && ['0'][..0] == [];
    assert Value(['0'], n.base) == 0 * n.base;
  }

  // In front of other white space the code sees no number.
  lemma OtherSpace(s: seq<char>, base: nat)
    requires CString(s) && !OnlyBlanks(s) && (base == 0 || 2 <= base <= 36)
    ensures Parsed(s, base) == 0 && EndOf(LocateSeen(s, base)) == 0
    ensures Locate(s, base).till == Locate(s, base).from ==> Result(s, base) == 0 && EndOf(Locate(s, base)) == 0
  {
    OtherSpaceSeen(s, base);
    NoDigits(s, LocateSeen(s, base));
    if Locate(s, base).till == Locate(s, base).from {
      NoDigits(s, Locate(s, base));
    }
  }

  lemma OtherSpaceSeen(s: seq<char>, base: nat)
    requires CString(s) && !OnlyBlanks(s) && (base == 0 || 2 <= base <= 36)
    ensures LocateSeen(s, base).till == LocateSeen(s, base).from
  {
    BlanksAreSpaces(s, 0);
    var i := BlanksEnd(s, 0);
    assert IsSpace(s[i]) && !IsBlank(s[i]) && DigitSeen(s[i]) == 256;
  }

  // Of a bare 0x the standard takes the 0, and the code nothing; the result is 0 either way.
  lemma BareXSeen(s: seq<char>, base: nat)
    requires CString(s) && OnlyBlanks(s) && BareX(s, base)
    ensures Parsed(s, base) == Result(s, base) == 0
    ensures EndOf(LocateSeen(s, base)) == 0 < EndOf(Locate(s, base))
  {
    NothingBehindX(s, base);
    NoDigits(s, LocateSeen(s, base));
    ZeroBeforeX(s, base);
    OneZero(s, Locate(s, base));
  }

  lemma NothingBehindX(s: seq<char>, base: nat)
    requires CString(s) && OnlyBlanks(s) && BareX(s, base)
    ensures LocateSeen(s, base).till == LocateSeen(s, base).from
  {
    BlanksAreSpaces(s, 0);
    var j := AfterSign(s, SpacesEnd(s, 0));
    SeenRight(s[j + 2], 16);
  }

  lemma ZeroBeforeX(s: seq<char>, base: nat)
    requires CString(s) && BareX(s, base)
    ensures
      var n := Locate(s, base);
      n.till == n.from + 1 && s[n.from] == '0'
  {
    var j := AfterSign(s, SpacesEnd(s, 0));
    var b := BaseAt(s, base, j);
    assert Prefix(s, base) == (s[SpacesEnd(s, 0)] == '-', b, j) && (b == 8 || b == 16);
    assert DigitsEnd(s, b, j + 1) == j + 1;
  }

  // Instances: "0xg" ends behind the 0, and a number in the second line is a number; the code finds
  // none in either.
  lemma BareXLost()
    ensures EndOf(Locate("0xg\0", 16)) == 1 && EndOf(LocateSeen("0xg\0", 16)) == 0
  {
    var s := "0xg\0";
    assert SpacesEnd(s, 0) == 0 && BareX(s, 16);
    assert DigitsEnd(s, 16, 0) == 1;
    BareXSeen(s, 16);
  }

  lemma SecondLineLost()
    ensures Result("\n7\0", 10) == 7 && Parsed("\n7\0", 10) == 0
  {
    var s := "\n7\0";
    assert SpacesEnd(s, 1) == 1 && SpacesEnd(s, 0) == 1 && !IsBlank(s[0]);
    OtherSpace(s, 10);
    assert DigitsEnd(s, 10, 2) == 2 && DigitsEnd(s, 10, 1) == 2;
    assert s[1..2] == ['7'] && ['7'][..0] == [];
  }

  // The Z of base 36 is worth 35, but is not read at all.
  lemma LastLetterLost()
    ensures Result("Z\0", 36) == 35 && Parsed("Z\0", 36) == 0
  {
    var s := "Z\0";
    assert SpacesEnd(s, 0) == BlanksEnd(s, 0) == 0 && DigitsEnd(s, 36, 0) == 1 && SeenEnd(s, 36, 0) == 0;
    assert s[0..1] == ['Z'] && ['Z'][..0] == [] && s[0..0] == [];
  }

  // ---------- The code ----------

  // The value of the digits, or its negation modulo 2^64, or the maximum if it is not below 2^64; and
  // where the digits end, or the start if there are none.
  predicate Means(s: seq<char>, n: Numeral, acc: nat, end: nat)
    requires n.from <= n.till <= |s|
  {
    var value := Value(s[n.from..n.till], n.base);
    && (value >= 0x1_0000_0000_0000_0000 ==> acc == 0xffff_ffff_ffff_ffff)
    && (value < 0x1_0000_0000_0000_0000 && (!n.negative || value == 0) ==> acc == value)
    && (0 < value < 0x1_0000_0000_0000_0000 && n.negative ==> acc == 0x1_0000_0000_0000_0000 - value)
    && end == if n.till == n.from then 0 else n.till
  }

  lemma ResultMeans(s: seq<char>, n: Numeral)
    requires n.from <= n.till <= |s|
    ensures Means(s, n, ResultOf(s, n), EndOf(n))
  {
  }

  method Strtoul(s: seq<char>, base0: nat) returns (acc: nat, end: nat)
    requires CString(s) && (forall c :: c in s ==> c as int < 256)
    requires base0 == 0 || 2 <= base0 <= 36
    ensures acc == Parsed(s, base0) && end == EndOf(LocateSeen(s, base0))
    ensures Means(s, LocateSeen(s, base0), acc, end)
    ensures acc == Result(s, base0) && end == EndOf(Locate(s, base0)) <==> Agrees(s, base0)
  {
    RightIff(s, base0);
    ResultMeans(s, LocateSeen(s, base0));
    var neg, base, from := ReadPrefix(s, base0);
    acc, end := ReadNumber(s, neg, base, from);
  }

  method ReadNumber(s: seq<char>, neg: bool, base: nat, from: nat) returns (acc: nat, end: nat)
    requires CString(s) && (forall c :: c in s ==> c as int < 256) && 2 <= base <= 36 && from < |s|
    ensures
      var n := Numeral(neg, base, from, SeenEnd(s, base, from));
      acc == ResultOf(s, n) && end == EndOf(n)
  {
    var any, i;
    acc, any, i := Accumulate(s, base, from);
    if any < 0 {
      acc := ULONG_MAX;
    } else if neg {
      acc := (ULONG_LIMIT - acc) % ULONG_LIMIT;
    }
    end := if any != 0 then i else 0;
  }

  method SkipBlanks(s: seq<char>) returns (i: nat)
    requires CString(s)
    ensures i == BlanksEnd(s, 0) < |s|
  {
    i := 0;
    while IsBlank(s[i])
      invariant i < |s| && BlanksEnd(s, 0) == BlanksEnd(s, i)
      decreases |s| - i
    {
      i := i + 1;
    }
  }

  // Blanks, a sign, and the prefix that tells the base.
  method ReadPrefix(s: seq<char>, base0: nat) returns (neg: bool, base: nat, i: nat)
    requires CString(s) && (base0 == 0 || 2 <= base0 <= 36)
    ensures i < |s| && 2 <= base <= 36
    ensures PrefixSeen(s, base0) == (neg, base, i)
  {
    base := base0;
    i := SkipBlanks(s);
    var c := s[i];
    neg := false;
    if c == '-' {
      neg := true;
      i := i + 1;
      c := s[i];
    } else if c == '+' {
      i := i + 1;
      c := s[i];
    }
    if (base == 0 || base == 16) && c == '0' && (s[i + 1] == 'x' || s[i + 1] == 'X') {
      i := i + 2;
      base := 16;
      return;
    }
    if base == 0 {
      base := if c == '0' then 8 else 10;
    }
  }

  // The loop over the digits: any is 0 before the first digit and -1 once the value is too large.
  method Accumulate(s: seq<char>, base: nat, from: nat) returns (acc: nat, any: int, i: nat)
    requires CString(s) && (forall c :: c in s ==> c as int < 256) && 2 <= base <= 36 && from < |s|
    ensures i == SeenEnd(s, base, from) < |s|
    ensures acc <= ULONG_MAX && (any == 0 <==> i == from)
    ensures if any < 0 then Value(s[from..i], base) > ULONG_MAX else acc == Value(s[from..i], base)
  {
    var cutoff, cutlim := ULONG_MAX / base, ULONG_MAX % base;
    acc, any, i := 0, 0, from;
    while true
      invariant from <= i < |s| && acc <= ULONG_MAX
      invariant SeenEnd(s, base, from) == SeenEnd(s, base, i)
      invariant any == 0 <==> i == from
      invariant if any < 0 then Value(s[from..i], base) > ULONG_MAX else acc == Value(s[from..i], base)
      decreases |s| - i
    {
      assert s[i] in s;
      SeenRight(s[i], base);
      var isDigit, digit := ReadDigit(s[i]);
      if !isDigit {
        break;
      }
      if digit >= base {
        break;
      }
      OneMoreDigit(s, base, from, i);
      acc, any := Add(acc, any, digit, base, cutoff, cutlim, Value(s[from..i], base), Value(s[from..i + 1], base));
      i := i + 1;
    }
  }

  // One more digit, unless the value has become or would become too large.
  method Add(acc0: nat, any0: int, digit: nat, base: nat, cutoff: nat, cutlim: nat, ghost value: nat, ghost more: nat)
    returns (acc: nat, any: int)
    requires base > 0 && digit < base && acc0 <= ULONG_MAX && cutoff == ULONG_MAX / base && cutlim == ULONG_MAX % base
    requires more == value * base + digit
    requires if any0 < 0 then value > ULONG_MAX else acc0 == value
    ensures acc <= ULONG_MAX && any != 0 && if any < 0 then more > ULONG_MAX else acc == more
  {
    SaturatingStep(value, any0 < 0, acc0, digit, base);
    if any0 < 0 || acc0 > cutoff || (acc0 == cutoff && digit > cutlim) {
      return acc0, -1;
    }
    acc := acc0 * base;
    acc := acc + digit;
    any := 1;
  }

  lemma OneMoreDigit(s: seq<char>, base: nat, from: nat, i: nat)
    requires from <= i < |s| && base > 0
    ensures Value(s[from..i + 1], base) == Value(s[from..i], base) * base + DigitValue(s[i])
    ensures Value(s[from..i + 1], base) >= Value(s[from..i], base)
  {
    assert s[from..i + 1][..i - from] == s[from..i];
    Grows(Value(s[from..i], base), base);
  }

  lemma Grows(v: nat, base: nat)
    requires base > 0
    ensures v * base >= v
  {
  }

  lemma SaturatingStep(value: nat, over: bool, acc: nat, digit: nat, base: nat)
    requires base > 0 && digit < base && acc <= ULONG_MAX
    requires if over then value > ULONG_MAX else acc == value
    ensures
      if over || acc > ULONG_MAX / base || (acc == ULONG_MAX / base && digit > ULONG_MAX % base)
      then value * base + digit > ULONG_MAX
      else value * base + digit == acc * base + digit <= ULONG_MAX
  {
    CutoffExact(acc, digit, base);
    Grows(value, base);
  }

  // The comparison with the cutoff is the comparison with the maximum, without computing the product.
  lemma CutoffExact(acc: nat, digit: nat, base: nat)
    requires base > 0 && digit < base
    ensures (acc > ULONG_MAX / base || (acc == ULONG_MAX / base && digit > ULONG_MAX % base)) <==>
            acc * base + digit > ULONG_MAX
  {
    var q, r := ULONG_MAX / base, ULONG_MAX % base;
    assert q * base + r == ULONG_MAX;
    if acc > q {
      assert acc * base >= (q + 1) * base == q * base + base;
    } else if acc < q {
      assert (acc + 1) * base <= q * base;
      assert acc * base + base == (acc + 1) * base;
    }
  }
}
