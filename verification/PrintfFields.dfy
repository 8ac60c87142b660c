// What a width does to what a directive prints.
module PrintfFields {
  import opened Limits
  import opened Ntoa
  import opened Printf
  import Strtoul
  import RoundTrip

  function Max(a: nat, b: nat): nat { if a < b then b else a }

  lemma AlignedLength(text: seq<char>, width: nat, left: bool)
    ensures |Aligned(text, width, left)| == Max(width, |text|)
    ensures Aligned(text, 0, left) == text
  {
  }

  // ---------- Integers padded with blanks ----------

  // The one case in which a width eats digits: there is a prefix to be printed, and the digits fill
  // the width exactly.
  predicate DigitsEaten(value: nat, base: nat, width: nat, flags: Flags)
    requires 2 <= base <= 36
  {
    flags.hash && !flags.precision && value != 0 && |RevDigits(value, base, flags.uppercase)| == width
  }

  predicate BlankPadded(flags: Flags) { flags.left || !flags.zeropad }

  lemma BlankField(buf: seq<char>, width: nat, flags: Flags)
    requires BlankPadded(flags)
    ensures Field(buf, width, flags) == Aligned(Reverse(buf), width, flags.left)
  {
  }

  // A width does nothing but add blanks on one side, except when it eats digits.
  lemma WidthAddsBlanks(value: nat, negative: bool, base: nat, prec: nat, width: nat, flags: Flags)
    requires value < ULONG_LIMIT && 8 <= base <= 16 && BlankPadded(flags) && (!flags.precision ==> prec == 0)
    ensures
      var plain := Rendered(value, negative, base, prec, 0, flags);
      Rendered(value, negative, base, prec, width, flags) == Aligned(plain, width, flags.left) <==>
      !DigitsEaten(value, base, width, flags)
  {
    var buf, buf0 := Buffer(value, negative, base, prec, width, flags), Buffer(value, negative, base, prec, 0, flags);
    BlankField(buf, width, flags);
    BlankField(buf0, 0, flags);
    AlignedLength(Reverse(buf0), 0, flags.left);
    AlignedLength(Reverse(buf0), width, flags.left);
    AlignedLength(Reverse(buf), width, flags.left);
    BuffersDiffer(value, negative, base, prec, width, flags);
  }

  lemma BuffersDiffer(value: nat, negative: bool, base: nat, prec: nat, width: nat, flags: Flags)
    requires value < ULONG_LIMIT && 8 <= base <= 16 && BlankPadded(flags) && (!flags.precision ==> prec == 0)
    ensures
      var buf, buf0 := Buffer(value, negative, base, prec, width, flags), Buffer(value, negative, base, prec, 0, flags);
      if DigitsEaten(value, base, width, flags) then width < |buf0| && |buf| < |buf0| else buf == buf0
  {
    RoundTrip.WordFits(value, base, flags.uppercase);
    var fl := if value == 0 then flags.(hash := false) else flags;
    var digits := Digits(value, base, flags);
    if fl.hash && !fl.precision {
      HashAndWidth(digits, base, prec, width, negative, fl);
    } else {
      assert Padded(digits, negative, prec, width, fl) == Padded(digits, negative, prec, 0, fl);
    }
  }

  lemma HashAndWidth(digits: seq<char>, base: nat, prec: nat, width: nat, negative: bool, fl: Flags)
    requires 0 < |digits| <= 22 && BlankPadded(fl) && fl.hash && !fl.precision && prec == 0 && base != 2
    ensures
      var padded := Padded(digits, negative, prec, width, fl);
      var padded0 := Padded(digits, negative, prec, 0, fl);
      var buf := WithSign(WithHash(padded, base, prec, PadWidth(negative, width, fl), fl), negative, fl);
      var buf0 := WithSign(WithHash(padded0, base, prec, PadWidth(negative, 0, fl), fl), negative, fl);
      if |digits| == width then width < |buf0| && |buf| < |buf0| else buf == buf0
  {
    assert Padded(digits, negative, prec, width, fl) == digits;
    assert Padded(digits, negative, prec, 0, fl) == digits;
  }

  // An instance: 27 printed with %#2x is 0x, and nothing else.
  lemma AllDigitsEaten()
    ensures
      var flags := Flags(false, false, false, false, true, false, false);
      DigitsEaten(27, 16, 2, flags) && Rendered(27, false, 16, 0, 2, flags) == "0x"
  {
    var flags := Flags(false, false, false, false, true, false, false);
    assert RevDigits(1, 16, false) == ['1'] && RevDigits(27, 16, false) == ['b', '1'];
    assert Buffer(27, false, 16, 0, 2, flags) == ['x', '0'];
    assert Reverse(['x', '0']) == "0x";
  }

  // ---------- Integers padded with zeros ----------

  function ZerosToFill(width: nat, used: nat): nat { if used < width then width - used else 0 }

  // Widths up to the size of the buffer are filled exactly: the sign, the zeros, the digits.
  lemma ZeroPaddedField(value: nat, negative: bool, base: nat, width: nat, flags: Flags)
    requires value < ULONG_LIMIT && 8 <= base <= 16 && width <= BUFFER_SIZE
    requires flags.zeropad && !flags.left && !flags.precision && (!flags.hash || value == 0)
    ensures
      var sign, digits := RoundTrip.SignOf(negative, flags), RevDigits(value, base, flags.uppercase);
      Rendered(value, negative, base, 0, width, flags) ==
      sign + (RoundTrip.Zeros(ZerosToFill(width, |sign| + |digits|)) + Reverse(digits))
  {
    var n := ZeroPaddedBuffer(value, negative, base, width, flags);
    ZeroPaddedReversed(RevDigits(value, base, flags.uppercase), n, RoundTrip.SignOf(negative, flags));
    SentReversed(value, negative, base, width, flags);
  }

  lemma SentReversed(value: nat, negative: bool, base: nat, width: nat, flags: Flags)
    requires 2 <= base <= 36 && flags.zeropad && !flags.left
    ensures Rendered(value, negative, base, 0, width, flags) == Reverse(Buffer(value, negative, base, 0, width, flags))
  {
    NoBlanksAdded(Buffer(value, negative, base, 0, width, flags), PadWidth(negative, width, flags), flags);
  }

  lemma NoBlanksAdded(buf: seq<char>, width: nat, flags: Flags)
    requires flags.zeropad && !flags.left
    ensures Field(buf, width, flags) == Reverse(buf)
  {
  }

  lemma ZeroPaddedReversed(digits: seq<char>, n: nat, sign: seq<char>)
    requires |sign| <= 1
    ensures Reverse(digits + RoundTrip.Zeros(n) + sign) == sign + (RoundTrip.Zeros(n) + Reverse(digits))
  {
    RoundTrip.ReverseParts(digits, RoundTrip.Zeros(n), sign);
    RoundTrip.ReverseZeros(n);
    RoundTrip.ReverseShort(sign);
  }

  lemma ZeroPaddedBuffer(value: nat, negative: bool, base: nat, width: nat, flags: Flags) returns (n: nat)
    requires value < ULONG_LIMIT && 8 <= base <= 16 && width <= BUFFER_SIZE
    requires flags.zeropad && !flags.left && !flags.precision && (!flags.hash || value == 0)
    ensures
      var sign, digits := RoundTrip.SignOf(negative, flags), RevDigits(value, base, flags.uppercase);
      && n == ZerosToFill(width, |sign| + |digits|)
      && Buffer(value, negative, base, 0, width, flags) == digits + RoundTrip.Zeros(n) + sign
  {
    var digits := RevDigits(value, base, flags.uppercase);
    RoundTrip.WordFits(value, base, flags.uppercase);
    assert Digits(value, base, flags) == digits;
    n := ZerosBefore(digits, negative, width, flags);
    RoundTrip.PlainBuffer(value, negative, base, 0, width, flags);
    RoundTrip.SignAppended(digits + RoundTrip.Zeros(n), negative, flags);
  }

  lemma ZerosBefore(digits: seq<char>, negative: bool, width: nat, flags: Flags) returns (n: nat)
    requires |digits| <= 22 && width <= BUFFER_SIZE && flags.zeropad && !flags.left
    ensures n == ZerosToFill(width, |RoundTrip.SignOf(negative, flags)| + |digits|)
    ensures Padded(digits, negative, 0, width, flags) == digits + RoundTrip.Zeros(n)
    ensures |digits| + n < BUFFER_SIZE || RoundTrip.SignOf(negative, flags) == []
  {
    var wide := PadWidth(negative, width, flags);
    RoundTrip.PadZerosIs(digits, wide);
    n := if |digits| < wide then wide - |digits| else 0;
  }

  // ---------- Directives ----------

  // For characters, strings and integers padded with blanks, the field is what would be printed
  // without a width, with blanks on one side.
  lemma FieldOfDirective(kind: char, length: seq<char>, flags: Flags, width: nat, prec: nat, args: seq<Arg>)
    requires ValueSupplied(kind, args) && (!flags.precision ==> prec == 0)
    requires kind == 'c' || kind == 's' || (IsInteger(kind) && kind != 'b' && BlankPadded(IntegerFlags(kind, flags)))
    ensures
      var field, plain := Converted(kind, length, flags, width, prec, args),
        Converted(kind, length, flags, 0, prec, args);
      (field == Aligned(plain, width, flags.left) && |field| == Max(width, |plain|)) <==>
      !(IsInteger(kind) && DigitsEaten(Abs(IntegerOf(kind, length, args[0].v)), Base(kind), width,
                                       IntegerFlags(kind, flags)))
  {
    var plain := Converted(kind, length, flags, 0, prec, args);
    AlignedLength(plain, width, flags.left);
    if IsInteger(kind) {
      var v := IntegerOf(kind, length, args[0].v);
      IntegerBound(kind, length, args[0].v);
      WidthAddsBlanks(Abs(v), v < 0, Base(kind), prec, width, IntegerFlags(kind, flags));
    } else if kind == 'c' {
      AlignedLength([(args[0].v % 0x100) as char], 0, flags.left);
    } else {
      AlignedLength(Cut(args[0].s, flags.precision, prec), 0, flags.left);
    }
  }

  lemma IntegerBound(kind: char, length: seq<char>, v: int)
    ensures Abs(IntegerOf(kind, length, v)) < ULONG_LIMIT
  {
    var limit := Limit(length);
    assert 0 <= v % limit < limit;
  }

  // Printed without a base prefix, an integer is read back by the parser as the same 64-bit word,
  // exactly if its sign found room in the buffer or makes no difference.
  lemma PrintThenParse(kind: char, length: seq<char>, flags: Flags, width: nat, prec: nat, args: seq<Arg>)
    requires IsInteger(kind) && kind != 'b' && ValueSupplied(kind, args) && !IntegerFlags(kind, flags).hash
    ensures
      var s := Converted(kind, length, flags, width, prec, args) + ['\0'];
      var v := IntegerOf(kind, length, args[0].v);
      && Strtoul.CString(s)
      && (Strtoul.Parsed(s, Base(kind)) == v % ULONG_LIMIT <==>
            !RoundTrip.SignLost(v < 0, prec, width, IntegerFlags(kind, flags)) || v == -(ULONG_LIMIT / 2))
  {
    var v, fl := IntegerOf(kind, length, args[0].v), IntegerFlags(kind, flags);
    IntegerBound(kind, length, args[0].v);
    ReadWord(v, Base(kind), prec, width, fl);
  }

  lemma ReadWord(v: int, base: nat, prec: nat, width: nat, flags: Flags)
    requires Abs(v) < ULONG_LIMIT && 8 <= base <= 16 && !flags.hash
    ensures
      var s := Rendered(Abs(v), v < 0, base, prec, width, flags) + ['\0'];
      && Strtoul.CString(s)
      && (Strtoul.Parsed(s, base) == v % ULONG_LIMIT <==>
            !RoundTrip.SignLost(v < 0, prec, width, flags) || v == -(ULONG_LIMIT / 2))
  {
    RoundTrip.ReadBack(Abs(v), v < 0, base, prec, width, flags);
    RoundTrip.RoundTripIff(Abs(v), v < 0, base, prec, width, flags);
    Word(v);
  }

  lemma Word(v: int)
    requires Abs(v) < ULONG_LIMIT
    ensures RoundTrip.Intended(Abs(v), v < 0) == v % ULONG_LIMIT
  {
  }
}
