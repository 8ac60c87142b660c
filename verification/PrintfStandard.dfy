// What section 7.21.6.1 of ISO C prescribes for the integer conversions, and when it is what is printed.
module PrintfStandard {
  import opened Limits
  import opened Ntoa
  import opened Printf
  import opened RoundTrip
  import opened PrintfFields
  import Strtoul

  // ---------- The standard ----------

  predicate IsStandard(kind: char) {
    kind == 'd' || kind == 'i' || kind == 'u' || kind == 'x' || kind == 'X' || kind == 'o'
  }

  // Signs are for signed conversions; a plus goes before a blank.
  function Sign(kind: char, v: int, flags: Flags): seq<char> {
    if kind != 'd' && kind != 'i' then []
    else if v < 0 then ['-']
    else if flags.plus then ['+']
    else if flags.space then [' ']
    else []
  }

  // A nonzero result has 0x or 0X prefixed to it.
  function HexMark(kind: char, v: int, flags: Flags): seq<char> {
    if flags.hash && v != 0 && (kind == 'x' || kind == 'X') then ['0', kind] else []
  }

  // Unsigned octal, hexadecimal with the letters abcdef or ABCDEF, and otherwise decimal notation.
  function Radix(kind: char): (base: nat)
    ensures 8 <= base <= 16
  {
    match kind
    case 'o' => 8
    case 'x' => 16
    case 'X' => 16
    case _ => 10
  }

  function DigitOf(kind: char, d: nat): char
    requires d < 16
  {
    if kind == 'X' then "0123456789ABCDEF"[d] else "0123456789abcdef"[d]
  }

  // The most significant digit comes first.
  function NumeralOf(kind: char, value: nat): seq<char>
    decreases value
  {
    (if value < Radix(kind) then [] else NumeralOf(kind, Higher(value, Radix(kind))))
    + [DigitOf(kind, value % Radix(kind))]
  }

  function Higher(value: nat, base: nat): (q: nat)
    requires 8 <= base <= value
    ensures q < value
  {
    Quotient(value, base);
    value / base
  }

  function Numeral(kind: char, v: int): seq<char> { NumeralOf(kind, if v < 0 then -v else v) }

  // The precision is the least number of digits, and zero has none at precision 0; without a
  // precision it is 1.
  function Precise(kind: char, v: int, flags: Flags, prec: nat): seq<char> {
    var least := if flags.precision then prec else 1;
    if v == 0 then Zeros(least) else Zeros(ZerosToFill(least, |Numeral(kind, v)|)) + Numeral(kind, v)
  }

  // The alternative form of an octal number has a zero as its first digit.
  function WithZero(kind: char, flags: Flags, digits: seq<char>): seq<char> {
    if flags.hash && kind == 'o' && (digits == [] || digits[0] != '0') then ['0'] + digits else digits
  }

  // The zero flag is ignored with a minus flag or a precision.
  predicate ZeroFilled(flags: Flags) { flags.zeropad && !flags.left && !flags.precision }

  function Standard(kind: char, v: int, flags: Flags, width: nat, prec: nat): seq<char> {
    var sign, mark := Sign(kind, v, flags), HexMark(kind, v, flags);
    Layout(sign, mark, WithZero(kind, flags, Precise(kind, v, flags, prec)), flags, width)
  }

  // Zeros between the prefix and the digits, or blanks on one side, fill the width.
  function Layout(sign: seq<char>, mark: seq<char>, digits: seq<char>, flags: Flags, width: nat): seq<char> {
    if ZeroFilled(flags) then sign + (mark + (Zeros(ZerosToFill(width, |sign| + |mark| + |digits|)) + digits))
    else Blanked(sign + (mark + digits), width, flags.left)
  }

  function Blanked(text: seq<char>, width: nat, left: bool): seq<char> {
    if left then text + Spaces(width - |text|) else Spaces(width - |text|) + text
  }

  // What is printed.
  function Printed(kind: char, v: int, flags: Flags, width: nat, prec: nat): seq<char> {
    Rendered(Abs(v), v < 0, Base(kind), prec, width, IntegerFlags(kind, flags))
  }

  // ---------- When they agree ----------

  function Count(kind: char, v: int, flags: Flags): nat {
    if v == 0 && flags.precision then 0 else |Numeral(kind, v)|
  }

  // Without a prefix, the precision is lost with left alignment, and the buffer is too small for
  // much of it.
  predicate PlainConforms(sign: seq<char>, n: nat, flags: Flags, width: nat, prec: nat) {
    if flags.left then prec <= n
    else if flags.precision then prec < 32 || (prec == 32 && (sign == [] || (sign == [' '] && width > 32)))
    else flags.zeropad ==> width <= 32
  }

  predicate HexConforms(n: nat, flags: Flags, width: nat, prec: nat) {
    if flags.precision then prec <= if flags.left then n else 30
    else if ZeroFilled(flags) then n > width || n + 2 <= width <= 32
    else n != width
  }

  predicate OctalConforms(n: nat, flags: Flags, width: nat, prec: nat) {
    if flags.precision then if flags.left then prec <= n + 1 else prec <= n || prec == 32
    else n != width && (ZeroFilled(flags) ==> width <= 32)
  }

  predicate Conforms(kind: char, v: int, flags: Flags, width: nat, prec: nat) {
    if flags.hash && v != 0 && (kind == 'x' || kind == 'X') then HexConforms(Count(kind, v, flags), flags, width, prec)
    else if flags.hash && v != 0 && kind == 'o' then OctalConforms(Count(kind, v, flags), flags, width, prec)
    else
      && PlainConforms(Sign(kind, v, flags), Count(kind, v, flags), flags, width, prec)
      && !(flags.hash && kind == 'o' && flags.precision && prec == 0)
  }

  // ---------- Characters that are not blank ----------

  function Ink(s: seq<char>): (n: nat)
    ensures n <= |s|
  {
    if s == [] then 0 else (if s[0] == ' ' then 0 else 1) + Ink(s[1..])
  }

  lemma {:induction false} InkJoined(a: seq<char>, b: seq<char>)
    ensures Ink(a + b) == Ink(a) + Ink(b)
  {
    if a == [] {
      assert a + b == b;
    } else {
      InkJoined(a[1..], b);
      assert (a + b)[1..] == a[1..] + b;
    }
  }

  lemma {:induction false} AllInk(s: seq<char>)
    requires forall k :: 0 <= k < |s| ==> s[k] != ' '
    ensures Ink(s) == |s|
  {
    if s != [] {
      AllInk(s[1..]);
    }
  }

  lemma {:induction false} NoInk(n: int)
    ensures Ink(Spaces(n)) == 0
    decreases if n > 0 then n else 0
  {
    if n > 0 {
      NoInk(n - 1);
      assert Spaces(n)[1..] == Spaces(n - 1);
    }
  }

  lemma AlignedInk(text: seq<char>, width: nat, left: bool)
    ensures Ink(Aligned(text, width, left)) == Ink(text)
  {
    NoInk(width - |text|);
    InkJoined(text, Spaces(width - |text|));
    InkJoined(Spaces(width - |text|), text);
  }

  // The printer's digits, which come the other way round.
  lemma {:induction false} NumeralIs(kind: char, value: nat)
    requires IsStandard(kind)
    ensures NumeralOf(kind, value) == Reverse(RevDigits(value, Base(kind), kind == 'X'))
    decreases value
  {
    OneDigit(value, Base(kind), kind == 'X');
    Quotient(value, Base(kind));
    SameDigit(kind, value % Base(kind));
    if value >= Base(kind) {
      NumeralIs(kind, value / Base(kind));
      ReverseCons(DigitChar(value % Base(kind), kind == 'X'), RevDigits(value / Base(kind), Base(kind), kind == 'X'));
    } else {
      ReverseShort([DigitChar(value, kind == 'X')]);
    }
  }

  lemma SameDigit(kind: char, d: nat)
    requires d < 16
    ensures DigitChar(d, kind == 'X') == DigitOf(kind, d)
  {
  }

  lemma NumeralInk(kind: char, v: int)
    requires IsStandard(kind)
    ensures Ink(Numeral(kind, v)) == |Numeral(kind, v)| > 0
    ensures v != 0 ==> Numeral(kind, v)[0] != '0'
  {
    NumeralIs(kind, Abs(v));
    var digits := RevDigits(Abs(v), Base(kind), kind == 'X');
    DigitsValue(Abs(v), Base(kind), kind == 'X');
    DigitsInk(Reverse(digits), Base(kind));
    NoLeadingZero(kind, v);
  }

  lemma NoLeadingZero(kind: char, v: int)
    requires IsStandard(kind)
    ensures v != 0 ==> Numeral(kind, v)[0] != '0'
  {
    NumeralIs(kind, Abs(v));
    if v != 0 {
      TopDigit(Abs(v), Base(kind), kind == 'X');
    }
  }

  lemma DigitsInk(s: seq<char>, base: nat)
    requires base <= 36 && forall k :: 0 <= k < |s| ==> Strtoul.IsDigitOf(s[k], base)
    ensures Ink(s) == |s|
  {
    forall k | 0 <= k < |s| ensures s[k] != ' ' {
      assert Strtoul.IsDigitOf(s[k], base);
    }
    AllInk(s);
  }

  lemma {:induction false} TopDigit(value: nat, base: nat, uppercase: bool)
    requires 2 <= base <= 36 && value > 0
    ensures var digits := RevDigits(value, base, uppercase); digits[|digits| - 1] != '0'
    decreases value
  {
    OneDigit(value, base, uppercase);
    Quotient(value, base);
    DigitCharValue(value % base, uppercase);
    if value / base != 0 {
      TopDigit(value / base, base, uppercase);
    } else {
      ZeroDigit(value % base, uppercase);
    }
  }

  lemma ZeroDigit(d: nat, uppercase: bool)
    requires 0 < d < 36
    ensures DigitChar(d, uppercase) != '0'
  {
  }

  // ---------- The standard's text in parts ----------

  function Core(kind: char, v: int, flags: Flags): seq<char> {
    if v == 0 && flags.precision then [] else Numeral(kind, v)
  }

  function Piece(sign: seq<char>, mark: seq<char>, zeros: nat, core: seq<char>): seq<char> {
    sign + (mark + (Zeros(zeros) + core))
  }

  lemma PieceInk(sign: seq<char>, mark: seq<char>, zeros: nat, core: seq<char>)
    ensures Ink(Piece(sign, mark, zeros, core)) == Ink(sign) + Ink(mark) + zeros + Ink(core)
    ensures |Piece(sign, mark, zeros, core)| == |sign| + |mark| + zeros + |core|
  {
    InkJoined(sign, mark + (Zeros(zeros) + core));
    InkJoined(mark, Zeros(zeros) + core);
    InkJoined(Zeros(zeros), core);
    AllInk(Zeros(zeros));
  }

  lemma CoreInk(kind: char, v: int, flags: Flags)
    requires IsStandard(kind)
    ensures Ink(Core(kind, v, flags)) == |Core(kind, v, flags)| == Count(kind, v, flags)
  {
    NumeralInk(kind, v);
  }

  // The zeros that the standard puts before the digits for the precision and an octal mark.
  function Lead(kind: char, v: int, flags: Flags, prec: nat): nat {
    var zeros := ZerosToFill(if flags.precision then prec else 0, Count(kind, v, flags));
    if flags.hash && kind == 'o' && zeros == 0 && (v != 0 || flags.precision) then 1 else zeros
  }

  lemma StandardDigits(kind: char, v: int, flags: Flags, prec: nat)
    requires IsStandard(kind)
    requires !flags.precision ==> prec == 0
    ensures WithZero(kind, flags, Precise(kind, v, flags, prec)) ==
            Zeros(Lead(kind, v, flags, prec)) + Core(kind, v, flags)
  {
    NumeralInk(kind, v);
    if v == 0 {
      assert Zeros(1) == ['0'];
      assert Numeral(kind, v) == ['0'];
    }
  }

  function FillOf(sign: seq<char>, mark: seq<char>, lead: nat, core: seq<char>, width: nat): nat {
    ZerosToFill(width, |sign| + |mark| + lead + |core|) + lead
  }

  function PieceLayout(sign: seq<char>, mark: seq<char>, lead: nat, core: seq<char>, flags: Flags, width: nat)
    : seq<char>
  {
    if ZeroFilled(flags) then Piece(sign, mark, FillOf(sign, mark, lead, core, width), core)
    else Aligned(Piece(sign, mark, lead, core), width, flags.left)
  }

  lemma StandardIs(kind: char, v: int, flags: Flags, width: nat, prec: nat)
    requires IsStandard(kind)
    requires !flags.precision ==> prec == 0
    ensures Standard(kind, v, flags, width, prec) ==
            PieceLayout(Sign(kind, v, flags), HexMark(kind, v, flags), Lead(kind, v, flags, prec), Core(kind, v, flags),
                        flags, width)
  {
    var sign, mark, core := Sign(kind, v, flags), HexMark(kind, v, flags), Core(kind, v, flags);
    StandardDigits(kind, v, flags, prec);
    LayoutInPieces(sign, mark, Lead(kind, v, flags, prec), core, flags, width);
  }

  lemma LayoutInPieces(sign: seq<char>, mark: seq<char>, lead: nat, core: seq<char>, flags: Flags, width: nat)
    ensures Layout(sign, mark, Zeros(lead) + core, flags, width) == PieceLayout(sign, mark, lead, core, flags, width)
  {
    if ZeroFilled(flags) {
      FilledInPieces(sign, mark, lead, core, flags, width);
    } else {
      BlankedIs(Piece(sign, mark, lead, core), width, flags.left);
    }
  }

  lemma BlankedIs(text: seq<char>, width: nat, left: bool)
    ensures Blanked(text, width, left) == Aligned(text, width, left)
    ensures Blanked(text, 0, left) == text
  {
  }

  lemma FilledInPieces(sign: seq<char>, mark: seq<char>, lead: nat, core: seq<char>, flags: Flags, width: nat)
    requires ZeroFilled(flags)
    ensures Layout(sign, mark, Zeros(lead) + core, flags, width) == PieceLayout(sign, mark, lead, core, flags, width)
  {
    var fill := ZerosToFill(width, |sign| + |mark| + lead + |core|);
    MoreZeros(fill, lead, core);
    assert Layout(sign, mark, Zeros(lead) + core, flags, width) == sign + (mark + (Zeros(fill) + (Zeros(lead) + core)));
  }

  lemma MoreZeros(m: nat, n: nat, core: seq<char>)
    ensures Zeros(m) + (Zeros(n) + core) == Zeros(m + n) + core
  {
    ZerosAppend(m, n);
    assert Zeros(m) + (Zeros(n) + core) == Zeros(m) + Zeros(n) + core;
  }

  // ---------- What is printed in parts ----------

  lemma CodeFlags(kind: char, v: int, flags: Flags)
    requires IsStandard(kind) && Abs(v) < ULONG_LIMIT && (v < 0 ==> IsSigned(kind))
    ensures
      var fl := IntegerFlags(kind, flags);
      && SignOf(v < 0, fl) == Sign(kind, v, flags) && |Sign(kind, v, flags)| <= 1
      && Reverse(Digits(Abs(v), Base(kind), fl)) == Core(kind, v, flags)
      && |Digits(Abs(v), Base(kind), fl)| == Count(kind, v, flags) <= 22
      && 8 <= Base(kind) <= 16
      && BlankPadded(fl) == !ZeroFilled(flags)
  {
    CodeDigits(kind, v, IntegerFlags(kind, flags), flags);
  }

  lemma CodeDigits(kind: char, v: int, fl: Flags, flags: Flags)
    requires IsStandard(kind) && Abs(v) < ULONG_LIMIT
    requires fl.uppercase == (kind == 'X') && fl.precision == flags.precision
    ensures 8 <= Base(kind) <= 16
    ensures Reverse(Digits(Abs(v), Base(kind), fl)) == Core(kind, v, flags)
    ensures |Digits(Abs(v), Base(kind), fl)| == Count(kind, v, flags) <= 22
  {
    WordFits(Abs(v), Base(kind), kind == 'X');
    NumeralIs(kind, Abs(v));
  }

  // The zeros that fit.
  function Fit(n: nat, count: nat): nat
    requires count <= 32
  {
    ZerosToFill(if n < 32 then n else 32, count)
  }

  lemma FittingZeros(digits: seq<char>, n: nat)
    requires |digits| <= 32
    ensures PadZeros(digits, n) == digits + Zeros(Fit(n, |digits|))
  {
    PadZerosIs(digits, n);
  }

  lemma ReversedPiece(digits: seq<char>, zeros: nat, sign: seq<char>)
    requires |sign| <= 1
    ensures Reverse(digits + Zeros(zeros) + sign) == Piece(sign, [], zeros, Reverse(digits))
  {
    ZeroPaddedReversed(digits, zeros, sign);
  }

  ghost predicate Ready(kind: char, v: int, flags: Flags, prec: nat) {
    && IsStandard(kind) && Abs(v) < ULONG_LIMIT && (v < 0 ==> IsSigned(kind))
    && (!flags.precision ==> prec == 0)
  }

  // ---------- Numbers without a prefix ----------

  ghost predicate Plain(kind: char, v: int, flags: Flags) { v == 0 || !IntegerFlags(kind, flags).hash }

  function PlainZeros(kind: char, v: int, flags: Flags, width: nat, prec: nat): nat
    requires Count(kind, v, flags) <= 32
  {
    var n := Count(kind, v, flags);
    if flags.left then 0
    else if ZeroFilled(flags) then Fit(PadWidth(v < 0, width, IntegerFlags(kind, flags)), n)
    else Fit(prec, n)
  }

  lemma PlainPadded(kind: char, v: int, flags: Flags, width: nat, prec: nat)
    requires Ready(kind, v, flags, prec) && Count(kind, v, flags) <= 22
    ensures
      var fl := IntegerFlags(kind, flags);
      var digits := Digits(Abs(v), Base(kind), fl);
      |digits| == Count(kind, v, flags) ==>
        Padded(digits, v < 0, prec, width, fl) == digits + Zeros(PlainZeros(kind, v, flags, width, prec))
  {
    var fl := IntegerFlags(kind, flags);
    var digits := Digits(Abs(v), Base(kind), fl);
    if |digits| == Count(kind, v, flags) {
      FittingZeros(digits, prec);
      FittingZeros(digits, PadWidth(v < 0, width, fl));
    }
  }

  function Framed(text: seq<char>, width: nat, flags: Flags): seq<char> {
    if ZeroFilled(flags) then text else Aligned(text, width, flags.left)
  }

  lemma PrintedFramed(kind: char, v: int, flags: Flags, width: nat, prec: nat)
    requires Ready(kind, v, flags, prec)
    ensures
      var fl := IntegerFlags(kind, flags);
      var buf := Buffer(Abs(v), v < 0, Base(kind), prec, width, fl);
      Printed(kind, v, flags, width, prec) == Framed(Reverse(buf), width, flags)
  {
    var fl := IntegerFlags(kind, flags);
    var buf := Buffer(Abs(v), v < 0, Base(kind), prec, width, fl);
    if ZeroFilled(flags) {
      NoBlanksAdded(buf, PadWidth(v < 0, width, fl), fl);
    } else {
      BlankField(buf, width, fl);
    }
  }

  lemma PlainPrinted(kind: char, v: int, flags: Flags, width: nat, prec: nat)
    requires Ready(kind, v, flags, prec) && Plain(kind, v, flags)
    ensures Count(kind, v, flags) <= 22
    ensures
      var k := PlainZeros(kind, v, flags, width, prec);
      var sign := if Count(kind, v, flags) + k < 32 then Sign(kind, v, flags) else [];
      Printed(kind, v, flags, width, prec) == Framed(Piece(sign, [], k, Core(kind, v, flags)), width, flags)
  {
    var fl := IntegerFlags(kind, flags);
    CodeFlags(kind, v, flags);
    var digits, k := Digits(Abs(v), Base(kind), fl), PlainZeros(kind, v, flags, width, prec);
    var sign := if Count(kind, v, flags) + k < 32 then Sign(kind, v, flags) else [];
    PlainPadded(kind, v, flags, width, prec);
    PlainBuffer(Abs(v), v < 0, Base(kind), prec, width, fl);
    SignAppended(digits + Zeros(k), v < 0, fl);
    ReversedPiece(digits, k, sign);
    PrintedFramed(kind, v, flags, width, prec);
  }

  // Texts with different numbers of characters stay different, however they are aligned.
  lemma AlignedApart(a: seq<char>, b: seq<char>, width: nat, left: bool)
    requires Ink(a) != Ink(b)
    ensures Aligned(a, width, left) != Aligned(b, width, left)
  {
    AlignedInk(a, width, left);
    AlignedInk(b, width, left);
  }

  lemma SignInk(kind: char, v: int, flags: Flags)
    ensures Ink(Sign(kind, v, flags)) == if Sign(kind, v, flags) in {[], [' ']} then 0 else 1
  {
    assert Ink([]) == 0;
  }

  lemma PlainIff(kind: char, v: int, flags: Flags, width: nat, prec: nat)
    requires Ready(kind, v, flags, prec) && Plain(kind, v, flags)
    requires !(flags.hash && kind == 'o' && flags.precision && prec == 0)
    ensures Printed(kind, v, flags, width, prec) == Standard(kind, v, flags, width, prec) <==>
            PlainConforms(Sign(kind, v, flags), Count(kind, v, flags), flags, width, prec)
  {
    PlainPrinted(kind, v, flags, width, prec);
    StandardIs(kind, v, flags, width, prec);
    CoreInk(kind, v, flags);
    SignInk(kind, v, flags);
    PlainParts(kind, v, flags, width, prec);
    PlainCompared(Sign(kind, v, flags), Core(kind, v, flags), PlainZeros(kind, v, flags, width, prec),
                  Lead(kind, v, flags, prec), width, prec, flags);
  }

  // The zeros printed, by the length of the sign.
  function ZerosPrinted(sign: seq<char>, n: nat, flags: Flags, width: nat, prec: nat): nat
    requires n <= 32 && |sign| <= 1
  {
    if ZeroFilled(flags) then Fit(if width > 0 then width - |sign| else 0, n) else MarkedZeros(n, flags, width, prec)
  }

  lemma PlainParts(kind: char, v: int, flags: Flags, width: nat, prec: nat)
    requires Ready(kind, v, flags, prec) && Plain(kind, v, flags) && Count(kind, v, flags) <= 22
    requires !(flags.hash && kind == 'o' && flags.precision && prec == 0)
    ensures
      var n, sign := Count(kind, v, flags), Sign(kind, v, flags);
      && |sign| <= 1 && HexMark(kind, v, flags) == []
      && PlainZeros(kind, v, flags, width, prec) == ZerosPrinted(sign, n, flags, width, prec)
      && Lead(kind, v, flags, prec) == ZerosToFill(prec, n)
  {
  }

  lemma PlainCompared(sign: seq<char>, core: seq<char>, k: nat, lead: nat, width: nat, prec: nat, flags: Flags)
    requires |core| <= 22 && Ink(core) == |core| && (!flags.precision ==> prec == 0)
    requires |sign| <= 1 && Ink(sign) == if sign in {[], [' ']} then 0 else 1
    requires k == ZerosPrinted(sign, |core|, flags, width, prec) && lead == ZerosToFill(prec, |core|)
    ensures
      Framed(Piece(if |core| + k < 32 then sign else [], [], k, core), width, flags) ==
      PieceLayout(sign, [], lead, core, flags, width) <==>
      PlainConforms(sign, |core|, flags, width, prec)
  {
    var kept := if |core| + k < 32 then sign else [];
    if ZeroFilled(flags) {
      PlainFilled(sign, kept, core, k, FillOf(sign, [], lead, core, width), width);
    } else {
      PlainAligned(sign, kept, core, k, lead, width, prec, flags);
    }
  }

  lemma PlainAligned(sign: seq<char>, kept: seq<char>, core: seq<char>, k: nat, lead: nat, width: nat, prec: nat,
                     flags: Flags)
    requires |core| <= 22 && Ink(core) == |core| && (!flags.precision ==> prec == 0) && !ZeroFilled(flags)
    requires |sign| <= 1 && Ink(sign) == if sign in {[], [' ']} then 0 else 1
    requires k == MarkedZeros(|core|, flags, width, prec) && lead == ZerosToFill(prec, |core|)
    requires kept == if |core| + k < 32 then sign else []
    ensures Aligned(Piece(kept, [], k, core), width, flags.left) ==
            Aligned(Piece(sign, [], lead, core), width, flags.left) <==>
            PlainConforms(sign, |core|, flags, width, prec)
  {
    PieceInk(kept, [], k, core);
    PieceInk(sign, [], lead, core);
    if Ink(Piece(kept, [], k, core)) != Ink(Piece(sign, [], lead, core)) {
      AlignedApart(Piece(kept, [], k, core), Piece(sign, [], lead, core), width, flags.left);
    } else if kept != sign {
      BlankSign(lead, core, width);
    }
  }

  // A blank for a sign makes no difference where there are blanks before it.
  lemma BlankSign(zeros: nat, core: seq<char>, width: nat)
    ensures
      Aligned(Piece([], [], zeros, core), width, false) == Aligned(Piece([' '], [], zeros, core), width, false) <==>
      width > zeros + |core|
  {
    var text := Piece([], [], zeros, core);
    assert Piece([' '], [], zeros, core) == [' '] + text;
    if width > |text| {
      SpacesSnoc(width - |text| - 1);
      assert Spaces(width - |text| - 1) + ([' '] + text) == Spaces(width - |text| - 1) + [' '] + text;
    }
  }

  lemma PlainFilled(sign: seq<char>, kept: seq<char>, core: seq<char>, k: nat, fill: nat, width: nat)
    requires |core| <= 22 && |sign| <= 1 && k == Fit(if width > 0 then width - |sign| else 0, |core|)
    requires fill == ZerosToFill(width, |sign| + |core|) && kept == if |core| + k < 32 then sign else []
    ensures Piece(kept, [], k, core) == Piece(sign, [], fill, core) <==> width <= 32
  {
    PieceInk(kept, [], k, core);
    PieceInk(sign, [], fill, core);
  }

  // ---------- Hexadecimal numbers with a prefix ----------

  function MarkedZeros(n: nat, flags: Flags, width: nat, prec: nat): nat
    requires n <= 32
  {
    if flags.left then 0 else Fit(if ZeroFilled(flags) then width else prec, n)
  }

  lemma MarkedPrinted(kind: char, v: int, flags: Flags, width: nat, prec: nat)
    returns (digits: seq<char>, k: nat, fl: Flags)
    requires Ready(kind, v, flags, prec) && !Plain(kind, v, flags)
    ensures 0 < |digits| == Count(kind, v, flags) <= 22 && k == MarkedZeros(|digits|, flags, width, prec)
    ensures Reverse(digits) == Core(kind, v, flags) && Ink(Reverse(digits)) == |digits|
    ensures Sign(kind, v, flags) == []
    ensures fl == IntegerFlags(kind, flags)
    ensures Printed(kind, v, flags, width, prec) ==
            Framed(Reverse(WithHash(digits + Zeros(k), Base(kind), prec, width, fl)), width, flags)
  {
    fl := IntegerFlags(kind, flags);
    digits := Digits(Abs(v), Base(kind), fl);
    CodeFlags(kind, v, flags);
    k := PlainZeros(kind, v, flags, width, prec);
    PlainPadded(kind, v, flags, width, prec);
    PrintedFramed(kind, v, flags, width, prec);
    NumeralInk(kind, v);
  }

  lemma HexHash(buf: seq<char>, kind: char, prec: nat, width: nat, fl: Flags)
    requires |buf| <= 32 && fl.hash && (kind == 'x' || kind == 'X') && fl.uppercase == (kind == 'X')
    ensures
      var room, out := Room(buf, 16, prec, width, fl.precision), WithHash(buf, 16, prec, width, fl);
      |out| <= 32 && if |room| <= 30 then Reverse(out) == ['0', kind] + Reverse(room) else |room| == |buf|
  {
    var room, out := Room(buf, 16, prec, width, fl.precision), WithHash(buf, 16, prec, width, fl);
    if |room| <= 30 {
      assert out == room + [kind, '0'];
      ReverseAppend(room, [kind, '0']);
      assert Reverse([kind, '0']) == ['0', kind];
    }
  }

  lemma ReversedDigits(digits: seq<char>, zeros: nat)
    ensures Reverse(digits + Zeros(zeros)) == Zeros(zeros) + Reverse(digits)
  {
    ReverseAppend(digits, Zeros(zeros));
    ReverseZeros(zeros);
  }

  // The text of a hexadecimal number before blanks are added, as far as it matters.
  ghost predicate HexText(buf: seq<char>, kind: char, width: nat, prec: nat, precision: bool, out: seq<char>) {
    var room := Room(buf, 16, prec, width, precision);
    |out| <= 32 && if |room| <= 30 then out == ['0', kind] + Reverse(room) else |room| == |buf|
  }

  lemma HexPrinted(kind: char, v: int, flags: Flags, width: nat, prec: nat)
    returns (digits: seq<char>, k: nat, out: seq<char>)
    requires Ready(kind, v, flags, prec) && !Plain(kind, v, flags) && Base(kind) == 16
    ensures 0 < |digits| == Count(kind, v, flags) <= 22 && k == MarkedZeros(|digits|, flags, width, prec)
    ensures Reverse(digits) == Core(kind, v, flags) && Ink(Reverse(digits)) == |digits|
    ensures Sign(kind, v, flags) == []
    ensures Printed(kind, v, flags, width, prec) == Framed(out, width, flags)
    ensures HexText(digits + Zeros(k), kind, width, prec, flags.precision, out)
  {
    var fl;
    digits, k, fl := MarkedPrinted(kind, v, flags, width, prec);
    HexHash(digits + Zeros(k), kind, prec, width, fl);
    out := Reverse(WithHash(digits + Zeros(k), 16, prec, width, fl));
  }

  lemma HexIff(kind: char, v: int, flags: Flags, width: nat, prec: nat)
    requires Ready(kind, v, flags, prec) && !Plain(kind, v, flags) && Base(kind) == 16
    ensures Printed(kind, v, flags, width, prec) == Standard(kind, v, flags, width, prec) <==>
            HexConforms(Count(kind, v, flags), flags, width, prec)
  {
    var digits, k, out := HexPrinted(kind, v, flags, width, prec);
    StandardIs(kind, v, flags, width, prec);
    HexCompared(digits, k, kind, width, prec, Lead(kind, v, flags, prec), flags, out);
  }

  lemma HexCompared(digits: seq<char>, k: nat, kind: char, width: nat, prec: nat, lead: nat, flags: Flags,
                    out: seq<char>)
    requires 0 < |digits| <= 22 && (!flags.precision ==> prec == 0) && lead == ZerosToFill(prec, |digits|)
    requires k == MarkedZeros(|digits|, flags, width, prec)
    requires Ink(Reverse(digits)) == |digits| && kind != ' '
    requires HexText(digits + Zeros(k), kind, width, prec, flags.precision, out)
    ensures Framed(out, width, flags) == PieceLayout([], ['0', kind], lead, Reverse(digits), flags, width) <==>
            HexConforms(|digits|, flags, width, prec)
  {
    if ZeroFilled(flags) {
      var fill := FillOf([], ['0', kind], lead, Reverse(digits), width);
      HexFilled(digits, k, fill, kind, width, out);
    } else {
      HexAligned(digits, k, lead, kind, width, prec, flags, out);
    }
  }

  lemma HexFilled(digits: seq<char>, k: nat, fill: nat, kind: char, width: nat, out: seq<char>)
    requires 0 < |digits| <= 22 && k == Fit(width, |digits|) && fill == ZerosToFill(width, 2 + |digits|)
    requires HexText(digits + Zeros(k), kind, width, 0, false, out)
    ensures out == Piece([], ['0', kind], fill, Reverse(digits)) <==> |digits| > width || |digits| + 2 <= width <= 32
  {
    var n := |digits|;
    if n > width {
      ReversedDigits(digits, 0);
      assert out == ['0', kind] + (Zeros(0) + Reverse(digits));
    } else if n + 2 <= width <= 32 {
      KeptZeros(digits, k, 2);
      ReversedDigits(digits, k - 2);
    } else {
      PieceInk([], ['0', kind], fill, Reverse(digits));
      assert |out| < 2 + n || |out| < width;
    }
  }

  lemma KeptZeros(digits: seq<char>, k: nat, less: nat)
    requires less <= k
    ensures (digits + Zeros(k))[..|digits| + k - less] == digits + Zeros(k - less)
  {
    ZerosAppend(k - less, less);
  }

  lemma HexAligned(digits: seq<char>, k: nat, lead: nat, kind: char, width: nat, prec: nat, flags: Flags,
                   out: seq<char>)
    requires 0 < |digits| <= 22 && !ZeroFilled(flags) && (!flags.precision ==> prec == 0)
    requires k == MarkedZeros(|digits|, flags, width, prec) && lead == ZerosToFill(prec, |digits|)
    requires Ink(Reverse(digits)) == |digits| && kind != ' '
    requires HexText(digits + Zeros(k), kind, width, prec, flags.precision, out)
    ensures Aligned(out, width, flags.left) ==
            Aligned(Piece([], ['0', kind], lead, Reverse(digits)), width, flags.left) <==>
            HexConforms(|digits|, flags, width, prec)
  {
    HexUnframed(digits, k, lead, kind, width, prec, flags, out);
    if Ink(out) != Ink(Piece([], ['0', kind], lead, Reverse(digits))) {
      AlignedApart(out, Piece([], ['0', kind], lead, Reverse(digits)), width, flags.left);
    }
  }

  lemma HexUnframed(digits: seq<char>, k: nat, lead: nat, kind: char, width: nat, prec: nat, flags: Flags,
                    out: seq<char>)
    requires 0 < |digits| <= 22 && !ZeroFilled(flags) && (!flags.precision ==> prec == 0)
    requires k == MarkedZeros(|digits|, flags, width, prec) && lead == ZerosToFill(prec, |digits|)
    requires Ink(Reverse(digits)) == |digits| && kind != ' '
    requires HexText(digits + Zeros(k), kind, width, prec, flags.precision, out)
    ensures
      var standard := Piece([], ['0', kind], lead, Reverse(digits));
      if HexConforms(|digits|, flags, width, prec) then out == standard else Ink(out) != Ink(standard)
  {
    PieceInk([], ['0', kind], lead, Reverse(digits));
    AllInk(['0', kind]);
    if |Room(digits + Zeros(k), 16, prec, width, flags.precision)| == |digits| + k <= 30 {
      ReversedDigits(digits, k);
      PieceInk([], ['0', kind], k, Reverse(digits));
      assert out == Piece([], ['0', kind], k, Reverse(digits));
    }
  }

  // ---------- Octal numbers with a prefix ----------

  lemma OctalHash(buf: seq<char>, prec: nat, width: nat, fl: Flags)
    requires |buf| <= 32 && fl.hash
    ensures
      var room, out := Room(buf, 8, prec, width, fl.precision), WithHash(buf, 8, prec, width, fl);
      Reverse(out) == (if |room| < 32 then ['0'] else []) + Reverse(room)
  {
    var room := Room(buf, 8, prec, width, fl.precision);
    if |room| < 32 {
      ReverseAppend(room, ['0']);
      ReverseShort(['0']);
    }
  }

  ghost predicate OctalText(buf: seq<char>, width: nat, prec: nat, precision: bool, out: seq<char>) {
    var room := Room(buf, 8, prec, width, precision);
    |room| <= 32 && out == (if |room| < 32 then ['0'] else []) + Reverse(room)
  }

  lemma OctalPrinted(kind: char, v: int, flags: Flags, width: nat, prec: nat)
    returns (digits: seq<char>, k: nat, out: seq<char>)
    requires Ready(kind, v, flags, prec) && !Plain(kind, v, flags) && kind == 'o'
    ensures 0 < |digits| == Count(kind, v, flags) <= 22 && k == MarkedZeros(|digits|, flags, width, prec)
    ensures Reverse(digits) == Core(kind, v, flags) && Ink(Reverse(digits)) == |digits|
    ensures Sign(kind, v, flags) == []
    ensures Printed(kind, v, flags, width, prec) == Framed(out, width, flags)
    ensures OctalText(digits + Zeros(k), width, prec, flags.precision, out)
  {
    var fl;
    digits, k, fl := MarkedPrinted(kind, v, flags, width, prec);
    OctalHash(digits + Zeros(k), prec, width, fl);
    out := Reverse(WithHash(digits + Zeros(k), 8, prec, width, fl));
  }

  lemma OctalIff(kind: char, v: int, flags: Flags, width: nat, prec: nat)
    requires Ready(kind, v, flags, prec) && !Plain(kind, v, flags) && kind == 'o'
    ensures Printed(kind, v, flags, width, prec) == Standard(kind, v, flags, width, prec) <==>
            OctalConforms(Count(kind, v, flags), flags, width, prec)
  {
    var digits, k, out := OctalPrinted(kind, v, flags, width, prec);
    StandardIs(kind, v, flags, width, prec);
    OctalCompared(digits, k, width, prec, Lead(kind, v, flags, prec), flags, out);
  }

  lemma OctalCompared(digits: seq<char>, k: nat, width: nat, prec: nat, lead: nat, flags: Flags, out: seq<char>)
    requires 0 < |digits| <= 22 && (!flags.precision ==> prec == 0) && lead == Max(ZerosToFill(prec, |digits|), 1)
    requires k == MarkedZeros(|digits|, flags, width, prec)
    requires Ink(Reverse(digits)) == |digits| && OctalText(digits + Zeros(k), width, prec, flags.precision, out)
    ensures Framed(out, width, flags) == PieceLayout([], [], lead, Reverse(digits), flags, width) <==>
            OctalConforms(|digits|, flags, width, prec)
  {
    if ZeroFilled(flags) {
      var fill := FillOf([], [], lead, Reverse(digits), width);
      OctalFilled(digits, k, fill, width, out);
    } else {
      OctalAligned(digits, k, lead, width, prec, flags, out);
    }
  }

  lemma OctalFilled(digits: seq<char>, k: nat, fill: nat, width: nat, out: seq<char>)
    requires 0 < |digits| <= 22 && k == Fit(width, |digits|) && fill == ZerosToFill(width, 1 + |digits|) + 1
    requires OctalText(digits + Zeros(k), width, 0, false, out)
    ensures out == Piece([], [], fill, Reverse(digits)) <==> |digits| != width && width <= 32
  {
    var n := |digits|;
    if n > width {
      OctalPiece(digits, 0, out);
    } else if n < width <= 32 {
      KeptZeros(digits, k, 1);
      OctalPiece(digits, k - 1, out);
    } else {
      PieceInk([], [], fill, Reverse(digits));
      assert |out| < 1 + n || |out| < width;
    }
  }

  lemma OctalPiece(digits: seq<char>, zeros: nat, out: seq<char>)
    requires out == ['0'] + Reverse(digits + Zeros(zeros))
    ensures out == Piece([], [], zeros + 1, Reverse(digits))
  {
    ReversedDigits(digits, zeros);
  }

  lemma OctalAligned(digits: seq<char>, k: nat, lead: nat, width: nat, prec: nat, flags: Flags, out: seq<char>)
    requires 0 < |digits| <= 22 && !ZeroFilled(flags) && (!flags.precision ==> prec == 0)
    requires k == MarkedZeros(|digits|, flags, width, prec) && lead == Max(ZerosToFill(prec, |digits|), 1)
    requires Ink(Reverse(digits)) == |digits| && OctalText(digits + Zeros(k), width, prec, flags.precision, out)
    ensures Aligned(out, width, flags.left) == Aligned(Piece([], [], lead, Reverse(digits)), width, flags.left) <==>
            OctalConforms(|digits|, flags, width, prec)
  {
    OctalUnframed(digits, k, lead, width, prec, flags, out);
    if Ink(out) != Ink(Piece([], [], lead, Reverse(digits))) {
      AlignedApart(out, Piece([], [], lead, Reverse(digits)), width, flags.left);
    }
  }

  lemma OctalUnframed(digits: seq<char>, k: nat, lead: nat, width: nat, prec: nat, flags: Flags, out: seq<char>)
    requires 0 < |digits| <= 22 && !ZeroFilled(flags) && (!flags.precision ==> prec == 0)
    requires k == MarkedZeros(|digits|, flags, width, prec) && lead == Max(ZerosToFill(prec, |digits|), 1)
    requires Ink(Reverse(digits)) == |digits| && OctalText(digits + Zeros(k), width, prec, flags.precision, out)
    ensures
      var standard := Piece([], [], lead, Reverse(digits));
      if OctalConforms(|digits|, flags, width, prec) then out == standard else Ink(out) != Ink(standard)
  {
    PieceInk([], [], lead, Reverse(digits));
    if |Room(digits + Zeros(k), 8, prec, width, flags.precision)| == |digits| + k {
      var zeros := if |digits| + k < 32 then k + 1 else k;
      if |digits| + k < 32 {
        OctalPiece(digits, k, out);
      } else {
        ReversedDigits(digits, k);
        assert out == Piece([], [], k, Reverse(digits));
      }
      PieceInk([], [], zeros, Reverse(digits));
    }
  }

  // ---------- Agreement ----------

  // A number is printed as the standard prescribes exactly if the buffer and the prefix allow it.
  lemma ConformsIff(kind: char, v: int, flags: Flags, width: nat, prec: nat)
    requires IsStandard(kind) && Abs(v) < ULONG_LIMIT && (v < 0 ==> IsSigned(kind))
    requires !flags.precision ==> prec == 0
    ensures Printed(kind, v, flags, width, prec) == Standard(kind, v, flags, width, prec) <==>
            Conforms(kind, v, flags, width, prec)
  {
    if flags.hash && v != 0 && (kind == 'x' || kind == 'X') {
      HexIff(kind, v, flags, width, prec);
    } else if flags.hash && v != 0 && kind == 'o' {
      OctalIff(kind, v, flags, width, prec);
    } else if flags.hash && kind == 'o' && flags.precision && prec == 0 {
      ZeroLost(kind, v, flags, width, prec);
    } else {
      PlainIff(kind, v, flags, width, prec);
    }
  }

  // The alternative form of an octal zero at precision 0 is 0, but nothing is printed.
  lemma ZeroLost(kind: char, v: int, flags: Flags, width: nat, prec: nat)
    requires kind == 'o' && v == 0 && flags.hash && flags.precision && prec == 0
    ensures Printed(kind, v, flags, width, prec) != Standard(kind, v, flags, width, prec)
  {
    PlainPrinted(kind, v, flags, width, prec);
    StandardIs(kind, v, flags, width, prec);
    PieceInk([], [], 0, []);
    PieceInk([], [], 1, []);
    AlignedApart(Piece([], [], 0, []), Piece([], [], 1, []), width, flags.left);
  }

  // ---------- A negative precision ----------

  // In the standard a negative precision is as good as none; the code takes it for 0, where zero has
  // no digits and the zero flag is ignored.
  predicate OmittedConforms(kind: char, v: int, flags: Flags, width: nat) {
    && v != 0
    && (ZeroFilled(flags) ==>
          width <= |Sign(kind, v, flags)| + |HexMark(kind, v, flags)| + Lead(kind, v, flags, 0) + |Numeral(kind, v)|)
  }

  lemma OmittedIff(kind: char, v: int, flags: Flags, width: nat)
    requires IsStandard(kind) && Abs(v) < ULONG_LIMIT && (v < 0 ==> IsSigned(kind)) && !flags.precision
    ensures Printed(kind, v, flags.(precision := true), width, 0) == Standard(kind, v, flags, width, 0) <==>
            OmittedConforms(kind, v, flags, width)
  {
    if v == 0 {
      NoZeroDigit(kind, v, flags, width);
    } else {
      OmittedNonzero(kind, v, flags, width);
    }
  }

  lemma NoZeroDigit(kind: char, v: int, flags: Flags, width: nat)
    requires IsStandard(kind) && v == 0 && !flags.precision
    ensures Printed(kind, v, flags.(precision := true), width, 0) != Standard(kind, v, flags, width, 0)
  {
    NothingPrinted(kind, v, flags, width);
    ZeroMeant(kind, v, flags, width);
    NothingOrCore(Sign(kind, v, flags), Core(kind, v, flags), flags, width);
  }

  lemma NothingPrinted(kind: char, v: int, flags: Flags, width: nat)
    requires IsStandard(kind) && v == 0 && !flags.precision
    ensures Printed(kind, v, flags.(precision := true), width, 0) ==
            Aligned(Piece(Sign(kind, v, flags), [], 0, []), width, flags.left)
  {
    PlainPrinted(kind, v, flags.(precision := true), width, 0);
  }

  lemma ZeroMeant(kind: char, v: int, flags: Flags, width: nat)
    requires IsStandard(kind) && v == 0 && !flags.precision
    ensures Ink(Core(kind, v, flags)) > 0
    ensures Standard(kind, v, flags, width, 0) ==
            PieceLayout(Sign(kind, v, flags), [], 0, Core(kind, v, flags), flags, width)
  {
    StandardIs(kind, v, flags, width, 0);
    CoreInk(kind, v, flags);
    NumeralInk(kind, v);
  }

  lemma NothingOrCore(sign: seq<char>, core: seq<char>, flags: Flags, width: nat)
    requires Ink(core) > 0
    ensures Aligned(Piece(sign, [], 0, []), width, flags.left) != PieceLayout(sign, [], 0, core, flags, width)
  {
    InkOfBoth(sign, FillOf(sign, [], 0, core, width), core);
    AlignedInk(Piece(sign, [], 0, []), width, flags.left);
    AlignedInk(Piece(sign, [], 0, core), width, flags.left);
  }

  lemma InkOfBoth(sign: seq<char>, fill: nat, core: seq<char>)
    requires Ink(core) > 0
    ensures Ink(Piece(sign, [], 0, [])) < Ink(Piece(sign, [], fill, core))
    ensures Ink(Piece(sign, [], 0, [])) < Ink(Piece(sign, [], 0, core))
  {
    PieceInk(sign, [], 0, []);
    PieceInk(sign, [], fill, core);
    PieceInk(sign, [], 0, core);
  }

  lemma OmittedNonzero(kind: char, v: int, flags: Flags, width: nat)
    requires IsStandard(kind) && 0 < Abs(v) < ULONG_LIMIT && (v < 0 ==> IsSigned(kind)) && !flags.precision
    ensures Printed(kind, v, flags.(precision := true), width, 0) == Standard(kind, v, flags, width, 0) <==>
            OmittedConforms(kind, v, flags, width)
  {
    var sign, mark, core, lead := Sign(kind, v, flags), HexMark(kind, v, flags), Core(kind, v, flags),
      Lead(kind, v, flags, 0);
    AtPrecisionZero(kind, v, flags, width);
    StandardIs(kind, v, flags, width, 0);
    BlanksOrZeros(sign, mark, lead, core, flags, width);
    assert |core| == |Numeral(kind, v)|;
  }

  lemma BlanksOrZeros(sign: seq<char>, mark: seq<char>, lead: nat, core: seq<char>, flags: Flags, width: nat)
    ensures Aligned(Piece(sign, mark, lead, core), width, flags.left) ==
            PieceLayout(sign, mark, lead, core, flags, width) <==>
            (ZeroFilled(flags) ==> width <= |sign| + |mark| + lead + |core|)
  {
    if ZeroFilled(flags) {
      PieceInk(sign, mark, lead, core);
      PieceInk(sign, mark, FillOf(sign, mark, lead, core, width), core);
      AlignedInk(Piece(sign, mark, lead, core), width, false);
    }
  }

  lemma AtPrecisionZero(kind: char, v: int, flags: Flags, width: nat)
    requires IsStandard(kind) && 0 < Abs(v) < ULONG_LIMIT && (v < 0 ==> IsSigned(kind)) && !flags.precision
    ensures
      var piece := Piece(Sign(kind, v, flags), HexMark(kind, v, flags), Lead(kind, v, flags, 0), Core(kind, v, flags));
      Printed(kind, v, flags.(precision := true), width, 0) == Aligned(piece, width, flags.left)
  {
    var fl := flags.(precision := true);
    ZeroPrecisionConforms(kind, v, fl, width);
    ConformsIff(kind, v, fl, width, 0);
    StandardIs(kind, v, fl, width, 0);
    SameParts(kind, v, flags);
  }

  lemma ZeroPrecisionConforms(kind: char, v: int, flags: Flags, width: nat)
    requires v != 0 && flags.precision
    ensures Conforms(kind, v, flags, width, 0)
  {
  }

  lemma SameParts(kind: char, v: int, flags: Flags)
    requires v != 0 && !flags.precision
    ensures
      var fl := flags.(precision := true);
      && Sign(kind, v, fl) == Sign(kind, v, flags) && HexMark(kind, v, fl) == HexMark(kind, v, flags)
      && Core(kind, v, fl) == Core(kind, v, flags) == Numeral(kind, v)
      && Lead(kind, v, fl, 0) == Lead(kind, v, flags, 0)
  {
  }

  // The same with and without a precision meant, when one was read.
  lemma PrintedIff(kind: char, v: int, flags: Flags, meant: Flags, width: nat, prec: nat)
    requires IsStandard(kind) && Abs(v) < ULONG_LIMIT && (v < 0 ==> IsSigned(kind))
    requires flags == meant || (flags == meant.(precision := true) && prec == 0)
    requires !flags.precision ==> prec == 0
    ensures Printed(kind, v, flags, width, prec) == Standard(kind, v, meant, width, prec) <==>
            if flags.precision && !meant.precision then OmittedConforms(kind, v, meant, width)
            else Conforms(kind, v, meant, width, prec)
  {
    if flags.precision && !meant.precision {
      OmittedIff(kind, v, meant, width);
    } else {
      ConformsIff(kind, v, meant, width, prec);
    }
  }
}
