// What section 7.21.6.1 of ISO C prescribes for a directive as it is written, and when it is printed.
module PrintfDirectives {
  import opened Limits
  import opened Ntoa
  import opened Printf
  import opened PrintfFields
  import opened PrintfStandard
  import opened Options
  import opened RoundTrip
  import Strtoul

  // ---------- What a directive means ----------

  // The value of a type with the given least value and end that is congruent to v.
  function Wrap(v: int, low: int, end: int): (w: int)
    requires low < end
    ensures low <= w < end
  {
    low + (v - low) % (end - low)
  }

  // An argument for an asterisk is an int.
  function IntOf(v: int): int { Wrap(v, -0x8000_0000, 0x8000_0000) }

  function Stars(a: Amount): nat { if a.Star? then 1 else 0 }

  // The number written, or the int argument; arguments for width and precision come first.
  function WidthMeant(d: Directive, args: seq<Arg>): int
    requires d.Conversion? && Supplied(d, args)
  {
    match d.width
    case Absent => 0
    case Written(digits) => Strtoul.Value(digits, 10)
    case Star => IntOf(args[0].v)
  }

  // A negative width is a minus flag and a positive width.
  function FieldWidth(d: Directive, args: seq<Arg>): nat
    requires d.Conversion? && Supplied(d, args)
  {
    if WidthMeant(d, args) < 0 then -WidthMeant(d, args) else WidthMeant(d, args)
  }

  predicate LeftMeant(d: Directive, args: seq<Arg>)
    requires d.Conversion? && Supplied(d, args)
  {
    '-' in d.flags || WidthMeant(d, args) < 0
  }

  // A point alone means 0, and a negative argument as much as no precision.
  function PrecisionMeant(d: Directive, args: seq<Arg>): Option<nat>
    requires d.Conversion? && Supplied(d, args)
  {
    if !d.point then None
    else
      match d.precision
      case Absent => Some(0)
      case Written(digits) => Some(Strtoul.Value(digits, 10))
      case Star =>
        var n := IntOf(args[Stars(d.width)].v);
        if n < 0 then None else Some(n)
  }

  function ValueIndex(d: Directive): nat
    requires d.Conversion?
  {
    Stars(d.width) + Stars(d.precision)
  }

  function ArgsTaken(d: Directive): nat {
    if d.Literal? then 0 else ValueIndex(d) + if d.kind in "diuxXobcsp" then 1 else 0
  }

  // The value of an integer argument in the type that the length names.
  function ValueMeant(d: Directive, args: seq<Arg>): int
    requires d.Conversion? && IsStandard(d.kind) && Supplied(d, args)
  {
    var v := args[ValueIndex(d)].v;
    if d.kind == 'd' || d.kind == 'i' then
      if d.length == "hh" then Wrap(v, -0x80, 0x80)
      else if d.length == "h" then Wrap(v, -0x8000, 0x8000)
      else if d.length == "" then Wrap(v, -0x8000_0000, 0x8000_0000)
      else Wrap(v, -0x8000_0000_0000_0000, 0x8000_0000_0000_0000)
    else if d.length == "hh" then Wrap(v, 0, 0x100)
    else if d.length == "h" then Wrap(v, 0, 0x1_0000)
    else if d.length == "" then Wrap(v, 0, 0x1_0000_0000)
    else Wrap(v, 0, 0x1_0000_0000_0000_0000)
  }

  function FlagsMeant(d: Directive, args: seq<Arg>): Flags
    requires d.Conversion? && Supplied(d, args)
  {
    Flags(zeropad := '0' in d.flags, left := LeftMeant(d, args), plus := '+' in d.flags, space := ' ' in d.flags,
          hash := '#' in d.flags, uppercase := false, precision := PrecisionMeant(d, args).Some?)
  }

  function LeastDigits(d: Directive, args: seq<Arg>): nat
    requires d.Conversion? && Supplied(d, args)
  {
    match PrecisionMeant(d, args)
    case None => 0
    case Some(n) => n
  }

  function IntegerText(d: Directive, args: seq<Arg>): seq<char>
    requires d.Conversion? && IsStandard(d.kind) && Supplied(d, args)
  {
    Standard(d.kind, ValueMeant(d, args), FlagsMeant(d, args), FieldWidth(d, args), LeastDigits(d, args))
  }

  // ---------- Integers ----------

  // Numbers written in the directive fit an unsigned int.
  predicate AmountFits(a: Amount) { a.Written? ==> Strtoul.Value(a.digits, 10) < 0x1_0000_0000 }

  // The condition under which a directive for an integer prints what it should.
  predicate DirectiveConforms(d: Directive, args: seq<Arg>)
    requires d.Conversion? && IsStandard(d.kind) && Supplied(d, args)
  {
    var v, flags, width := ValueMeant(d, args), FlagsMeant(d, args), FieldWidth(d, args);
    && AmountFits(d.width) && AmountFits(d.precision)
    && if d.point && PrecisionMeant(d, args).None? then OmittedConforms(d.kind, v, flags, width)
       else Conforms(d.kind, v, flags, width, LeastDigits(d, args))
  }

  lemma TextIsStandardIff(d: Directive, args: seq<Arg>)
    requires d.Conversion? && Ok(d) && IsStandard(d.kind) && Supplied(d, args)
    ensures Text(d, args) == IntegerText(d, args) <==> DirectiveConforms(d, args)
  {
    TextPrinted(d, args);
    if AmountFits(d.width) && AmountFits(d.precision) {
      AmountsRead(d, args);
      PrintedIff(d.kind, ValueMeant(d, args), TextFlags(d, args), FlagsMeant(d, args), FieldWidth(d, args),
                 LeastDigits(d, args));
    } else {
      TooMuchMeant(d, args);
    }
  }

  lemma IntRead(v: int)
    ensures Signed(v, UINT_LIMIT) == IntOf(v)
  {
  }

  lemma WidthRead(d: Directive, args: seq<Arg>)
    requires d.Conversion? && Ok(d) && Supplied(d, args) && AmountFits(d.width)
    ensures AmountOf(d.width, args) == WidthMeant(d, args)
  {
    if d.width.Star? {
      IntRead(args[0].v);
    }
  }

  lemma PrecisionRead(d: Directive, args: seq<Arg>)
    requires d.Conversion? && Ok(d) && Supplied(d, args) && AmountFits(d.precision)
    ensures TextPrecision(d, args) == LeastDigits(d, args)
  {
    if d.precision.Star? {
      IntRead(args[Stars(d.width)].v);
    }
  }

  lemma AmountsRead(d: Directive, args: seq<Arg>)
    requires d.Conversion? && Ok(d) && Supplied(d, args) && AmountFits(d.width) && AmountFits(d.precision)
    ensures TextPrecision(d, args) == LeastDigits(d, args) && Abs(AmountOf(d.width, args)) == FieldWidth(d, args)
    ensures TextFlags(d, args) == FlagsMeant(d, args).(precision := d.point)
    ensures d.point && PrecisionMeant(d, args).None? ==> LeastDigits(d, args) == 0
  {
    WidthRead(d, args);
    PrecisionRead(d, args);
  }

  lemma ValueRead(d: Directive, args: seq<Arg>)
    requires d.Conversion? && Ok(d) && IsStandard(d.kind) && Supplied(d, args)
    ensures IntegerOf(d.kind, d.length, ValueArgs(d, args)[0].v) == ValueMeant(d, args)
    ensures Abs(ValueMeant(d, args)) < ULONG_LIMIT && (ValueMeant(d, args) < 0 ==> IsSigned(d.kind))
  {
    assert ValueArgs(d, args)[0] == args[ValueIndex(d)];
    var v := args[ValueIndex(d)].v;
    SignedByte(v);
    SignedShort(v);
    IntRead(v);
    SignedLong(v);
  }

  lemma SignedByte(v: int)
    ensures Signed(v, 0x100) == Wrap(v, -0x80, 0x80)
  {
  }

  lemma SignedShort(v: int)
    ensures Signed(v, 0x1_0000) == Wrap(v, -0x8000, 0x8000)
  {
  }

  lemma SignedLong(v: int)
    ensures Signed(v, 0x1_0000_0000_0000_0000) == Wrap(v, -0x8000_0000_0000_0000, 0x8000_0000_0000_0000)
  {
  }

  lemma TextPrinted(d: Directive, args: seq<Arg>)
    requires d.Conversion? && Ok(d) && IsStandard(d.kind) && Supplied(d, args)
    ensures Abs(ValueMeant(d, args)) < ULONG_LIMIT && (ValueMeant(d, args) < 0 ==> IsSigned(d.kind))
    ensures Text(d, args) == Printed(d.kind, ValueMeant(d, args), TextFlags(d, args), Abs(AmountOf(d.width, args)),
                                     TextPrecision(d, args))
    ensures !TextFlags(d, args).precision ==> TextPrecision(d, args) == 0
  {
    ValueRead(d, args);
  }

  // What is printed has few characters that are not blank, and is no longer than it must be.
  lemma PrintedIsSmall(kind: char, v: int, flags: Flags, width: nat, prec: nat)
    requires IsStandard(kind) && Abs(v) < ULONG_LIMIT && (v < 0 ==> IsSigned(kind)) && (!flags.precision ==> prec == 0)
    ensures Ink(Printed(kind, v, flags, width, prec)) <= 32 && |Printed(kind, v, flags, width, prec)| <= Max(width, 32)
  {
    var fl := IntegerFlags(kind, flags);
    var buf := Buffer(Abs(v), v < 0, Base(kind), prec, width, fl);
    BufferIsSmall(Abs(v), v < 0, Base(kind), prec, width, fl);
    PrintedFramed(kind, v, flags, width, prec);
    AlignedInk(Reverse(buf), width, flags.left);
    AlignedLength(Reverse(buf), width, flags.left);
  }

  lemma BufferIsSmall(value: nat, negative: bool, base: nat, prec: nat, width: nat, flags: Flags)
    requires 2 <= base <= 36
    ensures |Buffer(value, negative, base, prec, width, flags)| <= BUFFER_SIZE
  {
    var fl := if value == 0 then flags.(hash := false) else flags;
    var padded := Padded(Digits(value, base, flags), negative, prec, width, fl);
    assert |padded| <= BUFFER_SIZE;
    HashIsSmall(padded, base, prec, PadWidth(negative, width, fl), fl);
  }

  lemma HashIsSmall(buf: seq<char>, base: nat, prec: nat, width: nat, flags: Flags)
    requires |buf| <= BUFFER_SIZE
    ensures |WithHash(buf, base, prec, width, flags)| <= BUFFER_SIZE
  {
  }

  lemma StandardIsLarge(kind: char, v: int, flags: Flags, width: nat, prec: nat)
    requires IsStandard(kind) && (!flags.precision ==> prec == 0)
    ensures |Standard(kind, v, flags, width, prec)| >= width && Ink(Standard(kind, v, flags, width, prec)) >= prec
  {
    var sign, mark, core := Sign(kind, v, flags), HexMark(kind, v, flags), Core(kind, v, flags);
    var lead := Lead(kind, v, flags, prec);
    StandardIs(kind, v, flags, width, prec);
    CoreInk(kind, v, flags);
    PieceInk(sign, mark, lead, core);
    PieceInk(sign, mark, FillOf(sign, mark, lead, core, width), core);
    AlignedInk(Piece(sign, mark, lead, core), width, flags.left);
    AlignedLength(Piece(sign, mark, lead, core), width, flags.left);
  }

  // A number that an unsigned int does not hold asks for more than is ever printed.
  lemma TooMuchMeant(d: Directive, args: seq<Arg>)
    requires d.Conversion? && Ok(d) && IsStandard(d.kind) && Supplied(d, args)
    requires !AmountFits(d.width) || !AmountFits(d.precision)
    ensures Text(d, args) != IntegerText(d, args)
  {
    TextPrinted(d, args);
    var v, width := ValueMeant(d, args), Abs(AmountOf(d.width, args));
    PrintedIsSmall(d.kind, v, TextFlags(d, args), width, TextPrecision(d, args));
    StandardIsLarge(d.kind, v, FlagsMeant(d, args), FieldWidth(d, args), LeastDigits(d, args));
    assert width <= UINT_LIMIT;
  }

  // ---------- Characters and strings ----------

  function PartMeant(s: seq<char>, precision: Option<nat>): seq<char> {
    match precision
    case None => s
    case Some(n) => if n < |s| then s[..n] else s
  }

  // The character that the argument is as an unsigned char; all of a string, or as much of it as the
  // precision allows; and a percent sign for two.
  function OtherText(d: Directive, args: seq<Arg>): seq<char>
    requires d.Conversion? && d.kind in "cs%" && Supplied(d, args)
  {
    match d.kind
    case 'c' => Blanked([(args[ValueIndex(d)].v % 0x100) as char], FieldWidth(d, args), LeftMeant(d, args))
    case 's' =>
      Blanked(PartMeant(args[ValueIndex(d)].s, PrecisionMeant(d, args)), FieldWidth(d, args), LeftMeant(d, args))
    case _ => "%"
  }

  lemma CharacterIff(d: Directive, args: seq<Arg>)
    requires d.Conversion? && Ok(d) && d.kind == 'c' && Supplied(d, args)
    ensures Text(d, args) == OtherText(d, args) <==> AmountFits(d.width)
  {
    var c := [(args[ValueIndex(d)].v % 0x100) as char];
    assert ValueArgs(d, args)[0] == args[ValueIndex(d)];
    if AmountFits(d.width) {
      WidthRead(d, args);
      BlankedIs(c, FieldWidth(d, args), LeftMeant(d, args));
    } else {
      BlankedLengths(c, Abs(AmountOf(d.width, args)), FieldWidth(d, args), TextFlags(d, args).left, LeftMeant(d, args));
    }
  }

  lemma BlankedLengths(text: seq<char>, width: nat, width': nat, left: bool, left': bool)
    requires |text| < width' && width < width'
    ensures Aligned(text, width, left) != Blanked(text, width', left')
  {
    AlignedLength(text, width, left);
  }

  // The part of a string that is printed; a negative precision is taken for 0.
  function PartPrinted(s: seq<char>, point: bool, precision: Option<nat>): seq<char> {
    if !point then s
    else
      match precision
      case None => []
      case Some(n) => if n % 0x1_0000_0000 < |s| then s[..n % 0x1_0000_0000] else s
  }

  // The precision leaves a string as it should be.
  predicate PartConforms(s: seq<char>, point: bool, precision: Option<nat>) {
    match precision
    case None => !point || s == ""
    case Some(n) => n < 0x1_0000_0000 || n % 0x1_0000_0000 >= |s|
  }

  lemma PartIff(s: seq<char>, point: bool, precision: Option<nat>)
    requires precision.Some? ==> point
    requires |s| < UINT_LIMIT
    ensures PartPrinted(s, point, precision) == PartMeant(s, precision) <==> PartConforms(s, point, precision)
  {
  }

  // A string is printed as it should be if width and precision allow it; without a width, exactly if
  // the precision does.
  lemma StringIff(d: Directive, args: seq<Arg>)
    requires d.Conversion? && Ok(d) && d.kind == 's' && Supplied(d, args)
    ensures
      var conforms := PartConforms(args[ValueIndex(d)].s, d.point, PrecisionMeant(d, args));
      && (AmountFits(d.width) && conforms ==> Text(d, args) == OtherText(d, args))
      && (FieldWidth(d, args) == 0 ==> (Text(d, args) == OtherText(d, args) <==> conforms))
  {
    StringRead(d, args);
    if AmountFits(d.width) {
      WidthRead(d, args);
      PartsCompared(args[ValueIndex(d)].s, d.point, PrecisionMeant(d, args), FieldWidth(d, args), LeftMeant(d, args));
    }
  }

  lemma PartsCompared(s: seq<char>, point: bool, precision: Option<nat>, width: nat, left: bool)
    requires (precision.Some? ==> point) && |s| < UINT_LIMIT
    ensures
      var printed, meant := PartPrinted(s, point, precision), PartMeant(s, precision);
      var same := Aligned(printed, width, left) == Blanked(meant, width, left);
      && (PartConforms(s, point, precision) ==> same)
      && (width == 0 ==> (same <==> PartConforms(s, point, precision)))
  {
    PartIff(s, point, precision);
    BlankedIs(PartPrinted(s, point, precision), width, left);
    BlankedIs(PartMeant(s, precision), width, left);
  }

  lemma StringRead(d: Directive, args: seq<Arg>)
    requires d.Conversion? && Ok(d) && d.kind == 's' && Supplied(d, args)
    ensures
      Text(d, args) == Aligned(PartPrinted(args[ValueIndex(d)].s, d.point, PrecisionMeant(d, args)),
                               Abs(AmountOf(d.width, args)), TextFlags(d, args).left)
  {
    assert ValueArgs(d, args)[0] == args[ValueIndex(d)];
    CutRead(d, args, args[ValueIndex(d)].s);
  }

  lemma CutRead(d: Directive, args: seq<Arg>, s: seq<char>)
    requires d.Conversion? && Ok(d) && d.kind == 's' && Supplied(d, args)
    ensures Cut(s, TextFlags(d, args).precision, TextPrecision(d, args)) ==
            PartPrinted(s, d.point, PrecisionMeant(d, args))
  {
    match d.precision
    case Absent =>
    case Written(digits) =>
    case Star => IntRead(args[Stars(d.width)].v);
  }

  // ---------- Pointers ----------

  // A pointer is printed as 16 hexadecimal digits, where no flag asks for more.
  lemma PointerText(d: Directive, args: seq<Arg>)
    requires d.Conversion? && Ok(d) && d.kind == 'p' && Supplied(d, args) && !d.point
    requires !LeftMeant(d, args) && forall c :: c in d.flags ==> c == '0'
    ensures
      var digits := NumeralOf('X', args[ValueIndex(d)].v % 0x1_0000_0000_0000_0000);
      |digits| <= 16 && Text(d, args) == Zeros(16 - |digits|) + digits
  {
    PointerRead(d, args);
    PointerDigits(args[ValueIndex(d)].v % ULONG_LIMIT, TextFlags(d, args).(zeropad := true, uppercase := true));
  }

  lemma PointerRead(d: Directive, args: seq<Arg>)
    requires d.Conversion? && Ok(d) && d.kind == 'p' && Supplied(d, args) && !d.point
    requires !LeftMeant(d, args) && forall c :: c in d.flags ==> c == '0'
    ensures
      var flags := TextFlags(d, args).(zeropad := true, uppercase := true);
      && flags == Flags(true, false, false, false, false, true, false)
      && Text(d, args) == Rendered(args[ValueIndex(d)].v % ULONG_LIMIT, false, 16, 0, 16, flags)
  {
    assert ValueArgs(d, args)[0] == args[ValueIndex(d)];
    if d.width.Star? {
      IntRead(args[0].v);
    }
  }

  lemma PointerDigits(v: nat, flags: Flags)
    requires v < ULONG_LIMIT && flags == Flags(true, false, false, false, false, true, false)
    ensures
      var digits := NumeralOf('X', v);
      |digits| <= 16 && Rendered(v, false, 16, 0, 16, flags) == Zeros(16 - |digits|) + digits
  {
    WordDigits(v, 16);
    NumeralIs('X', v);
    ZeroPaddedField(v, false, 16, 16, flags);
  }

  function Pow16(n: nat): nat { if n == 0 then 1 else 16 * Pow16(n - 1) }

  lemma {:induction false} HexCount(v: nat, n: nat)
    requires n > 0 && v < Pow16(n)
    ensures |RevDigits(v, 16, true)| <= n
    decreases v
  {
    OneDigit(v, 16, true);
    if v / 16 != 0 {
      HexCount(v / 16, n - 1);
    }
  }

  lemma WordDigits(v: nat, n: nat)
    requires v < ULONG_LIMIT && n == 16
    ensures |RevDigits(v, 16, true)| <= n
  {
    assert Pow16(4) == 0x1_0000;
    assert Pow16(8) == 0x1_0000 * Pow16(4);
    assert Pow16(12) == 0x1_0000 * Pow16(8);
    assert Pow16(16) == 0x1_0000 * Pow16(12);
    HexCount(v, n);
  }

  // ---------- Whole formats ----------

  predicate HasMeaning(d: Directive) { d.Conversion? ==> IsStandard(d.kind) || d.kind in "cs%" }

  function Prescribed(d: Directive, args: seq<Arg>): seq<char>
    requires HasMeaning(d) && Supplied(d, args)
  {
    if d.Literal? then [d.c] else if IsStandard(d.kind) then IntegerText(d, args) else OtherText(d, args)
  }

  predicate Conforming(d: Directive, args: seq<Arg>)
    requires HasMeaning(d) && Supplied(d, args)
  {
    if d.Literal? || d.kind == '%' then true
    else if IsStandard(d.kind) then DirectiveConforms(d, args)
    else
      && AmountFits(d.width)
      && (d.kind == 's' ==> PartConforms(args[ValueIndex(d)].s, d.point, PrecisionMeant(d, args)))
  }

  lemma PrescribedText(d: Directive, args: seq<Arg>)
    requires HasMeaning(d) && Ok(d) && Supplied(d, args) && Conforming(d, args)
    ensures Text(d, args) == Prescribed(d, args)
  {
    if d.Conversion? {
      if IsStandard(d.kind) {
        TextIsStandardIff(d, args);
      } else if d.kind == 'c' {
        CharacterIff(d, args);
      } else if d.kind == 's' {
        StringIff(d, args);
      }
    }
  }

  // The directives are served by the arguments, one after the other.
  predicate AllConforming(ds: seq<Directive>, args: seq<Arg>)
    requires (forall d :: d in ds ==> HasMeaning(d)) && AllSupplied(ds, args)
  {
    ds != [] ==>
      && Conforming(ds[0], args)
      && (RestIs(ds[0], args); AllConforming(ds[1..], args[ArgsTaken(ds[0])..]))
  }

  function AllPrescribed(ds: seq<Directive>, args: seq<Arg>): seq<char>
    requires (forall d :: d in ds ==> HasMeaning(d)) && AllSupplied(ds, args)
  {
    if ds == [] then []
    else
      RestIs(ds[0], args);
      Prescribed(ds[0], args) + AllPrescribed(ds[1..], args[ArgsTaken(ds[0])..])
  }

  lemma RestIs(d: Directive, args: seq<Arg>)
    requires HasMeaning(d) && Supplied(d, args)
    ensures ArgsTaken(d) <= |args| && RestArgs(d, args) == args[ArgsTaken(d)..]
  {
  }

  // A format of directives that conform is printed as the standard prescribes.
  lemma {:induction false} FormatPrinted(ds: seq<Directive>, args: seq<Arg>)
    requires (forall d :: d in ds ==> HasMeaning(d) && Ok(d)) && AllSupplied(ds, args) && AllConforming(ds, args)
    ensures AllText(ds, args) == AllPrescribed(ds, args)
    decreases |ds|
  {
    if ds != [] {
      RestIs(ds[0], args);
      PrescribedText(ds[0], args);
      FormatPrinted(ds[1..], args[ArgsTaken(ds[0])..]);
    }
  }

  // ---------- Instances ----------

  // 5 printed with %+d is +5, and printed with a blank for the plus it has a blank in front.
  lemma SignWritten(d: Directive, args: seq<Arg>, sign: char)
    requires (sign == '+' || sign == ' ') && args == [Int(5)]
    requires d == Conversion([sign], Absent, false, Absent, "", 'd')
    ensures Text(d, args) == [sign, '5']
  {
    assert d.flags[0] == sign;
    FiveWritten(d, args, sign);
  }

  lemma FiveWritten(d: Directive, args: seq<Arg>, sign: char)
    requires d.Conversion? && Ok(d) && d.kind == 'd' && Supplied(d, args) && d.width.Absent? && !d.point
    requires ValueMeant(d, args) == 5 && (sign == '+' || sign == ' ')
    requires FlagsMeant(d, args) == Flags(false, false, sign == '+', sign == ' ', false, false, false)
    ensures Text(d, args) == [sign, '5']
  {
    TextIsStandardIff(d, args);
    FiveMeant(FlagsMeant(d, args), ValueMeant(d, args), sign);
  }

  lemma FiveMeant(flags: Flags, v: nat, sign: char)
    requires flags == Flags(false, false, sign == '+', sign == ' ', false, false, false) && v == 5
    requires sign == '+' || sign == ' '
    ensures Standard('d', v, flags, 0, 0) == [sign, '5']
  {
    assert NumeralOf('d', v) == "5";
    BlankedIs([sign] + ([] + "5"), 0, false);
  }

  // 7 printed with %-.3d is 7, not 007.
  lemma PrecisionLost(d: Directive, args: seq<Arg>)
    requires d == Conversion("-", Absent, true, Written("3"), "", 'd') && args == [Int(7)]
    ensures Text(d, args) == "7" && IntegerText(d, args) == "007"
  {
    Three();
    PrintedAsRead(d, args);
    PrecisionForgotten(FlagsMeant(d, args), ValueMeant(d, args), LeastDigits(d, args));
  }

  lemma PrecisionForgotten(flags: Flags, v: nat, prec: nat)
    requires flags == Flags(false, true, false, false, false, false, true) && v == 7 && prec == 3
    ensures Printed('d', v, flags, 0, prec) == "7" && Standard('d', v, flags, 0, prec) == "007"
  {
    assert RevDigits(v, 10, false) == ['7'];
    assert NumeralOf('d', v) == "7";
    assert Zeros(2) == "00";
    assert Buffer(v, false, 10, prec, 0, IntegerFlags('d', flags)) == ['7'];
    assert Reverse(['7']) == "7";
  }

  lemma Three()
    ensures Strtoul.Value("3", 10) == 3
  {
    assert "3"[..0] == "";
  }

  // 255 printed with %#03x is 0xf.
  lemma DigitLost(d: Directive, args: seq<Arg>)
    requires d == Conversion("#0", Written("3"), false, Absent, "", 'x') && args == [Int(255)]
    ensures Text(d, args) == "0xf" && IntegerText(d, args) == "0xff"
  {
    Three();
    assert d.flags[0] == '#' && d.flags[1] == '0';
    DigitOverwritten(d, args);
  }

  lemma DigitOverwritten(d: Directive, args: seq<Arg>)
    requires d.Conversion? && Ok(d) && d.kind == 'x' && Supplied(d, args) && AmountFits(d.width) && !d.point
    requires FlagsMeant(d, args) == Flags(true, false, false, false, true, false, false)
    requires ValueMeant(d, args) == 255 && FieldWidth(d, args) == 3
    ensures Text(d, args) == "0xf" && IntegerText(d, args) == "0xff"
  {
    PrintedAsRead(d, args);
    DigitEaten(FlagsMeant(d, args), ValueMeant(d, args), FieldWidth(d, args));
    DigitMeant(FlagsMeant(d, args), ValueMeant(d, args), FieldWidth(d, args));
  }

  // What is printed, by what was meant.
  lemma PrintedAsRead(d: Directive, args: seq<Arg>)
    requires d.Conversion? && Ok(d) && IsStandard(d.kind) && Supplied(d, args)
    requires AmountFits(d.width) && AmountFits(d.precision) && (d.point ==> PrecisionMeant(d, args).Some?)
    ensures Text(d, args) == Printed(d.kind, ValueMeant(d, args), FlagsMeant(d, args), FieldWidth(d, args),
                                     LeastDigits(d, args))
  {
    TextPrinted(d, args);
    AmountsRead(d, args);
  }

  lemma DigitEaten(flags: Flags, v: nat, width: nat)
    requires flags == Flags(true, false, false, false, true, false, false) && v == 255 && width == 3
    ensures Printed('x', v, flags, width, 0) == "0xf"
  {
    assert RevDigits(15, 16, false) == ['f'] && RevDigits(v, 16, false) == ['f', 'f'];
    assert PadZeros(['f', 'f', '0'], width) == ['f', 'f', '0'];
    assert PadZeros(['f', 'f'], width) == ['f', 'f', '0'];
    assert Buffer(v, false, 16, 0, width, IntegerFlags('x', flags)) == ['f', 'x', '0'];
    assert Reverse(['f', 'x', '0']) == "0xf";
  }

  lemma DigitMeant(flags: Flags, v: nat, width: nat)
    requires flags == Flags(true, false, false, false, true, false, false) && v == 255 && width == 3
    ensures Standard('x', v, flags, width, 0) == "0xff"
  {
    assert NumeralOf('x', 15) == "f" && NumeralOf('x', v) == "ff";
    assert Precise('x', v, flags, 0) == "ff";
    assert Zeros(ZerosToFill(width, 4)) == [];
  }

  // ---------- Binary numbers ----------

  function Pow2(n: nat): (m: nat)
    ensures m > 0
  {
    if n == 0 then 1 else 2 * Pow2(n - 1)
  }

  // The last digits of a number are what is left of it by the power of their count.
  lemma {:induction false} LastDigits(v: nat, n: nat) returns (q: nat)
    requires 0 < n <= |RevDigits(v, 2, false)|
    ensures
      var low := Strtoul.Value(Reverse(RevDigits(v, 2, false)[..n]), 2);
      low < Pow2(n) && v == q * Pow2(n) + low
    decreases v
  {
    var digits := RevDigits(v, 2, false);
    var d := DigitChar(v % 2, false);
    OneDigit(v, 2, false);
    DigitCharValue(v % 2, false);
    if n == 1 {
      q := v / 2;
      assert digits[..1] == [d] && Pow2(1) == 2;
      ReverseShort([d]);
      assert [d][..0] == [];
    } else {
      var rest := digits[1..][..n - 1];
      assert digits[..n] == [d] + rest;
      q := LastDigits(v / 2, n - 1);
      ReverseCons(d, rest);
      assert (Reverse(rest) + [d])[..n - 1] == Reverse(rest);
      Twice(q, Pow2(n - 1));
    }
  }

  lemma Twice(q: nat, m: nat)
    ensures q * (2 * m) == 2 * (q * m)
  {
  }

  // A conversion that is not of the standard, to binary notation: of a number, the 32 last digits are
  // printed, so that what is read back is its remainder modulo 2^32.
  lemma BinaryText(d: Directive, args: seq<Arg>)
    requires d.Conversion? && Ok(d) && d.kind == 'b' && Supplied(d, args)
    requires d.flags == "" && d.width.Absent? && !d.point && d.length == "ll"
    ensures Strtoul.Value(Text(d, args), 2) == args[0].v % 0x1_0000_0000
  {
    BinaryPrinted(d, args);
    BinaryValue(args[0].v % ULONG_LIMIT);
    LowerHalf(args[0].v);
  }

  lemma LowerHalf(v: int)
    ensures v % ULONG_LIMIT % 0x1_0000_0000 == v % 0x1_0000_0000
  {
  }

  function LowDigits(v: nat): seq<char> {
    var digits := RevDigits(v, 2, false);
    if |digits| <= 32 then digits else digits[..32]
  }

  lemma BinaryValue(v: nat)
    ensures Strtoul.Value(Reverse(LowDigits(v)), 2) == v % 0x1_0000_0000
  {
    ThirtyTwo(32);
    if |RevDigits(v, 2, false)| <= 32 {
      DigitsValue(v, 2, false);
      FewDigits(v, 32);
    } else {
      var q := LastDigits(v, 32);
      LowerWord(v, q, Strtoul.Value(Reverse(LowDigits(v)), 2));
    }
  }

  lemma LowerWord(v: nat, q: nat, low: nat)
    requires low < 0x1_0000_0000 && v == q * 0x1_0000_0000 + low
    ensures v % 0x1_0000_0000 == low
  {
  }

  lemma {:induction false} FewDigits(v: nat, n: nat)
    requires |RevDigits(v, 2, false)| <= n
    ensures v < Pow2(n)
    decreases n
  {
    OneDigit(v, 2, false);
    if v / 2 != 0 {
      FewDigits(v / 2, n - 1);
    }
  }

  lemma ThirtyTwo(n: nat)
    requires n == 32
    ensures Pow2(n) == 0x1_0000_0000
  {
    assert Pow2(8) == 0x100;
    assert Pow2(16) == 0x100 * Pow2(8);
    assert Pow2(24) == 0x100 * Pow2(16);
    assert Pow2(32) == 0x100 * Pow2(24);
  }

  lemma BinaryPrinted(d: Directive, args: seq<Arg>)
    requires d.Conversion? && Ok(d) && d.kind == 'b' && Supplied(d, args)
    requires d.flags == "" && d.width.Absent? && !d.point && d.length == "ll"
    ensures Text(d, args) == Reverse(LowDigits(args[0].v % ULONG_LIMIT))
  {
    var flags := Flags(false, false, false, false, false, false, false);
    assert TextFlags(d, args) == flags && IntegerFlags('b', flags) == flags;
    BinaryRendered(args[0].v % ULONG_LIMIT, flags);
  }

  lemma BinaryRendered(v: nat, flags: Flags)
    requires flags == Flags(false, false, false, false, false, false, false)
    ensures Rendered(v, false, 2, 0, 0, flags) == Reverse(LowDigits(v))
  {
    NoBlanks(LowDigits(v), flags);
  }

  // With the prefix 0b, as long as there is room for it.
  lemma BinaryPrefixed(d: Directive, args: seq<Arg>)
    requires d.Conversion? && Ok(d) && d.kind == 'b' && Supplied(d, args)
    requires d.flags == "#" && d.width.Absent? && !d.point && d.length == "ll"
    requires var v := args[0].v % ULONG_LIMIT; v != 0 && |RevDigits(v, 2, false)| <= 30
    ensures Text(d, args) == "0b" + Text(d.(flags := ""), args)
  {
    MarkedBinary(d, args, args[0].v % ULONG_LIMIT);
    BinaryPrinted(d.(flags := ""), args);
  }

  lemma MarkedBinary(d: Directive, args: seq<Arg>, v: nat)
    requires d.Conversion? && Ok(d) && d.kind == 'b' && Supplied(d, args) && v == args[0].v % ULONG_LIMIT
    requires d.flags == "#" && d.width.Absent? && !d.point && d.length == "ll"
    requires v != 0 && |RevDigits(v, 2, false)| <= 30
    ensures Text(d, args) == "0b" + Reverse(LowDigits(v))
  {
    var flags := Flags(false, false, false, false, true, false, false);
    assert d.flags[0] == '#';
    assert TextFlags(d, args) == flags && IntegerFlags('b', flags) == flags;
    MarkedRendered(v, flags);
  }

  lemma MarkedRendered(v: nat, flags: Flags)
    requires flags == Flags(false, false, false, false, true, false, false) && v != 0
    requires |RevDigits(v, 2, false)| <= 30
    ensures Rendered(v, false, 2, 0, 0, flags) == "0b" + Reverse(LowDigits(v))
  {
    var digits := RevDigits(v, 2, false);
    assert Buffer(v, false, 2, 0, 0, flags) == digits + ['b', '0'];
    ReverseAppend(digits, ['b', '0']);
    assert Reverse(['b', '0']) == "0b";
    NoBlanks(digits + ['b', '0'], flags);
  }
}
