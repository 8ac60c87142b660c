// The interpreter of format strings, without the floating-point conversions.
module Printf {
  import opened Limits
  import opened Ntoa
  import Strtoul

  // ---------- Formats as sequences of directives ----------

  // A width or a precision: not there, written out, or taken from the arguments.
  datatype Amount = Absent | Written(digits: seq<char>) | Star

  datatype Directive =
    | Literal(c: char)
    | Conversion(flags: seq<char>, width: Amount, point: bool, precision: Amount, length: seq<char>, kind: char)

  datatype Arg = Int(v: int) | Str(s: seq<char>)

  predicate IsDigit(c: char) { '0' <= c <= '9' }

  predicate IsFlag(c: char) { c in "0-+ #" }

  predicate IsLength(s: seq<char>) { s in ["", "l", "ll", "h", "hh", "t", "j", "z"] }

  // Any character that cannot be taken for an earlier part of the directive and does not convert a
  // floating-point number.
  predicate IsKind(c: char) { !IsFlag(c) && !IsDigit(c) && c !in "*.lhtjzfFeEgG\0" }

  predicate AmountOk(a: Amount) {
    a.Written? ==> a.digits != [] && forall k :: 0 <= k < |a.digits| ==> IsDigit(a.digits[k])
  }

  predicate Ok(d: Directive) {
    match d
    case Literal(c) => c != '%' && c != '\0'
    case Conversion(flags, width, point, precision, length, kind) =>
      && (forall k :: 0 <= k < |flags| ==> IsFlag(flags[k]))
      && AmountOk(width) && (width.Written? ==> width.digits[0] != '0')
      && AmountOk(precision) && (!point ==> precision.Absent?)
      && IsLength(length) && IsKind(kind)
  }

  function EncodeAmount(a: Amount): seq<char> {
    match a
    case Absent => []
    case Written(digits) => digits
    case Star => ['*']
  }

  function EncodePrecision(point: bool, precision: Amount): seq<char> {
    if point then ['.'] + EncodeAmount(precision) else []
  }

  function Encode(d: Directive): seq<char> {
    match d
    case Literal(c) => [c]
    case Conversion(flags, width, point, precision, length, kind) =>
      ['%'] + (flags + (EncodeAmount(width) + (EncodePrecision(point, precision) + (length + [kind]))))
  }

  function EncodeAll(ds: seq<Directive>): seq<char> {
    if ds == [] then [] else Encode(ds[0]) + EncodeAll(ds[1..])
  }

  // ---------- What a directive prints ----------

  function FlagsOf(s: seq<char>): Flags {
    Flags('0' in s, '-' in s, '+' in s, ' ' in s, '#' in s, false, false)
  }

  // A number as a signed one of that many values.
  function Signed(v: int, limit: nat): int
    requires limit > 0
  {
    if v % limit < limit / 2 then v % limit else v % limit - limit
  }

  function Abs(v: int): nat { if v < 0 then -v else v }

  predicate AmountSupplied(a: Amount, args: seq<Arg>) { a.Star? ==> args != [] && args[0].Int? }

  function AmountOf(a: Amount, args: seq<Arg>): int
    requires AmountSupplied(a, args)
  {
    match a
    case Absent => 0
    case Written(digits) => Strtoul.Value(digits, 10) % UINT_LIMIT
    case Star => Signed(args[0].v, UINT_LIMIT)
  }

  function AfterAmount(a: Amount, args: seq<Arg>): seq<Arg>
    requires AmountSupplied(a, args)
  {
    if a.Star? then args[1..] else args
  }

  predicate IsInteger(kind: char) {
    IsSigned(kind) || kind == 'u' || kind == 'x' || kind == 'X' || kind == 'o' || kind == 'b'
  }

  predicate IsSigned(kind: char) { kind == 'd' || kind == 'i' }

  predicate TakesValue(kind: char) { IsInteger(kind) || kind == 'c' || kind == 's' || kind == 'p' }

  // Strings hold no NUL, which ends them, and their length fits an unsigned int.
  predicate ValueSupplied(kind: char, args: seq<Arg>) {
    TakesValue(kind) ==>
      args != [] && if kind == 's' then args[0].Str? && '\0' !in args[0].s && |args[0].s| < UINT_LIMIT else args[0].Int?
  }

  predicate Supplied(d: Directive, args: seq<Arg>) {
    d.Conversion? ==>
      && AmountSupplied(d.width, args)
      && AmountSupplied(d.precision, AfterAmount(d.width, args))
      && ValueSupplied(d.kind, ValueArgs(d, args))
  }

  function ValueArgs(d: Directive, args: seq<Arg>): seq<Arg>
    requires d.Conversion? && AmountSupplied(d.width, args) && AmountSupplied(d.precision, AfterAmount(d.width, args))
  {
    AfterAmount(d.precision, AfterAmount(d.width, args))
  }

  function RestArgs(d: Directive, args: seq<Arg>): seq<Arg>
    requires Supplied(d, args)
  {
    if d.Literal? then args
    else if TakesValue(d.kind) then ValueArgs(d, args)[1..]
    else ValueArgs(d, args)
  }

  function Base(kind: char): (base: nat)
    ensures 2 <= base <= 16
  {
    if kind == 'x' || kind == 'X' then 16 else if kind == 'o' then 8 else if kind == 'b' then 2 else 10
  }

  // The number of values of the type that an integer is read as.
  function Limit(length: seq<char>): (limit: nat)
    ensures limit > 0
  {
    if length == "hh" then 0x100 else if length == "h" then 0x1_0000 else if length == "" then UINT_LIMIT
        else ULONG_LIMIT
  }

  function IntegerFlags(kind: char, flags: Flags): Flags {
    flags.(hash := flags.hash && Base(kind) != 10,
           uppercase := kind == 'X',
           plus := flags.plus && IsSigned(kind),
           space := flags.space && IsSigned(kind),
           zeropad := flags.zeropad && !flags.precision)
  }

  function IntegerOf(kind: char, length: seq<char>, v: int): int {
    if IsSigned(kind) then Signed(v, Limit(length)) else v % Limit(length)
  }

  // A text with blanks up to the width on one side.
  function Aligned(text: seq<char>, width: nat, left: bool): seq<char> {
    if left then text + Spaces(width - |text|) else Spaces(width - |text|) + text
  }

  function Cut(s: seq<char>, precision: bool, prec: nat): seq<char> {
    if precision && prec < |s| then s[..prec] else s
  }

  function Converted(kind: char, length: seq<char>, flags: Flags, width: nat, prec: nat, args: seq<Arg>): seq<char>
    requires ValueSupplied(kind, args)
  {
    if IsInteger(kind) then
      var v := IntegerOf(kind, length, args[0].v);
      Rendered(Abs(v), v < 0, Base(kind), prec, width, IntegerFlags(kind, flags))
    else if kind == 'c' then Aligned([(args[0].v % 0x100) as char], width, flags.left)
    else if kind == 's' then Aligned(Cut(args[0].s, flags.precision, prec), width, flags.left)
    else if kind == 'p' then Rendered(args[0].v % ULONG_LIMIT, false, 16, prec, 16,
                                      flags.(zeropad := true, uppercase := true))
    else [kind]
  }

  function TextFlags(d: Directive, args: seq<Arg>): Flags
    requires d.Conversion? && Supplied(d, args)
  {
    FlagsOf(d.flags).(left := '-' in d.flags || AmountOf(d.width, args) < 0, precision := d.point)
  }

  function TextPrecision(d: Directive, args: seq<Arg>): nat
    requires d.Conversion? && Supplied(d, args)
  {
    var prec := AmountOf(d.precision, AfterAmount(d.width, args));
    if prec < 0 then 0 else prec
  }

  function Text(d: Directive, args: seq<Arg>): seq<char>
    requires Supplied(d, args)
  {
    match d
    case Literal(c) => [c]
    case Conversion(_, width, _, _, length, kind) =>
      Converted(kind, length, TextFlags(d, args), Abs(AmountOf(width, args)), TextPrecision(d, args),
                ValueArgs(d, args))
  }

  predicate AllSupplied(ds: seq<Directive>, args: seq<Arg>) {
    ds != [] ==> Supplied(ds[0], args) && AllSupplied(ds[1..], RestArgs(ds[0], args))
  }

  function AllText(ds: seq<Directive>, args: seq<Arg>): seq<char>
    requires AllSupplied(ds, args)
  {
    if ds == [] then [] else Text(ds[0], args) + AllText(ds[1..], RestArgs(ds[0], args))
  }

  // ---------- The interpreter ----------

  // The character a format pointer points at; a format ends with a NUL.
  function At(format: seq<char>): char { if format == [] then '\0' else format[0] }

  // Prints the format, and returns the number of characters sent out.
  method Vsnprintf(format0: seq<char>, args0: seq<Arg>, ghost ds: seq<Directive>) returns (out: seq<char>, idx: nat)
    requires (forall k :: 0 <= k < |ds| ==> Ok(ds[k])) && format0 == EncodeAll(ds) && AllSupplied(ds, args0)
    ensures out == AllText(ds, args0) && idx == |out|
  {
    var format, args := format0, args0;
    ghost var rest := ds;
    out := [];
    while At(format) != '\0'
      invariant Remaining(format, args, rest)
      invariant out + AllText(rest, args) == AllText(ds, args0)
      decreases |rest|
    {
      ghost var d := rest[0];
      Peel(rest);
      PeelText(rest, args, out);
      rest := rest[1..];
      if At(format) != '%' {
        out := out + [At(format)];
        format := format[1..];
      } else {
        format := format[1..];
        format, args, out := Convert(format, args, out, d, EncodeAll(rest));
      }
    }
    EndOfFormat(rest);
    idx := |out|;
  }

  ghost predicate Remaining(format: seq<char>, args: seq<Arg>, ds: seq<Directive>) {
    (forall k :: 0 <= k < |ds| ==> Ok(ds[k])) && format == EncodeAll(ds) && AllSupplied(ds, args)
  }

  lemma Peel(ds: seq<Directive>)
    requires ds != [] && Ok(ds[0])
    ensures
      var d, format := ds[0], EncodeAll(ds);
      && format != [] && (d.Literal? <==> format[0] != '%')
      && (d.Literal? ==> d.c == format[0] && format[1..] == EncodeAll(ds[1..]))
      && (d.Conversion? ==> ['%'] + format[1..] == Encode(d) + EncodeAll(ds[1..]))
  {
    assert Encode(ds[0])[0] == if ds[0].Literal? then ds[0].c else '%';
    FirstOf(Encode(ds[0]), EncodeAll(ds[1..]));
  }

  lemma FirstOf(a: seq<char>, b: seq<char>)
    requires a != []
    ensures (a + b)[0] == a[0] && [a[0]] + (a + b)[1..] == a + b && (|a| == 1 ==> (a + b)[1..] == b)
  {
  }

  lemma PeelText(ds: seq<Directive>, args: seq<Arg>, out: seq<char>)
    requires ds != [] && AllSupplied(ds, args)
    ensures out + AllText(ds, args) == out + Text(ds[0], args) + AllText(ds[1..], RestArgs(ds[0], args))
  {
  }

  lemma EndOfFormat(ds: seq<Directive>)
    requires (forall k :: 0 <= k < |ds| ==> Ok(ds[k])) && At(EncodeAll(ds)) == '\0'
    ensures ds == []
  {
  }

  method Convert(format0: seq<char>, args0: seq<Arg>, sent: seq<char>, ghost d: Directive, ghost rest: seq<char>)
    returns (format: seq<char>, args: seq<Arg>, out: seq<char>)
    requires d.Conversion? && Ok(d) && ['%'] + format0 == Encode(d) + rest && Supplied(d, args0)
    ensures format == rest && args == RestArgs(d, args0) && out == sent + Text(d, args0)
  {
    ghost var tail := d.length + ([d.kind] + rest);
    Parts(d, format0, rest);
    var flags, width, prec, limit;
    flags, width, prec, format, args := ReadFields(format0, args0, d, tail);
    limit, format := ReadLength(format, d.length, [d.kind] + rest);
    out := Emit(At(format), limit, flags, width, prec, args, sent, d.length);
    args := if TakesValue(At(format)) then args[1..] else args;
    format := format[1..];
  }

  // The flags, the width and the precision.
  method ReadFields(format0: seq<char>, args0: seq<Arg>, ghost d: Directive, ghost tail: seq<char>)
    returns (flags: Flags, width: nat, prec: nat, format: seq<char>, args: seq<Arg>)
    requires d.Conversion? && Ok(d) && Supplied(d, args0)
    requires format0 == d.flags + (EncodeAmount(d.width) + (EncodePrecision(d.point, d.precision) + tail))
    requires !IsFlag(At(tail)) && !IsDigit(At(tail)) && At(tail) != '*' && At(tail) != '.'
    ensures format == tail && args == ValueArgs(d, args0)
    ensures flags == TextFlags(d, args0) && width == Abs(AmountOf(d.width, args0)) && prec == TextPrecision(d, args0)
  {
    ghost var fromPoint := EncodePrecision(d.point, d.precision) + tail;
    flags, format := ReadFlags(format0, d.flags, EncodeAmount(d.width) + fromPoint);
    flags, width, format, args := ReadWidth(format, args0, flags, d.width, fromPoint);
    flags, prec, format, args := ReadPrecision(format, args, flags, d.point, d.precision, tail);
  }

  lemma Parts(d: Directive, format: seq<char>, rest: seq<char>)
    requires d.Conversion? && ['%'] + format == Encode(d) + rest
    ensures
      var fromPoint := EncodePrecision(d.point, d.precision) + (d.length + ([d.kind] + rest));
      format == d.flags + (EncodeAmount(d.width) + fromPoint)
  {
    assert format == (['%'] + format)[1..] == (Encode(d) + rest)[1..];
    Reassociated(d.flags, EncodeAmount(d.width), EncodePrecision(d.point, d.precision), d.length, [d.kind], rest);
  }

  lemma Reassociated(a: seq<char>, b: seq<char>, c: seq<char>, d: seq<char>, e: seq<char>, f: seq<char>)
    ensures (['%'] + (a + (b + (c + (d + e)))) + f)[1..] == a + (b + (c + (d + (e + f))))
  {
  }

  method ReadFlags(format0: seq<char>, ghost written: seq<char>, ghost rest: seq<char>)
    returns (flags: Flags, format: seq<char>)
    requires format0 == written + rest && !IsFlag(At(rest))
    requires forall k :: 0 <= k < |written| ==> IsFlag(written[k])
    ensures flags == FlagsOf(written) && format == rest
  {
    flags := Flags(false, false, false, false, false, false, false);
    format := format0;
    ghost var k := 0;
    var n := true;
    while n
      invariant 0 <= k <= |written| && format == written[k..] + rest && flags == FlagsOf(written[..k])
      invariant !n ==> k == |written|
      decreases |format|, n
    {
      var c := At(format);
      n := c == '0' || c == '-' || c == '+' || c == ' ' || c == '#';
      if n {
        flags := if c == '0' then flags.(zeropad := true)
                 else if c == '-' then flags.(left := true)
                 else if c == '+' then flags.(plus := true)
                 else if c == ' ' then flags.(space := true)
                 else flags.(hash := true);
        format := format[1..];
        assert written[..k + 1] == written[..k] + [c];
        k := k + 1;
      }
    }
  }

  method Atoi(format0: seq<char>, ghost digits: seq<char>, ghost rest: seq<char>) returns (i: nat, format: seq<char>)
    requires format0 == digits + rest && !IsDigit(At(rest))
    requires forall k :: 0 <= k < |digits| ==> IsDigit(digits[k])
    ensures i == Strtoul.Value(digits, 10) % UINT_LIMIT && format == rest
  {
    i := 0;
    format := format0;
    ghost var k := 0;
    while IsDigit(At(format))
      invariant 0 <= k <= |digits| && format == digits[k..] + rest
      invariant i == Strtoul.Value(digits[..k], 10) % UINT_LIMIT
      decreases |format|
    {
      OneMore(digits, k);
      i := (i * 10 + (At(format) - '0') as nat) % UINT_LIMIT;
      format := format[1..];
      k := k + 1;
    }
    assert digits[..|digits|] == digits;
  }

  lemma OneMore(digits: seq<char>, k: nat)
    requires k < |digits| && IsDigit(digits[k])
    ensures Strtoul.Value(digits[..k + 1], 10) % UINT_LIMIT ==
            (Strtoul.Value(digits[..k], 10) % UINT_LIMIT * 10 + (digits[k] - '0') as nat) % UINT_LIMIT
  {
    assert digits[..k + 1][..k] == digits[..k];
    assert Strtoul.DigitValue(digits[k]) == (digits[k] - '0') as nat;
    WrapTwice(Strtoul.Value(digits[..k], 10), (digits[k] - '0') as nat);
  }

  lemma WrapTwice(v: nat, d: nat)
    ensures (v * 10 + d) % UINT_LIMIT == (v % UINT_LIMIT * 10 + d) % UINT_LIMIT
  {
    var q, r := v / UINT_LIMIT, v % UINT_LIMIT;
    assert v * 10 + d == q * 10 * UINT_LIMIT + (r * 10 + d);
  }

  method ReadWidth(format0: seq<char>, args0: seq<Arg>, flags0: Flags, ghost amount: Amount, ghost rest: seq<char>)
    returns (flags: Flags, width: nat, format: seq<char>, args: seq<Arg>)
    requires AmountOk(amount) && AmountSupplied(amount, args0)
    requires format0 == EncodeAmount(amount) + rest && !IsDigit(At(rest)) && At(rest) != '*'
    ensures format == rest && args == AfterAmount(amount, args0)
    ensures width == Abs(AmountOf(amount, args0))
    ensures flags == flags0.(left := flags0.left || AmountOf(amount, args0) < 0)
  {
    flags, width, format, args := flags0, 0, format0, args0;
    if IsDigit(At(format)) {
      width, format := Atoi(format, amount.digits, rest);
    } else if At(format) == '*' {
      var w := Signed(args[0].v, UINT_LIMIT);
      if w < 0 {
        flags := flags.(left := true);
        width := -w;
      } else {
        width := w;
      }
      args := args[1..];
      format := format[1..];
    }
  }

  method ReadPrecision(format0: seq<char>, args0: seq<Arg>, flags0: Flags, ghost point: bool, ghost amount: Amount,
                       ghost rest: seq<char>)
    returns (flags: Flags, prec: nat, format: seq<char>, args: seq<Arg>)
    requires AmountOk(amount) && AmountSupplied(amount, args0) && (!point ==> amount.Absent?) && !flags0.precision
    requires format0 == EncodePrecision(point, amount) + rest && !IsDigit(At(rest)) && At(rest) != '*'
        && At(rest) != '.'
    ensures format == rest && args == AfterAmount(amount, args0) && flags == flags0.(precision := point)
    ensures prec == if AmountOf(amount, args0) < 0 then 0 else AmountOf(amount, args0)
  {
    flags, prec, format, args := flags0, 0, format0, args0;
    if At(format) == '.' {
      flags := flags.(precision := true);
      format := format[1..];
      assert format == EncodeAmount(amount) + rest;
      if IsDigit(At(format)) {
        prec, format := Atoi(format, amount.digits, rest);
      } else if At(format) == '*' {
        var p := Signed(args[0].v, UINT_LIMIT);
        prec := if p > 0 then p else 0;
        args := args[1..];
        format := format[1..];
      }
    }
  }

  // How many values the type named by the length modifier has; long and long long are the same.
  method ReadLength(format0: seq<char>, ghost length: seq<char>, ghost rest: seq<char>)
    returns (limit: nat, format: seq<char>)
    requires IsLength(length) && format0 == length + rest && At(rest) !in "lhtjz"
    ensures limit == Limit(length) && format == rest
  {
    limit, format := UINT_LIMIT, format0;
    var c := At(format);
    if c == 'l' {
      limit := ULONG_LIMIT;
      format := format[1..];
      if At(format) == 'l' {
        format := format[1..];
      }
    } else if c == 'h' {
      limit := 0x1_0000;
      format := format[1..];
      if At(format) == 'h' {
        limit := 0x100;
        format := format[1..];
      }
    } else if c == 't' || c == 'j' || c == 'z' {
      limit := ULONG_LIMIT;
      format := format[1..];
    }
  }

  method Emit(kind: char, limit: nat, flags0: Flags, width0: nat, prec0: nat, args: seq<Arg>, sent: seq<char>,
              ghost length: seq<char>)
    returns (out: seq<char>)
    requires limit == Limit(length) && ValueSupplied(kind, args) && !flags0.uppercase
        && (!flags0.precision ==> prec0 == 0)
    ensures out == sent + Converted(kind, length, flags0, width0, prec0, args)
  {
    var flags := flags0;
    if IsInteger(kind) {
      var value := ReadInteger(kind, limit, args[0].v, length);
      out := EmitInteger(kind, value, flags, width0, prec0, sent);
    } else if kind == 'c' {
      out := sent;
      var l := 1;
      if !flags.left {
        out := OutSpaces(out, l, width0);
      }
      out := out + [(args[0].v % 0x100) as char];
      if flags.left {
        out := OutSpaces(out, l, width0);
      }
    } else if kind == 's' {
      out := EmitString(args[0].s, flags, width0, prec0, sent);
    } else if kind == 'p' {
      flags := flags.(zeropad := true, uppercase := true);
      out := NtoaLong(sent, args[0].v % ULONG_LIMIT, false, 16, prec0, 16, flags);
    } else {
      out := sent + [kind];
    }
  }

  method ReadInteger(kind: char, limit: nat, v: int, ghost length: seq<char>) returns (value: int)
    requires limit == Limit(length)
    ensures value == IntegerOf(kind, length, v) && (!IsSigned(kind) ==> value >= 0)
  {
    value := if kind == 'i' || kind == 'd' then Signed(v, limit) else v % limit;
  }

  method EmitInteger(kind: char, value: int, flags0: Flags, width: nat, prec: nat, sent: seq<char>)
    returns (out: seq<char>)
    requires IsInteger(kind) && !flags0.uppercase && (!IsSigned(kind) ==> value >= 0)
    ensures out == sent + Rendered(Abs(value), value < 0, Base(kind), prec, width, IntegerFlags(kind, flags0))
  {
    var flags := flags0;
    var base := if kind == 'x' || kind == 'X' then 16 else if kind == 'o' then 8 else if kind == 'b' then 2 else 10;
    if base == 10 {
      flags := flags.(hash := false);
    }
    if kind == 'X' {
      flags := flags.(uppercase := true);
    }
    if kind != 'i' && kind != 'd' {
      flags := flags.(plus := false, space := false);
    }
    if flags.precision {
      flags := flags.(zeropad := false);
    }
    if kind == 'i' || kind == 'd' {
      out := NtoaLong(sent, if value > 0 then value else 0 - value, value < 0, base, prec, width, flags);
    } else {
      out := NtoaLong(sent, value, false, base, prec, width, flags);
    }
  }

  method EmitString(p: seq<char>, flags: Flags, width: nat, prec0: nat, sent: seq<char>) returns (out: seq<char>)
    requires '\0' !in p && |p| < UINT_LIMIT && (!flags.precision ==> prec0 == 0)
    ensures out == sent + Aligned(Cut(p, flags.precision, prec0), width, flags.left)
  {
    var l := if prec0 != 0 && prec0 < |p| then prec0 else |p|;
    if flags.precision {
      l := if l < prec0 then l else prec0;
    }
    out := sent;
    if !flags.left {
      out := OutSpaces(out, l, width);
    }
    out := OutString(out, p, flags, prec0);
    if flags.left {
      out := OutSpaces(out, l, width);
    }
  }

  method OutString(sent: seq<char>, p: seq<char>, flags: Flags, prec0: nat) returns (out: seq<char>)
    ensures out == sent + Cut(p, flags.precision, prec0)
  {
    out := sent;
    var prec: int, i := prec0, 0;
    while i < |p| && (!flags.precision || prec != 0)
      invariant 0 <= i <= |p| && out == sent + p[..i]
      invariant flags.precision ==> 0 <= prec == prec0 - i
    {
      prec := prec - 1;
      out := out + [p[i]];
      i := i + 1;
    }
    assert p[..|p|] == p;
  }
}
