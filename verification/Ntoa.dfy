// Printing integers through a small buffer that is filled back to front.
module Ntoa {
  const BUFFER_SIZE: nat := 32

  datatype Flags = Flags(zeropad: bool, left: bool, plus: bool, space: bool, hash: bool, uppercase: bool,
                         precision: bool)

  // ---------- What the buffer holds, last character first ----------

  function DigitChar(d: nat, uppercase: bool): char
    requires d < 36
  {
    if d < 10 then '0' + d as char else (if uppercase then 'A' else 'a') + (d - 10) as char
  }

  // The digits of a value, the least significant first.
  function RevDigits(value: nat, base: nat, uppercase: bool): seq<char>
    requires 2 <= base <= 36
    decreases value
  {
    if value < base then [DigitChar(value, uppercase)]
    else [DigitChar(value % base, uppercase)] + RevDigits(value / base, base, uppercase)
  }

  function Clip(s: seq<char>): (r: seq<char>)
    ensures |r| <= BUFFER_SIZE
  {
    if |s| <= BUFFER_SIZE then s else s[..BUFFER_SIZE]
  }

  // Appends zeros up to a length, as far as the buffer goes.
  function PadZeros(buf: seq<char>, n: nat): (r: seq<char>)
    ensures |buf| <= BUFFER_SIZE ==> |r| <= BUFFER_SIZE
    decreases n - |buf|
  {
    if |buf| < n && |buf| < BUFFER_SIZE then PadZeros(buf + ['0'], n) else buf
  }

  function Append(buf: seq<char>, c: char): seq<char> {
    if |buf| < BUFFER_SIZE then buf + [c] else buf
  }

  predicate NeedsSign(negative: bool, flags: Flags) { negative || flags.plus || flags.space }

  // Zero padding leaves room for the sign.
  function PadWidth(negative: bool, width: nat, flags: Flags): nat {
    if !flags.left && width > 0 && flags.zeropad && NeedsSign(negative, flags) then width - 1 else width
  }

  function Padded(digits: seq<char>, negative: bool, prec: nat, width: nat, flags: Flags): seq<char> {
    if flags.left then digits
    else
      var precise := PadZeros(digits, prec);
      if flags.zeropad then PadZeros(precise, PadWidth(negative, width, flags)) else precise
  }

  // What is kept when characters are given up for the base prefix.
  function Room(buf: seq<char>, base: nat, prec: nat, width: nat, precision: bool): seq<char> {
    if !precision && buf != [] && (|buf| == prec || |buf| == width)
    then if |buf| > 1 && base == 16 then buf[..|buf| - 2] else buf[..|buf| - 1]
    else buf
  }

  // The base prefix, after giving up padding for it.
  function WithHash(buf: seq<char>, base: nat, prec: nat, width: nat, flags: Flags): seq<char> {
    if !flags.hash then buf
    else
      var room := Room(buf, base, prec, width, flags.precision);
      var marked :=
        if base == 16 then Append(room, if flags.uppercase then 'X' else 'x')
        else if base == 2 then Append(room, 'b')
        else room;
      Append(marked, '0')
  }

  function WithSign(buf: seq<char>, negative: bool, flags: Flags): seq<char> {
    if negative then Append(buf, '-')
    else if flags.plus then Append(buf, '+')
    else if flags.space then Append(buf, ' ')
    else buf
  }

  function Digits(value: nat, base: nat, flags: Flags): seq<char>
    requires 2 <= base <= 36
  {
    if flags.precision && value == 0 then [] else Clip(RevDigits(value, base, flags.uppercase))
  }

  // The finished buffer.
  function Buffer(value: nat, negative: bool, base: nat, prec: nat, width: nat, flags: Flags): seq<char>
    requires 2 <= base <= 36
  {
    var fl := if value == 0 then flags.(hash := false) else flags;
    var padded := Padded(Digits(value, base, flags), negative, prec, width, fl);
    WithSign(WithHash(padded, base, prec, PadWidth(negative, width, fl), fl), negative, fl)
  }

  function Reverse(s: seq<char>): (r: seq<char>)
    ensures |r| == |s|
    ensures forall k :: 0 <= k < |s| ==> r[k] == s[|s| - 1 - k]
  {
    if s == [] then [] else Reverse(s[1..]) + [s[0]]
  }

  function Spaces(n: int): (r: seq<char>)
    ensures |r| == if n > 0 then n else 0
    ensures forall k :: 0 <= k < |r| ==> r[k] == ' '
  {
    if n <= 0 then [] else [' '] + Spaces(n - 1)
  }

  // What is sent out for a buffer: blanks on the left or on the right up to the width.
  function Field(buf: seq<char>, width: nat, flags: Flags): seq<char> {
    (if !flags.left && !flags.zeropad then Spaces(width - |buf|) else [])
    + Reverse(buf)
    + (if flags.left then Spaces(width - |buf|) else [])
  }

  function Rendered(value: nat, negative: bool, base: nat, prec: nat, width: nat, flags: Flags): seq<char>
    requires 2 <= base <= 36
  {
    Field(Buffer(value, negative, base, prec, width, flags), PadWidth(negative, width, flags), flags)
  }

  // ---------- The printer ----------

  // Sends out blanks while a count has not reached the width.
  method OutSpaces(sent: seq<char>, count: nat, width: nat) returns (out: seq<char>)
    ensures out == sent + Spaces(width - count)
  {
    out := sent;
    var i := count;
    while i < width
      invariant count <= i && (i <= width || i == count)
      invariant out == sent + Spaces(i - count)
    {
      SpacesSnoc(i - count);
      out := out + [' '];
      i := i + 1;
    }
  }

  // Sends out a buffer back to front, after what has been sent already.
  method OutRev(sent: seq<char>, buf: array<char>, len0: nat, width: nat, flags: Flags) returns (out: seq<char>)
    requires len0 <= buf.Length
    ensures out == sent + Field(buf[..len0], width, flags)
  {
    out := sent;
    if !flags.left && !flags.zeropad {
      out := OutSpaces(out, len0, width);
    }
    out := OutReversed(out, buf, len0);
    if flags.left {
      out := OutSpaces(out, |out| - |sent|, width);
    }
  }

  method OutReversed(sent: seq<char>, buf: array<char>, len0: nat) returns (out: seq<char>)
    requires len0 <= buf.Length
    ensures out == sent + Reverse(buf[..len0])
  {
    out := sent;
    var len := len0;
    while len > 0
      invariant 0 <= len <= len0
      invariant out == sent + Reverse(buf[len..len0])
    {
      len := len - 1;
      ReverseCons(buf[len], buf[len + 1..len0]);
      assert buf[len..len0] == [buf[len]] + buf[len + 1..len0];
      out := out + [buf[len]];
    }
    assert buf[0..len0] == buf[..len0];
  }

  lemma SpacesSnoc(n: nat)
    ensures Spaces(n + 1) == Spaces(n) + [' ']
  {
  }

  lemma ReverseCons(c: char, s: seq<char>)
    ensures Reverse([c] + s) == Reverse(s) + [c]
  {
    assert ([c] + s)[1..] == s;
  }

  // Fills the buffer with zeros up to a length.
  method FillZeros(buf: array<char>, len0: nat, n: nat) returns (len: nat)
    requires buf.Length == BUFFER_SIZE && len0 <= BUFFER_SIZE
    modifies buf
    ensures len <= BUFFER_SIZE && buf[..len] == PadZeros(old(buf[..len0]), n)
  {
    len := len0;
    while len < n && len < BUFFER_SIZE
      invariant len0 <= len <= BUFFER_SIZE
      invariant PadZeros(buf[..len], n) == PadZeros(old(buf[..len0]), n)
    {
      buf[len] := '0';
      len := len + 1;
      assert buf[..len] == buf[..len - 1] + ['0'];
    }
  }

  // Adds a character if there is room.
  method Put(buf: array<char>, len0: nat, c: char) returns (len: nat)
    requires buf.Length == BUFFER_SIZE && len0 <= BUFFER_SIZE
    modifies buf
    ensures len <= BUFFER_SIZE && buf[..len] == Append(old(buf[..len0]), c)
  {
    len := len0;
    if len < BUFFER_SIZE {
      buf[len] := c;
      len := len + 1;
      assert buf[..len] == old(buf[..len0]) + [c];
    }
  }

  method NtoaFormat(sent: seq<char>, buf: array<char>, len0: nat, negative: bool, base: nat, prec: nat, width0: nat,
                    flags: Flags)
    returns (out: seq<char>)
    requires buf.Length == BUFFER_SIZE && len0 <= BUFFER_SIZE && 2 <= base <= 36
    modifies buf
    ensures
      var padded := Padded(old(buf[..len0]), negative, prec, width0, flags);
      var width := PadWidth(negative, width0, flags);
      out == sent + Field(WithSign(WithHash(padded, base, prec, width, flags), negative, flags), width, flags)
  {
    var len, width := len0, width0;
    if !flags.left {
      if width > 0 && flags.zeropad && (negative || flags.plus || flags.space) {
        width := width - 1;
      }
      len := FillZeros(buf, len, prec);
      if flags.zeropad {
        len := FillZeros(buf, len, width);
      }
    }
    assert buf[..len] == Padded(old(buf[..len0]), negative, prec, width0, flags);
    len := PutHash(buf, len, base, prec, width, flags);
    if negative {
      len := Put(buf, len, '-');
    } else if flags.plus {
      len := Put(buf, len, '+');
    } else if flags.space {
      len := Put(buf, len, ' ');
    }
    out := OutRev(sent, buf, len, width, flags);
  }

  method PutHash(buf: array<char>, len0: nat, base: nat, prec: nat, width: nat, flags: Flags) returns (len: nat)
    requires buf.Length == BUFFER_SIZE && len0 <= BUFFER_SIZE
    modifies buf
    ensures len <= BUFFER_SIZE && buf[..len] == WithHash(old(buf[..len0]), base, prec, width, flags)
  {
    len := len0;
    if flags.hash {
      if !flags.precision && len > 0 && (len == prec || len == width) {
        len := len - 1;
        if len > 0 && base == 16 {
          len := len - 1;
        }
      }
      ghost var all := buf[..len0];
      assert buf[..len] == all[..len];
      if base == 16 && !flags.uppercase {
        len := Put(buf, len, 'x');
      } else if base == 16 && flags.uppercase {
        len := Put(buf, len, 'X');
      } else if base == 2 {
        len := Put(buf, len, 'b');
      }
      len := Put(buf, len, '0');
    }
  }

  // _ntoa_long, and _ntoa_long_long, which is the same for the same width of integers.
  method NtoaLong(sent: seq<char>, value0: nat, negative: bool, base: nat, prec: nat, width: nat, flags0: Flags)
    returns (out: seq<char>)
    requires 2 <= base <= 36
    ensures out == sent + Rendered(value0, negative, base, prec, width, flags0)
  {
    var buf := new char[BUFFER_SIZE](_ => '\0');
    var len, value, flags := 0, value0, flags0;
    if value == 0 {
      flags := flags.(hash := false);
    }
    if !flags.precision || value != 0 {
      len := WriteDigits(buf, value, base, flags.uppercase);
    } else {
      assert buf[..0] == [];
    }
    out := NtoaFormat(sent, buf, len, negative, base, prec, width, flags);
  }

  method WriteDigits(buf: array<char>, value0: nat, base: nat, uppercase: bool) returns (len: nat)
    requires buf.Length == BUFFER_SIZE && 2 <= base <= 36
    modifies buf
    ensures len <= BUFFER_SIZE && buf[..len] == Clip(RevDigits(value0, base, uppercase))
  {
    var value: nat := value0;
    len := 0;
    ghost var all := RevDigits(value0, base, uppercase);
    var more := true;
    while more
      invariant 0 <= len <= BUFFER_SIZE && len <= |all|
      invariant forall k :: 0 <= k < len ==> buf[k] == all[k]
      invariant more ==> len < BUFFER_SIZE && all[len..] == RevDigits(value, base, uppercase)
      invariant !more ==> len == BUFFER_SIZE || len == |all|
      decreases more, value
    {
      var c;
      c, value := NextDigit(value, base, uppercase);
      buf[len] := c;
      assert all[len..][1..] == all[len + 1..];
      len := len + 1;
      more := value != 0 && len < BUFFER_SIZE;
    }
    assert buf[..len] == all[..len];
  }

  method NextDigit(value: nat, base: nat, uppercase: bool) returns (c: char, next: nat)
    requires 2 <= base <= 36
    ensures
      var digits := RevDigits(value, base, uppercase);
      && digits[0] == c
      && if next == 0 then |digits| == 1 else next < value && digits[1..] == RevDigits(next, base, uppercase)
  {
    OneDigit(value, base, uppercase);
    var digit := value % base;
    c := if digit < 10 then '0' + digit as char else (if uppercase then 'A' else 'a') + (digit - 10) as char;
    next := value / base;
  }

  lemma OneDigit(value: nat, base: nat, uppercase: bool)
    requires 2 <= base <= 36
    ensures RevDigits(value, base, uppercase) ==
            [DigitChar(value % base, uppercase)] +
            if value / base == 0 then [] else RevDigits(value / base, base, uppercase)
    ensures value / base != 0 ==> value / base < value
  {
    Quotient(value, base);
  }

  lemma Quotient(value: nat, base: nat)
    requires base >= 2
    ensures value == value / base * base + value % base
    ensures value < base ==> value / base == 0 && value % base == value
    ensures value >= base ==> 0 < value / base < value
  {
    Divided(value, base);
    Product(value / base, base);
  }

  lemma Divided(value: nat, base: nat)
    requires base > 0
    ensures value == value / base * base + value % base && 0 <= value % base < base
  {
  }

  lemma Product(q: nat, base: nat)
    requires base >= 2
    ensures q * base >= 2 * q
    ensures q > 0 ==> q * base >= base
  {
    if q > 0 {
      Product(q - 1, base);
      assert q * base == (q - 1) * base + base;
    }
  }
}
