// A format string can be read as directives in one way only.
module PrintfGrammar {
  import opened Printf

  // Two ways to cut off a run of characters of one class are the same.
  lemma {:induction false} SameRun(a: seq<char>, r: seq<char>, b: seq<char>, s: seq<char>, inRun: char -> bool)
    requires a + r == b + s && !inRun(At(r)) && !inRun(At(s))
    requires (forall k :: 0 <= k < |a| ==> inRun(a[k])) && (forall k :: 0 <= k < |b| ==> inRun(b[k]))
    ensures a == b && r == s
  {
    var x := a + r;
    assert if a == [] then x == r else x[0] == a[0] && x[1..] == a[1..] + r;
    assert if b == [] then x == s else x[0] == b[0] && x[1..] == b[1..] + s;
    if a != [] {
      SameRun(a[1..], r, b[1..], s, inRun);
      assert a == [a[0]] + a[1..] && b == [b[0]] + b[1..];
    }
  }

  predicate StartsFresh(s: seq<char>) { !IsDigit(At(s)) && At(s) != '*' }

  lemma SameAmount(a: Amount, r: seq<char>, b: Amount, s: seq<char>)
    requires AmountOk(a) && AmountOk(b) && StartsFresh(r) && StartsFresh(s)
    requires EncodeAmount(a) + r == EncodeAmount(b) + s
    ensures a == b && r == s
  {
    var x := EncodeAmount(a) + r;
    if At(x) == '*' {
      assert a.Star? && b.Star?;
      assert x[1..] == r && x[1..] == s;
    } else {
      SameRun(EncodeAmount(a), r, EncodeAmount(b), s, IsDigit);
    }
  }

  lemma SamePrecision(point: bool, a: Amount, r: seq<char>, point': bool, b: Amount, s: seq<char>)
    requires AmountOk(a) && AmountOk(b) && StartsFresh(r) && StartsFresh(s) && At(r) != '.' && At(s) != '.'
    requires (!point ==> a.Absent?) && (!point' ==> b.Absent?)
    requires EncodePrecision(point, a) + r == EncodePrecision(point', b) + s
    ensures point == point' && a == b && r == s
  {
    PrecisionStart(point, a, r);
    PrecisionStart(point', b, s);
    if point {
      SameAmount(a, r, b, s);
    }
  }

  lemma PrecisionStart(point: bool, a: Amount, r: seq<char>)
    requires At(r) != '.'
    ensures
      var x := EncodePrecision(point, a) + r;
      if point then At(x) == '.' && x[1..] == EncodeAmount(a) + r else x == r && At(x) != '.'
  {
  }

  predicate IsLengthChar(c: char) { c == 'l' || c == 'h' || c == 't' || c == 'j' || c == 'z' }

  lemma SameEnd(length: seq<char>, kind: char, r: seq<char>, length': seq<char>, kind': char, s: seq<char>)
    requires IsLength(length) && IsLength(length') && IsKind(kind) && IsKind(kind')
    requires length + ([kind] + r) == length' + ([kind'] + s)
    ensures length == length' && kind == kind' && r == s
  {
    SameRun(length, [kind] + r, length', [kind'] + s, IsLengthChar);
    assert ([kind] + r)[0] == kind && ([kind'] + s)[0] == kind';
    assert ([kind] + r)[1..] == r && ([kind'] + s)[1..] == s;
  }

  // What follows the parts of a directive starts with a character of none of those parts.
  lemma EndStart(length: seq<char>, kind: char, r: seq<char>)
    requires IsLength(length) && IsKind(kind)
    ensures
      var c := At(length + ([kind] + r));
      !IsFlag(c) && !IsDigit(c) && c != '*' && c != '.'
  {
  }

  lemma PointStart(point: bool, a: Amount, r: seq<char>)
    requires !IsFlag(At(r)) && StartsFresh(r)
    ensures
      var x := EncodePrecision(point, a) + r;
      StartsFresh(x) && !IsFlag(At(x))
  {
  }

  lemma WidthStart(a: Amount, r: seq<char>)
    requires AmountOk(a) && (a.Written? ==> a.digits[0] != '0') && !IsFlag(At(r))
    ensures !IsFlag(At(EncodeAmount(a) + r))
  {
  }

  lemma SameConversion(d: Directive, r: seq<char>, e: Directive, s: seq<char>)
    requires d.Conversion? && e.Conversion? && Ok(d) && Ok(e)
    requires Encode(d) + r == Encode(e) + s
    ensures d == e && r == s
  {
    var format := (Encode(d) + r)[1..];
    Parts(d, format, r);
    Parts(e, format, s);
    var end, end' := d.length + ([d.kind] + r), e.length + ([e.kind] + s);
    EndStart(d.length, d.kind, r);
    EndStart(e.length, e.kind, s);
    var point, point' := EncodePrecision(d.point, d.precision) + end, EncodePrecision(e.point, e.precision) + end';
    PointStart(d.point, d.precision, end);
    PointStart(e.point, e.precision, end');
    WidthStart(d.width, point);
    WidthStart(e.width, point');
    SameParts(d, EncodeAmount(d.width) + point, e, EncodeAmount(e.width) + point');
    SameAmount(d.width, point, e.width, point');
    SamePrecision(d.point, d.precision, end, e.point, e.precision, end');
    SameEnd(d.length, d.kind, r, e.length, e.kind, s);
  }

  lemma SameParts(d: Directive, r: seq<char>, e: Directive, s: seq<char>)
    requires d.Conversion? && e.Conversion? && Ok(d) && Ok(e) && !IsFlag(At(r)) && !IsFlag(At(s))
    requires d.flags + r == e.flags + s
    ensures d.flags == e.flags && r == s
  {
    SameRun(d.flags, r, e.flags, s, IsFlag);
  }

  lemma SameDirective(d: Directive, r: seq<char>, e: Directive, s: seq<char>)
    requires Ok(d) && Ok(e) && Encode(d) + r == Encode(e) + s
    ensures d == e && r == s
  {
    FirstOf(Encode(d), r);
    FirstOf(Encode(e), s);
    assert Encode(d)[0] == Encode(e)[0];
    if d.Conversion? {
      SameConversion(d, r, e, s);
    }
  }

  // The directives of a format are determined by the format.
  lemma {:induction false} Unambiguous(ds: seq<Directive>, es: seq<Directive>)
    requires forall k :: 0 <= k < |ds| ==> Ok(ds[k])
    requires forall k :: 0 <= k < |es| ==> Ok(es[k])
    requires EncodeAll(ds) == EncodeAll(es)
    ensures ds == es
  {
    if ds == [] {
      EndOfFormat(es);
    } else if es == [] {
      EndOfFormat(ds);
    } else {
      SameDirective(ds[0], EncodeAll(ds[1..]), es[0], EncodeAll(es[1..]));
      Unambiguous(ds[1..], es[1..]);
      assert ds == [ds[0]] + ds[1..] && es == [es[0]] + es[1..];
    }
  }
}
