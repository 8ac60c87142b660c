// The two 64-bit hash functions, which are built from steps that can all be undone.
module HashBytes {
  import opened Limits

  // ---------- The steps ----------

  function Xor(a: bv64, b: bv64): bv64 { a ^ b }

  function ShiftMix(v: bv64): bv64 { v ^ (v >> 47) }

  function Mul(v: bv64): bv64 { v * 0xc6a4a7935bd1e995 }

  function FnvMul(v: bv64): bv64 { v * 0x100000001b3 }

  // A char converted to size_t: char is signed, so the sign is extended.
  function SignExtended(b: bv8): bv64 {
    if b & 0x80 != 0 then (b as bv64) | 0xffff_ffff_ffff_ff00 else b as bv64
  }

  // Multiplying by the inverses modulo 2^64 of the two odd multipliers.
  function UnMul(v: bv64): bv64 { v * 0x5f7a0ea7e59b19bd }

  function FnvUnMul(v: bv64): bv64 { v * 0xce965057aff6957b }

  lemma MulUndone(v: bv64)
    ensures UnMul(Mul(v)) == v
  {
    assert UnMul(v * 0xc6a4a7935bd1e995) == v;
  }

  lemma FnvMulUndone(v: bv64)
    ensures FnvUnMul(FnvMul(v)) == v
  {
    assert FnvUnMul(v * 0x100000001b3) == v;
  }

  lemma ShiftMixUndone(v: bv64)
    ensures ShiftMix(ShiftMix(v)) == v
  {
    assert ShiftMix(v ^ (v >> 47)) == v;
  }

  lemma XorUndone(h: bv64, d: bv64)
    ensures Xor(Xor(h, d), d) == h && Xor(Xor(h, d), h) == d
  {
    assert Xor(h ^ d, d) == h && Xor(h ^ d, h) == d;
  }

  lemma SignKept(a: bv8, b: bv8)
    requires SignExtended(a) == SignExtended(b)
    ensures a == b
  {
  }

  lemma MulInjective(v: bv64, w: bv64)
    requires Mul(v) == Mul(w)
    ensures v == w
  {
    MulUndone(v);
    MulUndone(w);
  }

  lemma FnvMulInjective(v: bv64, w: bv64)
    requires FnvMul(v) == FnvMul(w)
    ensures v == w
  {
    FnvMulUndone(v);
    FnvMulUndone(w);
  }

  lemma ShiftMixInjective(v: bv64, w: bv64)
    requires ShiftMix(v) == ShiftMix(w)
    ensures v == w
  {
    ShiftMixUndone(v);
    ShiftMixUndone(w);
  }

  lemma XorInjective(h: bv64, h': bv64, d: bv64, d': bv64)
    requires Xor(h, d) == Xor(h', d')
    ensures h == h' <==> d == d'
  {
    XorUndone(h, d);
    XorUndone(h', d');
  }

  // ---------- Loading bytes ----------

  function ShiftIn(v: bv64, b: bv8): bv64 { (v << 8) + b as bv64 }

  // The little-endian number in some bytes.
  function Load(s: seq<bv8>): bv64 {
    if s == [] then 0 else ShiftIn(Load(s[1..]), s[0])
  }

  method LoadBytes(p: seq<bv8>, n: nat) returns (result: bv64)
    requires 1 <= n < 8 && n <= |p|
    ensures result == Load(p[..n])
  {
    result := 0;
    var i := n - 1;
    assert p[n..n] == [];
    while true
      invariant 0 <= i < n && result == Load(p[i + 1..n])
      decreases i
    {
      assert p[i..n][1..] == p[i + 1..n] && p[i..n][0] == p[i];
      result := ShiftIn(result, p[i]);
      i := i - 1;
      if i < 0 {
        break;
      }
    }
    assert p[0..n] == p[..n];
  }

  function Zeros(n: nat): (s: seq<bv8>)
    ensures |s| == n
  {
    seq(n, i => 0)
  }

  // The bytes of a number, lowest first.
  function Store(v: bv64): seq<bv8> {
    [(v & 0xff) as bv8, ((v >> 8) & 0xff) as bv8, ((v >> 16) & 0xff) as bv8, ((v >> 24) & 0xff) as bv8,
     ((v >> 32) & 0xff) as bv8, ((v >> 40) & 0xff) as bv8, ((v >> 48) & 0xff) as bv8, ((v >> 56) & 0xff) as bv8]
  }

  lemma {:induction false} LoadZeros(n: nat)
    ensures Load(Zeros(n)) == 0
  {
    if n > 0 {
      LoadZeros(n - 1);
      assert Zeros(n)[1..] == Zeros(n - 1);
      assert ShiftIn(0, 0) == 0;
    }
  }

  // The tail is loaded as if it were padded with zero bytes.
  lemma {:induction false} PaddedLoad(s: seq<bv8>, n: nat)
    ensures Load(s + Zeros(n)) == Load(s)
  {
    if s == [] {
      LoadZeros(n);
      assert s + Zeros(n) == Zeros(n);
    } else {
      PaddedLoad(s[1..], n);
      assert (s + Zeros(n))[1..] == s[1..] + Zeros(n);
    }
  }

  function Word(a: bv8, b: bv8, c: bv8, d: bv8, e: bv8, f: bv8, g: bv8, h: bv8): bv64 {
    ShiftIn(ShiftIn(ShiftIn(ShiftIn(ShiftIn(ShiftIn(ShiftIn(ShiftIn(0, h), g), f), e), d), c), b), a)
  }

  lemma WordStored(a: bv8, b: bv8, c: bv8, d: bv8, e: bv8, f: bv8, g: bv8, h: bv8)
    ensures Store(Word(a, b, c, d, e, f, g, h)) == [a, b, c, d, e, f, g, h]
  {
  }

  function WordOf(s: seq<bv8>): bv64
    requires |s| == 8
  {
    Word(s[0], s[1], s[2], s[3], s[4], s[5], s[6], s[7])
  }

  lemma WordOfStored(s: seq<bv8>)
    requires |s| == 8
    ensures Store(WordOf(s)) == s
  {
    WordStored(s[0], s[1], s[2], s[3], s[4], s[5], s[6], s[7]);
    assert [s[0], s[1], s[2], s[3], s[4], s[5], s[6], s[7]] == s;
  }

  lemma LoadIsWord(s: seq<bv8>)
    requires |s| == 8
    ensures Load(s) == WordOf(s)
  {
    assert s[1..][1..] == s[2..] && s[2..][1..] == s[3..] && s[3..][1..] == s[4..] && s[4..][1..] == s[5..];
    assert s[5..][1..] == s[6..] && s[6..][1..] == s[7..] && s[7..][1..] == [];
    assert Load(s[7..]) == ShiftIn(0, s[7]);
    assert Load(s[6..]) == ShiftIn(Load(s[7..]), s[6]);
    assert Load(s[5..]) == ShiftIn(Load(s[6..]), s[5]);
    assert Load(s[4..]) == ShiftIn(Load(s[5..]), s[4]);
    assert Load(s[3..]) == ShiftIn(Load(s[4..]), s[3]);
    assert Load(s[2..]) == ShiftIn(Load(s[3..]), s[2]);
    assert Load(s[1..]) == ShiftIn(Load(s[2..]), s[1]);
  }

  lemma StoreUndoesLoad(s: seq<bv8>)
    requires |s| == 8
    ensures Store(Load(s)) == s
  {
    LoadIsWord(s);
    WordOfStored(s);
  }

  lemma WholeLoadInjective(s: seq<bv8>, t: seq<bv8>)
    requires |s| == |t| == 8 && Load(s) == Load(t)
    ensures s == t
  {
    StoreUndoesLoad(s);
    StoreUndoesLoad(t);
  }

  lemma LoadInjective(s: seq<bv8>, t: seq<bv8>)
    requires |s| == |t| <= 8 && Load(s) == Load(t)
    ensures s == t
  {
    var n := 8 - |s|;
    PaddedLoad(s, n);
    PaddedLoad(t, n);
    var s', t' := s + Zeros(n), t + Zeros(n);
    WholeLoadInjective(s', t');
    assert s == s'[..|s|] && t == t'[..|t|];
  }

  // ---------- The Murmur-style hash ----------

  // A length as a size_t, which counts modulo 2^64.
  function Size(n: nat): bv64 {
    if n == 0 then 0 else Size(n - 1) + 1
  }

  function Scrambled(d: bv64): bv64 { Mul(ShiftMix(Mul(d))) }

  function Mixed(h: bv64, d: bv64): bv64 { Mul(Xor(h, d)) }

  function Finished(h: bv64): bv64 { ShiftMix(Mul(ShiftMix(h))) }

  // Mixing in eight bytes at a time, then what is left.
  function Run(s: seq<bv8>, h: bv64): bv64 {
    if s == [] then h
    else if |s| < 8 then Mixed(h, Load(s))
    else Run(s[8..], Mixed(h, Scrambled(Load(s[..8]))))
  }

  const INT_LIMIT: nat := 0x8000_0000

  // Where the whole blocks end, as it is kept in an int: only the lower half of a length counts.
  function EndOffset(n: nat): int {
    var low := n % UINT_LIMIT;
    var aligned := low - low % 8;
    if aligned < INT_LIMIT then aligned else aligned - UINT_LIMIT
  }

  // Bit 31 of the length is clear.
  predicate LengthOk(n: nat) { n % UINT_LIMIT < INT_LIMIT }

  // The loop over the blocks starts at offset 0 and comes to its end exactly for these lengths; for
  // the others the end lies in front of the input.
  lemma LoopEndsIff(n: nat)
    ensures LengthOk(n) <==> exists k: nat :: 8 * k == EndOffset(n)
    ensures LengthOk(n) <==> n / 0x8000_0000 % 2 == 0
    ensures !LengthOk(n) ==> EndOffset(n) < 0
    ensures LengthOk(n) ==> EndOffset(n) == n % UINT_LIMIT - n % UINT_LIMIT % 8
  {
    var low := n % UINT_LIMIT;
    assert low - low % 8 == 8 * (low / 8);
    if LengthOk(n) {
      assert 8 * (low / 8) == EndOffset(n);
    }
  }

  // The bytes that are looked at: all of them, for inputs shorter than 2 GiB.
  function Used(s: seq<bv8>): seq<bv8> { s[..|s| % UINT_LIMIT] }

  function Hash(s: seq<bv8>, seed: bv64): bv64 {
    Finished(Run(Used(s), Xor(seed, Mul(Size(|s|)))))
  }

  // Mixes in the first block of what is left.
  method MixBlock(h: bv64, block: seq<bv8>, ghost rest: seq<bv8>) returns (hash: bv64)
    requires |rest| >= 8 && block == rest[..8]
    ensures Run(rest[8..], hash) == Run(rest, h)
  {
    var data := Mul(ShiftMix(Mul(Load(block))));
    hash := Xor(h, data);
    hash := Mul(hash);
  }

  // The whole blocks of the first len bytes.
  method MixBlocks(buf: seq<bv8>, end: nat, ghost len: nat, start: bv64) returns (hash: bv64)
    requires end <= len <= |buf| && end % 8 == 0
    ensures Run(buf[end..len], hash) == Run(buf[..len], start)
  {
    ghost var k, n, total := 0, end / 8, Run(buf[..len], start);
    hash := start;
    var p := 0;
    assert buf[0..len] == buf[..len];
    while p != end
      invariant 0 <= k <= n && p == 8 * k && end == 8 * n
      invariant Run(buf[p..len], hash) == total
    {
      hash := MixBlock(hash, buf[p..p + 8], buf[p..len]);
      assert buf[p..len][8..] == buf[p + 8..len];
      p, k := p + 8, k + 1;
    }
  }

  // The bytes behind the whole blocks.
  method MixTail(buf: seq<bv8>, end: nat, n: nat, start: bv64) returns (hash: bv64)
    requires n < 8 && end + n <= |buf|
    ensures hash == Run(buf[end..end + n], start)
  {
    hash := start;
    if n != 0 {
      var data := LoadBytes(buf[end..], n);
      assert buf[end..][..n] == buf[end..end + n];
      hash := Xor(hash, data);
      hash := Mul(hash);
    }
  }

  // Everything between the first step and the last ones.
  method MixBytes(buf: seq<bv8>, start: bv64) returns (hash: bv64)
    requires LengthOk(|buf|)
    ensures hash == Run(Used(buf), start)
  {
    var end := EndOffset(|buf|);
    ghost var len := |buf| % UINT_LIMIT;
    Offsets(|buf|);
    hash := MixBlocks(buf, end, len, start);
    hash := MixTail(buf, end, |buf| % 8, hash);
  }

  lemma Offsets(n: nat)
    requires LengthOk(n)
    ensures EndOffset(n) >= 0 && EndOffset(n) % 8 == 0 && EndOffset(n) + n % 8 == n % UINT_LIMIT <= n
  {
    LoopEndsIff(n);
    assert n % UINT_LIMIT % 8 == n % 8;
  }

  method HashBytes(buf: seq<bv8>, seed: bv64) returns (hash: bv64)
    requires LengthOk(|buf|)
    ensures hash == Hash(buf, seed)
  {
    hash := Xor(seed, Mul(Size(|buf|)));
    hash := MixBytes(buf, hash);
    hash := Mul(ShiftMix(hash));
    hash := ShiftMix(hash);
  }

  lemma ScrambledInjective(d: bv64, e: bv64)
    requires Scrambled(d) == Scrambled(e)
    ensures d == e
  {
    MulInjective(ShiftMix(Mul(d)), ShiftMix(Mul(e)));
    ShiftMixInjective(Mul(d), Mul(e));
    MulInjective(d, e);
  }

  lemma MixedInjective(h: bv64, d: bv64, h': bv64, d': bv64)
    requires Mixed(h, d) == Mixed(h', d')
    ensures h == h' <==> d == d'
  {
    MulInjective(Xor(h, d), Xor(h', d'));
    XorInjective(h, h', d, d');
  }

  lemma FinishedInjective(h: bv64, k: bv64)
    requires Finished(h) == Finished(k)
    ensures h == k
  {
    ShiftMixInjective(Mul(ShiftMix(h)), Mul(ShiftMix(k)));
    MulInjective(ShiftMix(h), ShiftMix(k));
    ShiftMixInjective(h, k);
  }

  // The same bytes never bring two different states together.
  lemma {:induction false} RunInjective(s: seq<bv8>, h: bv64, k: bv64)
    requires Run(s, h) == Run(s, k)
    ensures h == k
  {
    if s != [] && |s| < 8 {
      MixedInjective(h, Load(s), k, Load(s));
    } else if s != [] {
      var d := Scrambled(Load(s[..8]));
      RunInjective(s[8..], Mixed(h, d), Mixed(k, d));
      MixedInjective(h, d, k, d);
    }
  }

  // One string is the other with only the bytes from..until changed.
  ghost predicate DifferInside(s: seq<bv8>, t: seq<bv8>, from: nat, until: nat) {
    && |s| == |t|
    && forall i :: 0 <= i < |s| && (i < from || until <= i) ==> s[i] == t[i]
  }

  lemma LaterBlocks(s: seq<bv8>, t: seq<bv8>, block: nat)
    requires |s| >= 8 && block > 0 && DifferInside(s, t, 8 * block, 8 * block + 8)
    ensures DifferInside(s[8..], t[8..], 8 * (block - 1), 8 * (block - 1) + 8)
    ensures s[..8] == t[..8]
    ensures s[8..] == t[8..] ==> s == t
  {
    assert s == s[..8] + s[8..] && t == t[..8] + t[8..];
  }

  lemma {:induction false} RunTellsApart(s: seq<bv8>, t: seq<bv8>, block: nat, h: bv64)
    requires DifferInside(s, t, 8 * block, 8 * block + 8)
    requires Run(s, h) == Run(t, h)
    ensures s == t
  {
    if s == [] {
    } else if |s| < 8 {
      MixedInjective(h, Load(s), h, Load(t));
      LoadInjective(s, t);
    } else if block > 0 {
      LaterBlocks(s, t, block);
      RunTellsApart(s[8..], t[8..], block - 1, Mixed(h, Scrambled(Load(s[..8]))));
    } else {
      assert s[8..] == t[8..];
      FirstBlockApart(s, t, h);
    }
  }

  lemma FirstBlockApart(s: seq<bv8>, t: seq<bv8>, h: bv64)
    requires |s| == |t| >= 8 && s[8..] == t[8..]
    requires Run(s, h) == Run(t, h)
    ensures s == t
  {
    var d, e := Load(s[..8]), Load(t[..8]);
    RunInjective(s[8..], Mixed(h, Scrambled(d)), Mixed(h, Scrambled(e)));
    MixedInjective(h, Scrambled(d), h, Scrambled(e));
    ScrambledInjective(d, e);
    LoadInjective(s[..8], t[..8]);
    assert s == s[..8] + s[8..] && t == t[..8] + t[8..];
  }

  // Inputs of one length that differ only inside one block, or only in the tail, never collide, as
  // far as their bytes are looked at.
  lemma HashTellsBlocksApart(s: seq<bv8>, t: seq<bv8>, block: nat, seed: bv64)
    requires DifferInside(s, t, 8 * block, 8 * block + 8) && LengthOk(|s|)
    ensures Hash(s, seed) == Hash(t, seed) <==> s[..|s| % 0x1_0000_0000] == t[..|t| % 0x1_0000_0000]
    ensures |s| < 0x8000_0000 ==> (Hash(s, seed) == Hash(t, seed) <==> s == t)
  {
    if Hash(s, seed) == Hash(t, seed) {
      var h := Xor(seed, Mul(Size(|s|)));
      FinishedInjective(Run(Used(s), h), Run(Used(t), h));
      RunTellsApart(Used(s), Used(t), block, h);
    }
    if |s| < INT_LIMIT {
      assert Used(s) == s && Used(t) == t;
    }
  }

  lemma HashInjectiveInSeed(s: seq<bv8>, seed: bv64, seed': bv64)
    requires LengthOk(|s|)
    ensures Hash(s, seed) == Hash(s, seed') <==> seed == seed'
  {
    if Hash(s, seed) == Hash(s, seed') {
      var n := Mul(Size(|s|));
      FinishedInjective(Run(Used(s), Xor(seed, n)), Run(Used(s), Xor(seed', n)));
      RunInjective(Used(s), Xor(seed, n), Xor(seed', n));
      XorInjective(seed, seed', n, n);
    }
  }

  // Instances: what std::hash makes of three strings, with its seed: the empty one, one of a tail only,
  // and one of a block and a tail.
  lemma EmptyHashed(s: seq<bv8>, seed: bv64)
    requires s == [] && seed == 0xc70f6907
    ensures Hash(s, seed) == 6142509188972423790
  {
    assert Mul(0) == 0 && Size(0) == 0;
    assert ShiftMix(0xc70f6907) == 0xc70f6907;
    assert Used(s) == [];
  }

  lemma LetterHashed(s: seq<bv8>, seed: bv64)
    requires s == [0x61] && seed == 0xc70f6907
    ensures Hash(s, seed) == 4993892634952068459
  {
    assert Used(s) == s && s[1..] == [];
    assert ShiftIn(0, 0x61) == 0x61;
    assert Load(s[1..]) == 0;
    assert Load(s) == 0x61;
    assert Size(0) == 0 && Size(1) == 1;
  }

  lemma NineLettersHashed(s: seq<bv8>, seed: bv64)
    requires s == [0x61, 0x62, 0x63, 0x64, 0x65, 0x66, 0x67, 0x68, 0x69] && seed == 0xc70f6907
    ensures Hash(s, seed) == 0xb4ec9257851c8aaf
  {
    assert Used(s) == s && s[8..] == [0x69] && [0x69 as bv8][1..] == [];
    var block := s[..8];
    LoadIsWord(block);
    assert Load(block) == 0x6867_6665_6463_6261;
    assert Load(s[8..][1..]) == 0 && ShiftIn(0, 0x69) == 0x69;
    assert Load(s[8..]) == 0x69;
    assert Size(9) == 9 && Xor(seed, Mul(9)) == 0xfbc9e42efd6e5f3a;
    assert Scrambled(0x6867_6665_6463_6261) == 0x5291c0b7ed8e047e;
    assert Mixed(0xfbc9e42efd6e5f3a, 0x5291c0b7ed8e047e) == 0x2f80e91ab42a0294;
    assert Run(s[8..], 0x2f80e91ab42a0294) == Mixed(0x2f80e91ab42a0294, 0x69) == 0x3b2fc22878b90241;
    assert Run(s, 0xfbc9e42efd6e5f3a) == 0x3b2fc22878b90241;
    assert Finished(0x3b2fc22878b90241) == 0xb4ec9257851c8aaf;
  }

  // ---------- The Fowler-Noll-Vo hash ----------

  function FnvMixed(h: bv64, b: bv8): bv64 { FnvMul(Xor(h, SignExtended(b))) }

  function Fnv(s: seq<bv8>, h: bv64): bv64 {
    if s == [] then h else Fnv(s[1..], FnvMixed(h, s[0]))
  }

  method FnvHashBytes(s: seq<bv8>, seed: bv64) returns (hash: bv64)
    ensures hash == Fnv(s, seed)
  {
    hash := seed;
    var i := 0;
    assert s[0..] == s;
    while i < |s|
      invariant 0 <= i <= |s|
      invariant Fnv(s[i..], hash) == Fnv(s, seed)
    {
      assert s[i..][0] == s[i] && s[i..][1..] == s[i + 1..];
      hash := Xor(hash, SignExtended(s[i]));
      hash := FnvMul(hash);
      i := i + 1;
    }
  }

  lemma FnvMixedInjective(h: bv64, a: bv8, k: bv64, b: bv8)
    requires FnvMixed(h, a) == FnvMixed(k, b)
    ensures h == k <==> a == b
  {
    FnvMulInjective(Xor(h, SignExtended(a)), Xor(k, SignExtended(b)));
    XorInjective(h, k, SignExtended(a), SignExtended(b));
    if SignExtended(a) == SignExtended(b) {
      SignKept(a, b);
    }
  }

  lemma {:induction false} FnvInjectiveInSeed(s: seq<bv8>, h: bv64, k: bv64)
    ensures Fnv(s, h) == Fnv(s, k) <==> h == k
  {
    if s != [] {
      FnvInjectiveInSeed(s[1..], FnvMixed(h, s[0]), FnvMixed(k, s[0]));
      if FnvMixed(h, s[0]) == FnvMixed(k, s[0]) {
        FnvMixedInjective(h, s[0], k, s[0]);
      }
    }
  }

  // Changing exactly one byte always changes the hash.
  lemma {:induction false} FnvTellsBytesApart(s: seq<bv8>, t: seq<bv8>, at: nat, h: bv64)
    requires DifferInside(s, t, at, at + 1)
    ensures Fnv(s, h) == Fnv(t, h) <==> s == t
  {
    if s == [] || Fnv(s, h) != Fnv(t, h) {
    } else if at > 0 {
      FnvTellsBytesApart(s[1..], t[1..], at - 1, FnvMixed(h, s[0]));
      assert s == [s[0]] + s[1..] && t == [t[0]] + t[1..];
    } else {
      assert s[1..] == t[1..];
      FnvInjectiveInSeed(s[1..], FnvMixed(h, s[0]), FnvMixed(h, t[0]));
      FnvMixedInjective(h, s[0], h, t[0]);
      assert s == [s[0]] + s[1..] && t == [t[0]] + t[1..];
    }
  }

  // FNV-1a takes the bytes as they are.
  function FnvTimes(v: bv64): bv64 { v * 1099511628211 }

  function Fnv1aStep(h: bv64, b: bv8): bv64 { FnvTimes(h ^ (b as bv64)) }

  function Fnv1a(s: seq<bv8>, h: bv64): bv64 {
    if s == [] then h else Fnv1a(s[1..], Fnv1aStep(h, s[0]))
  }

  // A char of 128 or more is negative, and the code takes another number for it.
  lemma StepIff(h: bv64, b: bv8)
    ensures Fnv1aStep(h, b) == FnvMixed(h, b) <==> b < 0x80
  {
    StepIs(h, b);
    SignSet(b);
    if Fnv1aStep(h, b) == FnvMixed(h, b) {
      FnvMulInjective(Xor(h, b as bv64), Xor(h, SignExtended(b)));
      XorInjective(h, h, b as bv64, SignExtended(b));
    }
  }

  lemma StepIs(h: bv64, b: bv8)
    ensures Fnv1aStep(h, b) == FnvMul(Xor(h, b as bv64))
  {
    SameTimes(Xor(h, b as bv64));
  }

  lemma SameTimes(v: bv64)
    ensures FnvTimes(v) == FnvMul(v)
  {
  }

  // The number taken is 256 less, modulo 2^64.
  lemma SignSet(b: bv8)
    ensures SignExtended(b) == b as bv64 <==> b < 0x80
    ensures b >= 0x80 ==> SignExtended(b) == b as bv64 - 0x100
  {
  }

  ghost predicate AllAscii(s: seq<bv8>) { forall k :: 0 <= k < |s| ==> s[k] < 0x80 }

  // The code computes FNV-1a of all ASCII strings, and never of a string with one other character.
  lemma {:induction false} FnvIsFnv1a(s: seq<bv8>, h: bv64)
    requires AllAscii(s)
    ensures Fnv(s, h) == Fnv1a(s, h)
  {
    if s != [] {
      StepIff(h, s[0]);
      FnvIsFnv1a(s[1..], FnvMixed(h, s[0]));
    }
  }

  lemma {:induction false} FnvIsNotFnv1a(s: seq<bv8>, at: nat, h: bv64)
    requires at < |s| && s[at] >= 0x80 && AllAscii(s[..at]) && AllAscii(s[at + 1..])
    ensures Fnv(s, h) != Fnv1a(s, h)
  {
    StepIff(h, s[0]);
    if at > 0 {
      assert s[..at][0] == s[0] && s[1..][..at - 1] == s[..at][1..] && s[1..][at..] == s[at + 1..];
      FnvIsNotFnv1a(s[1..], at - 1, FnvMixed(h, s[0]));
    } else {
      FnvIsFnv1a(s[1..], Fnv1aStep(h, s[0]));
      FnvInjectiveInSeed(s[1..], FnvMixed(h, s[0]), Fnv1aStep(h, s[0]));
    }
  }

  // An instance: FNV-1a of a, from the offset basis.
  lemma FnvOfLetter(s: seq<bv8>, h: bv64)
    requires s == [0x61] && h == 0xcbf29ce484222325
    ensures Fnv(s, h) == 0xaf63dc4c8601ec8c
  {
    assert s[1..] == [];
    assert SignExtended(0x61) == 0x61;
  }
}
