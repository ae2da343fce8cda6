/** shard.go: the 64-bit score of a (metric hash, peer) pair. */
module PairHash {
  import opened Names

  const FNV_OFFSET: bv64 := 14695981039346656037
  const SEPARATOR: bv8 := 124 // '|'

  // One 64-bit operation each. The multipliers are odd, so each has an inverse modulo 2^64.

  function XorByte(h: bv64, b: bv8): bv64 { h ^ (b as bv64) }

  function TimesPrime(x: bv64): bv64 { x * 1099511628211 }
  function TimesPrimeBack(x: bv64): bv64 { x * 0xce965057aff6957b }

  function TimesMix1(x: bv64): bv64 { x * 0xff51afd7ed558ccd }
  function TimesMix1Back(x: bv64): bv64 { x * 0x4f74430c22a54005 }

  function TimesMix2(x: bv64): bv64 { x * 0xc4ceb9fe1a85ec53 }
  function TimesMix2Back(x: bv64): bv64 { x * 0x9cb4b2f8129337db }

  function XorShift(x: bv64): bv64 { x ^ (x >> 33) }

  function FnvStep(h: bv64, b: bv8): bv64 {
    TimesPrime(XorByte(h, b))
  }

  /** FNV-1a over a byte string, continued from `h`. */
  function Fnv(h: bv64, s: Name): bv64
    decreases s
  {
    if s == [] then h else Fnv(FnvStep(h, s[0]), s[1..])
  }

  function Mix(x: bv64): bv64 {
    XorShift(TimesMix2(XorShift(TimesMix1(XorShift(x)))))
  }

  /** The unsigned number a word stands for: what two words are compared by. */
  function Value(x: bv64): nat { x as int }

  function Joined(hash: Name, peer: Name): Name {
    hash + [SEPARATOR] + peer
  }

  /** The score by its definition: mixed FNV-1a of the joined string `hash|peer`. */
  function Score(hash: Name, peer: Name): nat {
    Value(Mix(Fnv(FNV_OFFSET, Joined(hash, peer))))
  }

  // The operations spelled out, for the places that compute with them.

  lemma XorByteIs(h: bv64, b: bv8)
    ensures XorByte(h, b) == h ^ (b as bv64)
  {}

  lemma TimesPrimeIs(x: bv64)
    ensures TimesPrime(x) == x * 1099511628211
    ensures TimesPrimeBack(x) == x * 0xce965057aff6957b
  {}

  lemma TimesMix1Is(x: bv64)
    ensures TimesMix1(x) == x * 0xff51afd7ed558ccd
    ensures TimesMix1Back(x) == x * 0x4f74430c22a54005
  {}

  lemma TimesMix2Is(x: bv64)
    ensures TimesMix2(x) == x * 0xc4ceb9fe1a85ec53
    ensures TimesMix2Back(x) == x * 0x9cb4b2f8129337db
  {}

  lemma XorShiftIs(x: bv64)
    ensures XorShift(x) == x ^ (x >> 33)
  {}

  lemma FnvFirst(h: bv64, s: Name, i: nat)
    requires i < |s|
    ensures Fnv(h, s[i..]) == Fnv(TimesPrime(XorByte(h, s[i])), s[i + 1..])
  {
    assert s[i..][1..] == s[i + 1..];
  }

  method Fnv1a(h: bv64, s: Name) returns (r: bv64)
    ensures r == Fnv(h, s)
  {
    r := h;
    for i := 0 to |s|
      invariant Fnv(r, s[i..]) == Fnv(h, s)
    {
      FnvFirst(r, s, i);
      XorByteIs(r, s[i]);
      r := r ^ (s[i] as bv64);
      TimesPrimeIs(r);
      r := r * 1099511628211;
    }
  }

  method Mix64(x: bv64) returns (r: bv64)
    ensures r == Mix(x)
  {
    r := x;
    XorShiftIs(r);
    r := r ^ (r >> 33);
    TimesMix1Is(r);
    r := r * 0xff51afd7ed558ccd;
    XorShiftIs(r);
    r := r ^ (r >> 33);
    TimesMix2Is(r);
    r := r * 0xc4ceb9fe1a85ec53;
    XorShiftIs(r);
    r := r ^ (r >> 33);
  }

  /** Streams the three parts instead of joining them, to the same score. */
  method PairHash(hash: Name, peer: Name) returns (r: nat)
    ensures r == Score(hash, peer)
  {
    var h := Fnv1a(FNV_OFFSET, hash);
    XorByteIs(h, SEPARATOR);
    h := h ^ (SEPARATOR as bv64);
    TimesPrimeIs(h);
    h := h * 1099511628211;
    var tail := Fnv1a(h, peer);
    StreamedIsJoined(hash, peer);
    var mixed := Mix64(tail);
    r := Value(mixed);
  }

  lemma StreamedIsJoined(hash: Name, peer: Name)
    ensures Fnv(FNV_OFFSET, Joined(hash, peer)) == Fnv(FnvStep(Fnv(FNV_OFFSET, hash), SEPARATOR), peer)
  {
    FnvConcat(FNV_OFFSET, hash, [SEPARATOR]);
    FnvConcat(FNV_OFFSET, hash + [SEPARATOR], peer);
    FnvOne(Fnv(FNV_OFFSET, hash), SEPARATOR, []);
  }

  lemma FnvOne(h: bv64, b: bv8, s: Name)
    ensures Fnv(h, [b] + s) == Fnv(FnvStep(h, b), s)
  {
    assert ([b] + s)[1..] == s;
  }

  lemma {:induction false} FnvConcat(h: bv64, a: Name, b: Name)
    ensures Fnv(h, a + b) == Fnv(Fnv(h, a), b)
    decreases a
  {
    if a == [] {
      assert a + b == b;
    } else {
      assert (a + b)[1..] == a[1..] + b;
      FnvConcat(FnvStep(h, a[0]), a[1..], b);
    }
  }

  // Bijections on 64-bit words.

  lemma PrimeInverse(x: bv64)
    ensures TimesPrimeBack(TimesPrime(x)) == x
  {
    TimesPrimeIs(x);
    TimesPrimeIs(x * 1099511628211);
  }

  lemma PrimeInverseBack(x: bv64)
    ensures TimesPrime(TimesPrimeBack(x)) == x
  {
    TimesPrimeIs(x);
    TimesPrimeIs(x * 0xce965057aff6957b);
  }

  lemma Mix1Inverse(x: bv64)
    ensures TimesMix1Back(TimesMix1(x)) == x
  {
    TimesMix1Is(x);
    TimesMix1Is(x * 0xff51afd7ed558ccd);
  }

  lemma Mix1InverseBack(x: bv64)
    ensures TimesMix1(TimesMix1Back(x)) == x
  {
    TimesMix1Is(x);
    TimesMix1Is(x * 0x4f74430c22a54005);
  }

  lemma Mix2Inverse(x: bv64)
    ensures TimesMix2Back(TimesMix2(x)) == x
  {
    TimesMix2Is(x);
    TimesMix2Is(x * 0xc4ceb9fe1a85ec53);
  }

  lemma Mix2InverseBack(x: bv64)
    ensures TimesMix2(TimesMix2Back(x)) == x
  {
    TimesMix2Is(x);
    TimesMix2Is(x * 0x9cb4b2f8129337db);
  }

  lemma XorShiftInvolution(x: bv64)
    ensures XorShift(XorShift(x)) == x
  {
    XorShiftIs(x);
    XorShiftIs(x ^ (x >> 33));
  }

  lemma XorByteInvolution(h: bv64, b: bv8)
    ensures XorByte(XorByte(h, b), b) == h
  {
    XorByteIs(h, b);
    XorByteIs(h ^ (b as bv64), b);
  }

  function FnvStepBack(y: bv64, b: bv8): bv64 {
    XorByte(TimesPrimeBack(y), b)
  }

  /** One FNV-1a step is a bijection of the state, for every byte. */
  lemma FnvStepBijective(h: bv64, b: bv8)
    ensures FnvStepBack(FnvStep(h, b), b) == h
    ensures FnvStep(FnvStepBack(h, b), b) == h
  {
    PrimeInverse(XorByte(h, b));
    XorByteInvolution(h, b);
    XorByteInvolution(TimesPrimeBack(h), b);
    PrimeInverseBack(h);
  }

  function Unmix(y: bv64): bv64 {
    XorShift(TimesMix1Back(XorShift(TimesMix2Back(XorShift(y)))))
  }

  /** The finalizer is a bijection: `Unmix` undoes it on both sides. */
  lemma MixBijective(x: bv64)
    ensures Unmix(Mix(x)) == x
    ensures Mix(Unmix(x)) == x
  {
    UnmixMix(x);
    MixUnmix(x);
  }

  lemma UnmixMix(x: bv64)
    ensures Unmix(Mix(x)) == x
  {
    var a := XorShift(x);
    var b := XorShift(TimesMix1(a));
    XorShiftInvolution(TimesMix2(b));
    Mix2Inverse(b);
    XorShiftInvolution(TimesMix1(a));
    Mix1Inverse(a);
    XorShiftInvolution(x);
  }

  lemma MixUnmix(x: bv64)
    ensures Mix(Unmix(x)) == x
  {
    var a := XorShift(x);
    var b := XorShift(TimesMix2Back(a));
    XorShiftInvolution(TimesMix1Back(b));
    Mix1InverseBack(b);
    XorShiftInvolution(TimesMix2Back(a));
    Mix2InverseBack(a);
    XorShiftInvolution(x);
  }

  lemma ValueRoundTrip(x: bv64)
    ensures Value(x) < 0x1_0000_0000_0000_0000 && (Value(x) as bv64) == x
  {
    assert ((x as int) as bv64) == x;
  }

  lemma MixInjective(x: bv64, y: bv64)
    requires x != y
    ensures Value(Mix(x)) != Value(Mix(y))
  {
    UnmixMix(x);
    UnmixMix(y);
    ValueRoundTrip(Mix(x));
    ValueRoundTrip(Mix(y));
  }

  /** Hashing one string from two states keeps them apart. */
  lemma {:induction false} FnvInjectiveInState(g: bv64, h: bv64, s: Name)
    requires g != h
    ensures Fnv(g, s) != Fnv(h, s)
    decreases s
  {
    if s != [] {
      FnvStepBijective(g, s[0]);
      FnvStepBijective(h, s[0]);
      FnvInjectiveInState(FnvStep(g, s[0]), FnvStep(h, s[0]), s[1..]);
    }
  }

  lemma FnvStepInjectiveInByte(h: bv64, a: bv8, b: bv8)
    requires a != b
    ensures FnvStep(h, a) != FnvStep(h, b)
  {
    PrimeInverse(XorByte(h, a));
    PrimeInverse(XorByte(h, b));
    XorByteInjective(h, a, b);
  }

  lemma XorByteInjective(h: bv64, a: bv8, b: bv8)
    requires a != b
    ensures XorByte(h, a) != XorByte(h, b)
  {}

  /** Two names of one length that differ in exactly one byte, at `i`. */
  ghost predicate OneByteApart(p: Name, q: Name, i: nat) {
    i < |p| == |q| && p[i] != q[i] && forall j :: 0 <= j < |p| && j != i ==> p[j] == q[j]
  }

  /** Peers one byte apart never tie, whatever the metric hash. */
  lemma OneByteApartNeverTies(hash: Name, p: Name, q: Name, i: nat)
    requires OneByteApart(p, q, i)
    ensures Score(hash, p) != Score(hash, q)
  {
    var common := hash + [SEPARATOR] + p[..i];
    var rest := p[i + 1..];
    SplitAt(hash, p, i);
    SplitAt(hash, q, i);
    assert q[..i] == p[..i] && q[i + 1..] == rest;
    var h := Fnv(FNV_OFFSET, common);
    FnvConcat(FNV_OFFSET, common, [p[i]] + rest);
    FnvConcat(FNV_OFFSET, common, [q[i]] + rest);
    FnvOne(h, p[i], rest);
    FnvOne(h, q[i], rest);
    FnvStepInjectiveInByte(h, p[i], q[i]);
    FnvInjectiveInState(FnvStep(h, p[i]), FnvStep(h, q[i]), rest);
    MixInjective(Fnv(FNV_OFFSET, Joined(hash, p)), Fnv(FNV_OFFSET, Joined(hash, q)));
  }

  lemma SplitAt(hash: Name, p: Name, i: nat)
    requires i < |p|
    ensures Joined(hash, p) == (hash + [SEPARATOR] + p[..i]) + ([p[i]] + p[i + 1..])
  {
    assert p == p[..i] + ([p[i]] + p[i + 1..]);
  }
}
