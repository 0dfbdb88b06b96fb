/** Bytes, as the file-reading code sees them. */
module Bytes {
  type byte = x: int | 0 <= x < 256
}

/** FNV-1a 64 and the fast fingerprint built on it. */
module Fnv {
  import opened Bytes

  /** `uint64_t`: arithmetic is modulo 2^64. */
  const TWO_TO_64: int := 0x1_0000_0000_0000_0000
  type Word = x: int | 0 <= x < 0x1_0000_0000_0000_0000

  const OFFSET_BASIS: Word := 0xcbf29ce484222325
  const PRIME: int := 0x100000001b3
  /** The inverse of the (odd) prime modulo 2^64. */
  const PRIME_INVERSE: int := 0xce965057aff6957b

  const WINDOW: nat := 4096

  /** Bitwise exclusive or. */
  function Xor(a: nat, b: nat): nat
    decreases a + b
  {
    if a == 0 && b == 0 then 0 else 2 * Xor(a / 2, b / 2) + (a + b) % 2
  }

  /** `hash ^ b` */
  function XorByte(hash: Word, b: byte): Word {
    XorFitsWord(hash, b);
    Xor(hash, b)
  }

  /** One round of the loop. */
  function Mix(hash: Word, b: byte): Word {
    XorByte(hash, b) * PRIME % TWO_TO_64
  }

  /** The round undone. */
  function Unmix(hash: Word, b: byte): Word {
    XorByte(hash * PRIME_INVERSE % TWO_TO_64, b)
  }

  /** The fold the loop computes, from any starting state. */
  function Fold(seed: Word, data: seq<byte>): Word {
    if data == [] then seed else Mix(Fold(seed, data[..|data| - 1]), data[|data| - 1])
  }

  function Hash(data: seq<byte>): Word {
    Fold(OFFSET_BASIS, data)
  }

  lemma {:induction false} XorZero(a: nat)
    ensures Xor(a, 0) == a
  {
    if a == 0 {
    } else {
      XorZero(a / 2);
    }
  }

  lemma XorStep(a: nat, b: nat, a': nat, b': nat, r: nat)
    requires a' == a / 2 && b' == b / 2 && Xor(a', b') == r
    ensures Xor(a, b) == 2 * r + (a + b) % 2
  {
  }

  lemma BasisXorA()
    ensures Xor(0xcbf29ce484222325, 0x61) == 0xcbf29ce484222344
  {
    XorZero(0x197e539c9084446);
    XorStep(0x32fca739210888c, 0x1, 0x197e539c9084446, 0x0, 0x197e539c9084446);
    XorStep(0x65f94e724211119, 0x3, 0x32fca739210888c, 0x1, 0x32fca739210888d);
    XorStep(0xcbf29ce48422232, 0x6, 0x65f94e724211119, 0x3, 0x65f94e72421111a);
    XorStep(0x197e539c90844464, 0xc, 0xcbf29ce48422232, 0x6, 0xcbf29ce48422234);
    XorStep(0x32fca739210888c9, 0x18, 0x197e539c90844464, 0xc, 0x197e539c90844468);
    XorStep(0x65f94e7242111192, 0x30, 0x32fca739210888c9, 0x18, 0x32fca739210888d1);
    XorStep(0xcbf29ce484222325, 0x61, 0x65f94e7242111192, 0x30, 0x65f94e72421111a2);
  }

  lemma FoldOne(seed: Word, data: seq<byte>)
    requires |data| == 1
    ensures Fold(seed, data) == Mix(seed, data[0])
  {
    assert data[..0] == [];
  }

  lemma MixIs(hash: Word, b: byte, x: Word, q: int, r: Word)
    requires Xor(hash, b) == x && x * PRIME == q * TWO_TO_64 + r
    ensures Mix(hash, b) == r
  {
    Residue(x * PRIME, q, r);
  }

  lemma BasisMixA(hash: Word, b: byte)
    requires hash == 0xcbf29ce484222325 && b == 0x61 && Xor(hash, b) == 0xcbf29ce484222344
    ensures Mix(hash, b) == 0xaf63dc4c8601ec8c
  {
    MixIs(hash, b, 0xcbf29ce484222344, 0xcbf29ce5de, 0xaf63dc4c8601ec8c);
  }

  /** The published test vectors: the empty string hashes to the offset basis, and `a` as follows. */
  lemma KnownVectors(data: seq<byte>)
    ensures data == [] ==> Hash(data) == 0xcbf29ce484222325
    ensures |data| == 1 && data[0] == 0x61 ==> Hash(data) == 0xaf63dc4c8601ec8c
  {
    if |data| == 1 && data[0] == 0x61 {
      FoldOne(OFFSET_BASIS, data);
      BasisXorA();
      BasisMixA(OFFSET_BASIS, data[0]);
    }
  }

  method Fnv1a64(data: seq<byte>) returns (hash: Word)
    ensures hash == Hash(data)
  {
    hash := OFFSET_BASIS;
    for i := 0 to |data|
      invariant hash == Fold(OFFSET_BASIS, data[..i])
    {
      assert data[..i + 1][..i] == data[..i];
      hash := XorByte(hash, data[i]);
      hash := hash * PRIME % TWO_TO_64;
    }
    assert data[..|data|] == data;
  }

  /** Multiplying by `p` and then by `q` modulo 2^64 gives `x` back when `p * q` is 1 modulo 2^64. */
  lemma ProductCancels(x: Word)
    ensures (x * PRIME % TWO_TO_64) * PRIME_INVERSE % TWO_TO_64 == x
    ensures (x * PRIME_INVERSE % TWO_TO_64) * PRIME % TWO_TO_64 == x
  {
    var k := PRIME * PRIME_INVERSE / TWO_TO_64;
    assert PRIME * PRIME_INVERSE == k * TWO_TO_64 + 1;
    var q1 := x * PRIME / TWO_TO_64;
    Residue((x * PRIME % TWO_TO_64) * PRIME_INVERSE, x * k - q1 * PRIME_INVERSE, x);
    var q2 := x * PRIME_INVERSE / TWO_TO_64;
    Residue((x * PRIME_INVERSE % TWO_TO_64) * PRIME, x * k - q2 * PRIME, x);
  }

  lemma Residue(n: int, q: int, r: Word)
    requires n == q * TWO_TO_64 + r
    ensures n % TWO_TO_64 == r
  {
  }

  function Two(k: nat): nat { if k == 0 then 1 else 2 * Two(k - 1) }

  lemma {:induction false} TwoAdd(j: nat, k: nat)
    ensures Two(j + k) == Two(j) * Two(k)
  {
    if j != 0 {
      TwoAdd(j - 1, k);
    }
  }

  lemma TwoTo64()
    ensures Two(64) == TWO_TO_64
  {
    assert Two(4) == 16;
    TwoAdd(4, 4);
    TwoAdd(8, 8);
    TwoAdd(16, 16);
    TwoAdd(32, 32);
  }

  lemma {:induction false} XorFits(a: nat, b: nat, k: nat)
    requires a < Two(k) && b < Two(k)
    ensures Xor(a, b) < Two(k)
  {
    if k != 0 {
      XorFits(a / 2, b / 2, k - 1);
    }
  }

  lemma XorFitsWord(hash: Word, b: byte)
    ensures Xor(hash, b) < TWO_TO_64
  {
    TwoTo64();
    XorFits(hash, b, 64);
  }

  lemma ParityCancels(a: nat, b: nat, x: nat)
    requires x % 2 == (a + b) % 2
    ensures (x + b) % 2 == a % 2 && (a + x) % 2 == b % 2
  {
  }

  lemma {:induction false} XorCancels(a: nat, b: nat)
    ensures Xor(Xor(a, b), b) == a
    ensures Xor(a, Xor(a, b)) == b
    decreases a + b
  {
    if a != 0 || b != 0 {
      var x, half := Xor(a, b), Xor(a / 2, b / 2);
      assert x / 2 == half && x % 2 == (a + b) % 2 by { Digits(half, (a + b) % 2); }
      ParityCancels(a, b, x);
      XorHalves(x, b);
      XorHalves(a, x);
      XorCancels(a / 2, b / 2);
    }
  }

  lemma Digits(half: nat, bit: nat)
    requires bit < 2
    ensures (2 * half + bit) / 2 == half && (2 * half + bit) % 2 == bit
  {
  }

  lemma XorHalves(a: nat, b: nat)
    ensures Xor(a, b) == 2 * Xor(a / 2, b / 2) + (a + b) % 2
  {
  }

  /** Each step is a bijection on the 64-bit state: `Unmix` undoes `Mix` and the other way round. */
  lemma MixIsBijective(hash: Word, b: byte)
    ensures Unmix(Mix(hash, b), b) == hash
    ensures Mix(Unmix(hash, b), b) == hash
  {
    ProductCancels(XorByte(hash, b));
    XorCancels(hash, b);
    ProductCancels(hash);
    XorCancels(hash * PRIME_INVERSE % TWO_TO_64, b);
  }

  lemma MixSeparatesBytes(hash: Word, x: byte, y: byte)
    requires Mix(hash, x) == Mix(hash, y)
    ensures x == y
  {
    ProductCancels(XorByte(hash, x));
    ProductCancels(XorByte(hash, y));
    XorCancels(hash, x);
    XorCancels(hash, y);
  }

  lemma {:induction false} FoldConcat(seed: Word, a: seq<byte>, b: seq<byte>)
    ensures Fold(seed, a + b) == Fold(Fold(seed, a), b)
  {
    if b == [] {
      assert a + b == a;
    } else {
      FoldConcat(seed, a, b[..|b| - 1]);
      assert (a + b)[..|a + b| - 1] == a + b[..|b| - 1];
    }
  }

  /** Whatever bytes follow, two different states stay different. */
  lemma {:induction false} FoldIsInjective(s1: Word, s2: Word, data: seq<byte>)
    requires Fold(s1, data) == Fold(s2, data)
    ensures s1 == s2
  {
    if data == [] {
    } else {
      var init, last := data[..|data| - 1], data[|data| - 1];
      MixIsBijective(Fold(s1, init), last);
      MixIsBijective(Fold(s2, init), last);
      FoldIsInjective(s1, s2, init);
    }
  }

  /** Inputs of equal length that differ in exactly the byte at `k` never collide. */
  lemma NoCollisionOnOneByte(a: seq<byte>, b: seq<byte>, k: nat)
    requires |a| == |b| && k < |a| && a[k] != b[k]
    requires forall i :: 0 <= i < |a| && i != k ==> a[i] == b[i]
    ensures Hash(a) != Hash(b)
  {
    var prefix, suffix := a[..k], a[k + 1..];
    assert a == prefix + [a[k]] + suffix;
    assert b == prefix + [b[k]] + suffix;
    FoldConcat(OFFSET_BASIS, prefix + [a[k]], suffix);
    FoldConcat(OFFSET_BASIS, prefix + [b[k]], suffix);
    assert (prefix + [a[k]])[..k] == prefix && (prefix + [b[k]])[..k] == prefix;
    if Hash(a) == Hash(b) {
      FoldIsInjective(Fold(OFFSET_BASIS, prefix + [a[k]]), Fold(OFFSET_BASIS, prefix + [b[k]]), suffix);
      MixSeparatesBytes(Fold(OFFSET_BASIS, prefix), a[k], b[k]);
    }
  }

  // ---------------------------------------------------------------- the fast fingerprint

  datatype Fingerprint = Fingerprint(size: nat, mtime: int, fnv: Word)

  /** A path's state on disk as `stat` and `open` see it. */
  datatype Version = Gone | File(content: seq<byte>, mtime: int, readable: bool)

  function Window(content: seq<byte>): seq<byte> {
    if |content| <= WINDOW then content else content[..WINDOW]
  }

  /** A missing file gives all zeroes; an unreadable or empty one keeps a zero hash. */
  function FingerprintOf(v: Version): Fingerprint {
    match v
    case Gone => Fingerprint(0, 0, 0)
    case File(content, mtime, readable) =>
      Fingerprint(|content|, mtime, if readable && content != [] then Hash(Window(content)) else 0)
  }

  function SizeOf(v: Version): nat { if v.File? then |v.content| else 0 }

  function MtimeOf(v: Version): int { if v.File? then v.mtime else 0 }

  /** The bytes that count: none of a file that is missing or cannot be read, the first 4096 of any other. */
  function Visible(v: Version): seq<byte> {
    if v.Gone? || !v.readable then [] else if |v.content| <= 4096 then v.content else v.content[..4096]
  }

  /** Size, modification time and the hash of the visible bytes agree. */
  predicate SameStamp(v1: Version, v2: Version) {
    && SizeOf(v1) == SizeOf(v2) && MtimeOf(v1) == MtimeOf(v2)
    && (if Visible(v1) == [] then 0 else Hash(Visible(v1))) == (if Visible(v2) == [] then 0 else Hash(Visible(v2)))
  }

  /** Two versions share a fingerprint exactly when they share size, modification time and visible hash. */
  lemma FingerprintIsStamp(v1: Version, v2: Version)
    ensures FingerprintOf(v1) == FingerprintOf(v2) <==> SameStamp(v1, v2)
  {
    assert v1.File? ==> Window(v1.content) == if |v1.content| <= 4096 then v1.content else v1.content[..4096];
    assert v2.File? ==> Window(v2.content) == if |v2.content| <= 4096 then v2.content else v2.content[..4096];
  }

  method ComputeFastFingerprint(v: Version) returns (fp: Fingerprint)
    ensures fp == FingerprintOf(v)
    ensures v.Gone? ==> fp == Fingerprint(0, 0, 0)
    ensures v.File? ==> fp.size == |v.content| && fp.mtime == v.mtime
    ensures fp.fnv == if Visible(v) == [] then 0 else Hash(Visible(v))
  {
    fp := Fingerprint(0, 0, 0);
    if v.Gone? {
      return;
    }
    fp := fp.(size := |v.content|, mtime := v.mtime);
    if !v.readable {
      return;
    }
    var buf := Window(v.content);
    if |buf| > 0 {
      var h := Fnv1a64(buf);
      fp := fp.(fnv := h);
    }
  }

  /**
   A rewrite of one byte that keeps size and mtime changes the fingerprint
   exactly when it falls inside the first 4096 bytes.
   */
  lemma OneByteRewriteIsSeen(a: seq<byte>, b: seq<byte>, mtime: int, k: nat)
    requires |a| == |b| && k < |a| && a[k] != b[k]
    requires forall i :: 0 <= i < |a| && i != k ==> a[i] == b[i]
    ensures FingerprintOf(File(a, mtime, true)) != FingerprintOf(File(b, mtime, true)) <==> k < WINDOW
  {
    if k < WINDOW {
      NoCollisionOnOneByte(Window(a), Window(b), k);
    } else {
      assert Window(a) == Window(b);
    }
  }
}
