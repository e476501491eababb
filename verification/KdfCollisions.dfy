/** Exactly when two different calls of `concatKDFWithSHA256` must return the same key: the shared
    secret has no length prefix, so it depends on the lengths of the two secrets. */
module KdfCollisions {
  import opened Bytes
  import opened ConcatKdf
  import opened KdfFraming

  /** Parameters of a call that reaches the hash: nothing is empty, every length converts and the key
      length is a multiple of 32 bytes. */
  predicate Callable(p: Parameters, keyLen: nat) {
    && p.secret != [] && p.algorithmId != [] && p.partyUInfo != [] && p.partyVInfo != []
    && p.Valid() && KeyLengthSupported(keyLen) && p.keyBits == keyLen * 8
  }

  predicate KeyLengthSupported(keyLen: nat) {
    0 < keyLen < 0x2000_0000 && keyLen % DIGEST_BYTES == 0
  }

  /** The outcome of the call with these parameters. */
  function Key(h: Hash, p: Parameters, keyLen: nat): Outcome {
    Derive(h, p.secret, keyLen, p.algorithmId, p.partyUInfo, p.partyVInfo)
  }

  /** Whatever the hash function is, the two calls return the same key. */
  ghost predicate SameKeyForEveryHash(p: Parameters, q: Parameters, keyLen: nat) {
    forall h: Hash :: Key(h, p, keyLen).Returned? && Key(h, p, keyLen) == Key(h, q, keyLen)
  }

  // ---------- equal keys for every hash, and equal data

  lemma {:induction false} EqualDataEqualBlocks(h: Hash, z: seq<Byte>, info: seq<Byte>, z': seq<Byte>, info': seq<Byte>, n: nat)
    requires z + info == z' + info'
    ensures Blocks(h, z, info, n) == Blocks(h, z', info', n)
  {
    if n > 0 {
      EqualDataEqualBlocks(h, z, info, z', info', n - 1);
      Associative(BigEndian(n, 4), z, info);
      Associative(BigEndian(n, 4), z', info');
    }
  }

  /** The hash that tells one input from all others. */
  function Singling(input: seq<Byte>): Hash {
    x => if x == input then seq(DIGEST_BYTES, _ => 1) else seq(DIGEST_BYTES, _ => 0)
  }

  /** Two calls return the same key for every hash function exactly when they hash the same data. */
  lemma SameKeyIffSameData(p: Parameters, q: Parameters, keyLen: nat)
    requires Callable(p, keyLen) && Callable(q, keyLen)
    ensures SameKeyForEveryHash(p, q, keyLen) <==> p.Data() == q.Data()
  {
    var info := OtherInfo(p.algorithmId, p.partyUInfo, p.partyVInfo, p.keyBits);
    var info' := OtherInfo(q.algorithmId, q.partyUInfo, q.partyVInfo, q.keyBits);
    if p.Data() == q.Data() {
      forall h: Hash
        ensures Key(h, p, keyLen).Returned? && Key(h, p, keyLen) == Key(h, q, keyLen)
      {
        WholeBlocks(h, p.secret, info, keyLen);
        WholeBlocks(h, q.secret, info', keyLen);
        EqualDataEqualBlocks(h, p.secret, info, q.secret, info', keyLen / DIGEST_BYTES);
      }
    } else {
      var h := Singling(p.Input(1));
      InputHoldsData(p);
      InputHoldsData(q);
      ReturnedKey(h, p.secret, keyLen, p.algorithmId, p.partyUInfo, p.partyVInfo, 0);
      ReturnedKey(h, q.secret, keyLen, q.algorithmId, q.partyUInfo, q.partyVInfo, 0);
      assert h(p.Input(1))[0] == 1 && h(q.Input(1))[0] == 0;
      assert Key(h, p, keyLen) != Key(h, q, keyLen);
    }
  }

  lemma InputHoldsData(p: Parameters)
    ensures p.Input(1)[4..] == p.Data()
  {
    Associative(BigEndian(1, 4), p.secret, OtherInfo(p.algorithmId, p.partyUInfo, p.partyVInfo, p.keyBits));
  }

  // ---------- fields that can be read from two places

  function Zeros(n: nat): (s: seq<Byte>)
    ensures |s| == n
  {
    seq(n, _ => 0)
  }

  function Fields(a: seq<Byte>, u: seq<Byte>, v: seq<Byte>): seq<Byte> {
    Field(a) + Field(u) + Field(v)
  }

  /** Three fields that are not empty and have 32-bit lengths. */
  predicate Usable(a: seq<Byte>, u: seq<Byte>, v: seq<Byte>) {
    a != [] && u != [] && v != [] && FitsUInt32(|a|) && FitsUInt32(|u|) && FitsUInt32(|v|)
  }

  /** The bytes of three fields that, from some place on, are again the bytes of three fields. */
  datatype Overlap = Overlap(a: seq<Byte>, u: seq<Byte>, v: seq<Byte>,
                             skipped: seq<Byte>, a': seq<Byte>, u': seq<Byte>, v': seq<Byte>)
  {
    predicate Valid() {
      Usable(a, u, v) && Usable(a', u', v') && Fields(a, u, v) == skipped + Fields(a', u', v')
    }
  }

  /** The largest distance: three fields of the largest size against three of one byte. */
  const MAX_GAP: int := 3 * (UINT32_VALUES - 2)

  /** The second reading starts inside the first field. */
  function InsideFirstField(d: nat): (o: Overlap)
    requires d >= 4
    ensures |o.skipped| == d
  {
    Overlap(Zeros(d - 4) + Field([0]), [0], [0], BigEndian(d + 1, 4) + Zeros(d - 4), [0], [0], [0])
  }

  lemma InsideFirstFieldIsValid(d: nat)
    requires 4 <= d < UINT32_VALUES - 1
    ensures InsideFirstField(d).Valid()
  {
    var f, gap, prefix := Field([0]), Zeros(d - 4), BigEndian(d + 1, 4);
    assert prefix + (gap + f) + f + f == prefix + gap + (f + f + f);
  }

  /** The second reading starts inside the last field. */
  function InsideLastField(d: nat, a: seq<Byte>, u: seq<Byte>, k: nat): Overlap {
    var f := Field([0]);
    Overlap(a, u, Zeros(k) + (f + f + f),
            Field(a) + Field(u) + BigEndian(k + 15, 4) + Zeros(k), [0], [0], [0])
  }

  lemma InsideLastFieldIsValid(d: nat) returns (o: Overlap)
    requires 14 <= d <= MAX_GAP
    ensures o.Valid() && |o.skipped| == d
  {
    var vLen := if d + 1 < UINT32_VALUES then d + 1 else UINT32_VALUES - 1;
    var rest := d + 3 - vLen;
    var aLen := if rest - 1 < UINT32_VALUES then rest - 1 else UINT32_VALUES - 1;
    var a, u, k := Zeros(aLen), Zeros(rest - aLen), vLen - 15;
    o := InsideLastField(d, a, u, k);
    var f, fa, fu, prefix := Field([0]), Field(a), Field(u), BigEndian(k + 15, 4);
    assert fa + fu + (prefix + (Zeros(k) + (f + f + f))) == fa + fu + prefix + Zeros(k) + (f + f + f);
  }

  /** `d` zero bytes after the last bytes of the length `d` read as a length again. */
  lemma ShiftedLength(d: nat) returns (n: nat)
    requires 1 <= d <= 3
    ensures 4 < n <= 0x300_0000 && BigEndian(d, 4) == Zeros(3) + [d]
    ensures BigEndian(d, 4)[d..] + Zeros(d) == BigEndian(n, 4)
  {
    n := if d == 1 then 0x100 else if d == 2 then 0x2_0000 else 0x300_0000;
    FourBytes(d);
    FourBytes(n);
  }

  /** The second reading starts inside the length of the first field. */
  lemma InsideFirstLengthIsValid(d: nat) returns (o: Overlap)
    requires 1 <= d <= 3
    ensures o.Valid() && |o.skipped| == d
  {
    var n := ShiftedLength(d);
    var f, gap := Field([0]), Zeros(n - 4);
    var u := gap + f;
    var prefix, uPrefix := BigEndian(d, 4), BigEndian(n + 1, 4);
    o := Overlap(Zeros(d), u, [0], prefix[..d], uPrefix + gap, [0], [0]);
    TakeThenDrop(prefix, d);
    RegroupShifted(prefix[..d], prefix[d..], Zeros(d), BigEndian(n, 4), uPrefix, gap, f);
  }

  lemma RegroupShifted(head: seq<Byte>, tail: seq<Byte>, zeros: seq<Byte>, length: seq<Byte>,
                       prefix: seq<Byte>, gap: seq<Byte>, f: seq<Byte>)
    requires tail + zeros == length
    ensures head + tail + zeros + (prefix + (gap + f)) + f == head + (length + (prefix + gap) + f + f)
  {
    Associative(head, tail, zeros);
    assert head + length + (prefix + (gap + f)) == head + (length + (prefix + gap) + f);
  }

  lemma OverlapAt(d: nat) returns (o: Overlap)
    requires 1 <= d <= MAX_GAP
    ensures o.Valid() && |o.skipped| == d
  {
    if d < 4 {
      o := InsideFirstLengthIsValid(d);
    } else if d < 14 {
      o := InsideFirstField(d);
      InsideFirstFieldIsValid(d);
    } else {
      o := InsideLastFieldIsValid(d);
    }
  }

  // ---------- the exact condition

  /** Two different calls for the same key length, with secrets of lengths `m` and `n`, that return the
      same key for every hash function. */
  ghost predicate MustCollide(p: Parameters, m: nat, q: Parameters, n: nat, keyLen: nat) {
    && Callable(p, keyLen) && Callable(q, keyLen)
    && |p.secret| == m && |q.secret| == n
    && p != q && SameKeyForEveryHash(p, q, keyLen)
  }

  lemma LongerSecretCollides(m: nat, d: nat, keyLen: nat) returns (p: Parameters, q: Parameters)
    requires m > 0 && 1 <= d <= MAX_GAP && KeyLengthSupported(keyLen)
    ensures MustCollide(p, m, q, m + d, keyLen) && MustCollide(q, m + d, p, m, keyLen)
  {
    var o := OverlapAt(d);
    p := Parameters(Zeros(m), o.a, o.u, o.v, keyLen * 8);
    q := Parameters(Zeros(m) + o.skipped, o.a', o.u', o.v', keyLen * 8);
    var bits := BigEndian(keyLen * 8, 4);
    Associative(o.skipped, Fields(o.a', o.u', o.v'), bits);
    Associative(Zeros(m), o.skipped, Fields(o.a', o.u', o.v') + bits);
    assert p.Data() == q.Data();
    SameKeyIffSameData(p, q, keyLen);
    SameKeyIffSameData(q, p, keyLen);
  }

  /** Equal data bounds how far apart the lengths of the secrets can be. */
  lemma EqualDataBoundsGap(p: Parameters, q: Parameters, keyLen: nat)
    requires Callable(p, keyLen) && Callable(q, keyLen) && p.Data() == q.Data()
    ensures |q.secret| - |p.secret| <= MAX_GAP
  {
    assert |p.Data()| == |p.secret| + 16 + |p.algorithmId| + |p.partyUInfo| + |p.partyVInfo|;
    assert |q.Data()| == |q.secret| + 16 + |q.algorithmId| + |q.partyUInfo| + |q.partyVInfo|;
  }

  /** For given lengths of the secrets, some two different calls return the same key for every hash
      function exactly when the lengths differ, by at most `MAX_GAP`. For equal lengths the parameters
      can always be told apart. */
  lemma SecretLengthsDecide(m: nat, n: nat, keyLen: nat)
    requires m > 0 && n > 0 && KeyLengthSupported(keyLen)
    ensures (exists p, q :: MustCollide(p, m, q, n, keyLen))
       <==> m != n && m - n <= MAX_GAP && n - m <= MAX_GAP
  {
    if m < n && n - m <= MAX_GAP {
      var p, q := LongerSecretCollides(m, n - m, keyLen);
    } else if n < m && m - n <= MAX_GAP {
      var p, q := LongerSecretCollides(n, m - n, keyLen);
      assert MustCollide(q, m, p, n, keyLen);
    } else if p, q :| MustCollide(p, m, q, n, keyLen) {
      SameKeyIffSameData(p, q, keyLen);
      EqualDataBoundsGap(p, q, keyLen);
      EqualDataBoundsGap(q, p, keyLen);
      if m == n {
        DataIsUniquelyDecodable(p, q);
      }
    }
  }
}
