/** `MSIDConcatKdfProvider.swift`: the Concat KDF of section 4.6.2 of RFC 7518 and section 5.8.1 of
    NIST SP 800-56A Rev. 2, with SHA-256 as an arbitrary function to 32 bytes. */
module ConcatKdf {
  import opened Wrappers
  import opened Bytes

  const DIGEST_BYTES: nat := 32

  type Digest = s: seq<Byte> | |s| == DIGEST_BYTES witness seq(DIGEST_BYTES, _ => 0)

  type Hash = seq<Byte> -> Digest

  datatype KdfError =
    | EmptyOutputKeyLen
    | EmptyInputParameter(parameterName: string)
    | UnsupportedKeySize

  /** A call throws, stops the process, or returns the derived key. */
  datatype Outcome = Thrown(error: KdfError) | Trapped | Returned(key: seq<Byte>)

  // ---------- Swift integers

  const INT_MIN: int := -0x8000_0000_0000_0000
  const INT_MAX: int := 0x7FFF_FFFF_FFFF_FFFF
  const UINT32_VALUES: int := 0x1_0000_0000

  type Int64 = x: int | INT_MIN <= x <= INT_MAX

  /** `%`, which takes the sign of the dividend. */
  function Remainder(a: int, b: int): int
    requires b > 0
  {
    if a >= 0 then a % b else -((-a) % b)
  }

  /** `/`, which rounds towards zero. */
  function Quotient(a: int, b: int): int
    requires b > 0
  {
    if a >= 0 then a / b else -((-a) / b)
  }

  /** `UInt32(v)`; `None` is a trap. */
  function UInt32(v: int): Option<nat> {
    if 0 <= v < UINT32_VALUES then Some(v) else None
  }

  /** `a * b` on `Int`; `None` is a trap. */
  function Times(a: int, b: int): Option<int> {
    if INT_MIN <= a * b <= INT_MAX then Some(a * b) else None
  }

  // ---------- what is hashed

  predicate FitsUInt32(n: int) {
    0 <= n < UINT32_VALUES
  }

  /** A length-prefixed field. */
  function Field(x: seq<Byte>): seq<Byte> {
    BigEndian(|x|, 4) + x
  }

  /** OtherInfo: AlgorithmID, PartyUInfo, PartyVInfo and SuppPubInfo, the key length in bits. */
  function OtherInfo(algorithmId: seq<Byte>, partyUInfo: seq<Byte>, partyVInfo: seq<Byte>, keyBits: nat): seq<Byte> {
    Field(algorithmId) + Field(partyUInfo) + Field(partyVInfo) + BigEndian(keyBits, 4)
  }

  /** The input of the hash for one counter value. */
  function HashInput(counter: nat, secret: seq<Byte>, otherInfo: seq<Byte>): seq<Byte> {
    BigEndian(counter, 4) + secret + otherInfo
  }

  /** K(1) || .. || K(n), the hashes for the counter values 1 to `n`. */
  function Blocks(h: Hash, secret: seq<Byte>, otherInfo: seq<Byte>, n: nat): (key: seq<Byte>)
    ensures |key| == n * DIGEST_BYTES
  {
    if n == 0 then [] else Blocks(h, secret, otherInfo, n - 1) + h(HashInput(n, secret, otherInfo))
  }

  /** The single-step KDF of section 5.8.1.1: the leftmost `keyBytes` bytes of
      ceil(keyBytes / 32) hashes. */
  function SingleStepKdf(h: Hash, secret: seq<Byte>, otherInfo: seq<Byte>, keyBytes: nat): (key: seq<Byte>)
    ensures |key| == keyBytes
  {
    var reps := (keyBytes + DIGEST_BYTES - 1) / DIGEST_BYTES;
    Blocks(h, secret, otherInfo, reps)[..keyBytes]
  }

  /** What a call comes to, by arithmetic on its arguments. */
  function Derive(h: Hash, sharedSecret: seq<Byte>, outputKeyLen: int,
                  algorithmId: seq<Byte>, partyUInfo: seq<Byte>, partyVInfo: seq<Byte>): Outcome
  {
    if outputKeyLen == 0 then Thrown(EmptyOutputKeyLen)
    else if sharedSecret == [] then Thrown(EmptyInputParameter("sharedSecret"))
    else if algorithmId == [] then Thrown(EmptyInputParameter("algorithmId"))
    else if partyUInfo == [] then Thrown(EmptyInputParameter("partyUInfo"))
    else if partyVInfo == [] then Thrown(EmptyInputParameter("partyVInfo"))
    else if outputKeyLen % DIGEST_BYTES != 0 then Thrown(UnsupportedKeySize)
    else if Representable(outputKeyLen, algorithmId, partyUInfo, partyVInfo) then
      Returned(SingleStepKdf(h, sharedSecret,
                             OtherInfo(algorithmId, partyUInfo, partyVInfo, outputKeyLen * 8), outputKeyLen))
    else Trapped
  }

  /** All four 32-bit length values exist: the key is shorter than 2^29 bytes, each field shorter than 2^32. */
  predicate Representable(outputKeyLen: int, algorithmId: seq<Byte>, partyUInfo: seq<Byte>, partyVInfo: seq<Byte>) {
    && 0 < outputKeyLen < 0x2000_0000
    && FitsUInt32(|algorithmId|) && FitsUInt32(|partyUInfo|) && FitsUInt32(|partyVInfo|)
  }

  /** A key is returned exactly when nothing is empty, the key length is a positive multiple of 32 below 2^29
      and the length of every field is a 32-bit value. */
  lemma ReturnedIff(h: Hash, sharedSecret: seq<Byte>, outputKeyLen: int,
                    algorithmId: seq<Byte>, partyUInfo: seq<Byte>, partyVInfo: seq<Byte>)
    ensures Derive(h, sharedSecret, outputKeyLen, algorithmId, partyUInfo, partyVInfo).Returned?
       <==> && sharedSecret != [] && algorithmId != [] && partyUInfo != [] && partyVInfo != []
            && outputKeyLen % 32 == 0 && 0 < outputKeyLen < 0x2000_0000
            && |algorithmId| < 0x1_0000_0000 && |partyUInfo| < 0x1_0000_0000 && |partyVInfo| < 0x1_0000_0000
  {
  }

  /** Which error is thrown: a zero length comes first, then the first empty input in the order of the
      parameters, then a length that is not a multiple of 32. All else stops the process. */
  lemma ThrownIff(h: Hash, sharedSecret: seq<Byte>, outputKeyLen: int,
                  algorithmId: seq<Byte>, partyUInfo: seq<Byte>, partyVInfo: seq<Byte>)
    ensures var inputs := [sharedSecret, algorithmId, partyUInfo, partyVInfo];
            var names := ["sharedSecret", "algorithmId", "partyUInfo", "partyVInfo"];
            var outcome := Derive(h, sharedSecret, outputKeyLen, algorithmId, partyUInfo, partyVInfo);
            && (outcome == Thrown(EmptyOutputKeyLen) <==> outputKeyLen == 0)
            && (forall k | 0 <= k < 4 :: outcome == Thrown(EmptyInputParameter(names[k]))
                  <==> outputKeyLen != 0 && inputs[k] == [] && forall j | 0 <= j < k :: inputs[j] != [])
            && (outcome == Thrown(UnsupportedKeySize) <==> outputKeyLen % 32 != 0 && forall j | 0 <= j < 4 :: inputs[j] != [])
            && (outcome.Trapped? <==>
                  && outputKeyLen != 0 && outputKeyLen % 32 == 0 && (forall j | 0 <= j < 4 :: inputs[j] != [])
                  && (outputKeyLen < 0 || outputKeyLen >= 0x2000_0000 || exists j | 1 <= j < 4 :: |inputs[j]| >= 0x1_0000_0000))
  {
    var inputs := [sharedSecret, algorithmId, partyUInfo, partyVInfo];
    assert inputs[0] == sharedSecret && inputs[1] == algorithmId && inputs[2] == partyUInfo && inputs[3] == partyVInfo;
    assert "sharedSecret"[0] == 's' && "algorithmId"[0] == 'a' && "partyUInfo"[5] == 'U' && "partyVInfo"[5] == 'V';
  }

  /** `checkParameterIsPresent` */
  function CheckParameterIsPresent(param: seq<Byte>, paramName: string): (thrown: Option<KdfError>)
    ensures thrown.None? <==> param != []
  {
    if |param| == 0 then Some(EmptyInputParameter(paramName)) else None
  }

  /** Where the key length in bits is a 32-bit value, the range `1 ..< reps` is well formed and every
      counter, the last one included, is a 32-bit value. */
  lemma CountersCannotTrap(outputKeyLen: int)
    requires outputKeyLen != 0 && Remainder(outputKeyLen, DIGEST_BYTES) == 0
    requires FitsUInt32(outputKeyLen * 8)
    ensures 1 <= Quotient(outputKeyLen, DIGEST_BYTES) < 0x100_0000
    ensures forall i | 1 <= i <= Quotient(outputKeyLen, DIGEST_BYTES) :: UInt32(i) == Some(i)
  {
  }

  /** `concatKDFWithSHA256`, on either kind of host. */
  method ConcatKDFWithSHA256(h: Hash, host: Host, sharedSecret: seq<Byte>, outputKeyLen: Int64,
                             algorithmId: seq<Byte>, partyUInfo: seq<Byte>, partyVInfo: seq<Byte>)
    returns (outcome: Outcome)
    ensures outcome == Derive(h, sharedSecret, outputKeyLen, algorithmId, partyUInfo, partyVInfo)
  {
    if outputKeyLen == 0 {
      return Thrown(EmptyOutputKeyLen);
    }
    var missing := CheckParameterIsPresent(sharedSecret, "sharedSecret");
    if missing.Some? { return Thrown(missing.value); }
    missing := CheckParameterIsPresent(algorithmId, "algorithmId");
    if missing.Some? { return Thrown(missing.value); }
    missing := CheckParameterIsPresent(partyUInfo, "partyUInfo");
    if missing.Some? { return Thrown(missing.value); }
    missing := CheckParameterIsPresent(partyVInfo, "partyVInfo");
    if missing.Some? { return Thrown(missing.value); }

    var modLen := Remainder(outputKeyLen, DIGEST_BYTES);
    if modLen != 0 {
      return Thrown(UnsupportedKeySize);
    }
    var reps := Quotient(outputKeyLen, DIGEST_BYTES) + (if modLen > 0 then 1 else 0);

    var algorithmLen, partyULen, partyVLen := UInt32(|algorithmId|), UInt32(|partyUInfo|), UInt32(|partyVInfo|);
    if algorithmLen.None? || partyULen.None? || partyVLen.None? {
      return Trapped;
    }
    var bits := Times(outputKeyLen, 8);
    if bits.None? || UInt32(bits.value).None? {
      return Trapped;
    }
    var concatedData := ConcatedData(host, sharedSecret, algorithmId, partyUInfo, partyVInfo, bits.value);
    ConcatedDataIsSecretAndInfo(host, sharedSecret, algorithmId, partyUInfo, partyVInfo, bits.value);
    CountersCannotTrap(outputKeyLen);
    var key := Rounds(h, host, reps, concatedData, sharedSecret,
                      OtherInfo(algorithmId, partyUInfo, partyVInfo, bits.value));
    WholeBlocks(h, sharedSecret, OtherInfo(algorithmId, partyUInfo, partyVInfo, bits.value), outputKeyLen);
    return Returned(key);
  }

  /** A key of a multiple of 32 bytes is made of whole hashes. */
  lemma WholeBlocks(h: Hash, secret: seq<Byte>, otherInfo: seq<Byte>, keyBytes: nat)
    requires keyBytes % DIGEST_BYTES == 0
    ensures SingleStepKdf(h, secret, otherInfo, keyBytes) == Blocks(h, secret, otherInfo, keyBytes / DIGEST_BYTES)
  {
  }

  /** The counter loop with its last round after it. The counters are 32-bit values, so none traps. */
  method Rounds(h: Hash, host: Host, reps: nat, concatedData: seq<Byte>,
                ghost secret: seq<Byte>, ghost otherInfo: seq<Byte>)
    returns (derivedKeyingMaterial: seq<Byte>)
    requires 1 <= reps < UINT32_VALUES
    requires concatedData == secret + otherInfo
    ensures derivedKeyingMaterial == Blocks(h, secret, otherInfo, reps)
  {
    derivedKeyingMaterial := [];
    for i := 1 to reps
      invariant derivedKeyingMaterial == Blocks(h, secret, otherInfo, i - 1)
    {
      RoundInput(host, i, secret, otherInfo);
      derivedKeyingMaterial := derivedKeyingMaterial + h(NetworkData(host, UInt32(i).value) + concatedData);
    }
    RoundInput(host, reps, secret, otherInfo);
    derivedKeyingMaterial := derivedKeyingMaterial + h(NetworkData(host, UInt32(reps).value) + concatedData);
  }

  /** `intToData(value: UInt32(v).bigEndian)` */
  function NetworkData(host: Host, v: nat): seq<Byte> {
    IntToData(host, BigEndianValue(host, v, 4), 4)
  }

  /** The `concatedData` expression, for lengths that are 32-bit values. */
  function ConcatedData(host: Host, sharedSecret: seq<Byte>, algorithmId: seq<Byte>,
                        partyUInfo: seq<Byte>, partyVInfo: seq<Byte>, bits: nat): seq<Byte>
  {
    sharedSecret
    + NetworkData(host, |algorithmId|) + algorithmId
    + NetworkData(host, |partyUInfo|) + partyUInfo
    + NetworkData(host, |partyVInfo|) + partyVInfo
    + NetworkData(host, bits)
  }

  /** It is the secret followed by OtherInfo, on either kind of host. */
  lemma ConcatedDataIsSecretAndInfo(host: Host, z: seq<Byte>, a: seq<Byte>, u: seq<Byte>, v: seq<Byte>, bits: nat)
    ensures ConcatedData(host, z, a, u, v, bits) == z + OtherInfo(a, u, v, bits)
  {
    IntToDataIsNetworkOrder(host, |a|, 4);
    IntToDataIsNetworkOrder(host, |u|, 4);
    IntToDataIsNetworkOrder(host, |v|, 4);
    IntToDataIsNetworkOrder(host, bits, 4);
    var info := Field(a);
    AppendField(z, [], BigEndian(|a|, 4), a);
    assert [] + info == info && z + [] == z;
    AppendField(z, info, BigEndian(|u|, 4), u);
    AppendField(z, info + Field(u), BigEndian(|v|, 4), v);
    Associative(z, info + Field(u) + Field(v), BigEndian(bits, 4));
  }

  lemma Associative(x: seq<Byte>, y: seq<Byte>, z: seq<Byte>)
    ensures x + y + z == x + (y + z)
  {
  }

  lemma AppendField(z: seq<Byte>, info: seq<Byte>, prefix: seq<Byte>, x: seq<Byte>)
    ensures (z + info) + prefix + x == z + (info + (prefix + x))
  {
  }

  lemma RoundInput(host: Host, i: nat, secret: seq<Byte>, otherInfo: seq<Byte>)
    ensures NetworkData(host, i) + (secret + otherInfo) == HashInput(i, secret, otherInfo)
  {
    IntToDataIsNetworkOrder(host, i, 4);
    Associative(BigEndian(i, 4), secret, otherInfo);
  }

  // ---------- the derived key, block by block

  /** Block `k` of the hashes is the hash for counter `k + 1`. */
  lemma {:induction false} BlockAt(h: Hash, secret: seq<Byte>, otherInfo: seq<Byte>, n: nat, k: nat)
    requires k < n
    ensures k * DIGEST_BYTES + DIGEST_BYTES <= n * DIGEST_BYTES
    ensures Blocks(h, secret, otherInfo, n)[k * DIGEST_BYTES..k * DIGEST_BYTES + DIGEST_BYTES]
         == h(HashInput(k + 1, secret, otherInfo))
  {
    if k < n - 1 {
      BlockAt(h, secret, otherInfo, n - 1, k);
      var before := Blocks(h, secret, otherInfo, n - 1);
      assert Blocks(h, secret, otherInfo, n)[..|before|] == before;
    }
  }

  /** A returned key has the requested length and consists of the hashes for the counters 1, 2, ..,
      one per 32 bytes. */
  lemma ReturnedKey(h: Hash, sharedSecret: seq<Byte>, outputKeyLen: int,
                    algorithmId: seq<Byte>, partyUInfo: seq<Byte>, partyVInfo: seq<Byte>, k: nat)
    requires Derive(h, sharedSecret, outputKeyLen, algorithmId, partyUInfo, partyVInfo).Returned?
    requires k * DIGEST_BYTES < outputKeyLen
    ensures var key := Derive(h, sharedSecret, outputKeyLen, algorithmId, partyUInfo, partyVInfo).key;
            && |key| == outputKeyLen
            && k * DIGEST_BYTES + DIGEST_BYTES <= outputKeyLen
            && key[k * DIGEST_BYTES..k * DIGEST_BYTES + DIGEST_BYTES]
               == h(HashInput(k + 1, sharedSecret, OtherInfo(algorithmId, partyUInfo, partyVInfo, outputKeyLen * 8)))
  {
    var otherInfo := OtherInfo(algorithmId, partyUInfo, partyVInfo, outputKeyLen * 8);
    var reps := outputKeyLen / DIGEST_BYTES;
    BlockAt(h, sharedSecret, otherInfo, reps, k);
    WholeBlocks(h, sharedSecret, otherInfo, outputKeyLen);
  }

  // ---------- the hash inputs, byte by byte

  /** A 32-bit value, most significant byte first. */
  function FourBytesOf(v: nat): seq<Byte>
    requires v < 0x1_0000_0000
  {
    [v / 0x100_0000, v / 0x1_0000 % 256, v / 0x100 % 256, v % 256]
  }

  /** The bytes each block is the hash of: counter, secret, the three fields behind their lengths, and the key
      length in bits. */
  lemma KeyInBytes(h: Hash, z: seq<Byte>, outputKeyLen: int, a: seq<Byte>, u: seq<Byte>, v: seq<Byte>, k: nat)
    requires Derive(h, z, outputKeyLen, a, u, v).Returned?
    requires k * DIGEST_BYTES < outputKeyLen
    ensures k * 32 + 32 <= |Derive(h, z, outputKeyLen, a, u, v).key|
    ensures Derive(h, z, outputKeyLen, a, u, v).key[k * 32..k * 32 + 32]
         == h(FourBytesOf(k + 1) + (z + (FourBytesOf(|a|) + a + (FourBytesOf(|u|) + u) + (FourBytesOf(|v|) + v)
              + FourBytesOf(outputKeyLen * 8))))
  {
    ReturnedKey(h, z, outputKeyLen, a, u, v, k);
    FourBytes(k + 1);
    FourBytes(|a|);
    FourBytes(|u|);
    FourBytes(|v|);
    FourBytes(outputKeyLen * 8);
    Associative(BigEndian(k + 1, 4), z, OtherInfo(a, u, v, outputKeyLen * 8));
  }

  /** OtherInfo of the example in appendix C of RFC 7518: "A128GCM", "Alice", "Bob" and 128 bits. */
  lemma Rfc7518Example()
    ensures OtherInfo([65, 49, 50, 56, 71, 67, 77], [65, 108, 105, 99, 101], [66, 111, 98], 128)
         == [0, 0, 0, 7] + [65, 49, 50, 56, 71, 67, 77] + ([0, 0, 0, 5] + [65, 108, 105, 99, 101])
            + ([0, 0, 0, 3] + [66, 111, 98]) + [0, 0, 0, 128]
  {
    FourBytes(7);
    FourBytes(5);
    FourBytes(3);
    FourBytes(128);
  }
}
