/** The data hashed by `concatKDFWithSHA256` can be taken apart again, so different parameters
    are never hashed as the same data. */
module KdfFraming {
  import opened Wrappers
  import opened Bytes
  import opened ConcatKdf

  /** The parameters of a call that the hashed data stands for. */
  datatype Parameters = Parameters(secret: seq<Byte>, algorithmId: seq<Byte>, partyUInfo: seq<Byte>,
                                   partyVInfo: seq<Byte>, keyBits: nat)
  {
    /** Every length is a 32-bit value, as in every call that reaches the hash. */
    predicate Valid() {
      FitsUInt32(|algorithmId|) && FitsUInt32(|partyUInfo|) && FitsUInt32(|partyVInfo|) && FitsUInt32(keyBits)
    }

    function Data(): seq<Byte> {
      secret + OtherInfo(algorithmId, partyUInfo, partyVInfo, keyBits)
    }

    function Input(counter: nat): seq<Byte> {
      HashInput(counter, secret, OtherInfo(algorithmId, partyUInfo, partyVInfo, keyBits))
    }
  }

  /** A field and what follows it. */
  datatype Parsed = Parsed(field: seq<Byte>, rest: seq<Byte>)

  function ParseField(data: seq<Byte>): Option<Parsed> {
    if |data| < 4 then None
    else
      var n := FromBigEndian(data[..4]);
      if |data| - 4 < n then None else Some(Parsed(data[4..4 + n], data[4 + n..]))
  }

  /** The parameters behind OtherInfo, and no secret. */
  function ParseInfo(info: seq<Byte>): Option<Parameters> {
    match ParseField(info)
    case None => None
    case Some(a) =>
      match ParseField(a.rest)
      case None => None
      case Some(u) =>
        match ParseField(u.rest)
        case None => None
        case Some(v) =>
          if |v.rest| != 4 then None
          else Some(Parameters([], a.field, u.field, v.field, FromBigEndian(v.rest)))
  }

  /** The parameters behind hashed data, for a secret of known length. */
  function Parse(secretLen: nat, data: seq<Byte>): Option<Parameters> {
    if |data| < secretLen then None
    else
      match ParseInfo(data[secretLen..])
      case None => None
      case Some(p) => Some(p.(secret := data[..secretLen]))
  }

  lemma ValuesOfFour()
    ensures Values(4) == UINT32_VALUES
  {
  }

  lemma ParseBuiltField(x: seq<Byte>, rest: seq<Byte>)
    requires FitsUInt32(|x|)
    ensures ParseField(Field(x) + rest) == Some(Parsed(x, rest))
  {
    var data := Field(x) + rest;
    ValuesOfFour();
    BigEndianDecodes(|x|, 4);
    assert data[..4] == BigEndian(|x|, 4);
    assert data[4..4 + |x|] == x;
    assert data[4 + |x|..] == rest;
  }

  lemma BuildParsedField(data: seq<Byte>)
    requires ParseField(data).Some?
    ensures var p := ParseField(data).value; FitsUInt32(|p.field|) && data == Field(p.field) + p.rest
  {
    ValuesOfFour();
    BigEndianEncodes(data[..4]);
    var p := ParseField(data).value;
    assert data == data[..4] + p.field + p.rest;
  }

  lemma ParseBuiltInfo(p: Parameters)
    requires p.Valid()
    ensures ParseInfo(OtherInfo(p.algorithmId, p.partyUInfo, p.partyVInfo, p.keyBits)) == Some(p.(secret := []))
  {
    var a, u, v, k := Field(p.algorithmId), Field(p.partyUInfo), Field(p.partyVInfo), BigEndian(p.keyBits, 4);
    RegroupFields(a, u, v, k);
    ParseBuiltField(p.algorithmId, u + (v + k));
    ParseBuiltField(p.partyUInfo, v + k);
    ParseBuiltField(p.partyVInfo, k);
    ValuesOfFour();
    BigEndianDecodes(p.keyBits, 4);
  }

  lemma TakeDrop(x: seq<Byte>, y: seq<Byte>)
    ensures (x + y)[..|x|] == x && (x + y)[|x|..] == y
  {
  }

  lemma TakeThenDrop(data: seq<Byte>, n: nat)
    requires n <= |data|
    ensures data == data[..n] + data[n..]
  {
  }

  /** Parsing recovers every parameter. */
  lemma ParseUndoesBuild(p: Parameters)
    requires p.Valid()
    ensures Parse(|p.secret|, p.Data()) == Some(p)
  {
    ParseBuiltInfo(p);
    TakeDrop(p.secret, OtherInfo(p.algorithmId, p.partyUInfo, p.partyVInfo, p.keyBits));
  }

  lemma BuildUndoesParseInfo(info: seq<Byte>)
    requires ParseInfo(info).Some?
    ensures var p := ParseInfo(info).value;
            p.Valid() && info == OtherInfo(p.algorithmId, p.partyUInfo, p.partyVInfo, p.keyBits)
  {
    var a := ParseField(info).value;
    var u := ParseField(a.rest).value;
    var v := ParseField(u.rest).value;
    BuildParsedField(info);
    BuildParsedField(a.rest);
    BuildParsedField(u.rest);
    RegroupFields(Field(a.field), Field(u.field), Field(v.field), v.rest);
    ValuesOfFour();
    BigEndianEncodes(v.rest);
  }

  /** Building undoes parsing: the parser accepts nothing but data that some valid parameters give. */
  lemma BuildUndoesParse(secretLen: nat, data: seq<Byte>)
    requires Parse(secretLen, data).Some?
    ensures var p := Parse(secretLen, data).value; p.Valid() && |p.secret| == secretLen && p.Data() == data
  {
    BuildUndoesParseInfo(data[secretLen..]);
    TakeThenDrop(data, secretLen);
  }

  lemma RegroupFields(a: seq<Byte>, u: seq<Byte>, v: seq<Byte>, k: seq<Byte>)
    ensures a + (u + (v + k)) == a + u + v + k
  {
  }

  /** For secrets of equal length, equal hashed data means equal parameters. */
  lemma DataIsUniquelyDecodable(p: Parameters, q: Parameters)
    requires p.Valid() && q.Valid() && |p.secret| == |q.secret|
    requires p.Data() == q.Data()
    ensures p == q
  {
    ParseUndoesBuild(p);
    ParseUndoesBuild(q);
  }

  /** Without equal lengths it does not: the secret has no length prefix, so a secret that absorbs the
      next four bytes gives the same data with a shorter algorithm id. */
  lemma UnequalSecretsCanCollide(p: Parameters)
    requires p.Valid() && FitsUInt32(|p.algorithmId| + 4)
    ensures var longer := p.(algorithmId := Field(p.algorithmId));
            var absorbed := p.(secret := p.secret + BigEndian(|p.algorithmId| + 4, 4));
            longer.Valid() && absorbed.Valid() && longer != absorbed && longer.Data() == absorbed.Data()
  {
  }

  /** Two hash inputs are equal only if the counter and, for secrets of equal length, every parameter
      agree. */
  lemma InputsAreDistinct(p: Parameters, i: nat, q: Parameters, j: nat)
    requires p.Valid() && q.Valid() && |p.secret| == |q.secret|
    requires FitsUInt32(i) && FitsUInt32(j)
    requires p.Input(i) == q.Input(j)
    ensures i == j && p == q
  {
    Associative(BigEndian(i, 4), p.secret, OtherInfo(p.algorithmId, p.partyUInfo, p.partyVInfo, p.keyBits));
    Associative(BigEndian(j, 4), q.secret, OtherInfo(q.algorithmId, q.partyUInfo, q.partyVInfo, q.keyBits));
    assert p.Input(i)[..4] == BigEndian(i, 4) && q.Input(j)[..4] == BigEndian(j, 4);
    assert p.Input(i)[4..] == p.Data() && q.Input(j)[4..] == q.Data();
    ValuesOfFour();
    BigEndianDecodes(i, 4);
    BigEndianDecodes(j, 4);
    DataIsUniquelyDecodable(p, q);
  }

  /** The rounds of one call hash pairwise different inputs. */
  lemma RoundsHashDifferentInputs(p: Parameters, i: nat, j: nat)
    requires p.Valid() && FitsUInt32(i) && FitsUInt32(j) && i != j
    ensures p.Input(i) != p.Input(j)
  {
    if p.Input(i) == p.Input(j) {
      InputsAreDistinct(p, i, p, j);
    }
  }

  /** Two calls that return the same key without agreeing on every parameter exhibit two inputs with
      the same hash. */
  lemma EqualKeysMeanEqualCallsOrCollision(h: Hash, p: Parameters, q: Parameters, keyLen: nat) returns (x: seq<Byte>, y: seq<Byte>)
    requires p.Valid() && q.Valid() && |p.secret| == |q.secret|
    requires p.keyBits == q.keyBits == keyLen * 8
    requires var r := Derive(h, p.secret, keyLen, p.algorithmId, p.partyUInfo, p.partyVInfo);
             r.Returned? && r == Derive(h, q.secret, keyLen, q.algorithmId, q.partyUInfo, q.partyVInfo)
    ensures p == q || (x != y && h(x) == h(y))
  {
    ReturnedKey(h, p.secret, keyLen, p.algorithmId, p.partyUInfo, p.partyVInfo, 0);
    ReturnedKey(h, q.secret, keyLen, q.algorithmId, q.partyUInfo, q.partyVInfo, 0);
    x, y := p.Input(1), q.Input(1);
    if x == y {
      InputsAreDistinct(p, 1, q, 1);
    }
  }
}
