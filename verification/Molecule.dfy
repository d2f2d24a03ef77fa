/** Canonical block bytes: the table layout (total size, field offsets, fields) of the Molecule
    encoding, and a decoder that inverts it. */
module Molecule {
  import opened Prelude

  type Bytes = seq<Byte>

  type Hash = s: Bytes | |s| == 32 witness seq(32, _ => 0)

  // ------------------------------------------------------------ little-endian numbers

  function Le(n: nat, width: nat): (s: Bytes)
    ensures |s| == width
  {
    if width == 0 then [] else [n % 256] + Le(n / 256, width - 1)
  }

  function FromLe(s: Bytes): nat {
    if s == [] then 0 else s[0] + 256 * FromLe(s[1..])
  }

  function Pow256(width: nat): nat {
    if width == 0 then 1 else 256 * Pow256(width - 1)
  }

  lemma {:induction false} LeRoundTrip(n: nat, width: nat)
    requires n < Pow256(width)
    ensures FromLe(Le(n, width)) == n
  {
    if width > 0 {
      LeRoundTrip(n / 256, width - 1);
      assert Le(n, width)[1..] == Le(n / 256, width - 1);
    }
  }

  lemma {:induction false} Words()
    ensures Pow256(4) == 0x1_0000_0000 && Pow256(8) == 0x1_0000_0000_0000_0000
  {
    assert Pow256(4) == 0x1_0000_0000;
    assert Pow256(6) == 256 * 256 * Pow256(4);
  }

  // --------------------------------------------------------------------------- tables

  /** Bytes taken by the first i fields. */
  function Length(fields: seq<Bytes>, i: nat): nat
    requires i <= |fields|
  {
    if i == 0 then 0 else Length(fields, i - 1) + |fields[i - 1]|
  }

  function HeaderSize(fields: seq<Bytes>): nat {
    4 + 4 * |fields|
  }

  function Offset(fields: seq<Bytes>, i: nat): nat
    requires i <= |fields|
  {
    HeaderSize(fields) + Length(fields, i)
  }

  function TableSize(fields: seq<Bytes>): nat {
    Offset(fields, |fields|)
  }

  /** The first i offsets. */
  function Offsets(fields: seq<Bytes>, i: nat): (s: Bytes)
    requires i <= |fields|
    ensures |s| == 4 * i
  {
    if i == 0 then [] else Offsets(fields, i - 1) + Le(Offset(fields, i - 1), 4)
  }

  /** The first i fields, end to end. */
  function Body(fields: seq<Bytes>, i: nat): (s: Bytes)
    requires i <= |fields|
    ensures |s| == Length(fields, i)
  {
    if i == 0 then [] else Body(fields, i - 1) + fields[i - 1]
  }

  function EncodeTable(fields: seq<Bytes>): (s: Bytes)
    ensures |s| == TableSize(fields)
  {
    Le(TableSize(fields), 4) + Offsets(fields, |fields|) + Body(fields, |fields|)
  }

  lemma {:induction false} LengthMonotone(fields: seq<Bytes>, i: nat, j: nat)
    requires i <= j <= |fields|
    ensures Length(fields, i) <= Length(fields, j)
    decreases j
  {
    if i < j { LengthMonotone(fields, i, j - 1); }
  }

  lemma {:induction false} OffsetsAt(fields: seq<Bytes>, i: nat, n: nat)
    requires i < n <= |fields|
    ensures Offsets(fields, n)[4 * i..4 * i + 4] == Le(Offset(fields, i), 4)
    decreases n
  {
    if i < n - 1 {
      OffsetsAt(fields, i, n - 1);
      assert Offsets(fields, n)[4 * i..4 * i + 4] == Offsets(fields, n - 1)[4 * i..4 * i + 4];
    }
  }

  lemma {:induction false} BodyAt(fields: seq<Bytes>, i: nat, n: nat)
    requires i < n <= |fields|
    ensures Length(fields, i + 1) <= Length(fields, n)
    ensures Body(fields, n)[Length(fields, i)..Length(fields, i + 1)] == fields[i]
    decreases n
  {
    LengthMonotone(fields, i + 1, n);
    if i < n - 1 {
      BodyAt(fields, i, n - 1);
      var a, b := Length(fields, i), Length(fields, i + 1);
      assert Body(fields, n)[a..b] == Body(fields, n - 1)[a..b];
    }
  }

  /** The offset stored in slot i, when there is one. */
  function ReadOffset(s: Bytes, i: nat): Option<nat> {
    if 8 + 4 * i <= |s| then Some(FromLe(s[4 + 4 * i..8 + 4 * i])) else None
  }

  /** Field i of an n-field table: from its offset to the next one, or to the end. */
  function ReadField(s: Bytes, n: nat, i: nat): Option<Bytes> {
    var from := ReadOffset(s, i);
    var to := if i + 1 < n then ReadOffset(s, i + 1) else Some(|s|);
    if from.Some? && to.Some? && from.value <= to.value <= |s| then Some(s[from.value..to.value]) else None
  }

  lemma {:induction false} ReadOffsetRight(fields: seq<Bytes>, i: nat)
    requires TableSize(fields) < 0x1_0000_0000 && i < |fields|
    ensures ReadOffset(EncodeTable(fields), i) == Some(Offset(fields, i))
  {
    var s, n := EncodeTable(fields), |fields|;
    OffsetsAt(fields, i, n);
    var offsets := Offsets(fields, n);
    assert s[4 + 4 * i..8 + 4 * i] == offsets[4 * i..4 * i + 4];
    LengthMonotone(fields, i, n);
    Words();
    LeRoundTrip(Offset(fields, i), 4);
  }

  /** The offset table is inverted: every field is read back. */
  lemma {:induction false} ReadFieldRight(fields: seq<Bytes>, i: nat)
    requires TableSize(fields) < 0x1_0000_0000 && i < |fields|
    ensures ReadField(EncodeTable(fields), |fields|, i) == Some(fields[i])
  {
    var s, n := EncodeTable(fields), |fields|;
    ReadOffsetRight(fields, i);
    if i + 1 < n { ReadOffsetRight(fields, i + 1); }
    BodyAt(fields, i, n);
    var h, a, b := HeaderSize(fields), Length(fields, i), Length(fields, i + 1);
    assert s[h + a..h + b] == Body(fields, n)[a..b];
  }

  /** Tables with the same bytes and the same number of fields have the same fields. */
  lemma {:induction false} TableInjective(fields: seq<Bytes>, fields': seq<Bytes>)
    requires TableSize(fields) < 0x1_0000_0000 && TableSize(fields') < 0x1_0000_0000
    requires |fields| == |fields'| && EncodeTable(fields) == EncodeTable(fields')
    ensures fields == fields'
  {
    forall i | 0 <= i < |fields|
      ensures fields[i] == fields'[i]
    {
      ReadFieldRight(fields, i);
      ReadFieldRight(fields', i);
    }
  }

  /** The buffer is filled front to back with a running offset. */
  method WriteTable(fields: seq<Bytes>) returns (out: Bytes)
    requires TableSize(fields) < 0x1_0000_0000
    ensures out == EncodeTable(fields)
  {
    var total := HeaderSize(fields);
    for i := 0 to |fields|
      invariant total == Offset(fields, i)
    {
      total := total + |fields[i]|;
    }
    out := Le(total, 4);
    var offset := HeaderSize(fields);
    for i := 0 to |fields|
      invariant offset == Offset(fields, i)
      invariant out == Le(TableSize(fields), 4) + Offsets(fields, i)
    {
      out := out + Le(offset, 4);
      offset := offset + |fields[i]|;
    }
    for i := 0 to |fields|
      invariant out == Le(TableSize(fields), 4) + Offsets(fields, |fields|) + Body(fields, i)
    {
      out := out + fields[i];
    }
  }

  // --------------------------------------------------------------------- hash vectors

  function Hashes(values: seq<Hash>): (s: Bytes)
    ensures |s| == 32 * |values|
  {
    if values == [] then [] else Hashes(values[..|values| - 1]) + values[|values| - 1]
  }

  /** The count is truncated to 32 bits. */
  function EncodeHashVec(values: seq<Hash>): (s: Bytes)
    ensures |s| == 4 + 32 * |values|
  {
    Le(|values| % 0x1_0000_0000, 4) + Hashes(values)
  }

  method WriteHashVec(values: seq<Hash>) returns (out: Bytes)
    ensures out == EncodeHashVec(values)
  {
    out := Le(|values| % 0x1_0000_0000, 4);
    for i := 0 to |values|
      invariant out == Le(|values| % 0x1_0000_0000, 4) + Hashes(values[..i])
    {
      out := out + values[i];
      assert values[..i + 1][..i] == values[..i];
    }
    assert values[..|values|] == values;
  }

  function ReadHashes(s: Bytes, n: nat): (values: seq<Hash>)
    requires |s| == 32 * n
    ensures |values| == n
  {
    if n == 0 then [] else ReadHashes(s[..32 * (n - 1)], n - 1) + [s[32 * (n - 1)..]]
  }

  lemma {:induction false} HashesRoundTrip(values: seq<Hash>)
    ensures ReadHashes(Hashes(values), |values|) == values
  {
    if values != [] {
      var n := |values| - 1;
      HashesRoundTrip(values[..n]);
      var s := Hashes(values);
      assert s[..32 * n] == Hashes(values[..n]) && s[32 * n..] == values[n];
    }
  }

  /** Hash vectors are told apart by their bytes, whatever their lengths. */
  lemma {:induction false} HashVecInjective(a: seq<Hash>, b: seq<Hash>)
    requires EncodeHashVec(a) == EncodeHashVec(b)
    ensures a == b
  {
    var s := EncodeHashVec(a);
    assert |a| == |b|;
    assert s[4..] == Hashes(a) && s[4..] == Hashes(b);
    HashesRoundTrip(a);
    HashesRoundTrip(b);
  }

  // --------------------------------------------------------------------------- blocks

  type U32 = x: nat | x < 0x1_0000_0000
  type U64 = x: nat | x < 0x1_0000_0000_0000_0000

  datatype ConsensusKind = StaticClosedCommittee | ProofOfAuthority | Tendermint

  datatype Block = Block(
    version: U32, sessionId: Hash, parentHash: Hash, number: U64, timestampMs: U64, consensusKind: ConsensusKind,
    applicationProfile: Hash, executionFrame: Hash, stateRootBefore: Hash, stateRootAfter: Hash,
    cellTxs: seq<Hash>, data: seq<Hash>, scheduler: Hash)

  function Name(k: ConsensusKind): string {
    match k
    case StaticClosedCommittee => "static-closed-committee"
    case ProofOfAuthority => "proof-of-authority"
    case Tendermint => "tendermint"
  }

  function Ascii(s: string): Bytes {
    seq(|s|, i requires 0 <= i < |s| => (s[i] as int) % 256)
  }

  function Fields(b: Block): seq<Bytes> {
    [ Le(b.version, 4), b.sessionId, b.parentHash, Le(b.number, 8), Le(b.timestampMs, 8), Ascii(Name(b.consensusKind)),
      b.applicationProfile, b.executionFrame, b.stateRootBefore, b.stateRootAfter,
      EncodeHashVec(b.cellTxs), EncodeHashVec(b.data), b.scheduler ]
  }

  /** The whole table fits the 32-bit size field; the encoder asserts it. */
  predicate Encodable(b: Block) {
    TableSize(Fields(b)) < 0x1_0000_0000
  }

  function BlockBytes(b: Block): Bytes {
    EncodeTable(Fields(b))
  }

  lemma {:induction false} NamesDiffer(k: ConsensusKind, k': ConsensusKind)
    requires Ascii(Name(k)) == Ascii(Name(k'))
    ensures k == k'
  {
    assert |Ascii(Name(k))| == |Name(k)| && |Ascii(Name(k'))| == |Name(k')|;
  }

  lemma {:induction false} NumbersDiffer(a: nat, b: nat, width: nat)
    requires a < Pow256(width) && b < Pow256(width) && Le(a, width) == Le(b, width)
    ensures a == b
  {
    LeRoundTrip(a, width);
    LeRoundTrip(b, width);
  }

  lemma {:induction false} FieldsInjective(b: Block, b': Block)
    requires Fields(b) == Fields(b')
    ensures b == b'
  {
    var f, f' := Fields(b), Fields(b');
    assert f[0] == f'[0] && f[1] == f'[1] && f[2] == f'[2] && f[3] == f'[3] && f[4] == f'[4] && f[5] == f'[5];
    assert f[6] == f'[6] && f[7] == f'[7] && f[8] == f'[8] && f[9] == f'[9];
    assert f[10] == f'[10] && f[11] == f'[11] && f[12] == f'[12];
    Words();
    NumbersDiffer(b.version, b'.version, 4);
    NumbersDiffer(b.number, b'.number, 8);
    NumbersDiffer(b.timestampMs, b'.timestampMs, 8);
    NamesDiffer(b.consensusKind, b'.consensusKind);
    HashVecInjective(b.cellTxs, b'.cellTxs);
    HashVecInjective(b.data, b'.data);
  }

  /** Two blocks with the same canonical bytes are equal in every field. */
  lemma {:induction false} BlockBytesInjective(b: Block, b': Block)
    requires Encodable(b) && Encodable(b') && BlockBytes(b) == BlockBytes(b')
    ensures b == b'
  {
    TableInjective(Fields(b), Fields(b'));
    FieldsInjective(b, b');
  }

  method ToMoleculeBytes(b: Block) returns (out: Bytes)
    requires Encodable(b)
    ensures out == BlockBytes(b)
  {
    var cellTxs := WriteHashVec(b.cellTxs);
    var data := WriteHashVec(b.data);
    out := WriteTable([
      Le(b.version, 4), b.sessionId, b.parentHash, Le(b.number, 8), Le(b.timestampMs, 8), Ascii(Name(b.consensusKind)),
      b.applicationProfile, b.executionFrame, b.stateRootBefore, b.stateRootAfter, cellTxs, data, b.scheduler ]);
  }

  lemma {:induction false} FieldAt(b: Block, i: nat)
    requires Encodable(b) && i < 13
    ensures ReadField(BlockBytes(b), 13, i) == Some(Fields(b)[i])
  {
    ReadFieldRight(Fields(b), i);
  }

  /** Which field stands where: read back by position, the table gives the block's parts in the
      order of its declaration. */
  lemma {:induction false} FieldOrder(b: Block)
    requires Encodable(b)
    ensures var s := BlockBytes(b);
      && ReadField(s, 13, 0) == Some(Le(b.version, 4)) && ReadField(s, 13, 1) == Some(b.sessionId)
      && ReadField(s, 13, 2) == Some(b.parentHash) && ReadField(s, 13, 3) == Some(Le(b.number, 8))
      && ReadField(s, 13, 4) == Some(Le(b.timestampMs, 8)) && ReadField(s, 13, 5) == Some(Ascii(Name(b.consensusKind)))
  {
    FieldAt(b, 0);
    FieldAt(b, 1);
    FieldAt(b, 2);
    FieldAt(b, 3);
    FieldAt(b, 4);
    FieldAt(b, 5);
  }

  lemma {:induction false} CommitmentOrder(b: Block)
    requires Encodable(b)
    ensures var s := BlockBytes(b);
      && ReadField(s, 13, 6) == Some(b.applicationProfile) && ReadField(s, 13, 7) == Some(b.executionFrame)
      && ReadField(s, 13, 8) == Some(b.stateRootBefore) && ReadField(s, 13, 9) == Some(b.stateRootAfter)
      && ReadField(s, 13, 10) == Some(EncodeHashVec(b.cellTxs)) && ReadField(s, 13, 11) == Some(EncodeHashVec(b.data))
      && ReadField(s, 13, 12) == Some(b.scheduler)
  {
    FieldAt(b, 6);
    FieldAt(b, 7);
    FieldAt(b, 8);
    FieldAt(b, 9);
    FieldAt(b, 10);
    FieldAt(b, 11);
    FieldAt(b, 12);
  }

  // --------------------------------------------------------------------- reading back

  /** A table opens with its own length. */
  lemma {:induction false} TableOpensWithSize(fields: seq<Bytes>)
    requires TableSize(fields) < 0x1_0000_0000
    ensures |EncodeTable(fields)| >= 4 && FromLe(EncodeTable(fields)[..4]) == |EncodeTable(fields)|
  {
    assert EncodeTable(fields)[..4] == Le(TableSize(fields), 4);
    Words();
    LeRoundTrip(TableSize(fields), 4);
  }

  /** A hash vector: a count, then that many hashes. */
  function ReadHashVec(s: Bytes): Option<seq<Hash>> {
    if |s| < 4 || |s| != 4 + 32 * FromLe(s[..4]) then None else Some(ReadHashes(s[4..], FromLe(s[..4])))
  }

  lemma {:induction false} HashVecRoundTrip(values: seq<Hash>)
    requires |values| < 0x1_0000_0000
    ensures ReadHashVec(EncodeHashVec(values)) == Some(values)
  {
    var s := EncodeHashVec(values);
    assert s[..4] == Le(|values|, 4) && s[4..] == Hashes(values);
    Words();
    LeRoundTrip(|values|, 4);
    HashesRoundTrip(values);
  }

  /** The engine's name, byte by byte. */
  function ReadKind(s: Bytes): Option<ConsensusKind> {
    if s == Ascii("static-closed-committee") then Some(StaticClosedCommittee)
    else if s == Ascii("proof-of-authority") then Some(ProofOfAuthority)
    else if s == Ascii("tendermint") then Some(Tendermint)
    else None
  }

  lemma {:induction false} KindRoundTrip(k: ConsensusKind)
    ensures ReadKind(Ascii(Name(k))) == Some(k)
  {
    assert |Ascii("static-closed-committee")| == 23 && |Ascii("proof-of-authority")| == 18 && |Ascii("tendermint")| == 10;
  }

  lemma {:induction false} FromLeBound(s: Bytes)
    ensures FromLe(s) < Pow256(|s|)
  {
    if s != [] { FromLeBound(s[1..]); }
  }

  function ReadU32(s: Bytes): Option<U32> {
    if |s| != 4 then None else
      FromLeBound(s);
      Words();
      Some(FromLe(s))
  }

  function ReadU64(s: Bytes): Option<U64> {
    if |s| != 8 then None else
      FromLeBound(s);
      Words();
      Some(FromLe(s))
  }

  lemma {:induction false} NumbersRoundTrip(n: U32, m: U64)
    ensures ReadU32(Le(n, 4)) == Some(n) && ReadU64(Le(m, 8)) == Some(m)
  {
    Words();
    LeRoundTrip(n, 4);
    LeRoundTrip(m, 8);
  }

  /** A block from its thirteen parts. */
  function Assemble(f: seq<Bytes>): Option<Block>
    requires |f| == 13
  {
    var version, number, time, kind := ReadU32(f[0]), ReadU64(f[3]), ReadU64(f[4]), ReadKind(f[5]);
    var cellTxs, data := ReadHashVec(f[10]), ReadHashVec(f[11]);
    if version.None? || number.None? || time.None? || kind.None? || cellTxs.None? || data.None? then None
    else if exists i :: i in [1, 2, 6, 7, 8, 9, 12] && |f[i]| != 32 then None
    else
      assert forall i :: i in [1, 2, 6, 7, 8, 9, 12] ==> |f[i]| == 32;
      Some(Block(version.value, f[1], f[2], number.value, time.value, kind.value, f[6], f[7], f[8], f[9],
                 cellTxs.value, data.value, f[12]))
  }

  /** Read a block: check the total size, cut the table along its offsets, read the parts. */
  function DecodeBlock(s: Bytes): Option<Block> {
    if |s| < 4 || FromLe(s[..4]) != |s| then None
    else if exists i :: 0 <= i < 13 && ReadField(s, 13, i).None? then None
    else Assemble(seq(13, i requires 0 <= i < 13 => ReadField(s, 13, i).value))
  }

  lemma {:induction false} PartsRight(b: Block)
    requires |b.cellTxs| < 0x1_0000_0000 && |b.data| < 0x1_0000_0000
    ensures var f := Fields(b);
      && ReadU32(f[0]) == Some(b.version) && ReadU64(f[3]) == Some(b.number) && ReadU64(f[4]) == Some(b.timestampMs)
      && ReadKind(f[5]) == Some(b.consensusKind)
      && ReadHashVec(f[10]) == Some(b.cellTxs) && ReadHashVec(f[11]) == Some(b.data)
  {
    NumbersRoundTrip(b.version, b.number);
    NumbersRoundTrip(b.version, b.timestampMs);
    KindRoundTrip(b.consensusKind);
    HashVecRoundTrip(b.cellTxs);
    HashVecRoundTrip(b.data);
  }

  lemma {:induction false} AssembleParts(f: seq<Bytes>, b: Block)
    requires |f| == 13 && ReadU32(f[0]) == Some(b.version) && ReadU64(f[3]) == Some(b.number) && ReadU64(f[4]) == Some(b.timestampMs)
    requires ReadKind(f[5]) == Some(b.consensusKind) && ReadHashVec(f[10]) == Some(b.cellTxs) && ReadHashVec(f[11]) == Some(b.data)
    requires f[1] == b.sessionId && f[2] == b.parentHash && f[6] == b.applicationProfile && f[7] == b.executionFrame
    requires f[8] == b.stateRootBefore && f[9] == b.stateRootAfter && f[12] == b.scheduler
    ensures Assemble(f) == Some(b)
  {
    assert |f[1]| == |f[2]| == |f[6]| == |f[7]| == |f[8]| == |f[9]| == |f[12]| == 32;
  }

  lemma {:induction false} AssembleRight(b: Block)
    requires |b.cellTxs| < 0x1_0000_0000 && |b.data| < 0x1_0000_0000
    ensures Assemble(Fields(b)) == Some(b)
  {
    PartsRight(b);
    AssembleParts(Fields(b), b);
  }

  lemma {:induction false} VectorsFit(b: Block)
    requires Encodable(b)
    ensures |b.cellTxs| < 0x1_0000_0000 && |b.data| < 0x1_0000_0000
  {
    var f := Fields(b);
    BodyAt(f, 10, 13);
    BodyAt(f, 11, 13);
  }

  /** ROUND TRIP.  Every block that can be encoded is read back from its canonical bytes. */
  lemma {:induction false} DecodesBlock(b: Block)
    requires Encodable(b)
    ensures DecodeBlock(BlockBytes(b)) == Some(b)
  {
    var s, f := BlockBytes(b), Fields(b);
    TableOpensWithSize(f);
    forall i | 0 <= i < 13
      ensures ReadField(s, 13, i) == Some(f[i])
    {
      FieldAt(b, i);
    }
    VectorsFit(b);
    assert seq(13, i requires 0 <= i < 13 => ReadField(s, 13, i).value) == f;
    AssembleRight(b);
  }
}
