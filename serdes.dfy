/**
 * The canonical codec: fixed-width, little-endian layouts for every entity. Decoding an
 * asset or a full receiver is gated by the sanity checker; the other entities decode
 * without a gate.
 */
module SerDes {
  import opened Wrappers
  import opened Bytes
  import opened MantaError
  import opened MantaTypes
  import opened Crypto
  import opened Sanity
  import opened ByteIo

  const PubInfoSize := 160
  const PrivInfoSize := 40
  const AssetSize := 272
  const ShieldedAddressSize := 136
  const SpendingInfoSize := 168
  const FullReceiverSize := 304
  const ProcessedReceiverSize := 224

  // ---------------------------------------------------------------------------
  // Layouts

  /** `pk ‖ rho ‖ s ‖ r ‖ k`. */
  function EncodePubInfo(p: PubInfo): (b: seq<uint8>)
    ensures |b| == PubInfoSize
  {
    p.pk + p.rho + p.s + p.r + p.k
  }

  /** `LE64(value) ‖ sk`. */
  function EncodePrivInfo(p: PrivInfo): (b: seq<uint8>)
    ensures |b| == PrivInfoSize
  {
    ToLe64(p.value) + p.sk
  }

  /** `LE64(asset_id) ‖ utxo ‖ void_number ‖ pub_info ‖ priv_info`. */
  function EncodeAsset(a: MantaAsset): (b: seq<uint8>)
    ensures |b| == AssetSize
  {
    ToLe64(a.assetId) + a.utxo + a.voidNumber + EncodePubInfo(a.pubInfo) + EncodePrivInfo(a.privInfo)
  }

  /** `LE64(asset_id) ‖ k ‖ s ‖ r ‖ ecpk`. */
  function EncodeShieldedAddress(sa: ShieldedAddress): (b: seq<uint8>)
    ensures |b| == ShieldedAddressSize
  {
    ToLe64(sa.assetId) + sa.k + sa.s + sa.r + sa.ecpk
  }

  /** `LE64(asset_id) ‖ pk ‖ sk ‖ rho ‖ void_number ‖ ecsk`. */
  function EncodeSpendingInfo(si: SpendingInfo): (b: seq<uint8>)
    ensures |b| == SpendingInfoSize
  {
    ToLe64(si.assetId) + si.pk + si.sk + si.rho + si.voidNumber + si.ecsk
  }

  /** `shielded_address ‖ spending_info`. */
  function EncodeFullReceiver(fr: FullReceiver): (b: seq<uint8>)
    ensures |b| == FullReceiverSize
  {
    EncodeShieldedAddress(fr.shieldedAddress) + EncodeSpendingInfo(fr.spendingInfo)
  }

  /** `utxo ‖ LE64(value) ‖ sender_pk ‖ ciphertext ‖ prepared_data`. */
  function EncodeProcessedReceiver(p: ProcessedReceiver): (b: seq<uint8>)
    ensures |b| == ProcessedReceiverSize
  {
    p.utxo + ToLe64(p.value) + p.senderPk + p.ciphertext + EncodeShieldedAddress(p.preparedData)
  }

  // The field-by-field readings of a long enough input (bytes past the layout are not read).

  function ParsePubInfo(b: seq<uint8>): PubInfo
    requires |b| >= PubInfoSize
  {
    PubInfo(b[0..32], b[32..64], b[64..96], b[96..128], b[128..160])
  }

  function ParsePrivInfo(b: seq<uint8>): PrivInfo
    requires |b| >= PrivInfoSize
  {
    PrivInfo(FromLe64(b[0..8]), b[8..40])
  }

  function ParseAsset(b: seq<uint8>): MantaAsset
    requires |b| >= AssetSize
  {
    MantaAsset(FromLe64(b[0..8]), b[8..40], b[40..72], ParsePubInfo(b[72..]), ParsePrivInfo(b[232..]))
  }

  function ParseShieldedAddress(b: seq<uint8>): ShieldedAddress
    requires |b| >= ShieldedAddressSize
  {
    ShieldedAddress(FromLe64(b[0..8]), b[8..40], b[40..72], b[72..104], b[104..136])
  }

  function ParseSpendingInfo(b: seq<uint8>): SpendingInfo
    requires |b| >= SpendingInfoSize
  {
    SpendingInfo(FromLe64(b[0..8]), b[8..40], b[40..72], b[72..104], b[104..136], b[136..168])
  }

  function ParseFullReceiver(b: seq<uint8>): FullReceiver
    requires |b| >= FullReceiverSize
  {
    FullReceiver(ParseShieldedAddress(b), ParseSpendingInfo(b[136..]))
  }

  function ParseProcessedReceiver(b: seq<uint8>): ProcessedReceiver
    requires |b| >= ProcessedReceiverSize
  {
    ProcessedReceiver(b[0..32], FromLe64(b[32..40]), b[40..72], b[72..88], ParseShieldedAddress(b[88..]))
  }

  // ---------------------------------------------------------------------------
  // Each reading inverts its layout, whatever follows it

  lemma ParseEncodePubInfo(p: PubInfo, rest: seq<uint8>)
    ensures ParsePubInfo(EncodePubInfo(p) + rest) == p
  {
  }

  lemma ParseEncodePrivInfo(p: PrivInfo, rest: seq<uint8>)
    ensures ParsePrivInfo(EncodePrivInfo(p) + rest) == p
  {
    var b := EncodePrivInfo(p) + rest;
    assert b[0..8] == ToLe64(p.value);
    assert b[8..40] == p.sk;
    FromLe64OfToLe64(p.value);
  }

  lemma ParseEncodeAsset(a: MantaAsset, rest: seq<uint8>)
    ensures ParseAsset(EncodeAsset(a) + rest) == a
  {
    var b := EncodeAsset(a) + rest;
    assert b[0..8] == ToLe64(a.assetId);
    assert b[8..40] == a.utxo;
    assert b[40..72] == a.voidNumber;
    assert b[72..] == EncodePubInfo(a.pubInfo) + (EncodePrivInfo(a.privInfo) + rest);
    assert b[232..] == EncodePrivInfo(a.privInfo) + rest;
    FromLe64OfToLe64(a.assetId);
    ParseEncodePubInfo(a.pubInfo, EncodePrivInfo(a.privInfo) + rest);
    ParseEncodePrivInfo(a.privInfo, rest);
  }

  lemma ParseEncodeShieldedAddress(sa: ShieldedAddress, rest: seq<uint8>)
    ensures ParseShieldedAddress(EncodeShieldedAddress(sa) + rest) == sa
  {
    var b := EncodeShieldedAddress(sa) + rest;
    assert b[0..8] == ToLe64(sa.assetId);
    assert b[8..40] == sa.k;
    assert b[40..72] == sa.s;
    assert b[72..104] == sa.r;
    assert b[104..136] == sa.ecpk;
    FromLe64OfToLe64(sa.assetId);
  }

  lemma ParseEncodeSpendingInfo(si: SpendingInfo, rest: seq<uint8>)
    ensures ParseSpendingInfo(EncodeSpendingInfo(si) + rest) == si
  {
    var b := EncodeSpendingInfo(si) + rest;
    assert b[0..8] == ToLe64(si.assetId);
    assert b[8..40] == si.pk;
    assert b[40..72] == si.sk;
    assert b[72..104] == si.rho;
    assert b[104..136] == si.voidNumber;
    assert b[136..168] == si.ecsk;
    FromLe64OfToLe64(si.assetId);
  }

  lemma ParseEncodeFullReceiver(fr: FullReceiver, rest: seq<uint8>)
    ensures ParseFullReceiver(EncodeFullReceiver(fr) + rest) == fr
  {
    var b := EncodeFullReceiver(fr) + rest;
    assert b == EncodeShieldedAddress(fr.shieldedAddress) + (EncodeSpendingInfo(fr.spendingInfo) + rest);
    assert b[136..] == EncodeSpendingInfo(fr.spendingInfo) + rest;
    ParseEncodeShieldedAddress(fr.shieldedAddress, EncodeSpendingInfo(fr.spendingInfo) + rest);
    ParseEncodeSpendingInfo(fr.spendingInfo, rest);
  }

  lemma ParseEncodeProcessedReceiver(p: ProcessedReceiver, rest: seq<uint8>)
    ensures ParseProcessedReceiver(EncodeProcessedReceiver(p) + rest) == p
  {
    var b := EncodeProcessedReceiver(p) + rest;
    assert b[0..32] == p.utxo;
    assert b[32..40] == ToLe64(p.value);
    assert b[40..72] == p.senderPk;
    assert b[72..88] == p.ciphertext;
    assert b[88..] == EncodeShieldedAddress(p.preparedData) + rest;
    FromLe64OfToLe64(p.value);
    ParseEncodeShieldedAddress(p.preparedData, rest);
  }

  // Conversely, every long enough input is the layout of what is read from it.

  lemma EncodeParsePubInfo(b: seq<uint8>)
    requires |b| >= PubInfoSize
    ensures EncodePubInfo(ParsePubInfo(b)) == b[..PubInfoSize]
  {
  }

  lemma EncodeParsePrivInfo(b: seq<uint8>)
    requires |b| >= PrivInfoSize
    ensures EncodePrivInfo(ParsePrivInfo(b)) == b[..PrivInfoSize]
  {
    ToLe64OfFromLe64(b[0..8]);
    assert b[..40] == b[0..8] + b[8..40];
  }

  lemma EncodeParseAsset(b: seq<uint8>)
    requires |b| >= AssetSize
    ensures EncodeAsset(ParseAsset(b)) == b[..AssetSize]
  {
    ToLe64OfFromLe64(b[0..8]);
    EncodeParsePubInfo(b[72..]);
    EncodeParsePrivInfo(b[232..]);
    assert b[72..][..160] == b[72..232];
    assert b[232..][..40] == b[232..272];
    assert b[..272] == b[0..8] + b[8..40] + b[40..72] + b[72..232] + b[232..272];
  }

  lemma EncodeParseShieldedAddress(b: seq<uint8>)
    requires |b| >= ShieldedAddressSize
    ensures EncodeShieldedAddress(ParseShieldedAddress(b)) == b[..ShieldedAddressSize]
  {
    ToLe64OfFromLe64(b[0..8]);
    assert b[..136] == b[0..8] + b[8..40] + b[40..72] + b[72..104] + b[104..136];
  }

  lemma EncodeParseSpendingInfo(b: seq<uint8>)
    requires |b| >= SpendingInfoSize
    ensures EncodeSpendingInfo(ParseSpendingInfo(b)) == b[..SpendingInfoSize]
  {
    ToLe64OfFromLe64(b[0..8]);
    assert b[..168] == b[0..8] + b[8..40] + b[40..72] + b[72..104] + b[104..136] + b[136..168];
  }

  lemma EncodeParseFullReceiver(b: seq<uint8>)
    requires |b| >= FullReceiverSize
    ensures EncodeFullReceiver(ParseFullReceiver(b)) == b[..FullReceiverSize]
  {
    EncodeParseShieldedAddress(b);
    EncodeParseSpendingInfo(b[136..]);
    assert b[136..][..168] == b[136..304];
    assert b[..304] == b[..136] + b[136..304];
  }

  lemma EncodeParseProcessedReceiver(b: seq<uint8>)
    requires |b| >= ProcessedReceiverSize
    ensures EncodeProcessedReceiver(ParseProcessedReceiver(b)) == b[..ProcessedReceiverSize]
  {
    ToLe64OfFromLe64(b[32..40]);
    EncodeParseShieldedAddress(b[88..]);
    assert b[88..][..136] == b[88..224];
    assert b[..224] == b[0..32] + b[32..40] + b[40..72] + b[72..88] + b[88..224];
  }

  // ---------------------------------------------------------------------------
  // Decoding from a byte slice, as a specification

  /**
   * What deserialising an asset from `input` yields: a short input is an unexpected end
   * of input; otherwise the asset read is returned only if the sanity check accepts it.
   */
  function DecodeAsset(prims: Primitives, param: CommitParam, input: seq<uint8>): (r: Result<MantaAsset, Error>)
    ensures r == Err(UnexpectedEof) <==> |input| < AssetSize
    ensures r == Err(SanityCheckFail) <==>
      |input| >= AssetSize && AssetSanity(prims, param, ParseAsset(input)) == Ok(false)
    ensures r.Ok? ==> EncodeAsset(r.value) == input[..AssetSize] && AssetSanity(prims, param, r.value) == Ok(true)
  {
    if |input| < AssetSize then Err(UnexpectedEof)
    else
      var asset := ParseAsset(input);
      var sane :- AssetSanity(prims, param, asset);
      EncodeParseAsset(input);
      if !sane then Err(SanityCheckFail) else Ok(asset)
  }

  /** What deserialising a full receiver from `input` yields, gated by the receiver check. */
  function DecodeFullReceiver(prims: Primitives, param: CommitParam, input: seq<uint8>): (r: Result<FullReceiver, Error>)
    ensures r == Err(UnexpectedEof) <==> |input| < FullReceiverSize
    ensures r == Err(SanityCheckFail) <==>
      |input| >= FullReceiverSize && ReceiverSanity(prims, param, ParseFullReceiver(input)) == Ok(false)
    ensures r.Ok? ==>
      EncodeFullReceiver(r.value) == input[..FullReceiverSize] && ReceiverSanity(prims, param, r.value) == Ok(true)
  {
    if |input| < FullReceiverSize then Err(UnexpectedEof)
    else
      var receiver := ParseFullReceiver(input);
      var sane :- ReceiverSanity(prims, param, receiver);
      EncodeParseFullReceiver(input);
      if !sane then Err(SanityCheckFail) else Ok(receiver)
  }

  /** What deserialising a processed receiver from `input` yields: no sanity gate. */
  function DecodeProcessedReceiver(input: seq<uint8>): (r: Result<ProcessedReceiver, Error>)
    ensures r.Err? <==> |input| < ProcessedReceiverSize
    ensures r.Err? ==> r.error == UnexpectedEof
    ensures r.Ok? ==> EncodeProcessedReceiver(r.value) == input[..ProcessedReceiverSize]
  {
    if |input| < ProcessedReceiverSize then Err(UnexpectedEof)
    else
      EncodeParseProcessedReceiver(input);
      Ok(ParseProcessedReceiver(input))
  }

  /**
   * Encoding then decoding an asset gives it back exactly when it is sane, is rejected
   * as a sanity failure when the check says `false`, and passes a primitive's error on.
   * Bytes after the encoding are ignored.
   */
  lemma DecodeEncodeAsset(prims: Primitives, param: CommitParam, a: MantaAsset, rest: seq<uint8>)
    ensures AssetSanity(prims, param, a) == Ok(true) ==> DecodeAsset(prims, param, EncodeAsset(a) + rest) == Ok(a)
    ensures AssetSanity(prims, param, a) == Ok(false) ==>
      DecodeAsset(prims, param, EncodeAsset(a) + rest) == Err(SanityCheckFail)
    ensures AssetSanity(prims, param, a).Err? ==>
      DecodeAsset(prims, param, EncodeAsset(a) + rest) == Err(AssetSanity(prims, param, a).error)
  {
    ParseEncodeAsset(a, rest);
  }

  /** The same round trip for a full receiver, gated by the receiver check. */
  lemma DecodeEncodeFullReceiver(prims: Primitives, param: CommitParam, fr: FullReceiver, rest: seq<uint8>)
    ensures ReceiverSanity(prims, param, fr) == Ok(true) ==>
      DecodeFullReceiver(prims, param, EncodeFullReceiver(fr) + rest) == Ok(fr)
    ensures ReceiverSanity(prims, param, fr) == Ok(false) ==>
      DecodeFullReceiver(prims, param, EncodeFullReceiver(fr) + rest) == Err(SanityCheckFail)
    ensures ReceiverSanity(prims, param, fr).Err? ==>
      DecodeFullReceiver(prims, param, EncodeFullReceiver(fr) + rest) == Err(ReceiverSanity(prims, param, fr).error)
  {
    ParseEncodeFullReceiver(fr, rest);
  }

  /** Every processed receiver round-trips. */
  lemma DecodeEncodeProcessedReceiver(p: ProcessedReceiver, rest: seq<uint8>)
    ensures DecodeProcessedReceiver(EncodeProcessedReceiver(p) + rest) == Ok(p)
  {
    ParseEncodeProcessedReceiver(p, rest);
  }

  /** The defaults deserialisation starts from are exactly what all-zero input reads as. */
  lemma DefaultsAreZeroLayouts()
    ensures EncodePubInfo(DefaultPubInfo) == Zeros(PubInfoSize)
    ensures EncodePrivInfo(DefaultPrivInfo) == Zeros(PrivInfoSize)
    ensures EncodeAsset(DefaultAsset) == Zeros(AssetSize)
    ensures EncodeShieldedAddress(DefaultShieldedAddress) == Zeros(ShieldedAddressSize)
    ensures EncodeSpendingInfo(DefaultSpendingInfo) == Zeros(SpendingInfoSize)
    ensures EncodeFullReceiver(DefaultFullReceiver) == Zeros(FullReceiverSize)
    ensures EncodeProcessedReceiver(DefaultProcessedReceiver) == Zeros(ProcessedReceiverSize)
  {
  }

  // ---------------------------------------------------------------------------
  // Serialisers: write the fields one after the other

  method SerializePubInfo(p: PubInfo, w: ByteWriter)
    modifies w
    ensures w.buf == old(w.buf) + EncodePubInfo(p)
  {
    w.WriteAll(p.pk);
    w.WriteAll(p.rho);
    w.WriteAll(p.s);
    w.WriteAll(p.r);
    w.WriteAll(p.k);
  }

  method SerializePrivInfo(p: PrivInfo, w: ByteWriter)
    modifies w
    ensures w.buf == old(w.buf) + EncodePrivInfo(p)
  {
    w.WriteAll(ToLe64(p.value));
    w.WriteAll(p.sk);
  }

  method SerializeAsset(a: MantaAsset, w: ByteWriter)
    modifies w
    ensures w.buf == old(w.buf) + EncodeAsset(a)
  {
    w.WriteAll(ToLe64(a.assetId));
    w.WriteAll(a.utxo);
    w.WriteAll(a.voidNumber);
    SerializePubInfo(a.pubInfo, w);
    SerializePrivInfo(a.privInfo, w);
  }

  method SerializeShieldedAddress(sa: ShieldedAddress, w: ByteWriter)
    modifies w
    ensures w.buf == old(w.buf) + EncodeShieldedAddress(sa)
  {
    w.WriteAll(ToLe64(sa.assetId));
    w.WriteAll(sa.k);
    w.WriteAll(sa.s);
    w.WriteAll(sa.r);
    w.WriteAll(sa.ecpk);
  }

  method SerializeSpendingInfo(si: SpendingInfo, w: ByteWriter)
    modifies w
    ensures w.buf == old(w.buf) + EncodeSpendingInfo(si)
  {
    w.WriteAll(ToLe64(si.assetId));
    w.WriteAll(si.pk);
    w.WriteAll(si.sk);
    w.WriteAll(si.rho);
    w.WriteAll(si.voidNumber);
    w.WriteAll(si.ecsk);
  }

  method SerializeFullReceiver(fr: FullReceiver, w: ByteWriter)
    modifies w
    ensures w.buf == old(w.buf) + EncodeFullReceiver(fr)
  {
    SerializeShieldedAddress(fr.shieldedAddress, w);
    SerializeSpendingInfo(fr.spendingInfo, w);
  }

  method SerializeProcessedReceiver(p: ProcessedReceiver, w: ByteWriter)
    modifies w
    ensures w.buf == old(w.buf) + EncodeProcessedReceiver(p)
  {
    w.WriteAll(p.utxo);
    w.WriteAll(ToLe64(p.value));
    w.WriteAll(p.senderPk);
    w.WriteAll(p.ciphertext);
    SerializeShieldedAddress(p.preparedData, w);
  }

  // ---------------------------------------------------------------------------
  // Deserialisers: start from the default and fill the fields in order from a reader

  method DeserializePubInfo(rd: ByteReader) returns (r: Result<PubInfo, Error>)
    requires rd.Valid()
    modifies rd
    ensures rd.Valid() && old(rd.pos) <= rd.pos
    ensures r.Ok? <==> old(rd.pos) + PubInfoSize <= |rd.data|
    ensures r.Ok? ==> r.value == ParsePubInfo(rd.data[old(rd.pos)..]) && rd.pos == old(rd.pos) + PubInfoSize
    ensures r.Err? ==> r.error == UnexpectedEof
  {
    ghost var b := rd.data[rd.pos..];
    var info := DefaultPubInfo;
    var pk :- rd.ReadExact(32);
    info := info.(pk := pk);
    var rho :- rd.ReadExact(32);
    info := info.(rho := rho);
    var s :- rd.ReadExact(32);
    info := info.(s := s);
    var rr :- rd.ReadExact(32);
    info := info.(r := rr);
    var k :- rd.ReadExact(32);
    info := info.(k := k);
    assert info == ParsePubInfo(b);
    return Ok(info);
  }

  method DeserializePrivInfo(rd: ByteReader) returns (r: Result<PrivInfo, Error>)
    requires rd.Valid()
    modifies rd
    ensures rd.Valid() && old(rd.pos) <= rd.pos
    ensures r.Ok? <==> old(rd.pos) + PrivInfoSize <= |rd.data|
    ensures r.Ok? ==> r.value == ParsePrivInfo(rd.data[old(rd.pos)..]) && rd.pos == old(rd.pos) + PrivInfoSize
    ensures r.Err? ==> r.error == UnexpectedEof
  {
    ghost var b := rd.data[rd.pos..];
    var info := DefaultPrivInfo;
    var valueBytes :- rd.ReadExact(8);
    assert valueBytes == b[0..8];
    info := info.(value := FromLe64(valueBytes));
    var sk :- rd.ReadExact(32);
    info := info.(sk := sk);
    assert info == ParsePrivInfo(b);
    return Ok(info);
  }

  method DeserializeShieldedAddress(rd: ByteReader) returns (r: Result<ShieldedAddress, Error>)
    requires rd.Valid()
    modifies rd
    ensures rd.Valid() && old(rd.pos) <= rd.pos
    ensures r.Ok? <==> old(rd.pos) + ShieldedAddressSize <= |rd.data|
    ensures r.Ok? ==>
      r.value == ParseShieldedAddress(rd.data[old(rd.pos)..]) && rd.pos == old(rd.pos) + ShieldedAddressSize
    ensures r.Err? ==> r.error == UnexpectedEof
  {
    ghost var b := rd.data[rd.pos..];
    var sa := DefaultShieldedAddress;
    var idBytes :- rd.ReadExact(8);
    assert idBytes == b[0..8];
    sa := sa.(assetId := FromLe64(idBytes));
    var k :- rd.ReadExact(32);
    sa := sa.(k := k);
    var s :- rd.ReadExact(32);
    sa := sa.(s := s);
    var rr :- rd.ReadExact(32);
    sa := sa.(r := rr);
    var ecpk :- rd.ReadExact(32);
    sa := sa.(ecpk := ecpk);
    assert sa == ParseShieldedAddress(b);
    return Ok(sa);
  }

  method DeserializeSpendingInfo(rd: ByteReader) returns (r: Result<SpendingInfo, Error>)
    requires rd.Valid()
    modifies rd
    ensures rd.Valid() && old(rd.pos) <= rd.pos
    ensures r.Ok? <==> old(rd.pos) + SpendingInfoSize <= |rd.data|
    ensures r.Ok? ==>
      r.value == ParseSpendingInfo(rd.data[old(rd.pos)..]) && rd.pos == old(rd.pos) + SpendingInfoSize
    ensures r.Err? ==> r.error == UnexpectedEof
  {
    ghost var b := rd.data[rd.pos..];
    var si := DefaultSpendingInfo;
    var idBytes :- rd.ReadExact(8);
    assert idBytes == b[0..8];
    si := si.(assetId := FromLe64(idBytes));
    var pk :- rd.ReadExact(32);
    si := si.(pk := pk);
    var sk :- rd.ReadExact(32);
    si := si.(sk := sk);
    var rho :- rd.ReadExact(32);
    si := si.(rho := rho);
    var voidNumber :- rd.ReadExact(32);
    si := si.(voidNumber := voidNumber);
    var ecsk :- rd.ReadExact(32);
    si := si.(ecsk := ecsk);
    assert si == ParseSpendingInfo(b);
    return Ok(si);
  }

  /**
   * `MantaAsset::deserialize` over a byte slice, with `param` the loaded commitment
   * parameter: read every field, then reject the asset unless the sanity check accepts it.
   */
  method DeserializeAsset(prims: Primitives, param: CommitParam, input: seq<uint8>) returns (r: Result<MantaAsset, Error>)
    ensures r == DecodeAsset(prims, param, input)
  {
    var rd := new ByteReader(input);
    var asset := DefaultAsset;
    var idBytes :- rd.ReadExact(8);
    asset := asset.(assetId := FromLe64(idBytes));
    var utxo :- rd.ReadExact(32);
    asset := asset.(utxo := utxo);
    var voidNumber :- rd.ReadExact(32);
    asset := asset.(voidNumber := voidNumber);
    var pubInfo :- DeserializePubInfo(rd);
    asset := asset.(pubInfo := pubInfo);
    var privInfo :- DeserializePrivInfo(rd);
    asset := asset.(privInfo := privInfo);
    assert asset == ParseAsset(input);
    var sane :- AssetSanity(prims, param, asset);
    if !sane {
      return Err(SanityCheckFail);
    }
    return Ok(asset);
  }

  /** `MantaAssetFullReceiver::deserialize` over a byte slice, gated by the receiver check. */
  method DeserializeFullReceiver(prims: Primitives, param: CommitParam, input: seq<uint8>)
    returns (r: Result<FullReceiver, Error>)
    ensures r == DecodeFullReceiver(prims, param, input)
  {
    var rd := new ByteReader(input);
    var shieldedAddress :- DeserializeShieldedAddress(rd);
    var spendingInfo :- DeserializeSpendingInfo(rd);
    var receiver := FullReceiver(shieldedAddress, spendingInfo);
    assert receiver == ParseFullReceiver(input);
    var sane :- ReceiverSanity(prims, param, receiver);
    if !sane {
      return Err(SanityCheckFail);
    }
    return Ok(receiver);
  }

  /** `MantaAssetProcessedReceiver::deserialize` over a byte slice. */
  method DeserializeProcessedReceiver(input: seq<uint8>) returns (r: Result<ProcessedReceiver, Error>)
    ensures r == DecodeProcessedReceiver(input)
  {
    var rd := new ByteReader(input);
    var receiver := DefaultProcessedReceiver;
    var utxo :- rd.ReadExact(32);
    receiver := receiver.(utxo := utxo);
    var valueBytes :- rd.ReadExact(8);
    receiver := receiver.(value := FromLe64(valueBytes));
    var senderPk :- rd.ReadExact(32);
    receiver := receiver.(senderPk := senderPk);
    var ciphertext :- rd.ReadExact(16);
    receiver := receiver.(ciphertext := ciphertext);
    var preparedData :- DeserializeShieldedAddress(rd);
    receiver := receiver.(preparedData := preparedData);
    assert receiver == ParseProcessedReceiver(input);
    return Ok(receiver);
  }
}
