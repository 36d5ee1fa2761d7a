/**
 * The transaction and block objects of python/src/p2p_framework/object.py and their encodings.
 *
 * The field types state the ranges `struct.pack` demands, so `serialize` is total on these values.
 */
module Wire {
  import opened Common
  import opened Serial

  datatype OutPoint = OutPoint(hash: Uint256, n: Uint32)

  datatype TxIn = TxIn(prevout: OutPoint, scriptSig: Vector<Byte>, nSequence: Uint32)

  datatype TxOut = TxOut(nValue: Int64, scriptPubKey: Vector<Byte>)

  datatype Transaction =
    Transaction(nVersion: Int32, vin: Vector<TxIn>, vout: Vector<TxOut>, nLockTime: Uint32)

  datatype BlockHeader =
    BlockHeader(nVersion: Int32, hashPrevBlock: Uint256, hashMerkleRoot: Uint256,
                nTime: Uint32, nBits: Uint32, nNonce: Uint32)

  datatype Block = Block(header: BlockHeader, vtx: Vector<Transaction>)

  // ---- serialize ----

  function SerInt32(v: Int32): Bytes {
    Powers();
    SerInt(v, 4)
  }

  function SerInt64(v: Int64): Bytes {
    Powers();
    SerInt(v, 8)
  }

  function SerOutPoint(o: OutPoint): Bytes {
    LE(o.hash, 32) + LE(o.n, 4)
  }

  function SerTxIn(i: TxIn): Bytes {
    SerOutPoint(i.prevout) + (SerString(i.scriptSig) + LE(i.nSequence, 4))
  }

  function SerTxOut(o: TxOut): Bytes {
    SerInt64(o.nValue) + SerString(o.scriptPubKey)
  }

  function SerTransaction(t: Transaction): Bytes {
    SerInt32(t.nVersion) + (SerVector(SerTxIn, t.vin) + (SerVector(SerTxOut, t.vout) + LE(t.nLockTime, 4)))
  }

  function SerHeader(h: BlockHeader): Bytes {
    SerInt32(h.nVersion) +
    (LE(h.hashPrevBlock, 32) + (LE(h.hashMerkleRoot, 32) + (LE(h.nTime, 4) + (LE(h.nBits, 4) + LE(h.nNonce, 4)))))
  }

  function SerBlock(b: Block): Bytes {
    SerHeader(b.header) + SerVector(SerTransaction, b.vtx)
  }

  // ---- deserialize ----

  function ParseOutPoint(bs: Bytes): Parse<OutPoint> {
    var (hash, r0) :- ParseUint256(bs);
    var (n, r1) :- ParseUint32(r0);
    Ok(OutPoint(hash, n), r1)
  }

  function ParseTxIn(bs: Bytes): Parse<TxIn> {
    var (prevout, r0) :- ParseOutPoint(bs);
    var (script, r1) :- ParseString(r0);
    var (sequence, r2) :- ParseUint32(r1);
    Ok(TxIn(prevout, script, sequence), r2)
  }

  function ParseTxOut(bs: Bytes): Parse<TxOut> {
    var (value, r0) :- ParseInt64(bs);
    var (script, r1) :- ParseString(r0);
    Ok(TxOut(value, script), r1)
  }

  function ParseTransaction(bs: Bytes): Parse<Transaction> {
    var (version, r0) :- ParseInt32(bs);
    var (vin, r1) :- ParseVector(ParseTxIn, r0);
    var (vout, r2) :- ParseVector(ParseTxOut, r1);
    var (lockTime, r3) :- ParseUint32(r2);
    Ok(Transaction(version, vin, vout, lockTime), r3)
  }

  function ParseHeader(bs: Bytes): Parse<BlockHeader> {
    var (version, r0) :- ParseInt32(bs);
    var (prev, r1) :- ParseUint256(r0);
    var (root, r2) :- ParseUint256(r1);
    var (time, r3) :- ParseUint32(r2);
    var (bits, r4) :- ParseUint32(r3);
    var (nonce, r5) :- ParseUint32(r4);
    Ok(BlockHeader(version, prev, root, time, bits, nonce), r5)
  }

  function ParseBlock(bs: Bytes): Parse<Block> {
    var (header, r0) :- ParseHeader(bs);
    var (vtx, r1) :- ParseVector(ParseTransaction, r0);
    Ok(Block(header, vtx), r1)
  }

  // ---- every object is read back from its encoding, whatever follows it ----

  lemma {:induction false} Uint32RoundTrip(v: Uint32, rest: Bytes)
    ensures ParseUint32(LE(v, 4) + rest) == Ok(v, rest)
  {
    Powers();
    UintRoundTrip(v, 4, rest);
  }

  lemma {:induction false} Int32RoundTrip(v: Int32, rest: Bytes)
    ensures ParseInt32(SerInt32(v) + rest) == Ok(v, rest)
  {
    Powers();
    IntRoundTrip(v, 4, rest);
  }

  lemma {:induction false} Int64RoundTrip(v: Int64, rest: Bytes)
    ensures ParseInt64(SerInt64(v) + rest) == Ok(v, rest)
  {
    Powers();
    IntRoundTrip(v, 8, rest);
  }

  lemma {:induction false} Uint256RoundTrip(v: Uint256, rest: Bytes)
    ensures ParseUint256(LE(v, 32) + rest) == Ok(v, rest)
  {
    UintRoundTrip(v, 32, rest);
  }

  lemma {:induction false} OutPointRoundTrip(o: OutPoint, rest: Bytes)
    ensures ParseOutPoint(SerOutPoint(o) + rest) == Ok(o, rest)
  {
    Append3(LE(o.hash, 32), LE(o.n, 4), rest);
    Uint256RoundTrip(o.hash, LE(o.n, 4) + rest);
    Uint32RoundTrip(o.n, rest);
  }

  lemma {:induction false} TxInRoundTrip(i: TxIn)
    ensures RoundTrips(SerTxIn, ParseTxIn, i)
  {
    forall rest ensures ParseTxIn(SerTxIn(i) + rest) == Ok(i, rest) {
      var a, b, c := SerOutPoint(i.prevout), SerString(i.scriptSig), LE(i.nSequence, 4);
      Append3(a, b + c, rest);
      Append3(b, c, rest);
      OutPointRoundTrip(i.prevout, b + (c + rest));
      StringRoundTrip(i.scriptSig, c + rest);
      Uint32RoundTrip(i.nSequence, rest);
    }
  }

  lemma {:induction false} TxOutRoundTrip(o: TxOut)
    ensures RoundTrips(SerTxOut, ParseTxOut, o)
  {
    forall rest ensures ParseTxOut(SerTxOut(o) + rest) == Ok(o, rest) {
      Append3(SerInt64(o.nValue), SerString(o.scriptPubKey), rest);
      Int64RoundTrip(o.nValue, SerString(o.scriptPubKey) + rest);
      StringRoundTrip(o.scriptPubKey, rest);
    }
  }

  lemma {:induction false} TxInsRoundTrip(xs: Vector<TxIn>, rest: Bytes)
    ensures ParseVector(ParseTxIn, SerVector(SerTxIn, xs) + rest) == Ok(xs, rest)
  {
    forall x | x in xs ensures RoundTrips(SerTxIn, ParseTxIn, x) {
      TxInRoundTrip(x);
    }
    VectorRoundTrip(SerTxIn, ParseTxIn, xs, rest);
  }

  lemma {:induction false} TxOutsRoundTrip(xs: Vector<TxOut>, rest: Bytes)
    ensures ParseVector(ParseTxOut, SerVector(SerTxOut, xs) + rest) == Ok(xs, rest)
  {
    forall x | x in xs ensures RoundTrips(SerTxOut, ParseTxOut, x) {
      TxOutRoundTrip(x);
    }
    VectorRoundTrip(SerTxOut, ParseTxOut, xs, rest);
  }

  lemma {:induction false} TransactionRoundTrip(t: Transaction)
    ensures RoundTrips(SerTransaction, ParseTransaction, t)
  {
    forall rest ensures ParseTransaction(SerTransaction(t) + rest) == Ok(t, rest) {
      var a, b := SerInt32(t.nVersion), SerVector(SerTxIn, t.vin);
      var c, d := SerVector(SerTxOut, t.vout), LE(t.nLockTime, 4);
      Append3(a, b + (c + d), rest);
      Append3(b, c + d, rest);
      Append3(c, d, rest);
      Int32RoundTrip(t.nVersion, b + (c + (d + rest)));
      TxInsRoundTrip(t.vin, c + (d + rest));
      TxOutsRoundTrip(t.vout, d + rest);
      Uint32RoundTrip(t.nLockTime, rest);
    }
  }

  lemma {:induction false} HeaderRoundTrip(h: BlockHeader, rest: Bytes)
    ensures ParseHeader(SerHeader(h) + rest) == Ok(h, rest)
  {
    var a, b, c := SerInt32(h.nVersion), LE(h.hashPrevBlock, 32), LE(h.hashMerkleRoot, 32);
    var d, e, f := LE(h.nTime, 4), LE(h.nBits, 4), LE(h.nNonce, 4);
    Append3(a, b + (c + (d + (e + f))), rest);
    Append3(b, c + (d + (e + f)), rest);
    Append3(c, d + (e + f), rest);
    Append3(d, e + f, rest);
    Append3(e, f, rest);
    Int32RoundTrip(h.nVersion, b + (c + (d + (e + (f + rest)))));
    Uint256RoundTrip(h.hashPrevBlock, c + (d + (e + (f + rest))));
    Uint256RoundTrip(h.hashMerkleRoot, d + (e + (f + rest)));
    Uint32RoundTrip(h.nTime, e + (f + rest));
    Uint32RoundTrip(h.nBits, f + rest);
    Uint32RoundTrip(h.nNonce, rest);
  }

  /** `deserialize` undoes `serialize` and leaves exactly what followed the block. */
  lemma {:induction false} BlockRoundTrip(b: Block, rest: Bytes)
    ensures ParseBlock(SerBlock(b) + rest) == Ok(b, rest)
  {
    var vtx := SerVector(SerTransaction, b.vtx);
    Append3(SerHeader(b.header), vtx, rest);
    HeaderRoundTrip(b.header, vtx + rest);
    forall t | t in b.vtx ensures RoundTrips(SerTransaction, ParseTransaction, t) {
      TransactionRoundTrip(t);
    }
    VectorRoundTrip(SerTransaction, ParseTransaction, b.vtx, rest);
  }

  // ---- where the fields lie ----

  lemma {:induction false} After(a: Bytes, rest: Bytes)
    ensures (a + rest)[|a|..] == rest && (a + rest)[..|a|] == a
  {
  }

  lemma {:induction false} LastUint32(v: Uint32)
    ensures ParseUint32(LE(v, 4)) == Ok(v, [])
  {
    assert LE(v, 4) + [] == LE(v, 4);
    Uint32RoundTrip(v, []);
  }

  /** The hash in the first 32 bytes, the index in the four after them. */
  lemma {:induction false} OutPointLayout(o: OutPoint)
    ensures var bs := SerOutPoint(o);
      |bs| == 36 && ParseUint256(bs) == Ok(o.hash, bs[32..]) && ParseUint32(bs[32..]) == Ok(o.n, [])
  {
    var a, b := LE(o.hash, 32), LE(o.n, 4);
    After(a, b);
    Uint256RoundTrip(o.hash, b);
    LastUint32(o.n);
  }

  /** An input is its outpoint, its script and its sequence number, in that order. */
  lemma {:induction false} TxInLayout(i: TxIn)
    ensures var bs := SerTxIn(i);
      && |bs| >= 40 && bs[..36] == SerOutPoint(i.prevout)
      && bs[36..|bs| - 4] == SerString(i.scriptSig) && ParseUint32(bs[|bs| - 4..]) == Ok(i.nSequence, [])
  {
    var c := LE(i.nSequence, 4);
    OutPointLayout(i.prevout);
    LastUint32(i.nSequence);
    ThreeParts(SerOutPoint(i.prevout), SerString(i.scriptSig), c);
  }

  lemma {:induction false} ThreeParts(a: Bytes, b: Bytes, c: Bytes)
    ensures var bs := a + (b + c);
      |bs| == |a| + |b| + |c| && bs[..|a|] == a && bs[|a|..|bs| - |c|] == b && bs[|bs| - |c|..] == c
  {
  }

  /** An output is its value, in eight bytes, and its script. */
  lemma {:induction false} TxOutLayout(o: TxOut)
    ensures var bs := SerTxOut(o);
      |bs| >= 8 && ParseInt64(bs) == Ok(o.nValue, bs[8..]) && bs[8..] == SerString(o.scriptPubKey)
  {
    After(SerInt64(o.nValue), SerString(o.scriptPubKey));
    Int64RoundTrip(o.nValue, SerString(o.scriptPubKey));
  }

  lemma {:induction false} Int32First(v: Int32, rest: Bytes)
    ensures var bs := SerInt32(v) + rest;
            |SerInt32(v)| == 4 && ParseInt32(bs) == Ok(v, bs[4..])
  {
    After(SerInt32(v), rest);
    Int32RoundTrip(v, rest);
  }

  /** A transaction is its version, its inputs, its outputs and its lock time, in that order. */
  lemma {:induction false} TransactionLayout(t: Transaction)
    ensures var bs, m := SerTransaction(t), 4 + |SerVector(SerTxIn, t.vin)|;
      && m <= |bs| - 4 && ParseInt32(bs) == Ok(t.nVersion, bs[4..])
      && bs[4..m] == SerVector(SerTxIn, t.vin) && bs[m..|bs| - 4] == SerVector(SerTxOut, t.vout)
      && ParseUint32(bs[|bs| - 4..]) == Ok(t.nLockTime, [])
  {
    var a, b, c, d := SerInt32(t.nVersion), SerVector(SerTxIn, t.vin), SerVector(SerTxOut, t.vout), LE(t.nLockTime, 4);
    Int32First(t.nVersion, b + (c + d));
    LastUint32(t.nLockTime);
    FourParts(SerTransaction(t), a, b, c, d);
  }

  lemma {:induction false} FourParts(bs: Bytes, a: Bytes, b: Bytes, c: Bytes, d: Bytes)
    requires bs == a + (b + (c + d)) && |a| == |d| == 4
    ensures var m := 4 + |b|;
      && m <= |bs| - 4 && bs[4..] == b + (c + d) && bs[4..m] == b
      && bs[m..|bs| - 4] == c && bs[|bs| - 4..] == d
  {
    var m := 4 + |b|;
    assert bs[m..] == c + d;
  }

  /** The 80 bytes of a header: version, previous hash, Merkle root, time, target and nonce. */
  lemma {:induction false} HeaderLayout(h: BlockHeader)
    ensures var bs := SerHeader(h);
      && |bs| == 80
      && ParseInt32(bs) == Ok(h.nVersion, bs[4..])
      && ParseUint256(bs[4..]) == Ok(h.hashPrevBlock, bs[36..])
      && ParseUint256(bs[36..]) == Ok(h.hashMerkleRoot, bs[68..])
      && ParseUint32(bs[68..]) == Ok(h.nTime, bs[72..])
      && ParseUint32(bs[72..]) == Ok(h.nBits, bs[76..])
      && ParseUint32(bs[76..]) == Ok(h.nNonce, [])
  {
    var a, b, c := SerInt32(h.nVersion), LE(h.hashPrevBlock, 32), LE(h.hashMerkleRoot, 32);
    var d, e, f := LE(h.nTime, 4), LE(h.nBits, 4), LE(h.nNonce, 4);
    SixParts(a, b, c, d, e, f);
    Int32RoundTrip(h.nVersion, b + (c + (d + (e + f))));
    Uint256RoundTrip(h.hashPrevBlock, c + (d + (e + f)));
    Uint256RoundTrip(h.hashMerkleRoot, d + (e + f));
    Uint32RoundTrip(h.nTime, e + f);
    Uint32RoundTrip(h.nBits, f);
    LastUint32(h.nNonce);
  }

  lemma {:induction false} SixParts(a: Bytes, b: Bytes, c: Bytes, d: Bytes, e: Bytes, f: Bytes)
    requires |a| == |d| == |e| == |f| == 4 && |b| == |c| == 32
    ensures var bs := a + (b + (c + (d + (e + f))));
      && |bs| == 80 && bs[4..] == b + (c + (d + (e + f))) && bs[36..] == c + (d + (e + f))
      && bs[68..] == d + (e + f) && bs[72..] == e + f && bs[76..] == f
  {
    After(a, b + (c + (d + (e + f))));
    After(b, c + (d + (e + f)));
    After(c, d + (e + f));
    After(d, e + f);
    After(e, f);
  }

  /** A block is its header and then its transactions. */
  lemma {:induction false} BlockLayout(b: Block)
    ensures var bs := SerBlock(b);
      |bs| >= 80 && bs[..80] == SerHeader(b.header) && bs[80..] == SerVector(SerTransaction, b.vtx)
  {
    HeaderLayout(b.header);
    After(SerHeader(b.header), SerVector(SerTransaction, b.vtx));
  }

  /** A header is read from any 80 bytes, and from no fewer. */
  lemma {:induction false} HeaderReadsIff(bs: Bytes)
    ensures ParseHeader(bs).Ok? <==> |bs| >= 80
  {
  }

  /** No encoding is the beginning of another: two streams of blocks that agree, agree block by block. */
  lemma {:induction false} BlockEncodingIsPrefixFree(b1: Block, rest1: Bytes, b2: Block, rest2: Bytes)
    requires SerBlock(b1) + rest1 == SerBlock(b2) + rest2
    ensures b1 == b2 && rest1 == rest2
  {
    BlockRoundTrip(b1, rest1);
    BlockRoundTrip(b2, rest2);
  }

  lemma {:induction false} VectorConsumes<T>(parse: Parser<T>, bs: Bytes)
    requires Consuming(parse)
    ensures ParseVector(parse, bs).Ok? ==> |ParseVector(parse, bs).rest| <= |bs|
  {
    if ParseCompactSize(bs).Ok? {
      AllConsumes(parse, ParseCompactSize(bs).value, ParseCompactSize(bs).rest);
    }
  }

  lemma {:induction false} TxInConsumes()
    ensures Consuming(ParseTxIn)
  {
  }

  lemma {:induction false} TxOutConsumes()
    ensures Consuming(ParseTxOut)
  {
  }

  lemma {:induction false} TransactionConsumes()
    ensures Consuming(ParseTransaction)
  {
    forall bs | ParseTransaction(bs).Ok? ensures |ParseTransaction(bs).rest| <= |bs| {
      TransactionShrinks(bs);
    }
  }

  lemma {:induction false} TransactionShrinks(bs: Bytes)
    requires ParseTransaction(bs).Ok?
    ensures |ParseTransaction(bs).rest| <= |bs|
  {
    var r0 := ParseInt32(bs).rest;
    var r1 := ParseVector(ParseTxIn, r0).rest;
    var r2 := ParseVector(ParseTxOut, r1).rest;
    assert |r0| <= |bs|;
    TxInConsumes();
    VectorConsumes(ParseTxIn, r0);
    TxOutConsumes();
    VectorConsumes(ParseTxOut, r1);
    assert ParseTransaction(bs).rest == ParseUint32(r2).rest;
  }

  /** A block takes at least its 80 header bytes, so a reading loop makes progress. */
  lemma {:induction false} BlockConsumes(bs: Bytes)
    requires ParseBlock(bs).Ok?
    ensures |ParseBlock(bs).rest| + 80 <= |bs|
  {
    TransactionConsumes();
    VectorConsumes(ParseTransaction, ParseHeader(bs).rest);
  }
}
