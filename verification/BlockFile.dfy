/** `load_blocks`, `save_block` and `save_blocks` of python/src/truncate_blocks.py, on the bytes of the file. */
module BlockFiles {
  import opened Common
  import opened Serial
  import opened Wire
  import BlockSpec

  function Encoded(blocks: seq<Block>): Bytes {
    SerAll(SerBlock, blocks)
  }

  /** The blocks at the front of a byte string, up to the first that cannot be read. */
  function Decoded(bs: Bytes): seq<Block>
    decreases |bs|
  {
    match ParseBlock(bs)
    case Fail => []
    case Ok(b, rest) => BlockConsumes(bs); [b] + Decoded(rest)
  }

  lemma {:induction false} NothingParsesFromNothing()
    ensures ParseBlock([]).Fail?
  {
    assert ParseInt32([]).Fail?;
  }

  /** Blocks written one after the other are read back; what cannot be read ends the list. */
  lemma {:induction false} DecodedOfEncoded(blocks: seq<Block>, junk: Bytes)
    requires ParseBlock(junk).Fail?
    ensures Decoded(Encoded(blocks) + junk) == blocks
  {
    if blocks == [] {
      assert Encoded(blocks) + junk == junk;
    } else {
      EncodedSplits(blocks, junk);
      DecodedStep(blocks[0], Encoded(blocks[1..]) + junk);
      DecodedOfEncoded(blocks[1..], junk);
      assert [blocks[0]] + blocks[1..] == blocks;
    }
  }

  lemma {:induction false} EncodedSplits(blocks: seq<Block>, junk: Bytes)
    requires blocks != []
    ensures Encoded(blocks) + junk == SerBlock(blocks[0]) + (Encoded(blocks[1..]) + junk)
  {
    Append3(SerBlock(blocks[0]), Encoded(blocks[1..]), junk);
  }

  lemma {:induction false} DecodedStep(b: Block, tail: Bytes)
    ensures Decoded(SerBlock(b) + tail) == [b] + Decoded(tail)
  {
    BlockRoundTrip(b, tail);
  }

  /** `load_blocks(save_blocks(blocks))` is `blocks`. */
  lemma {:induction false} LoadOfSaved(blocks: seq<Block>)
    ensures Decoded(Encoded(blocks)) == blocks
  {
    NothingParsesFromNothing();
    DecodedOfEncoded(blocks, []);
    assert Encoded(blocks) + [] == Encoded(blocks);
  }

  lemma {:induction false} EncodedOfOneMore(blocks: seq<Block>, block: Block)
    ensures Encoded(blocks + [block]) == Encoded(blocks) + SerBlock(block)
  {
    SerAllAppend(SerBlock, blocks, [block]);
    assert SerAll(SerBlock, [block]) == SerBlock(block) + SerAll(SerBlock, []);
    assert SerAll(SerBlock, [block]) == SerBlock(block);
  }

  /** The offset at which block `k` was written finds that block again. */
  lemma {:induction false} OffsetFindsBlock(blocks: seq<Block>, k: nat)
    requires k < |blocks|
    ensures |Encoded(blocks[..k])| <= |Encoded(blocks)|
    ensures ParseBlock(Encoded(blocks)[|Encoded(blocks[..k])|..]) == Ok(blocks[k], Encoded(blocks[k + 1..]))
  {
    assert blocks == blocks[..k] + blocks[k..];
    SerAllAppend(SerBlock, blocks[..k], blocks[k..]);
    assert Encoded(blocks)[|Encoded(blocks[..k])|..] == Encoded(blocks[k..]);
    assert blocks[k..][1..] == blocks[k + 1..];
    BlockRoundTrip(blocks[k], Encoded(blocks[k + 1..]));
  }

  /** The manager's blocks have the sizes of what `ser` writes for those of the file. */
  ghost predicate Sized<T>(ser: T -> Bytes, blocks: seq<T>, held: seq<BlockSpec.Block>) {
    |held| == |blocks| && forall i :: 0 <= i < |blocks| ==> held[i].size == |ser(blocks[i])|
  }

  lemma {:induction false} WrittenGrows<T>(ser: T -> Bytes, blocks: seq<T>, n: nat)
    requires 0 < n <= |blocks|
    ensures |SerAll(ser, blocks[..n])| == |SerAll(ser, blocks[..n - 1])| + |ser(blocks[n - 1])|
  {
    assert blocks[..n] == blocks[..n - 1] + [blocks[n - 1]];
    SerAllAppend(ser, blocks[..n - 1], [blocks[n - 1]]);
    assert SerAll(ser, [blocks[n - 1]]) == ser(blocks[n - 1]) + SerAll(ser, []);
  }

  /** The offsets in the manager's rows are offsets in the bytes of the file ... */
  lemma {:induction false} SizeIsOffset<T>(ser: T -> Bytes, blocks: seq<T>, held: seq<BlockSpec.Block>, n: nat)
    requires Sized(ser, blocks, held) && n <= |blocks|
    ensures BlockSpec.SizeTo(held, n) == |SerAll(ser, blocks[..n])|
  {
    if n > 0 {
      SizeIsOffset(ser, blocks, held, n - 1);
      WrittenGrows(ser, blocks, n);
    }
  }

  /** ... where each block is found again. */
  lemma {:induction false} RowFindsBlock(blocks: seq<Block>, held: seq<BlockSpec.Block>, k: nat)
    requires Sized(SerBlock, blocks, held) && k < |blocks|
    ensures BlockSpec.SizeTo(held, k) <= |Encoded(blocks)|
    ensures ParseBlock(Encoded(blocks)[BlockSpec.SizeTo(held, k)..]) == Ok(blocks[k], Encoded(blocks[k + 1..]))
  {
    SizeIsOffset(SerBlock, blocks, held, k);
    OffsetFindsBlock(blocks, k);
  }

  method SaveBlocks(blocks: seq<Block>) returns (file: Bytes)
    ensures file == Encoded(blocks)
    ensures Decoded(file) == blocks
  {
    file := [];
    for i := 0 to |blocks|
      invariant file == Encoded(blocks[..i])
    {
      assert blocks[..i + 1] == blocks[..i] + [blocks[i]];
      EncodedOfOneMore(blocks[..i], blocks[i]);
      file := file + SerBlock(blocks[i]);
    }
    assert blocks[..|blocks|] == blocks;
    LoadOfSaved(blocks);
  }

  /** Appending to a well-formed file: the new block is found at the old end of the file. */
  method SaveBlock(file: Bytes, block: Block) returns (file': Bytes)
    ensures file' == file + SerBlock(block)
    ensures forall blocks :: file == Encoded(blocks) ==> Decoded(file') == blocks + [block]
  {
    file' := file + SerBlock(block);
    forall blocks | file == Encoded(blocks) ensures Decoded(file') == blocks + [block] {
      EncodedOfOneMore(blocks, block);
      LoadOfSaved(blocks + [block]);
    }
  }

  lemma {:induction false} DecodedNext(bs: Bytes)
    requires ParseBlock(bs).Ok?
    ensures |ParseBlock(bs).rest| < |bs| && Decoded(bs) == [ParseBlock(bs).value] + Decoded(ParseBlock(bs).rest)
  {
    BlockConsumes(bs);
  }

  lemma {:induction false} DecodedEnds(bs: Bytes)
    requires ParseBlock(bs).Fail?
    ensures Decoded(bs) == []
  {
  }

  lemma {:induction false} AppendOne(a: seq<Block>, b: Block, c: seq<Block>)
    ensures a + ([b] + c) == a + [b] + c
  {
  }

  method LoadBlocks(file: Bytes) returns (blocks: seq<Block>)
    ensures blocks == Decoded(file)
  {
    var f := new ByteStream(file);
    blocks := [];
    ghost var all := Decoded(file);
    assert [] + all == all;
    while true
      invariant blocks + Decoded(f.rest) == all
      decreases |f.rest|
    {
      var block := ParseBlock(f.rest);
      if block.Fail? {
        DecodedEnds(f.rest);
        break;
      }
      DecodedNext(f.rest);
      AppendOne(blocks, block.value, Decoded(block.rest));
      blocks := blocks + [block.value];
      f.rest := block.rest;
    }
  }
}
