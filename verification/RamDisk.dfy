/** The image-in-memory disk of the host-side inserter. */
module RamDisks {
  import opened Bytes

  /** The bytes of consecutive blocks, in order. */
  function Join(bs: seq<Block>): (r: seq<byte>)
    ensures |r| == BLOCK_SIZE * |bs|
  {
    if bs == [] then [] else Join(bs[..|bs| - 1]) + bs[|bs| - 1]
  }

  lemma JoinSnoc(bs: seq<Block>, b: Block)
    ensures Join(bs + [b]) == Join(bs) + b
  {
    assert (bs + [b])[..|bs|] == bs;
  }

  lemma JoinOne(b: Block)
    ensures Join([b]) == b
  {
    JoinSnoc([], b);
    assert [] + [b] == [b];
  }

  /** Block `k` of a run of blocks occupies bytes 512k to 512k+511 of their concatenation. */
  lemma {:induction false} JoinAt(bs: seq<Block>, k: nat)
    requires k < |bs|
    ensures Join(bs)[BLOCK_SIZE * k..BLOCK_SIZE * k + BLOCK_SIZE] == bs[k]
  {
    var n := |bs| - 1;
    if k < n {
      JoinAt(bs[..n], k);
      assert bs[..n][k] == bs[k];
      assert Join(bs)[BLOCK_SIZE * k..BLOCK_SIZE * k + BLOCK_SIZE]
          == Join(bs[..n])[BLOCK_SIZE * k..BLOCK_SIZE * k + BLOCK_SIZE];
    }
  }

  class RamDisk {
    const image: array<byte>
    ghost var blocks: seq<Block>

    ghost predicate Valid()
      reads this, image
    {
      && image.Length == BLOCK_SIZE * |blocks|
      && forall k | 0 <= k < |blocks| :: image[BLOCK_SIZE * k..BLOCK_SIZE * k + BLOCK_SIZE] == blocks[k]
    }

    method ReadBlocks(lba: nat, count: byte) returns (out: seq<byte>)
      requires Valid() && lba + count <= |blocks|
      ensures out == Join(blocks[lba..lba + count])
      ensures count == 1 ==> out == blocks[lba]
    {
      out := [];
      for i := 0 to count
        invariant out == Join(blocks[lba..lba + i])
      {
        assert image[BLOCK_SIZE * (lba + i)..BLOCK_SIZE * (lba + i) + BLOCK_SIZE] == blocks[lba + i];
        out := out + image[BLOCK_SIZE * (lba + i)..BLOCK_SIZE * (lba + i) + BLOCK_SIZE];
        assert blocks[lba..lba + i + 1] == blocks[lba..lba + i] + [blocks[lba + i]];
        JoinSnoc(blocks[lba..lba + i], blocks[lba + i]);
      }
      if count == 1 {
        assert blocks[lba..lba + 1] == [blocks[lba]];
        JoinOne(blocks[lba]);
      }
    }

    method WriteBlocks(ptr: seq<byte>, lba: nat, count: byte)
      requires Valid() && lba + count <= |blocks|
      requires |ptr| == BLOCK_SIZE * count
      modifies this, image
      ensures Valid() && |blocks| == old(|blocks|)
      ensures forall k | 0 <= k < |blocks| && !(lba <= k < lba + count) :: blocks[k] == old(blocks[k])
      ensures Join(blocks[lba..lba + count]) == ptr
      ensures count == 1 ==> blocks == old(blocks)[lba := ptr]
    {
      hide Valid, Join;
      for i := 0 to count
        invariant Valid() && |blocks| == old(|blocks|)
        invariant forall k | 0 <= k < |blocks| && !(lba <= k < lba + i) :: blocks[k] == old(blocks[k])
        invariant Join(blocks[lba..lba + i]) == ptr[..BLOCK_SIZE * i]
      {
        var chunk: Block := ptr[BLOCK_SIZE * i..BLOCK_SIZE * i + BLOCK_SIZE];
        ghost var before := blocks[lba..lba + i];
        WriteOne(chunk, lba + i);
        assert blocks[lba..lba + i + 1] == before + [chunk];
        JoinSnoc(before, chunk);
        assert ptr[..BLOCK_SIZE * (i + 1)] == ptr[..BLOCK_SIZE * i] + chunk;
      }
      assert ptr[..BLOCK_SIZE * count] == ptr;
      if count == 1 {
        assert blocks[lba..lba + 1] == [blocks[lba]];
        JoinOne(blocks[lba]);
        assert blocks == old(blocks)[lba := ptr];
      }
    }

    /** One `memcpy` of a block into the image. */
    method WriteOne(chunk: Block, at: nat)
      requires Valid() && at < |blocks|
      modifies this, image
      ensures Valid()
      ensures blocks == old(blocks)[at := chunk]
    {
      forall j | 0 <= j < BLOCK_SIZE {
        image[BLOCK_SIZE * at + j] := chunk[j];
      }
      blocks := blocks[at := chunk];
      forall k | 0 <= k < |blocks|
        ensures image[BLOCK_SIZE * k..BLOCK_SIZE * k + BLOCK_SIZE] == blocks[k]
      {
        if k != at {
          assert image[BLOCK_SIZE * k..BLOCK_SIZE * k + BLOCK_SIZE]
              == old(image[BLOCK_SIZE * k..BLOCK_SIZE * k + BLOCK_SIZE]);
        }
      }
    }
  }
}
