/** The bump allocator of lib/names-hash.c: blocks are cut from buckets of fixed size. */
module IdAlloc {
  const BUCKET_SIZE := 8192
  /** Alignment and size of the header of a bucket, with 64-bit pointers. */
  const BUCKET_ALIGNMENT := 8
  const BUCKET_HEADER := 16

  /** The rounding of the source: a multiple of the alignment beyond n, never n itself. */
  function BucketAlign(n: nat): (r: nat)
    ensures r % BUCKET_ALIGNMENT == 0 && n < r <= n + BUCKET_ALIGNMENT
  {
    n + BUCKET_ALIGNMENT - n % BUCKET_ALIGNMENT
  }

  /** Where the first block of a bucket begins. */
  const FIRST := BucketAlign(BUCKET_HEADER)

  /** A block of memory: bucket number, offset and size. */
  datatype Block = Block(bucket: nat, pos: nat, size: nat)

  predicate Apart(x: Block, y: Block) {
    x.bucket != y.bucket || x.pos + x.size <= y.pos || y.pos + y.size <= x.pos
  }

  /** Aligned, and behind the header of its bucket. */
  predicate Placed(x: Block) {
    x.pos % BUCKET_ALIGNMENT == 0 && FIRST <= x.pos
  }

  predicate Inside(x: Block) {
    x.pos + x.size <= BUCKET_SIZE
  }

  /** A size for which a fresh bucket has room. */
  predicate Fits(size: nat) {
    size <= BUCKET_SIZE - FIRST
  }

  /** The largest size that fits is 8168; a block of one more byte ends outside its bucket. */
  lemma LargestFit(x: Block)
    requires Placed(x) && x.size == 8169
    ensures !Fits(x.size) && !Inside(x) && Fits(x.size - 1) && Inside(Block(x.bucket, FIRST, x.size - 1))
  {
  }

  class Allocator {
    /** Number of buckets; blocks are cut from the last one, which is used up to `full`. */
    var buckets: nat
    var full: nat
    /** The blocks handed out so far. */
    ghost var blocks: seq<Block>

    constructor ()
      ensures Valid() && blocks == []
    {
      buckets, full, blocks := 0, 0, [];
    }

    ghost predicate Valid()
      reads this
    {
      && (buckets > 0 ==> full % BUCKET_ALIGNMENT == 0 && FIRST <= full)
      && (forall x | x in blocks :: x.bucket < buckets && Placed(x) && (Inside(x) <==> Fits(x.size)))
      && (forall x | x in blocks && x.bucket == buckets - 1 :: x.pos + x.size <= full)
      && (forall i, j | 0 <= i < j < |blocks| :: Apart(blocks[i], blocks[j]))
    }

    /** Cuts a block. It is aligned and apart from all others, and inside its bucket
        exactly when its size fits a fresh one. */
    method Alloc(size: nat) returns (x: Block)
      requires Valid()
      modifies this
      ensures Valid() && blocks == old(blocks) + [x] && x.size == size
      ensures Placed(x) && (Inside(x) <==> Fits(size)) && forall y | y in old(blocks) :: Apart(x, y)
      ensures buckets == if old(buckets) > 0 && old(full) + size <= BUCKET_SIZE then old(buckets) else old(buckets) + 1
    {
      if buckets == 0 || full + size > BUCKET_SIZE {
        buckets := buckets + 1;
        full := BucketAlign(BUCKET_HEADER);
      }
      x := Block(buckets - 1, full, size);
      full := BucketAlign(full + size);
      blocks := blocks + [x];
    }

    /** Gives all buckets back. */
    method Free()
      modifies this
      ensures Valid() && blocks == [] && buckets == 0
    {
      buckets, full, blocks := 0, 0, [];
    }
  }
}
