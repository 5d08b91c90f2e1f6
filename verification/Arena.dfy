/**
  The parser's bump allocator. Addresses are numbers; where the system allocator puts a new block is
  a parameter, and all that is known of it is that the block is free.
*/
module Arena {
  import opened Arithmetic

  const BLOCK_SIZE := 65536

  /** The data area of a block; its header lies outside it. */
  datatype Block = Block(data: nat, cap: nat)

  datatype Piece = Piece(at: nat, size: nat)

  /** Rounding up with a mask, as the code does it: adding and then clearing the low bits. */
  function AlignUp(x: nat, align: nat): (r: int)
    requires align > 0
  {
    x + (align - 1) - BitAnd(x + (align - 1), align - 1)
  }

  lemma {:induction false} AlignUpIs(x: nat, align: nat)
    requires PowerOfTwo(align)
    ensures x <= AlignUp(x, align) < x + align && AlignUp(x, align) % align == 0
  {
    hide BitAnd;
    assert align > 0;
    MaskIsRemainder(x + (align - 1), align);
    RoundDown(x + (align - 1), align);
  }

  lemma RoundDown(y: nat, m: nat)
    requires m > 0
    ensures (y - y % m) % m == 0 && 0 <= y % m < m
  {
    var q, r := y / m, y % m;
    assert y == m * q + r;
    QuotientAndRest(m * q, m, q, 0);
  }

  predicate Within(p: Piece, b: Block)
  {
    b.data <= p.at && p.at + p.size <= b.data + b.cap
  }

  predicate Apart(p: Piece, q: Piece)
  {
    p.at + p.size <= q.at || q.at + q.size <= p.at
  }

  /** Does `b` keep clear of the blocks in use? */
  predicate Free(b: Block, blocks: seq<Block>)
  {
    forall c :: c in blocks ==> b.data + b.cap <= c.data || c.data + c.cap <= b.data
  }

  predicate InSome(p: Piece, blocks: seq<Block>)
  {
    exists b :: b in blocks && Within(p, b)
  }

  /** How large the new block for a request is. */
  function BlockSizeFor(size: nat, align: nat): nat
    requires align > 0
  {
    if size > BLOCK_SIZE / 2 then size + (align - 1) else BLOCK_SIZE
  }

  function AtLeast8(align: nat): nat
  {
    if align < 8 then 8 else align
  }

  /** Large requests bring the room for their padding with them; a small one must fit a block together with its padding. */
  predicate RoomFor(size: nat, align: nat)
  {
    size > BLOCK_SIZE / 2 || size + align <= BLOCK_SIZE + 1
  }

  class Arena {
    var blocks: seq<Block>   // newest first
    var ptr: nat
    var end: nat
    ghost var given: seq<Piece>

    constructor ()
      ensures Valid() && blocks == [] && given == []
    {
      blocks, ptr, end, given := [], 0, 0, [];
    }

    /** Blocks are apart, pieces are apart and lie in blocks, and the rest of the newest block is unused. */
    ghost predicate Valid()
      reads this
    {
      && BlocksApart(blocks) && AllApart(given) && AllInside(given, blocks)
      && (blocks == [] ==> ptr == 0 && end == 0)
      && (blocks != [] ==> blocks[0].data <= ptr <= end == blocks[0].data + blocks[0].cap && Clear(given, Piece(ptr, end - ptr)))
    }

    /**
      Every piece is aligned to at least 8, lies in a block, and is apart from all earlier ones; those stay
      where they are. `at` is where the system would put the data of a new block. The code does not look
      whether a new block has room: all is well exactly when the piece ends inside the newest block, and it
      always does when `RoomFor` says so.
    */
    method Alloc(size: nat, align: nat, at: nat) returns (p: nat)
      requires Valid() && PowerOfTwo(align) && Free(Block(at, BlockSizeFor(size, AtLeast8(align))), blocks)
      modifies this
      ensures given == old(given) + [Piece(p, size)] && p % AtLeast8(align) == 0
      ensures blocks == old(blocks) || blocks == [Block(at, BlockSizeFor(size, AtLeast8(align)))] + old(blocks)
      ensures blocks != [] && (Valid() <==> p + size <= blocks[0].data + blocks[0].cap)
      ensures RoomFor(size, AtLeast8(align)) ==> Valid()
      ensures p % align == 0 && p % 8 == 0
      ensures Valid() ==> blocks[0].data <= p
      ensures Valid() ==> forall q :: q in old(given) ==> q.at + q.size <= p || p + size <= q.at
    {
      hide BlocksApart, AllApart, AllInside, Clear, Free, AlignUp;
      var a := AtLeast8(align);
      assert PowerOfTwo(4) && PowerOfTwo(8);
      AlignUpIs(ptr, a);
      AlignUpIs(at, a);
      EightDivides(a, align);
      var aligned := AlignUp(ptr, a);
      if blocks != [] && aligned + size <= end {
        GiveFrom(given, blocks, Piece(ptr, end - ptr), Piece(aligned, size));
        LastApart(given, Piece(aligned, size));
        given := given + [Piece(aligned, size)];
        ptr := aligned + size;
        return aligned;
      }
      var cap := if size > BLOCK_SIZE / 2 then size + (a - 1) else BLOCK_SIZE;
      var newest := Block(at, cap);
      var start := AlignUp(at, a);
      NewBlock(given, blocks, newest);
      if start + size <= at + cap {
        GiveFrom(given, [newest] + blocks, Piece(at, cap), Piece(start, size));
      }
      LastApart(given, Piece(start, size));
      blocks := [newest] + blocks;
      given := given + [Piece(start, size)];
      ptr, end := start + size, at + cap;
      return start;
    }

    /** Everything is given back. */
    method FreeAll()
      modifies this
      ensures Valid() && blocks == [] && given == []
    {
      while blocks != []
        decreases |blocks|
      {
        blocks := blocks[1..];
      }
      ptr, end, given := 0, 0, [];
    }
  }

  predicate BlocksApart(blocks: seq<Block>)
  {
    blocks != [] ==> Free(blocks[0], blocks[1..]) && BlocksApart(blocks[1..])
  }

  predicate AllApart(given: seq<Piece>)
  {
    forall i, j :: 0 <= i < j < |given| ==> Apart(given[i], given[j])
  }

  predicate AllInside(given: seq<Piece>, blocks: seq<Block>)
  {
    forall i :: 0 <= i < |given| ==> InSome(given[i], blocks)
  }

  predicate Clear(given: seq<Piece>, p: Piece)
  {
    forall i :: 0 <= i < |given| ==> Apart(given[i], p)
  }

  /** A piece cut out of an unused stretch of the newest block. */
  lemma GiveFrom(given: seq<Piece>, blocks: seq<Block>, unused: Piece, p: Piece)
    requires AllApart(given) && AllInside(given, blocks) && Clear(given, unused)
    requires blocks != [] && Within(unused, blocks[0]) && unused.at <= p.at && p.at + p.size <= unused.at + unused.size
    ensures AllApart(given + [p]) && AllInside(given + [p], blocks)
    ensures Clear(given + [p], Piece(p.at + p.size, unused.at + unused.size - (p.at + p.size)))
  {
    assert blocks[0] in blocks && Within(p, blocks[0]);
  }

  lemma LastApart(given: seq<Piece>, p: Piece)
    ensures AllApart(given + [p]) ==> forall q :: q in given ==> q.at + q.size <= p.at || p.at + p.size <= q.at
  {
    forall q | AllApart(given + [p]) && q in given ensures q.at + q.size <= p.at || p.at + p.size <= q.at {
      var i :| 0 <= i < |given| && given[i] == q;
      var all := given + [p];
      assert all[i] == q && all[|given|] == p;
      assert Apart(all[i], all[|given|]);
    }
  }

  lemma {:induction false} NewBlock(given: seq<Piece>, blocks: seq<Block>, b: Block)
    requires AllInside(given, blocks) && Free(b, blocks) && BlocksApart(blocks)
    ensures AllInside(given, [b] + blocks) && Clear(given, Piece(b.data, b.cap)) && BlocksApart([b] + blocks)
  {
    assert ([b] + blocks)[1..] == blocks;
    forall i | 0 <= i < |given| ensures InSome(given[i], [b] + blocks) {
      assert InSome(given[i], blocks);
      var c :| c in blocks && Within(given[i], c);
      assert c in [b] + blocks;
    }
  }

  /**
    A new block has room for the request, wherever the system puts it, exactly when the padding and
    the request fit its capacity; large requests always do, small ones up to an alignment of 2^15.
  */
  lemma {:induction false} NewBlockHasRoom(size: nat, align: nat)
    requires PowerOfTwo(align)
    ensures (forall at: nat :: AlignUp(at, align) + size <= at + BlockSizeFor(size, align)) <==> RoomFor(size, align)
    ensures align <= BLOCK_SIZE / 2 ==> forall at: nat :: AlignUp(at, align) + size <= at + BlockSizeFor(size, align)
  {
    forall at: nat ensures at <= AlignUp(at, align) < at + align {
      AlignUpIs(at, align);
    }
    AlignUpIs(1, align);
    if align > 1 {
      assert AlignUp(1, align) % align == 0;
      OnlyMultiple(AlignUp(1, align), align);
    }
  }

  /** A request of 8 bytes at an alignment of a whole block: a new block need not have room for it. */
  lemma NoRoomForLargeAlignment()
    ensures PowerOfTwo(BLOCK_SIZE) && exists at: nat :: AlignUp(at, BLOCK_SIZE) + 8 > at + BlockSizeFor(8, BLOCK_SIZE)
  {
    hide AlignUp;
    assert PowerOfTwo(16) && PowerOfTwo(256);
    assert PowerOfTwo(4096) && PowerOfTwo(BLOCK_SIZE);
    NewBlockHasRoom(8, BLOCK_SIZE);
  }

  /** What is a multiple of the alignment in use is one of 8 and of the alignment asked for. */
  lemma {:induction false} EightDivides(a: nat, align: nat)
    requires PowerOfTwo(align) && a == AtLeast8(align)
    ensures align > 0 && a > 0
    ensures forall x: nat :: x % a == 0 ==> x % 8 == 0 && x % align == 0
  {
    assert PowerOfTwo(8) && PowerOfTwo(a);
    hide PowerOfTwo;
    PowerDivides(8, a);
    PowerDivides(align, a);
    forall x: nat | x % a == 0 ensures x % 8 == 0 && x % align == 0 {
      assert x == a * (x / a);
      MultipleOf(x, a, x / a, 8);
      MultipleOf(x, a, x / a, align);
    }
  }

  /** Between 1 and the alignment there is one multiple. */
  lemma OnlyMultiple(x: int, align: nat)
    requires align > 1 && 1 <= x <= align && x % align == 0
    ensures x == align
  {
    if x < align {
      QuotientAndRest(x, align, 0, x);
    }
  }
}
