/**
 The executable-memory allocator of sljit: chunks obtained from the system are
 tiled by blocks with boundary tags; free blocks hang on a doubly linked list,
 are split from the end on allocation and merged with both neighbours when
 released, and a chunk that is entirely free may be given back.

 Memory is a map from header addresses to header words.  Blocks are at least
 as long as a free-block header, so headers at different block addresses never
 overlap.
 */
module ExecAllocator {

  const HEADER: nat := 16        // sizeof(struct block_header)
  const FREE_HEADER: nat := 40   // sizeof(struct free_block)
  const CHUNK_SIZE: nat := 0x10000
  const MIN_BLOCK: nat := 56     // the aligned size of the smallest request

  /** A header in memory: the last three words are meaningful in free blocks only. */
  datatype Cell = Cell(size: nat, prevSize: nat, next: nat, prev: nat, freeSize: nat)

  /** A block as the allocator accounts for it; `chunk` is the start of its chunk. */
  datatype Blk = Blk(len: nat, free: bool, chunk: nat)

  type Blocks = map<nat, Blk>
  type Chunks = map<nat, nat>
  type Memory = map<nat, Cell>

  // ----- sums

  ghost function Sum(m: map<nat, nat>): nat
    decreases |m|
  {
    if m == map[] then 0
    else
      assert m.Keys != {};
      var a :| a in m.Keys;
      m[a] + Sum(m - {a})
  }

  lemma {:induction false} SumRemove(m: map<nat, nat>, a: nat)
    requires a in m
    ensures Sum(m) == m[a] + Sum(m - {a})
    decreases |m|
  {
    assert m.Keys != {};
    var b :| b in m.Keys && Sum(m) == m[b] + Sum(m - {b});
    if a != b {
      SumRemove(m - {b}, a);
      SumRemove(m - {a}, b);
      assert m - {b} - {a} == m - {a} - {b};
    }
  }

  lemma SumAdd(m: map<nat, nat>, a: nat, v: nat)
    requires a !in m
    ensures Sum(m[a := v]) == Sum(m) + v
  {
    SumRemove(m[a := v], a);
    assert m[a := v] - {a} == m;
  }

  /** The used blocks and their lengths. */
  ghost function Used(bs: Blocks): map<nat, nat> {
    map a | a in bs && !bs[a].free :: bs[a].len
  }

  // ----- what memory, blocks, chunks and the free list have to do with each other

  /** The block at `a` is properly tagged, and so is what follows and precedes it. */
  ghost predicate BlockOk(mem: Memory, bs: Blocks, cs: Chunks, a: nat)
    requires a in bs
  {
    var b := bs[a];
    && b.len >= MIN_BLOCK && b.chunk in cs
    && b.chunk <= a && a + b.len <= b.chunk + cs[b.chunk]
    && a in mem
    && (if b.free then mem[a].size == 0 && mem[a].freeSize == b.len else mem[a].size == b.len)
    && a + b.len in mem && mem[a + b.len].prevSize == b.len
    && (if a + b.len == b.chunk + cs[b.chunk] then mem[a + b.len].size == 1
        else a + b.len in bs && bs[a + b.len].chunk == b.chunk)
    && (if a == b.chunk then mem[a].prevSize == 0
        else var p := a - mem[a].prevSize;
             mem[a].prevSize > 0 && p in bs && p + bs[p].len == a && bs[p].chunk == b.chunk)
  }

  ghost predicate Ordered(bs: Blocks, a: nat, b: nat) {
    a in bs && b in bs && a < b ==> a + bs[a].len <= b
  }

  ghost predicate BlocksOk(mem: Memory, bs: Blocks, cs: Chunks) {
    && (forall a {:trigger BlockOk(mem, bs, cs, a)} :: a in bs ==> BlockOk(mem, bs, cs, a))
    && (forall a, b {:trigger Ordered(bs, a, b)} :: Ordered(bs, a, b))
  }

  ghost predicate ChunkOk(bs: Blocks, cs: Chunks, c: nat) {
    c in cs ==> c > 0 && c in bs && bs[c].chunk == c
  }

  ghost predicate ChunksApart(cs: Chunks, c: nat, d: nat) {
    c in cs && d in cs && c < d ==> c + cs[c] + HEADER <= d
  }

  /** Chunks start with a block and do not overlap, terminators included. */
  ghost predicate ChunksOk(bs: Blocks, cs: Chunks) {
    && (forall c {:trigger ChunkOk(bs, cs, c)} :: ChunkOk(bs, cs, c))
    && (forall c, d {:trigger ChunksApart(cs, c, d)} :: ChunksApart(cs, c, d))
  }

  /** The addresses in `list` are doubly linked through memory; 0 ends the list on both sides. */
  ghost predicate LinksOk(mem: Memory, head: nat, list: seq<nat>) {
    && (forall i, j :: 0 <= i < j < |list| ==> list[i] != list[j])
    && head == (if list == [] then 0 else list[0])
    && (forall i {:trigger LinkOk(mem, list, i)} :: 0 <= i < |list| ==> LinkOk(mem, list, i))
  }

  ghost predicate LinkOk(mem: Memory, list: seq<nat>, i: nat)
    requires i < |list|
  {
    && list[i] in mem
    && mem[list[i]].next == (if i + 1 < |list| then list[i + 1] else 0)
    && mem[list[i]].prev == (if i > 0 then list[i - 1] else 0)
  }

  /** The list holds every free block exactly once. */
  ghost predicate ListOk(mem: Memory, bs: Blocks, head: nat, list: seq<nat>) {
    && LinksOk(mem, head, list)
    && (forall a: nat :: a in list <==> a in bs && bs[a].free)
  }

  /** No block and its successor are both free. */
  ghost predicate Merged(bs: Blocks) {
    forall a :: a in bs && bs[a].free && a + bs[a].len in bs ==> !bs[a + bs[a].len].free
  }

  // ----- how each change to memory keeps the blocks in order

  /** Only list links differ. */
  ghost predicate SameTags(m: Memory, m': Memory) {
    forall a :: a in m ==>
      a in m' && m'[a].size == m[a].size && m'[a].prevSize == m[a].prevSize && m'[a].freeSize == m[a].freeSize
  }

  lemma TagsKeepBlocks(m: Memory, m': Memory, bs: Blocks, cs: Chunks)
    requires BlocksOk(m, bs, cs) && SameTags(m, m')
    ensures BlocksOk(m', bs, cs)
  {
    forall a | a in bs ensures BlockOk(m', bs, cs, a) {
      assert BlockOk(m, bs, cs, a);
    }
  }

  /** `m'` differs from `m` in what users may write: not in tags, terminators or free blocks. */
  ghost predicate OnlyPayload(m: Memory, m': Memory, bs: Blocks, cs: Chunks) {
    && (forall b :: b in bs && b in m ==>
         b in m' && m'[b].size == m[b].size && m'[b].prevSize == m[b].prevSize && (bs[b].free ==> m'[b] == m[b]))
    && (forall c, e :: c in cs && e == c + cs[c] && e in m ==> e in m' && m'[e] == m[e])
  }

  lemma PayloadKeepsBlocks(m: Memory, m': Memory, bs: Blocks, cs: Chunks)
    requires BlocksOk(m, bs, cs) && OnlyPayload(m, m', bs, cs)
    ensures BlocksOk(m', bs, cs)
  {
    forall a | a in bs ensures BlockOk(m', bs, cs, a) {
      assert BlockOk(m, bs, cs, a);
    }
  }

  /** Two blocks that do not start at the same address do not overlap. */
  lemma Apart(mem: Memory, bs: Blocks, cs: Chunks, a: nat, b: nat)
    requires BlocksOk(mem, bs, cs) && a in bs && b in bs
    ensures a != b ==> a + bs[a].len <= b || b + bs[b].len <= a
    ensures bs[a].len >= MIN_BLOCK
  {
    assert BlockOk(mem, bs, cs, a);
    assert Ordered(bs, a, b) && Ordered(bs, b, a);
  }

  /** A chunk's terminator is not the header of a block, and different chunks have different terminators. */
  lemma TerminatorApart(mem: Memory, bs: Blocks, cs: Chunks, c: nat, b: nat)
    requires BlocksOk(mem, bs, cs) && ChunksOk(bs, cs) && c in cs && b in bs
    ensures c + cs[c] != b
    ensures b + bs[b].len == c + cs[c] ==> bs[b].chunk == c
  {
    assert BlockOk(mem, bs, cs, b);
    var d := bs[b].chunk;
    assert ChunksApart(cs, c, d) && ChunksApart(cs, d, c);
  }

  /** The header of `a` is not the terminator that block `b` ends at. */
  lemma HeaderApart(mem: Memory, bs: Blocks, cs: Chunks, a: nat, b: nat)
    requires BlocksOk(mem, bs, cs) && ChunksOk(bs, cs) && a in bs && b in bs
    ensures BlockOk(mem, bs, cs, b)
    ensures a != bs[b].chunk + cs[bs[b].chunk]
    ensures a != b ==> a + bs[a].len <= b || b + bs[b].len <= a
    ensures bs[a].len >= MIN_BLOCK
  {
    assert BlockOk(mem, bs, cs, b);
    Apart(mem, bs, cs, a, b);
    TerminatorApart(mem, bs, cs, bs[b].chunk, a);
  }

  /** Block `a` becomes used or free as a whole. */
  function MarkMem(mem: Memory, a: nat, len: nat, free: bool): Memory
    requires a in mem
  {
    mem[a := if free then mem[a].(size := 0, freeSize := len) else mem[a].(size := len)]
  }

  function MarkBlocks(bs: Blocks, a: nat, free: bool): Blocks
    requires a in bs
  {
    bs[a := bs[a].(free := free)]
  }

  lemma MarkBlockOk(mem: Memory, bs: Blocks, cs: Chunks, a: nat, free: bool, b: nat)
    requires BlocksOk(mem, bs, cs) && ChunksOk(bs, cs) && a in bs && b in bs && a in mem
    ensures BlockOk(MarkMem(mem, a, bs[a].len, free), MarkBlocks(bs, a, free), cs, b)
  {
    HeaderApart(mem, bs, cs, a, b);
  }

  lemma MarkKeepsBlocks(mem: Memory, bs: Blocks, cs: Chunks, a: nat, free: bool)
    requires BlocksOk(mem, bs, cs) && ChunksOk(bs, cs) && a in bs
    ensures a in mem
    ensures BlocksOk(MarkMem(mem, a, bs[a].len, free), MarkBlocks(bs, a, free), cs) && ChunksOk(MarkBlocks(bs, a, free), cs)
  {
    hide BlockOk;
    HeaderApart(mem, bs, cs, a, a);
    InMemory(mem, bs, cs, a);
    var bs' := MarkBlocks(bs, a, free);
    forall b | b in bs' ensures BlockOk(MarkMem(mem, a, bs[a].len, free), bs', cs, b) {
      MarkBlockOk(mem, bs, cs, a, free, b);
    }
    forall b: nat, d: nat ensures Ordered(bs', b, d) { assert Ordered(bs, b, d); }
    forall c: nat ensures ChunkOk(bs', cs, c) { assert ChunkOk(bs, cs, c); }
  }

  lemma InMemory(mem: Memory, bs: Blocks, cs: Chunks, a: nat)
    requires a in bs && BlockOk(mem, bs, cs, a)
    ensures a in mem && a + bs[a].len in mem && bs[a].len >= MIN_BLOCK
  {
  }

  /** The end of free block `a`, `rem` bytes into it, becomes a used block of `size` bytes. */
  function CarveMem(mem: Memory, a: nat, rem: nat, size: nat): Memory
    requires a in mem && a + rem + size in mem
  {
    var m1 := mem[a := mem[a].(freeSize := rem)];
    var was := if a + rem in m1 then m1[a + rem] else Cell(0, 0, 0, 0, 0);
    var m2 := m1[a + rem := was.(size := size, prevSize := rem)];
    m2[a + rem + size := m2[a + rem + size].(prevSize := size)]
  }

  function CarveBlocks(bs: Blocks, a: nat, rem: nat, size: nat): Blocks
    requires a in bs
  {
    bs[a := bs[a].(len := rem)][a + rem := Blk(size, false, bs[a].chunk)]
  }

  lemma CarveBlockOk(mem: Memory, bs: Blocks, cs: Chunks, a: nat, rem: nat, size: nat, b: nat)
    requires BlocksOk(mem, bs, cs) && ChunksOk(bs, cs) && a in bs && bs[a].free
    requires rem >= MIN_BLOCK && size >= MIN_BLOCK && rem + size == bs[a].len
    requires a in mem && a + rem + size in mem && a + rem !in bs
    requires b in CarveBlocks(bs, a, rem, size)
    ensures BlockOk(CarveMem(mem, a, rem, size), CarveBlocks(bs, a, rem, size), cs, b)
  {
    HeaderApart(mem, bs, cs, a, a);
    if b in bs {
      HeaderApart(mem, bs, cs, a, b);
      var p := b - mem[b].prevSize;
      if p in bs {
        HeaderApart(mem, bs, cs, a, p);
      }
    }
  }

  lemma CarveKeepsBlocks(mem: Memory, bs: Blocks, cs: Chunks, a: nat, rem: nat, size: nat)
    requires BlocksOk(mem, bs, cs) && ChunksOk(bs, cs) && a in bs && bs[a].free
    requires rem >= MIN_BLOCK && size >= MIN_BLOCK && rem + size == bs[a].len
    ensures a in mem && a + rem + size in mem && a + rem !in bs
    ensures var bs' := CarveBlocks(bs, a, rem, size);
            BlocksOk(CarveMem(mem, a, rem, size), bs', cs) && ChunksOk(bs', cs)
  {
    hide BlockOk;
    HeaderApart(mem, bs, cs, a, a);
    InMemory(mem, bs, cs, a);
    if a + rem in bs {
      HeaderApart(mem, bs, cs, a + rem, a);
    }
    var bs' := CarveBlocks(bs, a, rem, size);
    forall b | b in bs' ensures BlockOk(CarveMem(mem, a, rem, size), bs', cs, b) {
      CarveBlockOk(mem, bs, cs, a, rem, size, b);
    }
    forall b: nat, d: nat ensures Ordered(bs', b, d) {
      assert Ordered(bs, b, d) && Ordered(bs, a, b) && Ordered(bs, b, a) && Ordered(bs, a, d) && Ordered(bs, d, a);
    }
    forall c: nat ensures ChunkOk(bs', cs, c) { assert ChunkOk(bs, cs, c); }
  }

  /** Free block `a` takes in the block behind it. */
  function JoinMem(mem: Memory, a: nat, len: nat): Memory
    requires a in mem && a + len in mem
  {
    var m1 := mem[a := mem[a].(freeSize := len)];
    m1[a + len := m1[a + len].(prevSize := len)]
  }

  function JoinBlocks(bs: Blocks, a: nat, n: nat): Blocks
    requires a in bs && n in bs
  {
    (bs - {n})[a := bs[a].(len := bs[a].len + bs[n].len)]
  }

  lemma JoinBlockOk(mem: Memory, bs: Blocks, cs: Chunks, a: nat, n: nat, b: nat)
    requires BlocksOk(mem, bs, cs) && ChunksOk(bs, cs) && a in bs && bs[a].free
    requires n == a + bs[a].len && n in bs
    requires a in mem && n + bs[n].len in mem && b in JoinBlocks(bs, a, n)
    ensures BlockOk(JoinMem(mem, a, bs[a].len + bs[n].len), JoinBlocks(bs, a, n), cs, b)
  {
    HeaderApart(mem, bs, cs, a, a);
    HeaderApart(mem, bs, cs, a, n);
    HeaderApart(mem, bs, cs, a, b);
    HeaderApart(mem, bs, cs, n, b);
    HeaderApart(mem, bs, cs, n, a);
    TerminatorApart(mem, bs, cs, bs[a].chunk, n);
    var p := b - mem[b].prevSize;
    if p in bs {
      HeaderApart(mem, bs, cs, n, p);
    }
  }

  lemma JoinKeepsBlocks(mem: Memory, bs: Blocks, cs: Chunks, a: nat, n: nat)
    requires BlocksOk(mem, bs, cs) && ChunksOk(bs, cs) && a in bs && bs[a].free
    requires n == a + bs[a].len && n in bs
    ensures a in mem && n + bs[n].len in mem && a < n
    ensures var bs' := JoinBlocks(bs, a, n);
            BlocksOk(JoinMem(mem, a, bs[a].len + bs[n].len), bs', cs) && ChunksOk(bs', cs)
  {
    hide BlockOk;
    HeaderApart(mem, bs, cs, a, a);
    HeaderApart(mem, bs, cs, n, n);
    InMemory(mem, bs, cs, a);
    InMemory(mem, bs, cs, n);
    var bs' := JoinBlocks(bs, a, n);
    forall b | b in bs' ensures BlockOk(JoinMem(mem, a, bs[a].len + bs[n].len), bs', cs, b) {
      JoinBlockOk(mem, bs, cs, a, n, b);
    }
    forall b: nat, d: nat ensures Ordered(bs', b, d) {
      assert Ordered(bs, b, d) && Ordered(bs, n, d) && Ordered(bs, a, d) && Ordered(bs, b, n) && Ordered(bs, d, n);
    }
    forall c: nat ensures ChunkOk(bs', cs, c) {
      assert ChunkOk(bs, cs, c);
      NotAStart(mem, bs, cs, a, n);
    }
  }

  lemma NotAStart(mem: Memory, bs: Blocks, cs: Chunks, a: nat, n: nat)
    requires BlocksOk(mem, bs, cs) && ChunksOk(bs, cs) && a in bs && n == a + bs[a].len && n in bs
    ensures n !in cs
  {
    HeaderApart(mem, bs, cs, n, a);
    assert ChunkOk(bs, cs, n);
  }

  // ----- chunks come and go

  /** The chunk at `c` with `size` bytes before its terminator overlaps no live chunk. */
  ghost predicate Outside(cs: Chunks, c: nat, size: nat) {
    forall d :: d in cs ==> c + size + HEADER <= d || d + cs[d] + HEADER <= c
  }

  /** A new chunk is cut into a block of `used` bytes and, unless that is all, a second one. */
  function ChunkMem(mem: Memory, c: nat, size: nat, used: nat): Memory
    requires used <= size
  {
    var first := mem[c := Cell(used, 0, 0, 0, 0)];
    if used == size then first[c + size := Cell(1, size, 0, 0, 0)]
    else first[c + used := Cell(size - used, used, 0, 0, 0)][c + size := Cell(1, size - used, 0, 0, 0)]
  }

  function ChunkBlocks(bs: Blocks, c: nat, size: nat, used: nat): Blocks
    requires used <= size
  {
    var first := bs[c := Blk(used, false, c)];
    if used == size then first else first[c + used := Blk(size - used, false, c)]
  }

  lemma NewChunkApart(mem: Memory, bs: Blocks, cs: Chunks, c: nat, size: nat, b: nat)
    requires BlocksOk(mem, bs, cs) && ChunksOk(bs, cs) && Outside(cs, c, size) && b in bs
    ensures BlockOk(mem, bs, cs, b) && (b + bs[b].len + HEADER <= c || c + size + HEADER <= b)
  {
    assert BlockOk(mem, bs, cs, b);
    assert bs[b].chunk in cs;
  }

  lemma NewChunkBlockOk(mem: Memory, bs: Blocks, cs: Chunks, c: nat, size: nat, used: nat, b: nat)
    requires BlocksOk(mem, bs, cs) && ChunksOk(bs, cs) && Outside(cs, c, size)
    requires MIN_BLOCK <= used && (used == size || used + MIN_BLOCK <= size)
    requires used <= size && b in ChunkBlocks(bs, c, size, used)
    ensures BlockOk(ChunkMem(mem, c, size, used), ChunkBlocks(bs, c, size, used), cs[c := size], b)
  {
    if b in bs {
      NewChunkApart(mem, bs, cs, c, size, b);
      var p := b - mem[b].prevSize;
      if p in bs {
        NewChunkApart(mem, bs, cs, c, size, p);
      }
      if b + bs[b].len in bs {
        NewChunkApart(mem, bs, cs, c, size, b + bs[b].len);
      }
    }
  }

  lemma NewChunkKeepsBlocks(mem: Memory, bs: Blocks, cs: Chunks, c: nat, size: nat, used: nat)
    requires BlocksOk(mem, bs, cs) && ChunksOk(bs, cs) && Outside(cs, c, size) && c > 0
    requires MIN_BLOCK <= used && (used == size || used + MIN_BLOCK <= size)
    ensures c !in bs && c + used !in bs
    ensures forall b :: b in bs ==> b + bs[b].len < c || c + size < b
    ensures var bs' := ChunkBlocks(bs, c, size, used);
            BlocksOk(ChunkMem(mem, c, size, used), bs', cs[c := size]) && ChunksOk(bs', cs[c := size])
  {
    hide BlockOk;
    var bs', cs' := ChunkBlocks(bs, c, size, used), cs[c := size];
    forall b | b in bs ensures b + bs[b].len < c || c + size < b { NewChunkApart(mem, bs, cs, c, size, b); }
    forall b | b in bs' ensures BlockOk(ChunkMem(mem, c, size, used), bs', cs', b) {
      NewChunkBlockOk(mem, bs, cs, c, size, used, b);
    }
    forall b: nat, d: nat ensures Ordered(bs', b, d) {
      assert Ordered(bs, b, d);
      if b in bs { NewChunkApart(mem, bs, cs, c, size, b); }
      if d in bs { NewChunkApart(mem, bs, cs, c, size, d); }
    }
    forall d: nat ensures ChunkOk(bs', cs', d) { assert ChunkOk(bs, cs, d); }
    forall d: nat, e: nat ensures ChunksApart(cs', d, e) { assert ChunksApart(cs, d, e); }
  }

  /** A chunk that is one block can be dropped: no other block belongs to it. */
  lemma DropKeepsBlocks(mem: Memory, bs: Blocks, cs: Chunks, c: nat)
    requires BlocksOk(mem, bs, cs) && ChunksOk(bs, cs) && c in cs && c in bs && bs[c].len == cs[c]
    ensures BlocksOk(mem, bs - {c}, cs - {c}) && ChunksOk(bs - {c}, cs - {c})
  {
    var bs', cs' := bs - {c}, cs - {c};
    assert ChunkOk(bs, cs, c);
    forall b | b in bs' ensures BlockOk(mem, bs', cs', b) {
      HeaderApart(mem, bs, cs, c, b);
      OtherChunk(mem, bs, cs, c, b);
    }
    forall b: nat, d: nat ensures Ordered(bs', b, d) { assert Ordered(bs, b, d); }
    forall d: nat ensures ChunkOk(bs', cs', d) { assert ChunkOk(bs, cs, d); }
    forall d: nat, e: nat ensures ChunksApart(cs', d, e) { assert ChunksApart(cs, d, e); }
  }

  lemma OtherChunk(mem: Memory, bs: Blocks, cs: Chunks, c: nat, b: nat)
    requires BlocksOk(mem, bs, cs) && ChunksOk(bs, cs) && c in cs && c in bs && bs[c].len == cs[c]
    requires b in bs && b != c
    ensures bs[b].chunk != c && b + bs[b].len != c && b - (if b in mem then mem[b].prevSize else 0) != c
  {
    HeaderApart(mem, bs, cs, c, b);
    assert ChunkOk(bs, cs, c);
    assert ChunksApart(cs, bs[b].chunk, c) && ChunksApart(cs, c, bs[b].chunk);
  }

  // ----- the free list

  /** Memory after `a` has been put in front of the list. */
  function PushMem(mem: Memory, head: nat, a: nat): Memory
    requires a in mem && (head != 0 ==> head in mem)
  {
    var m1 := mem[a := mem[a].(next := head, prev := 0)];
    if head != 0 then m1[head := m1[head].(prev := a)] else m1
  }

  lemma PushKeepsList(mem: Memory, bs: Blocks, head: nat, list: seq<nat>, a: nat)
    requires ListOk(mem, bs, head, list) && a in bs && !bs[a].free && a in mem && a != 0
    requires forall b :: b in list ==> b != 0
    ensures head != 0 ==> head in mem
    ensures ListOk(PushMem(mem, head, a), bs[a := bs[a].(free := true)], a, [a] + list)
  {
    var list' := [a] + list;
    assert a !in list;
    assert head != 0 ==> head in list;
    assert list != [] ==> LinkOk(mem, list, 0);
    var mem' := PushMem(mem, head, a);
    forall i | 0 <= i < |list'| ensures LinkOk(mem', list', i) {
      if i > 0 {
        assert LinkOk(mem, list, i - 1);
        assert list'[i] == list[i - 1] && list[i - 1] in list;
        assert i > 1 ==> list[i - 1] != list[0];
      }
    }
  }

  /** Memory after `a` has been unlinked. */
  function UnlinkMem(mem: Memory, a: nat): Memory
    requires a in mem && (mem[a].next != 0 ==> mem[a].next in mem) && (mem[a].prev != 0 ==> mem[a].prev in mem)
  {
    var m1 := if mem[a].next != 0 then mem[mem[a].next := mem[mem[a].next].(prev := mem[a].prev)] else mem;
    if mem[a].prev != 0 then m1[mem[a].prev := m1[mem[a].prev].(next := mem[a].next)] else m1
  }

  /** The list without its element at `k`. */
  function Without(list: seq<nat>, k: nat): seq<nat>
    requires k < |list|
  {
    list[..k] + list[k + 1..]
  }

  /** The list without `a`. */
  function Removed(list: seq<nat>, a: nat): seq<nat> {
    if list == [] then [] else if list[0] == a then list[1..] else [list[0]] + Removed(list[1..], a)
  }

  lemma {:induction false} WithoutIsRemoved(list: seq<nat>, k: nat)
    requires k < |list| && forall i, j :: 0 <= i < j < |list| ==> list[i] != list[j]
    ensures Without(list, k) == Removed(list, list[k])
    decreases k
  {
    if k > 0 {
      WithoutIsRemoved(list[1..], k - 1);
      assert list[..k] == [list[0]] + list[1..][..k - 1];
      assert list[k + 1..] == list[1..][k..];
    }
  }

  lemma UnlinkKeepsList(mem: Memory, bs: Blocks, head: nat, list: seq<nat>, k: nat)
    requires ListOk(mem, bs, head, list) && k < |list|
    requires forall b :: b in list ==> b != 0
    ensures var a := list[k];
            && a in mem && (mem[a].next != 0 ==> mem[a].next in mem) && (mem[a].prev != 0 ==> mem[a].prev in mem)
            && (mem[a].prev == 0 <==> k == 0)
            && LinksOk(UnlinkMem(mem, a), if k == 0 then mem[a].next else head, Without(list, k))
            && forall b: nat :: b in Without(list, k) <==> b in list && b != a
  {
    var a, list' := list[k], Without(list, k);
    assert a in list && LinkOk(mem, list, k);
    assert k + 1 < |list| ==> LinkOk(mem, list, k + 1) && list[k + 1] in list;
    assert k > 0 ==> LinkOk(mem, list, k - 1) && list[k - 1] in list;
    var mem' := UnlinkMem(mem, a);
    WithoutHas(list, k);
    forall i | 0 <= i < |list'| ensures LinkOk(mem', list', i) {
      UnlinkLink(mem, list, k, i);
    }
  }

  lemma WithoutHas(list: seq<nat>, k: nat)
    requires k < |list|
    requires forall i, j :: 0 <= i < j < |list| ==> list[i] != list[j]
    ensures forall b: nat :: b in Without(list, k) <==> b in list && b != list[k]
  {
    var list' := Without(list, k);
    forall b: nat ensures b in list' <==> b in list && b != list[k] {
      if b in list && b != list[k] {
        var j :| 0 <= j < |list| && list[j] == b;
        assert list'[if j < k then j else j - 1] == b;
      }
    }
  }

  lemma UnlinkLink(mem: Memory, list: seq<nat>, k: nat, i: nat)
    requires LinksOk(mem, if list == [] then 0 else list[0], list) && k < |list| && i < |list| - 1
    requires forall b :: b in list ==> b != 0
    requires var a := list[k];
             a in mem && (mem[a].next != 0 ==> mem[a].next in mem) && (mem[a].prev != 0 ==> mem[a].prev in mem)
    ensures LinkOk(UnlinkMem(mem, list[k]), Without(list, k), i)
  {
    var list' := Without(list, k);
    var j := if i < k then i else i + 1;
    assert LinkOk(mem, list, j) && LinkOk(mem, list, k);
    assert list'[i] == list[j];
    assert i + 1 < |list'| ==> list'[i + 1] == list[if i + 1 < k then i + 1 else i + 2];
    assert i > 0 ==> list'[i - 1] == list[if i - 1 < k then i - 1 else i];
    assert k + 1 < |list| ==> list[k + 1] in list;
    assert k > 0 ==> list[k - 1] in list;
  }

  /** Tag changes outside the links keep the list linked. */
  lemma TagsKeepLinks(mem: Memory, mem': Memory, head: nat, list: seq<nat>)
    requires LinksOk(mem, head, list)
    requires forall a :: a in mem ==> a in mem' && mem'[a].next == mem[a].next && mem'[a].prev == mem[a].prev
    ensures LinksOk(mem', head, list)
  {
    forall i | 0 <= i < |list| ensures LinkOk(mem', list, i) { assert LinkOk(mem, list, i); }
  }

  // ----- merging

  /** Only block `a` may be followed by a free block while it is free itself. */
  ghost predicate MergedBut(bs: Blocks, a: nat) {
    forall b :: b in bs && b != a && bs[b].free && b + bs[b].len in bs ==> !bs[b + bs[b].len].free
  }

  lemma CarveAccounts(bs: Blocks, a: nat, rem: nat, size: nat)
    requires a in bs && bs[a].free && a + rem !in bs && rem > 0 && Merged(bs)
    ensures var bs' := CarveBlocks(bs, a, rem, size);
            && Merged(bs') && Used(bs') == Used(bs)[a + rem := size] && a + rem !in Used(bs)
            && forall b: nat :: b in bs' && bs'[b].free <==> b in bs && bs[b].free
  {
  }

  /** The blocks once the second part of a new chunk is free. */
  function NewChunkBlocks(bs: Blocks, c: nat, size: nat, used: nat): Blocks
    requires used <= size
  {
    if used < size then ChunkBlocks(bs, c, size, used)[c + used := Blk(size - used, true, c)]
    else ChunkBlocks(bs, c, size, used)
  }

  lemma ChunkAccounts(bs: Blocks, c: nat, size: nat, used: nat)
    requires used <= size && used > 0 && c !in bs && c + used !in bs
    ensures var bs' := NewChunkBlocks(bs, c, size, used);
            && Used(bs') == Used(bs)[c := used] && c !in Used(bs)
            && c in bs' && bs'[c] == Blk(used, false, c)
  {
    var bs', u := NewChunkBlocks(bs, c, size, used), Used(bs)[c := used];
    forall b: nat ensures b in Used(bs') <==> b in u {}
  }

  lemma ChunkMarked(bs: Blocks, c: nat, size: nat, used: nat)
    requires used < size && used > 0
    ensures var bs1 := ChunkBlocks(bs, c, size, used);
            && c + used in bs1 && bs1[c + used] == Blk(size - used, false, c)
            && MarkBlocks(bs1, c + used, true) == NewChunkBlocks(bs, c, size, used)
  {
  }

  lemma ChunkMerged(bs: Blocks, c: nat, size: nat, used: nat)
    requires used <= size && used > 0 && Merged(bs)
    requires forall b :: b in bs ==> b + bs[b].len < c || c + size < b
    ensures Merged(NewChunkBlocks(bs, c, size, used))
  {
    var bs' := NewChunkBlocks(bs, c, size, used);
    forall b | b in bs' && bs'[b].free && b + bs'[b].len in bs' ensures !bs'[b + bs'[b].len].free {
      if b in bs && b != c && b != c + used {
        assert bs'[b] == bs[b];
      }
    }
  }

  lemma MarkAccounts(bs: Blocks, a: nat)
    requires a in bs && bs[a].free && Merged(bs)
    ensures var bs' := MarkBlocks(bs, a, false);
            && Merged(bs') && Used(bs') == Used(bs)[a := bs[a].len] && a !in Used(bs)
            && forall b: nat :: b in bs' && bs'[b].free <==> b in bs && bs[b].free && b != a
  {
  }

  /** Releasing `h`: it joins the free block `p` in front of it. */
  lemma AbsorbAccounts(bs: Blocks, p: nat, h: nat)
    requires p in bs && bs[p].free && h == p + bs[p].len && h in bs && !bs[h].free && p != h && Merged(bs)
    ensures var bs' := JoinBlocks(bs, p, h);
            && MergedBut(bs', p) && Used(bs') == Used(bs) - {h} && p in bs' && bs'[p].free && bs'[p].chunk == bs[p].chunk
            && forall b: nat :: b in bs' && bs'[b].free <==> b in bs && bs[b].free
  {
  }

  /** Releasing `h` behind a used block or at the start of a chunk. */
  lemma ReleaseAccounts(bs: Blocks, h: nat)
    requires h in bs && !bs[h].free && Merged(bs) && bs[h].len > 0
    requires forall p :: p in bs && p + bs[p].len == h ==> !bs[p].free
    ensures var bs' := MarkBlocks(bs, h, true);
            MergedBut(bs', h) && Used(bs') == Used(bs) - {h}
  {
  }

  /** A free block takes in the free block behind it. */
  lemma JoinAccounts(bs: Blocks, a: nat, n: nat)
    requires a in bs && bs[a].free && n == a + bs[a].len && n in bs && bs[n].free && a != n && MergedBut(bs, a)
    ensures var bs' := JoinBlocks(bs, a, n);
            && Merged(bs') && Used(bs') == Used(bs) && a in bs' && bs'[a].free && bs'[a].chunk == bs[a].chunk
            && forall b: nat :: b in bs' && bs'[b].free <==> b in bs && bs[b].free && b != n
  {
    var bs' := JoinBlocks(bs, a, n);
    forall b | b in bs' && bs'[b].free && b + bs'[b].len in bs' ensures !bs'[b + bs'[b].len].free {
      if b == a {
        assert b + bs'[b].len == n + bs[n].len;
      }
    }
  }

  lemma DropAccounts(bs: Blocks, c: nat)
    requires c in bs && bs[c].free && Merged(bs)
    ensures Merged(bs - {c}) && Used(bs - {c}) == Used(bs)
    ensures forall b: nat :: b in bs - {c} && (bs - {c})[b].free <==> b in bs && bs[b].free && b != c
  {
  }

  // ----- the allocator

  /** The request with its header, rounded up to the next multiple of 8; small requests count as a free block's header. */
  function RequestSize(size: nat): (r: nat)
    ensures r >= MIN_BLOCK && r % 8 == 0 && r >= size + HEADER
    ensures r < (if size < FREE_HEADER then FREE_HEADER else size) + HEADER + 8
  {
    ((if size < FREE_HEADER then FREE_HEADER else size) + HEADER + 7) / 8 * 8
  }

  /** Bytes of a new chunk before its terminator. */
  function ChunkBytes(size: nat): (r: nat)
    ensures r >= size && (r + HEADER) % CHUNK_SIZE == 0 && r < size + CHUNK_SIZE
  {
    (size + HEADER + CHUNK_SIZE - 1) / CHUNK_SIZE * CHUNK_SIZE - HEADER
  }

  /** A free block ends where block `h` starts. */
  ghost predicate FreeBefore(bs: Blocks, h: nat, p: nat) { p in bs && bs[p].free && p + bs[p].len == h }

  /** The blocks after `h` has become free, joined with the free block `fb` in front unless that is `h` itself. */
  function FreedFront(bs: Blocks, h: nat, fb: nat): Blocks
    requires h in bs && fb in bs
  {
    if fb == h then MarkBlocks(bs, h, true) else JoinBlocks(bs, fb, h)
  }

  /** And joined with a free block behind it. */
  function FreedBlocks(bs: Blocks, h: nat, fb: nat): Blocks
    requires h in bs && fb in bs
  {
    var b1, n := FreedFront(bs, h, fb), h + bs[h].len;
    if n in b1 && b1[n].free && fb in b1 then JoinBlocks(b1, fb, n) else b1
  }

  /** The free list then: the new block in front if there was none to join, without the block behind. */
  function FreedList(bs: Blocks, list: seq<nat>, h: nat, fb: nat): seq<nat>
    requires h in bs && fb in bs
  {
    var l1, n := if fb == h then [h] + list else list, h + bs[h].len;
    if n in FreedFront(bs, h, fb) && FreedFront(bs, h, fb)[n].free then Removed(l1, n) else l1
  }

  /** `h` is the first block on the free list that is long enough, or the end of it if it is much longer. */
  ghost predicate TakenFrom(bs: Blocks, list: seq<nat>, need: nat, k: nat, h: nat) {
    && k < |list| && list[k] in bs && bs[list[k]].len >= need
    && (forall j :: 0 <= j < k ==> list[j] in bs && bs[list[j]].len < need)
    && h == list[k] + if bs[list[k]].len > need + 64 then bs[list[k]].len - need else 0
  }

  /** It has been taken off the list as a whole, or its end has become a used block. */
  ghost predicate Taken(bs: Blocks, list: seq<nat>, need: nat, k: nat, h: nat, bs': Blocks, list': seq<nat>) {
    && TakenFrom(bs, list, need, k, h)
    && var a := list[k];
       if bs[a].len > need + 64 then bs' == CarveBlocks(bs, a, bs[a].len - need, need) && list' == list
       else bs' == MarkBlocks(bs, a, false) && list' == Removed(list, a)
  }

  /** A new chunk starts with the used block; the rest of it, if worth it, is in front of the list. */
  ghost predicate NewlyMapped(bs: Blocks, list: seq<nat>, c: nat, need: nat, bs': Blocks, list': seq<nat>) {
    var bytes := ChunkBytes(need);
    && bs' == NewChunkBlocks(bs, c, bytes, if bytes > need + 64 then need else bytes)
    && list' == if bytes > need + 64 then [c + need] + list else list
  }

  class Allocator {
    var mem: Memory
    var freeBlocks: nat
    var allocatedSize: nat
    var totalSize: nat
    ghost var blocks: Blocks
    ghost var chunks: Chunks
    ghost var list: seq<nat>

    /** Tiling, boundary tags and the free list are in order. */
    ghost predicate Sane()
      reads this`mem, this`freeBlocks, this`blocks, this`chunks, this`list
    {
      && BlocksOk(mem, blocks, chunks)
      && ChunksOk(blocks, chunks)
      && ListOk(mem, blocks, freeBlocks, list)
    }

    /** The two counters are exact. */
    ghost predicate Counted()
      reads this
    {
      allocatedSize == Sum(Used(blocks)) && totalSize == Sum(chunks)
    }

    ghost predicate Valid()
      reads this
    {
      Sane() && Counted() && Merged(blocks)
    }

    constructor ()
      ensures Valid() && blocks == map[] && chunks == map[]
    {
      mem, freeBlocks, allocatedSize, totalSize := map[], 0, 0, 0;
      blocks, chunks, list := map[], map[], [];
      new;
      assert Used(blocks) == map[];
    }

    lemma NoNullBlock(a: nat)
      requires Sane() && a in blocks
      ensures a != 0 && a in mem && a + blocks[a].len in mem && blocks[a].len >= MIN_BLOCK
      ensures BlockOk(mem, blocks, chunks, a)
    {
      assert BlockOk(mem, blocks, chunks, a);
      assert ChunkOk(blocks, chunks, blocks[a].chunk);
    }

    lemma ListNotNull()
      requires Sane()
      ensures forall b :: b in list ==> b != 0
    {
      forall b | b in list ensures b != 0 { NoNullBlock(b); }
    }

    /** sljit_remove_free_block */
    method RemoveFree(a: nat, ghost k: nat)
      requires Sane() && k < |list| && list[k] == a
      modifies this`mem, this`freeBlocks, this`list
      ensures LinksOk(mem, freeBlocks, list) && list == Removed(old(list), a)
      ensures forall b: nat :: b in list <==> b in old(list) && b != a
      ensures SameTags(old(mem), mem)
    {
      ListNotNull();
      UnlinkKeepsList(mem, blocks, freeBlocks, list, k);
      WithoutIsRemoved(list, k);
      var next, prev := mem[a].next, mem[a].prev;
      if next != 0 {
        mem := mem[next := mem[next].(prev := prev)];
      }
      if prev != 0 {
        mem := mem[prev := mem[prev].(next := next)];
      } else {
        freeBlocks := next;
      }
      list := Without(list, k);
    }

    /** sljit_insert_free_block, applied to a used block of the given length. */
    method InsertFree(a: nat, len: nat)
      requires Sane() && a in blocks && !blocks[a].free && len == blocks[a].len
      modifies this`mem, this`freeBlocks, this`list, this`blocks
      ensures Sane() && blocks == MarkBlocks(old(blocks), a, true) && list == [a] + old(list)
    {
      hide BlocksOk, ChunksOk, LinkOk;
      ListNotNull();
      NoNullBlock(a);
      MarkKeepsBlocks(mem, blocks, chunks, a, true);
      PushKeepsList(mem, blocks, freeBlocks, list, a);
      ghost var marked := MarkMem(mem, a, len, true);
      ghost var pushed := PushMem(mem, freeBlocks, a);
      mem := mem[a := mem[a].(size := 0, freeSize := len, next := freeBlocks, prev := 0)];
      if freeBlocks != 0 {
        mem := mem[freeBlocks := mem[freeBlocks].(prev := a)];
      }
      TagsKeepBlocks(marked, mem, MarkBlocks(blocks, a, true), chunks);
      TagsKeepLinks(pushed, mem, a, [a] + list);
      freeBlocks, list, blocks := a, [a] + list, MarkBlocks(blocks, a, true);
    }

    /** The first block on the free list that is long enough, or 0. */
    method FirstFit(size: nat) returns (a: nat, ghost k: nat)
      requires Sane()
      ensures a == 0 ==> forall b :: b in blocks && blocks[b].free ==> blocks[b].len < size
      ensures a != 0 ==> k < |list| && list[k] == a && a in blocks && blocks[a].free && blocks[a].len >= size
      ensures a != 0 ==> forall j :: 0 <= j < k ==> list[j] in blocks && blocks[list[j]].len < size
    {
      hide BlocksOk, ChunksOk;
      ListNotNull();
      a, k := freeBlocks, 0;
      while a != 0
        invariant k <= |list| && a == (if k < |list| then list[k] else 0)
        invariant forall j :: 0 <= j < k ==> list[j] in blocks && blocks[list[j]].len < size
        decreases |list| - k
      {
        assert a in list && LinkOk(mem, list, k);
        NoNullBlock(a);
        if mem[a].freeSize >= size {
          return;
        }
        a, k := mem[a].next, k + 1;
        assert k < |list| ==> list[k] in list;
      }
      forall b | b in blocks && blocks[b].free ensures blocks[b].len < size {
        assert b in list;
        var j :| 0 <= j < |list| && list[j] == b;
      }
    }

    /** A free block just long enough is taken whole. */
    method TakeWhole(a: nat, ghost k: nat)
      requires Valid() && k < |list| && list[k] == a && a in blocks && blocks[a].free
      modifies this
      ensures Valid() && blocks == MarkBlocks(old(blocks), a, false) && chunks == old(chunks)
      ensures list == Removed(old(list), a)
    {
      hide BlocksOk, ChunksOk, LinksOk, Sum, Used, Merged, MarkBlocks, Removed;
      NoNullBlock(a);
      ghost var m0, bs := mem, blocks;
      MarkAccounts(bs, a);
      RemoveFree(a, k);
      TagsKeepBlocks(m0, mem, bs, chunks);
      MarkKeepsBlocks(mem, bs, chunks, a, false);
      var len := mem[a].freeSize;
      allocatedSize := allocatedSize + len;
      ghost var m1 := mem;
      mem := mem[a := mem[a].(size := len)];
      blocks := MarkBlocks(bs, a, false);
      TagsKeepLinks(m1, mem, freeBlocks, list);
      SumAdd(Used(bs), a, len);
    }

    method WriteCarved(a: nat, rem: nat, size: nat)
      requires a in mem && a + rem + size in mem && rem > 0 && size > 0
      modifies this`mem
      ensures mem == CarveMem(old(mem), a, rem, size)
      ensures forall b :: b in old(mem) ==> b in mem && mem[b].next == old(mem)[b].next && mem[b].prev == old(mem)[b].prev
    {
      var h: nat := a + rem;
      mem := mem[a := mem[a].(freeSize := rem)];
      mem := mem[h := (if h in mem then mem[h] else Cell(0, 0, 0, 0, 0)).(prevSize := rem)];
      mem := mem[h + size := mem[h + size].(prevSize := size)];
      mem := mem[h := mem[h].(size := size)];
    }

    method WriteJoined(a: nat, len: nat)
      requires a in mem && a + len in mem
      modifies this`mem
      ensures mem == JoinMem(old(mem), a, len)
      ensures forall b :: b in old(mem) ==> b in mem && mem[b].next == old(mem)[b].next && mem[b].prev == old(mem)[b].prev
    {
      mem := mem[a := mem[a].(freeSize := len)];
      mem := mem[a + len := mem[a + len].(prevSize := len)];
    }

    /** A longer free block keeps its front; its end becomes the used block `h`. */
    method CarveEnd(a: nat, size: nat) returns (h: nat)
      requires Valid() && a in blocks && blocks[a].free && size >= MIN_BLOCK && blocks[a].len > size + 64
      modifies this
      ensures Valid() && chunks == old(chunks) && list == old(list)
      ensures h == a + (old(blocks)[a].len - size) && h !in old(blocks)
      ensures blocks == CarveBlocks(old(blocks), a, old(blocks)[a].len - size, size)
    {
      hide BlocksOk, ChunksOk, LinksOk, Sum, Used, Merged, CarveBlocks, CarveMem;
      NoNullBlock(a);
      ghost var m0, bs := mem, blocks;
      var rem := mem[a].freeSize - size;
      CarveKeepsBlocks(mem, blocks, chunks, a, rem, size);
      CarveAccounts(bs, a, rem, size);
      h := a + rem;
      WriteCarved(a, rem, size);
      allocatedSize := allocatedSize + size;
      blocks := CarveBlocks(bs, a, rem, size);
      TagsKeepLinks(m0, mem, freeBlocks, list);
      SumAdd(Used(bs), h, size);
    }

    /** Writes the headers of a new chunk cut into one or two blocks, both still counted as used. */
    method CutChunk(c: nat, bytes: nat, used: nat)
      requires Sane() && c > 0 && Outside(chunks, c, bytes)
      requires MIN_BLOCK <= used && (used == bytes || used + MIN_BLOCK <= bytes)
      modifies this`mem, this`blocks, this`chunks
      ensures Sane() && c !in old(chunks) && c !in old(blocks) && c + used !in old(blocks)
      ensures chunks == old(chunks)[c := bytes] && blocks == ChunkBlocks(old(blocks), c, bytes, used)
      ensures forall b :: b in old(blocks) ==> b + old(blocks)[b].len < c || c + bytes < b
    {
      hide BlocksOk, ChunksOk;
      NewChunkKeepsBlocks(mem, blocks, chunks, c, bytes, used);
      NewChunkUnknown(c, bytes);
      NewChunkLinks(mem, ChunkMem(mem, c, bytes, used), blocks, c, bytes, used);
      mem := mem[c := Cell(used, 0, 0, 0, 0)];
      if used < bytes {
        mem := mem[c + used := Cell(bytes - used, used, 0, 0, 0)];
      }
      mem := mem[c + bytes := Cell(1, if used < bytes then bytes - used else bytes, 0, 0, 0)];
      blocks, chunks := ChunkBlocks(blocks, c, bytes, used), chunks[c := bytes];
    }

    /** A new chunk from the system: the used block first, the rest free if it is worth it. */
    method MapChunk(c: nat, size: nat)
      requires Valid() && c > 0 && size >= MIN_BLOCK && Outside(chunks, c, ChunkBytes(size))
      modifies this
      ensures Valid() && chunks == old(chunks)[c := ChunkBytes(size)] && c !in old(blocks)
      ensures c in blocks && !blocks[c].free && size <= blocks[c].len <= size + 64 && chunks != old(chunks)
      ensures Used(blocks) == Used(old(blocks))[c := blocks[c].len]
      ensures list == if ChunkBytes(size) > size + 64 then [c + size] + old(list) else old(list)
      ensures blocks == NewChunkBlocks(old(blocks), c, ChunkBytes(size), if ChunkBytes(size) > size + 64 then size else ChunkBytes(size))
    {
      hide Sum, ChunkBytes, Sane, Used, Merged, ChunkBlocks, MarkBlocks, NewChunkBlocks;
      var bytes := ChunkBytes(size);
      var used := if bytes > size + 64 then size else bytes;
      CutChunk(c, bytes, used);
      ChunkAccounts(old(blocks), c, bytes, used);
      ChunkMerged(old(blocks), c, bytes, used);
      totalSize := totalSize + bytes;
      allocatedSize := allocatedSize + used;
      SumAdd(old(chunks), c, bytes);
      SumAdd(Used(old(blocks)), c, used);
      if used < bytes {
        ChunkMarked(old(blocks), c, bytes, used);
        InsertFree(c + used, bytes - used);
      } else {
        assert blocks == NewChunkBlocks(old(blocks), c, bytes, used) by { ChunkWhole(old(blocks), c, bytes); }
      }
    }

    lemma ChunkWhole(bs: Blocks, c: nat, bytes: nat)
      ensures ChunkBlocks(bs, c, bytes, bytes) == NewChunkBlocks(bs, c, bytes, bytes)
    {
    }

    lemma NewChunkUnknown(c: nat, bytes: nat)
      requires Sane() && Outside(chunks, c, bytes)
      ensures c !in chunks
    {
    }

    /** The headers of a new chunk are on no list. */
    lemma NewChunkLinks(m0: Memory, m1: Memory, bs: Blocks, c: nat, bytes: nat, used: nat)
      requires used <= bytes && m1 == ChunkMem(m0, c, bytes, used)
      requires forall b :: b in bs ==> b + bs[b].len < c || c + bytes < b
      requires ListOk(m0, bs, freeBlocks, list) && c !in bs && c + used !in bs
      ensures ListOk(m1, ChunkBlocks(bs, c, bytes, used), freeBlocks, list)
    {
      forall i | 0 <= i < |list| ensures LinkOk(m1, list, i) {
        assert LinkOk(m0, list, i) && list[i] in list;
      }
    }

    /**
     Allocates at least `size` bytes behind a header; `os` is the address the
     system returns if a new chunk is needed, 0 if it refuses.  The new block is
     disjoint from every live one, and every live block stays as it was.
     */
    method MallocExec(size: nat, os: nat) returns (p: nat, ghost k: nat)
      requires Valid()
      requires os != 0 ==> Outside(chunks, os, ChunkBytes(RequestSize(size)))
      modifies this
      ensures Valid()
      ensures p == 0 ==> os == 0 && blocks == old(blocks) && chunks == old(chunks)
      ensures p == 0 ==> forall b :: b in blocks && blocks[b].free ==> blocks[b].len < RequestSize(size)
      ensures p != 0 ==> p >= HEADER && var h := p - HEADER;
                && h in blocks && !blocks[h].free && RequestSize(size) <= blocks[h].len <= RequestSize(size) + 64
                && h !in Used(old(blocks)) && Used(blocks) == Used(old(blocks))[h := blocks[h].len]
      ensures chunks == old(chunks) || (os != 0 && p == os + HEADER && chunks == old(chunks)[os := ChunkBytes(RequestSize(size))])
      ensures p == 0 ==> list == old(list)
      ensures p != 0 && chunks == old(chunks) ==> Taken(old(blocks), old(list), RequestSize(size), k, p - HEADER, blocks, list)
      ensures chunks != old(chunks) ==> NewlyMapped(old(blocks), old(list), os, RequestSize(size), blocks, list)
      ensures chunks != old(chunks) ==> forall b :: b in old(blocks) && old(blocks)[b].free ==> old(blocks)[b].len < RequestSize(size)
    {
      hide Sum, Sane, Merged, ChunkBytes, RequestSize, Taken, NewlyMapped, Used, NewChunkBlocks;
      var need := RequestSize(size);
      var a;
      a, k := FirstFit(need);
      if a != 0 {
        var h := TakeFrom(a, k, need);
        return h + HEADER, k;
      }
      if os == 0 {
        return 0, k;
      }
      MapChunk(os, need);
      Mapped(old(blocks), old(list), os, need, blocks, list);
      p := os + HEADER;
    }

    lemma Mapped(bs: Blocks, list: seq<nat>, c: nat, need: nat, bs': Blocks, list': seq<nat>)
      requires var bytes := ChunkBytes(need);
               && bs' == NewChunkBlocks(bs, c, bytes, if bytes > need + 64 then need else bytes)
               && list' == if bytes > need + 64 then [c + need] + list else list
      ensures NewlyMapped(bs, list, c, need, bs', list')
      ensures c !in bs ==> c !in Used(bs)
    {
    }

    /** Serves a request from the first free block that is long enough. */
    method TakeFrom(a: nat, ghost k: nat, need: nat) returns (h: nat)
      requires Valid() && k < |list| && list[k] == a && a in blocks && blocks[a].free && blocks[a].len >= need >= MIN_BLOCK
      requires forall j :: 0 <= j < k ==> list[j] in blocks && blocks[list[j]].len < need
      modifies this
      ensures Valid() && chunks == old(chunks) && Taken(old(blocks), old(list), need, k, h, blocks, list)
      ensures h in blocks && !blocks[h].free && need <= blocks[h].len <= need + 64
      ensures h !in Used(old(blocks)) && Used(blocks) == Used(old(blocks))[h := blocks[h].len]
    {
      hide Sum, Sane, Merged, Used;
      NoNullBlock(a);
      var len := mem[a].freeSize;
      h := a;
      ghost var bs := blocks;
      if len > need + 64 {
        h := CarveEnd(a, need);
        CarveAccounts(bs, a, len - need, need);
      } else {
        MarkAccounts(blocks, a);
        TakeWhole(a, k);
      }
    }

    /** The free block in front of `h`, if there is one. */
    lemma BlockBefore(h: nat)
      requires Sane() && h in blocks && !blocks[h].free
      ensures h in mem && mem[h].size == blocks[h].len >= MIN_BLOCK && mem[h].prevSize <= h
      ensures var p := h - mem[h].prevSize;
              && p in mem && p in blocks
              && (mem[p].size == 0 <==> blocks[p].free)
              && (blocks[p].free ==> p + blocks[p].len == h && p < h && blocks[p].chunk == blocks[h].chunk)
              && (!blocks[p].free ==> forall b :: b in blocks && b + blocks[b].len == h ==> !blocks[b].free)
    {
      NoNullBlock(h);
      var p := h - mem[h].prevSize;
      NoNullBlock(p);
      forall b | b in blocks && b + blocks[b].len == h ensures b == p {
        NoNullBlock(b);
      }
    }

    /** What stands behind free block `a`: a block or the terminator of its chunk. */
    lemma BlockBehind(a: nat)
      requires Sane() && a in blocks && blocks[a].free
      ensures a in mem && mem[a].freeSize == blocks[a].len >= MIN_BLOCK && a + blocks[a].len in mem
      ensures var n := a + blocks[a].len;
              && (mem[n].size == 0 <==> n in blocks && blocks[n].free)
              && (mem[n].size == 0 ==> mem[n].freeSize == blocks[n].len)
              && (mem[n].size == 1 && mem[a].prevSize == 0 ==> a in chunks && chunks[a] == blocks[a].len)
    {
      NoNullBlock(a);
      var n := a + blocks[a].len;
      if n in blocks {
        NoNullBlock(n);
        HeaderApart(mem, blocks, chunks, n, a);
      }
    }

    /** Joins free block `a` and the block `n` behind it. */
    method Join(a: nat, ghost n: nat, len: nat)
      requires Sane() && a in blocks && blocks[a].free && n == a + blocks[a].len && n in blocks && !blocks[n].free
      requires len == blocks[a].len + blocks[n].len
      modifies this`mem, this`blocks
      ensures Sane() && blocks == JoinBlocks(old(blocks), a, n)
    {
      hide BlocksOk, ChunksOk, LinksOk;
      JoinKeepsBlocks(mem, blocks, chunks, a, n);
      ghost var m0 := mem;
      WriteJoined(a, len);
      blocks := JoinBlocks(blocks, a, n);
      TagsKeepLinks(m0, mem, freeBlocks, list);
    }

    /** Joins free block `a` and the free block `n` behind it, which leaves the list. */
    method JoinFree(a: nat, n: nat, len: nat)
      requires Sane() && a in blocks && blocks[a].free && n == a + blocks[a].len && n in blocks && blocks[n].free
      requires len == blocks[a].len + blocks[n].len && MergedBut(blocks, a)
      modifies this`mem, this`blocks, this`freeBlocks, this`list
      ensures Sane() && blocks == JoinBlocks(old(blocks), a, n) && list == Removed(old(list), n)
    {
      hide BlocksOk, ChunksOk, LinksOk, JoinBlocks, JoinMem, Removed, MergedBut, Merged, Used;
      JoinKeepsBlocks(mem, blocks, chunks, a, n);
      JoinAccounts(blocks, a, n);
      assert n in list;
      ghost var k :| 0 <= k < |list| && list[k] == n;
      ghost var m0 := mem;
      RemoveFree(n, k);
      TagsKeepBlocks(m0, mem, blocks, chunks);
      JoinKeepsBlocks(mem, blocks, chunks, a, n);
      ghost var m1 := mem;
      WriteJoined(a, len);
      blocks := JoinBlocks(blocks, a, n);
      TagsKeepLinks(m1, mem, freeBlocks, list);
    }

    /** Gives a chunk that is one free block back to the system. */
    method ReleaseChunk(c: nat)
      requires Valid() && c in blocks && blocks[c].free && c in chunks && chunks[c] == blocks[c].len
      modifies this
      ensures Valid() && blocks == old(blocks) - {c} && chunks == old(chunks) - {c} && list == Removed(old(list), c)
      ensures allocatedSize == old(allocatedSize) && totalSize == old(totalSize) - old(chunks)[c]
    {
      hide BlocksOk, ChunksOk, LinksOk, Sum, Merged, Used, Removed;
      NoNullBlock(c);
      SumRemove(chunks, c);
      DropAccounts(blocks, c);
      totalSize := totalSize - mem[c].freeSize;
      assert c in list;
      ghost var k :| 0 <= k < |list| && list[k] == c;
      ghost var m0 := mem;
      RemoveFree(c, k);
      TagsKeepBlocks(m0, mem, blocks, chunks);
      DropKeepsBlocks(mem, blocks, chunks, c);
      blocks, chunks := blocks - {c}, chunks - {c};
    }

    /** Turns the used block `h` into free space, joined with a free block in front of it. */
    method Unuse(h: nat) returns (fb: nat)
      requires Valid() && h in blocks && !blocks[h].free
      modifies this
      ensures Sane() && MergedBut(blocks, fb) && fb in blocks && blocks[fb].free && blocks[fb].chunk == old(blocks)[h].chunk
      ensures Used(blocks) == Used(old(blocks)) - {h} && chunks == old(chunks) && totalSize == old(totalSize)
      ensures allocatedSize == Sum(Used(blocks)) == old(allocatedSize) - old(blocks)[h].len
      ensures fb in old(blocks) && blocks == FreedFront(old(blocks), h, fb) && list == if fb == h then [h] + old(list) else old(list)
      ensures if fb == h then forall p :: !FreeBefore(old(blocks), h, p) else FreeBefore(old(blocks), h, fb)
    {
      hide Sane, Sum, Merged, MergedBut, Used, JoinBlocks, MarkBlocks;
      BlockBefore(h);
      ghost var bs := blocks;
      UsedHas(bs, h);
      SumRemove(Used(bs), h);
      var len := mem[h].size;
      allocatedSize := allocatedSize - len;
      fb := h - mem[h].prevSize;
      if mem[fb].size == 0 {
        AbsorbAccounts(bs, fb, h);
        FreeLength(fb);
        Join(fb, h, mem[fb].freeSize + len);
      } else {
        fb := h;
        ReleaseAccounts(bs, h);
        InsertFree(h, len);
        MarkedFree(bs, h);
      }
    }

    lemma FreeLength(a: nat)
      requires Sane() && a in blocks && blocks[a].free
      ensures a in mem && mem[a].freeSize == blocks[a].len
    {
      NoNullBlock(a);
    }

    lemma UsedHas(bs: Blocks, h: nat)
      requires h in bs && !bs[h].free
      ensures h in Used(bs) && Used(bs)[h] == bs[h].len
    {
    }

    lemma MarkedFree(bs: Blocks, h: nat)
      requires h in bs
      ensures h in MarkBlocks(bs, h, true) && MarkBlocks(bs, h, true)[h] == bs[h].(free := true)
    {
    }

    /**
     Releases a live block: merged with free neighbours on both sides; a chunk
     that has become one free block is returned if enough free space remains.
     */
    method FreeExec(ptr: nat) returns (ghost fb: nat)
      requires Valid() && ptr >= HEADER && ptr - HEADER in Used(blocks)
      modifies this
      ensures Valid()
      ensures Used(blocks) == Used(old(blocks)) - {ptr - HEADER} && fb in old(blocks)
      ensures chunks == old(chunks) || chunks == old(chunks) - {old(blocks)[ptr - HEADER].chunk}
      ensures chunks != old(chunks) ==> totalSize > allocatedSize * 3 / 2
      ensures allocatedSize == old(allocatedSize) - old(blocks)[ptr - HEADER].len
      ensures chunks != old(chunks) ==>
                && fb in old(chunks) && totalSize == old(totalSize) - old(chunks)[fb] && chunks == old(chunks) - {fb}
                && fb in FreedBlocks(old(blocks), ptr - HEADER, fb) && FreedBlocks(old(blocks), ptr - HEADER, fb)[fb].len == old(chunks)[fb]
      ensures var c := old(blocks)[ptr - HEADER].chunk;
              chunks == old(chunks) && c in chunks && c in blocks && blocks[c].free && blocks[c].len == chunks[c] ==>
                totalSize - chunks[c] <= allocatedSize * 3 / 2
      ensures var h := ptr - HEADER;
              && (if fb == h then forall p :: !FreeBefore(old(blocks), h, p) else FreeBefore(old(blocks), h, fb))
              && if chunks == old(chunks)
                 then blocks == FreedBlocks(old(blocks), h, fb) && list == FreedList(old(blocks), old(list), h, fb)
                 else blocks == FreedBlocks(old(blocks), h, fb) - {fb} && list == Removed(FreedList(old(blocks), old(list), h, fb), fb)
    {
      hide Sane, Sum, Merged, MergedBut, JoinBlocks, MarkBlocks, Removed, FreedFront;
      var free := Unuse(ptr - HEADER);
      fb := free;
      BlockBehind(free);
      Behind(old(blocks), ptr - HEADER, free);
      var n := free + mem[free].freeSize;
      if mem[n].size == 0 {
        JoinAccounts(blocks, free, n);
        JoinFree(free, n, mem[free].freeSize + mem[n].freeSize);
        BlockBehind(free);
        n := free + mem[free].freeSize;
      } else {
        NowMerged(blocks, free);
      }
      WholeChunk(free);
      if mem[free].prevSize == 0 && mem[n].size == 1 {
        SumRemove(chunks, free);
        if totalSize - mem[free].freeSize > allocatedSize * 3 / 2 {
          DropAccounts(blocks, free);
          ReleaseChunk(free);
        }
      }
    }

    /** What stands behind the freed block. */
    lemma Behind(bs: Blocks, h: nat, fb: nat)
      requires h in bs && fb in bs && (fb == h || FreeBefore(bs, h, fb))
      ensures fb in FreedFront(bs, h, fb) ==> fb + FreedFront(bs, h, fb)[fb].len == h + bs[h].len
    {
    }

    /** A free block of a chunk that is a single free block is that block. */
    lemma WholeChunk(a: nat)
      requires Sane() && a in blocks && blocks[a].free
      ensures var c := blocks[a].chunk;
              && c in chunks && c in blocks && a in mem && a + blocks[a].len in mem
              && (blocks[c].len == chunks[c] ==>
                   a == c && mem[a].prevSize == 0 && mem[a + blocks[a].len].size == 1)
              && (a in chunks ==> a == c)
    {
      NoNullBlock(a);
      var c := blocks[a].chunk;
      assert ChunkOk(blocks, chunks, c);
      assert a in chunks ==> ChunkOk(blocks, chunks, a);
      Apart(mem, blocks, chunks, a, c);
    }

    lemma NowMerged(bs: Blocks, a: nat)
      requires a in bs && bs[a].free && MergedBut(bs, a)
      requires !(a + bs[a].len in bs && bs[a + bs[a].len].free)
      ensures Merged(bs)
    {
    }

    /** Whatever users write into their blocks, the allocator stays valid. */
    method UserWrites(m: Memory)
      requires Valid() && OnlyPayload(mem, m, blocks, chunks)
      modifies this`mem
      ensures Valid()
    {
      hide BlocksOk, Sum, Used, Merged;
      PayloadKeepsBlocks(mem, m, blocks, chunks);
      forall i | 0 <= i < |list| ensures LinkOk(m, list, i) {
        assert LinkOk(mem, list, i) && list[i] in list;
      }
      mem := m;
    }
  }

  /** Freeing the block would give its chunk back: it is all of the chunk, and enough free space remains. */
  ghost predicate GivesBack(al: Allocator, h: nat)
    requires h in al.blocks
    reads al
  {
    var len := al.blocks[h].len;
    h in al.chunks && al.chunks[h] == len && al.totalSize - len > (al.allocatedSize - len) * 3 / 2
  }

  /**
   The block freed last is given out first: freeing a block between used ones and
   asking for as much again returns the same block and restores the allocator.
   */
  method FreeThenMalloc(al: Allocator, p: nat, size: nat, os: nat) returns (q: nat)
    requires al.Valid() && p >= HEADER && p - HEADER in Used(al.blocks) && !GivesBack(al, p - HEADER)
    requires var h := p - HEADER;
             && (forall b :: !FreeBefore(al.blocks, h, b))
             && !(h + al.blocks[h].len in al.blocks && al.blocks[h + al.blocks[h].len].free)
             && RequestSize(size) <= al.blocks[h].len <= RequestSize(size) + 64
    requires os != 0 ==> Outside(al.chunks, os, ChunkBytes(RequestSize(size)))
    modifies al
    ensures al.Valid() && q == p
    ensures al.blocks == old(al.blocks) && al.list == old(al.list) && al.chunks == old(al.chunks)
  {
    hide Allocator.Sane, Allocator.Counted, Merged, Sum, RequestSize, ChunkBytes, Outside, NewlyMapped, JoinBlocks;
    ghost var bs, h := al.blocks, p - HEADER;
    ghost var fb := al.FreeExec(p);
    Alone(bs, al.list, h, fb);
    assert al.blocks[h].free && al.list[0] == h;
    ghost var k;
    q, k := al.MallocExec(size, os);
    assert MarkBlocks(MarkBlocks(bs, h, true), h, false) == bs;
  }

  lemma Alone(bs: Blocks, list: seq<nat>, h: nat, fb: nat)
    requires h in bs && fb in bs && fb == h && bs[h].len > 0
    requires !(h + bs[h].len in bs && bs[h + bs[h].len].free)
    ensures FreedBlocks(bs, h, fb) == MarkBlocks(bs, h, true) && FreedList(bs, list, h, fb) == [h] + list
  {
  }

  // ----- what validity means for the user of the allocator

  /** The blocks from `a` on lie end to end up to `end`. */
  ghost predicate Tiles(bs: Blocks, a: nat, end: nat)
    decreases end - a
  {
    a == end || (a < end && a in bs && bs[a].len > 0 && Tiles(bs, a + bs[a].len, end))
  }

  lemma {:induction false} BlocksTile(mem: Memory, bs: Blocks, cs: Chunks, a: nat)
    requires BlocksOk(mem, bs, cs) && a in bs
    ensures bs[a].chunk in cs && Tiles(bs, a, bs[a].chunk + cs[bs[a].chunk])
    decreases (if BlockOk(mem, bs, cs, a) then bs[a].chunk + cs[bs[a].chunk] else 0) - a
  {
    assert BlockOk(mem, bs, cs, a);
    var n := a + bs[a].len;
    if n in bs && n != bs[a].chunk + cs[bs[a].chunk] {
      assert BlockOk(mem, bs, cs, n);
      BlocksTile(mem, bs, cs, n);
    }
  }

  /** Every live chunk is tiled by its blocks from its start to its terminator. */
  lemma ChunksTiled(al: Allocator, c: nat)
    requires al.Valid() && c in al.chunks
    ensures Tiles(al.blocks, c, c + al.chunks[c])
    ensures c + al.chunks[c] in al.mem && al.mem[c + al.chunks[c]].size == 1
  {
    assert ChunkOk(al.blocks, al.chunks, c);
    BlocksTile(al.mem, al.blocks, al.chunks, c);
    LastBlockEnds(al.mem, al.blocks, al.chunks, c);
  }

  lemma {:induction false} LastBlockEnds(mem: Memory, bs: Blocks, cs: Chunks, a: nat)
    requires BlocksOk(mem, bs, cs) && a in bs
    ensures bs[a].chunk in cs
    ensures var end := bs[a].chunk + cs[bs[a].chunk]; end in mem && mem[end].size == 1
    decreases (if BlockOk(mem, bs, cs, a) then bs[a].chunk + cs[bs[a].chunk] else 0) - a
  {
    assert BlockOk(mem, bs, cs, a);
    var n := a + bs[a].len;
    if n != bs[a].chunk + cs[bs[a].chunk] {
      assert BlockOk(mem, bs, cs, n);
      LastBlockEnds(mem, bs, cs, n);
    }
  }

  /** Live allocations do not overlap. */
  lemma LiveDisjoint(al: Allocator, h: nat, k: nat)
    requires al.Valid() && h in Used(al.blocks) && k in Used(al.blocks) && h != k
    ensures h + Used(al.blocks)[h] <= k || k + Used(al.blocks)[k] <= h
  {
    assert Ordered(al.blocks, h, k) && Ordered(al.blocks, k, h);
  }
}
