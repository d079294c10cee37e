/** Dirty blocks laid over a base image. */
module SaveBlocks {
  import opened Basics
  import opened Bytes
  import opened SaveJournal

  type Blocks = map<int, seq<byte>>

  /** Every block is whole and lies inside an image of the given size. */
  ghost predicate BlocksFit(size: nat, dirty: Blocks) {
    && size % SAVE_BLOCK_SIZE == 0
    && forall b :: b in dirty ==>
      0 <= b && b * SAVE_BLOCK_SIZE + SAVE_BLOCK_SIZE <= size && |dirty[b]| == SAVE_BLOCK_SIZE
  }

  ghost function OverlayAt(base: seq<byte>, dirty: Blocks, i: nat): byte
    requires BlocksFit(|base|, dirty) && i < |base|
  {
    if i / SAVE_BLOCK_SIZE in dirty then dirty[i / SAVE_BLOCK_SIZE][i % SAVE_BLOCK_SIZE] else base[i]
  }

  /** The flat card: a dirty block is the authority for its bytes, the base for all others. */
  ghost function Overlay(base: seq<byte>, dirty: Blocks): (r: seq<byte>)
    requires BlocksFit(|base|, dirty)
    ensures |r| == |base|
    ensures forall i :: 0 <= i < |base| ==> r[i] == OverlayAt(base, dirty, i)
  {
    seq(|base|, i requires 0 <= i < |base| => OverlayAt(base, dirty, i))
  }

  /** The bytes of block `b` as the overlay shows them. */
  function BlockOf(base: seq<byte>, dirty: Blocks, b: nat): (r: seq<byte>)
    requires b in dirty ==> |dirty[b]| == SAVE_BLOCK_SIZE
    requires b * SAVE_BLOCK_SIZE + SAVE_BLOCK_SIZE <= |base|
    ensures |r| == SAVE_BLOCK_SIZE
  {
    if b in dirty then dirty[b] else base[b * SAVE_BLOCK_SIZE..b * SAVE_BLOCK_SIZE + SAVE_BLOCK_SIZE]
  }

  /** Changing part of one block patches the flat card there and nowhere else. */
  lemma OverlayPatch(base: seq<byte>, dirty: Blocks, b: nat, inBlock: nat, piece: seq<byte>)
    requires BlocksFit(|base|, dirty)
    requires b * SAVE_BLOCK_SIZE + SAVE_BLOCK_SIZE <= |base| && inBlock + |piece| <= SAVE_BLOCK_SIZE
    ensures BlocksFit(|base|, dirty[b := Patch(BlockOf(base, dirty, b), inBlock, piece)])
    ensures Overlay(base, dirty[b := Patch(BlockOf(base, dirty, b), inBlock, piece)])
         == Patch(Overlay(base, dirty), b * SAVE_BLOCK_SIZE + inBlock, piece)
  {
    var next := dirty[b := Patch(BlockOf(base, dirty, b), inBlock, piece)];
    var want := Patch(Overlay(base, dirty), b * SAVE_BLOCK_SIZE + inBlock, piece);
    forall i: nat | i < |base| ensures OverlayAt(base, next, i) == want[i] {
      if i / SAVE_BLOCK_SIZE == b {
        assert i == b * SAVE_BLOCK_SIZE + i % SAVE_BLOCK_SIZE;
      }
    }
  }

  lemma OverlayNothing(base: seq<byte>)
    requires |base| % SAVE_BLOCK_SIZE == 0
    ensures Overlay(base, map[]) == base
  {
  }

  /** Laying the same blocks over their own result changes nothing. */
  lemma OverlayIdempotent(base: seq<byte>, dirty: Blocks)
    requires BlocksFit(|base|, dirty)
    ensures Overlay(Overlay(base, dirty), dirty) == Overlay(base, dirty)
  {
  }

  /** How many block numbers from `lo` up to but not including `hi` are not known yet. */
  function NewBlocks(lo: nat, hi: nat, known: set<int>): (n: nat)
    requires lo <= hi
    ensures n <= hi - lo
  {
    if lo == hi then 0 else NewBlocks(lo, hi - 1, known) + if hi - 1 in known then 0 else 1
  }

  lemma {:induction false} NewBlocksGrow(lo: nat, mid: nat, hi: nat, known: set<int>)
    requires lo <= mid <= hi
    ensures NewBlocks(lo, mid, known) <= NewBlocks(lo, hi, known)
    decreases hi
  {
    if mid < hi {
      NewBlocksGrow(lo, mid, hi - 1, known);
    }
  }

  /** The first block that a write at `offset` has not reached after `done` bytes. */
  function NextBlock(offset: nat, done: nat): nat {
    if done == 0 then offset / SAVE_BLOCK_SIZE else (offset + done - 1) / SAVE_BLOCK_SIZE + 1
  }

  lemma NextBlockMoves(offset: nat, done: nat, length: nat)
    requires length > 0 && (offset + done) % SAVE_BLOCK_SIZE + length <= SAVE_BLOCK_SIZE
    requires done == 0 || (offset + done) % SAVE_BLOCK_SIZE == 0
    ensures NextBlock(offset, done) == (offset + done) / SAVE_BLOCK_SIZE
    ensures NextBlock(offset, done + length) == NextBlock(offset, done) + 1
    ensures NextBlock(offset, done) >= offset / SAVE_BLOCK_SIZE
  {
    assert (offset + done + length - 1) / SAVE_BLOCK_SIZE == (offset + done) / SAVE_BLOCK_SIZE;
  }

  /** `now` is `flat` with the first `done` bytes of `data` patched in. */
  ghost predicate PatchedTo(now: seq<byte>, flat: seq<byte>, offset: nat, data: seq<byte>, done: nat) {
    && |now| == |flat| && offset + |data| <= |flat| && done <= |data|
    && forall i :: 0 <= i < |flat| ==>
      now[i] == if offset <= i < offset + done then data[i - offset] else flat[i]
  }

  lemma PatchedNext(now: seq<byte>, flat: seq<byte>, offset: nat, data: seq<byte>, done: nat, length: nat)
    requires PatchedTo(now, flat, offset, data, done) && done + length <= |data|
    ensures PatchedTo(Patch(now, offset + done, data[done..done + length]), flat, offset, data, done + length)
  {
  }

  /** The map holds what it held before and every block from `first` up to `next`. */
  ghost predicate RangeTaken(before: Blocks, now: Blocks, first: nat, next: nat) {
    && first <= next
    && (forall b :: b in now <==> b in before || first <= b < next)
    && |now| == |before| + NewBlocks(first, next, before.Keys)
  }

  lemma RangeTakenNext(before: Blocks, held: Blocks, now: Blocks, first: nat, next: nat)
    requires RangeTaken(before, held, first, next)
    requires forall b :: b in now <==> b in held || b == next
    requires |now| == |held| + if next in held then 0 else 1
    ensures RangeTaken(before, now, first, next + 1)
  {
    assert next in held <==> next in before.Keys;
  }

  /** After `done` bytes of a write the map holds what it held and every block reached so far. */
  ghost predicate BlocksTaken(before: Blocks, now: Blocks, offset: nat, total: nat, done: nat) {
    && (done == 0 || done == total || (offset + done) % SAVE_BLOCK_SIZE == 0)
    && RangeTaken(before, now, offset / SAVE_BLOCK_SIZE, NextBlock(offset, done))
  }

  lemma BlocksTakenNext(before: Blocks, held: Blocks, now: Blocks,
                        offset: nat, total: nat, done: nat, length: nat)
    requires BlocksTaken(before, held, offset, total, done) && done < total && length > 0
    requires (offset + done) % SAVE_BLOCK_SIZE + length <= SAVE_BLOCK_SIZE
    requires done + length == total || (offset + done) % SAVE_BLOCK_SIZE + length == SAVE_BLOCK_SIZE
    requires forall b :: b in now <==> b in held || b == (offset + done) / SAVE_BLOCK_SIZE
    requires |now| == |held| + if (offset + done) / SAVE_BLOCK_SIZE in held then 0 else 1
    ensures BlocksTaken(before, now, offset, total, done + length)
  {
    NextBlockMoves(offset, done, length);
    TakenMoves(before, held, now, offset / SAVE_BLOCK_SIZE, NextBlock(offset, done), NextBlock(offset, done + length),
      (offset + done) / SAVE_BLOCK_SIZE);
    EndsAligned(offset + done, length);
  }

  lemma TakenMoves(before: Blocks, held: Blocks, now: Blocks, first: nat, next: nat, after: nat, block: nat)
    requires RangeTaken(before, held, first, next) && block == next && after == next + 1
    requires forall b :: b in now <==> b in held || b == block
    requires |now| == |held| + if block in held then 0 else 1
    ensures RangeTaken(before, now, first, after)
  {
    RangeTakenNext(before, held, now, first, next);
  }

  lemma EndsAligned(position: nat, length: nat)
    ensures position % SAVE_BLOCK_SIZE + length == SAVE_BLOCK_SIZE ==> (position + length) % SAVE_BLOCK_SIZE == 0
  {
  }

  lemma KeyAdded<V>(m: map<int, V>, key: int, v: V)
    ensures |m[key := v]| == |m| + if key in m then 0 else 1
    ensures forall b :: b in m[key := v] <==> b in m || b == key
  {
  }

  lemma SubsetSize<T>(part: set<T>, whole: set<T>)
    requires part <= whole
    ensures |part| <= |whole|
  {
    assert whole == part + (whole - part);
  }

  lemma RemoveOneMore<K, V>(m: map<K, V>, gone: set<K>, x: K)
    ensures m - gone - {x} == m - (gone + {x})
    ensures x in m - gone ==> |m - (gone + {x})| == |m - gone| - 1
    ensures forall y :: y in m - (gone + {x}) <==> y in m - gone && y != x
  {
    var less := m - (gone + {x});
    if x in m - gone {
      assert (m - gone).Keys == less.Keys + {x};
    }
  }
}
