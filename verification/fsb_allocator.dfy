/** The allocator with its memory: the free list runs through the units themselves,
    and each unit ends in a word that names its block. */
module FsbAllocator {
  import opened FsbPool

  /** A word of all ones ends a free list. */
  const NONE: int := 0xFFFF_FFFF_FFFF_FFFF

  /** The size of a block fits an index. */
  predicate Fits(elem: nat) {
    0 < elem && BLOCK_ELEMENTS * (elem + 1) < NONE
  }

  class MemBlock {
    /** Words of payload in a unit; one more holds the tag. */
    const elem: nat
    var block: array?<int>
    var firstFree: int
    var live: nat
    var endIndex: nat
    ghost var state: Block

    /** Where unit k starts. */
    function At(k: nat): nat {
      k * (elem + 1)
    }

    lemma Apart(k: nat, l: nat)
      requires k < l
      ensures At(k) + elem + 1 <= At(l)
    {
      assert l * (elem + 1) == k * (elem + 1) + (l - k) * (elem + 1);
      assert (l - k) * (elem + 1) == (l - k - 1) * (elem + 1) + (elem + 1);
      assert (l - k - 1) * (elem + 1) >= 0;
    }

    /** Different units share no word. */
    lemma UnitsDisjoint(k: nat, l: nat, i: nat, j: nat)
      requires k != l && i <= elem && j <= elem
      ensures At(k) + i != At(l) + j
    {
      if k < l {
        Apart(k, l);
      } else {
        Apart(l, k);
      }
    }

    /** The word that leads to the j-th free unit. */
    function Link(free: seq<nat>, j: nat): int {
      if j < |free| then At(free[j]) else NONE
    }

    constructor (elem: nat)
      requires Fits(elem)
      ensures this.elem == elem && state == Block(0, []) && block == null
      ensures forall index: nat :: Valid(index)
    {
      this.elem := elem;
      block, firstFree, live, endIndex := null, NONE, 0, 0;
      state := Block(0, []);
    }

    /** Every carved unit's tag names the block. */
    ghost predicate Tagged(index: nat)
      requires block != null
      reads this, block
    {
      forall k: nat :: k < state.carved ==>
        At(k) + elem < block.Length && block[At(k) + elem] == index
    }

    /** The first word of each free unit leads to the next one. */
    ghost predicate Linked()
      requires block != null
      reads this, block
    {
      forall j: nat :: j < |state.free| ==>
        At(state.free[j]) < block.Length
        && block[At(state.free[j])] == Link(state.free, j + 1)
    }

    /** The memory holds what state says, for a block with this index. */
    ghost predicate Valid(index: nat)
      reads this, block
    {
      && Fits(elem) && state.Valid()
      && live == state.carved - |state.free|
      && firstFree == Link(state.free, 0)
      && (block == null <==> state.carved == 0)
      && (block != null ==>
        block.Length == At(BLOCK_ELEMENTS) && endIndex == At(state.carved)
        && Tagged(index) && Linked())
    }

    method IsFull(ghost index: nat) returns (full: bool)
      requires Valid(index)
      ensures full == state.Full()
    {
      full := live == BLOCK_ELEMENTS;
    }

    lemma InBlock(k: nat)
      requires k < BLOCK_ELEMENTS
      ensures At(k) + elem < At(BLOCK_ELEMENTS)
    {
      Apart(k, BLOCK_ELEMENTS);
    }

    /** A unit, from the free list when there is one. Of memory that was there already
        nothing changes but a tag in memory not carved before. */
    method Allocate(index: nat) returns (mem: array<int>, offset: nat)
      requires Valid(index) && !state.Full()
      modifies this, block
      ensures Valid(index) && state == old(state).Allocate()
      ensures block == mem && offset == At(old(state).NextUnit())
      ensures if old(block) == null then fresh(mem) else mem == old(block)
      ensures old(block) != null ==> forall i :: 0 <= i < mem.Length && i != offset + elem ==> mem[i] == old(block[i])
    {
      state.AllocateValid();
      if firstFree == NONE {
        assert state.free == [] by {
          if state.free != [] {
            InBlock(state.free[0]);
          }
        }
        mem, offset := Carve(index);
      } else {
        mem, offset := block, firstFree;
        ghost var free := state.free;
        assert block[At(free[0])] == Link(free, 1);
        firstFree := block[firstFree];
        live := live + 1;
        state := state.Allocate();
        forall j: nat | j < |state.free|
          ensures At(state.free[j]) < block.Length
            && block[At(state.free[j])] == Link(state.free, j + 1)
        {
          assert state.free[j] == free[j + 1];
        }
      }
    }

    /** The first unit past those carved so far, tagged. */
    method Carve(index: nat) returns (mem: array<int>, offset: nat)
      requires Valid(index) && state.free == [] && state.carved < BLOCK_ELEMENTS
      modifies this, block
      ensures Valid(index) && state == old(state).Allocate()
      ensures block == mem && offset == At(old(state).carved)
      ensures if old(block) == null then fresh(mem) else mem == old(block)
      ensures old(block) != null ==> forall i :: 0 <= i < mem.Length && i != offset + elem ==> mem[i] == old(block[i])
    {
      if block == null {
        block := new int[BLOCK_ELEMENTS * (elem + 1)];
        endIndex := 0;
      }
      mem, offset := block, endIndex;
      ghost var k := state.carved;
      InBlock(k);
      assert At(k + 1) == At(k) + (elem + 1);
      endIndex := endIndex + (elem + 1);
      mem[offset + elem] := index;
      live := live + 1;
      state := Block(k + 1, []);
      forall l: nat | l < k + 1
        ensures At(l) + elem < block.Length && block[At(l) + elem] == index
      {
        InBlock(l);
        if l < k {
          UnitsDisjoint(l, k, elem, elem);
        }
      }
    }

    /** The unit joins the free list; the last one to go takes the memory with it. */
    method Deallocate(offset: nat, ghost k: nat, ghost index: nat)
      requires Valid(index) && state.Live(k) && offset == At(k)
      modifies this, block
      ensures Valid(index) && state == old(state).Deallocate(k)
      ensures block == null || block == old(block)
      ensures forall i :: 0 <= i < old(block).Length && i != offset ==> old(block)[i] == old(block[i])
    {
      hide At;
      state.DeallocateValid(k);
      InBlock(k);
      Thread(offset, k, index);
      live := live - 1;
      if live == 0 {
        Clear();
        state := Block(0, []);
      }
    }

    /** Puts the unit in front of the free list that runs through the units. */
    method Thread(offset: nat, ghost k: nat, ghost index: nat)
      requires Valid(index) && state.Live(k) && offset == At(k) && offset < block.Length
      modifies `firstFree, `state, block
      ensures state == Block(old(state).carved, [k] + old(state).free) && firstFree == offset
      ensures Linked() && Tagged(index)
      ensures forall i :: 0 <= i < block.Length && i != offset ==> block[i] == old(block[i])
    {
      hide At;
      ghost var free := state.free;
      assert forall j: nat :: j < |free| ==>
        At(free[j]) < block.Length && block[At(free[j])] == Link(free, j + 1);
      assert forall l: nat :: l < state.carved ==> At(l) + elem < block.Length && block[At(l) + elem] == index;
      block[offset] := firstFree;
      firstFree := offset;
      state := Block(state.carved, [k] + free);
      forall j: nat | j < |state.free|
        ensures At(state.free[j]) < block.Length && block[At(state.free[j])] == Link(state.free, j + 1)
      {
        assert Link(state.free, j + 1) == Link(free, j);
        if j > 0 {
          assert state.free[j] == free[j - 1];
          UnitsDisjoint(k, free[j - 1], 0, 0);
        }
      }
      forall l: nat | l < state.carved
        ensures At(l) + elem < block.Length && block[At(l) + elem] == index
      {
        if l != k {
          UnitsDisjoint(l, k, elem, 0);
        }
      }
    }

    method Clear()
      modifies `block, `firstFree
      ensures block == null && firstFree == NONE
    {
      block := null;
      firstFree := NONE;
    }

    /** The client writes into a unit it holds, tag excepted. */
    method Write(k: nat, word: nat, value: int, ghost index: nat)
      requires Valid(index) && state.Live(k) && word < elem
      modifies block
      ensures Valid(index) && state == old(state) && block == old(block)
      ensures At(k) + word < block.Length && block[At(k) + word] == value
      ensures forall i :: 0 <= i < block.Length && i != At(k) + word ==> block[i] == old(block[i])
    {
      InBlock(k);
      block[At(k) + word] := value;
      forall j: nat | j < |state.free|
        ensures At(state.free[j]) < block.Length
          && block[At(state.free[j])] == Link(state.free, j + 1)
      {
        UnitsDisjoint(k, state.free[j], word, 0);
      }
      forall l: nat | l < state.carved
        ensures At(l) + elem < block.Length && block[At(l) + elem] == index
      {
        if l != k {
          UnitsDisjoint(k, l, word, elem);
        }
      }
    }
  }

  class ElemAllocator {
    const elem: nat
    var blocks: seq<MemBlock>
    var withFree: seq<nat>
    ghost var state: Pool

    constructor (elem: nat)
      requires Fits(elem)
      ensures this.elem == elem && Valid() && state == Pool([], []) && blocks == []
    {
      this.elem := elem;
      blocks, withFree := [], [];
      state := Pool([], []);
    }

    ghost function Arrays(): set<array<int>>
      reads this`blocks, blocks
    {
      set b | b in blocks && b.block != null :: b.block
    }

    /** The blocks in memory are those of the state, without a shared object. */
    ghost predicate Memory()
      reads this, blocks, Arrays()
    {
      && |state.blocks| == |blocks| && state.withFree == withFree
      && (forall i :: 0 <= i < |blocks| ==>
        blocks[i].elem == elem && blocks[i].Valid(i) && blocks[i].state == state.blocks[i])
      && (forall i, j :: 0 <= i < j < |blocks| ==>
        blocks[i] != blocks[j] && (blocks[i].block != null ==> blocks[i].block != blocks[j].block))
    }

    ghost predicate Valid()
      reads this, blocks, Arrays()
    {
      Fits(elem) && Memory() && state.Valid()
    }

    /** The k-th unit of block i is live and starts at this place in memory. */
    ghost predicate Holds(mem: array<int>, offset: nat, i: nat, k: nat)
      reads this, blocks
    {
      i < |blocks| && blocks[i].block == mem && offset == blocks[i].At(k) && blocks[i].state.Live(k)
    }

    /** The w-th word of the k-th unit of block i. */
    ghost function Word(i: nat, k: nat, w: nat): int
      reads this`blocks, blocks, Arrays()
    {
      if i < |blocks| && blocks[i].block != null && blocks[i].At(k) + w < blocks[i].block.Length then
        blocks[i].block[blocks[i].At(k) + w]
      else 0
    }

    method AddBlock()
      requires Fits(elem) && Memory() && withFree == []
      modifies this
      ensures Memory() && state == old(state).WithRoom()
      ensures |blocks| == |old(blocks)| + 1 && old(blocks) <= blocks
      ensures fresh(blocks[|old(blocks)|]) && blocks[|old(blocks)|].block == null
      ensures forall j: nat, l: nat, w: nat :: j < |old(blocks)| ==> Word(j, l, w) == old(Word(j, l, w))
    {
      hide MemBlock.Valid, MemBlock.At, Block.Full;
      var b := new MemBlock(elem);
      state := state.WithRoom();
      withFree := [|blocks|];
      blocks := blocks + [b];
    }

    /** The block with this index serves the allocation. */
    method AllocateFrom(index: nat) returns (mem: array<int>, offset: nat)
      requires Memory() && index < |blocks| && !state.blocks[index].Full() && withFree != []
      modifies `state, `withFree, blocks[index], (if blocks[index].block == null then {} else {blocks[index].block})
      ensures Memory()
      ensures var b := old(state).blocks[index].Allocate();
        state == Pool(old(state).blocks[index := b],
                      if b.Full() then old(withFree)[..|old(withFree)| - 1] else old(withFree))
      ensures blocks[index].block == mem && offset == blocks[index].At(old(state).blocks[index].NextUnit())
      ensures if old(blocks[index].block) == null then fresh(mem) else mem == old(blocks[index].block)
      ensures old(blocks[index].block) != null ==>
        forall j :: 0 <= j < mem.Length && j != offset + elem ==> mem[j] == old(blocks[index].block[j])
    {
      hide MemBlock.Valid, Block.Full, Block.NextUnit;
      mem, offset := blocks[index].Allocate(index);
      forall i | 0 <= i < |blocks| && i != index
        ensures blocks[i].block == old(blocks[i].block) && blocks[i].state == old(blocks[i].state)
        ensures blocks[i].Valid(i) && blocks[i].block != blocks[index].block
      {
        assert blocks[i] != blocks[index];
      }
      state := state.(blocks := state.blocks[index := state.blocks[index].Allocate()]);
      var full := blocks[index].IsFull(index);
      if full {
        withFree := withFree[..|withFree| - 1];
        state := state.(withFree := withFree);
      }
    }

    /** No word of a live unit changes. */
    method AllocateKeeping(index: nat) returns (mem: array<int>, offset: nat)
      requires Memory() && index < |blocks| && !state.blocks[index].Full() && withFree != []
      modifies `state, `withFree, blocks[index], (if blocks[index].block == null then {} else {blocks[index].block})
      ensures Memory()
      ensures var b := old(state).blocks[index].Allocate();
        state == Pool(old(state).blocks[index := b],
                      if b.Full() then old(withFree)[..|old(withFree)| - 1] else old(withFree))
      ensures blocks[index].block == mem && offset == blocks[index].At(old(state).blocks[index].NextUnit())
      ensures if old(blocks[index].block) == null then fresh(mem) else mem == old(blocks[index].block)
      ensures forall j: nat, l: nat, w: nat :: j < |blocks| && old(state).blocks[j].Live(l) && w < elem ==>
        Word(j, l, w) == old(Word(j, l, w))
    {
      hide Memory, MemBlock.Valid, MemBlock.At, Block.Full, Block.NextUnit, Block.Allocate, Block.Live;
      if blocks[index].block == null {
        NothingCarved(index);
      }
      Described(index);
      Separate(index);
      ghost var next := state.blocks[index].NextUnit();
      NextNotLive(index);
      mem, offset := AllocateFrom(index);
      forall l: nat, w: nat | old(state).blocks[index].Live(l) && w < elem
        ensures Word(index, l, w) == old(Word(index, l, w))
      {
        blocks[index].UnitsDisjoint(l, next, w, elem);
      }
      forall j: nat, l: nat, w: nat | j < |blocks| && j != index && old(state).blocks[j].Live(l) && w < elem
        ensures Word(j, l, w) == old(Word(j, l, w))
      {
        assert blocks[j] != blocks[index];
      }
    }

    lemma NextNotLive(index: nat)
      requires Memory() && index < |blocks| && !state.blocks[index].Full()
      ensures !state.blocks[index].Live(state.blocks[index].NextUnit())
    {
      state.blocks[index].AllocateValid();
    }

    lemma NothingCarved(index: nat)
      requires Memory() && index < |blocks| && blocks[index].block == null
      ensures forall l: nat :: !state.blocks[index].Live(l)
    {
    }

    /** Hands out a unit that was not live, in block i; other live units stay where
        they are. */
    method Allocate() returns (mem: array<int>, offset: nat, ghost i: nat, ghost k: nat)
      requires Valid()
      modifies this, blocks, Arrays()
      ensures Valid() && old(blocks) <= blocks
      ensures i == old(state).Index() && i < |old(state).WithRoom().blocks| && k == old(state).Unit()
      ensures state == old(state).Allocate()
      ensures Holds(mem, offset, i, k) && !old(state).Live(i, k)
      ensures forall j :: 0 <= j < |old(blocks)| && old(blocks[j].block) != null ==>
        blocks[j].block == old(blocks[j].block)
      ensures forall j: nat, l: nat, w: nat :: old(state).Live(j, l) && w < elem ==> Word(j, l, w) == old(Word(j, l, w))
    {
      hide Pool.Valid, Pool.Index, Pool.Unit, Pool.Live, Pool.WithRoom, MemBlock.Valid;
      hide Block.Full, Block.NextUnit, Block.Allocate, Block.Live;
      ghost var p := state;
      HandsOut(p);
      i, k := p.Index(), p.Unit();
      EnsureRoom();
      assert state == p.WithRoom() && withFree == p.WithRoom().withFree;
      var index := withFree[|withFree| - 1];
      assert index == i;
      mem, offset := AllocateKeeping(index);
    }

    lemma HandsOut(p: Pool)
      requires p.Valid()
      ensures p.WithRoom().withFree != [] && p.WithRoom().withFree[|p.WithRoom().withFree| - 1] == p.Index()
      ensures p.Index() < |p.WithRoom().blocks| && !p.WithRoom().blocks[p.Index()].Full()
      ensures p.Unit() == p.WithRoom().blocks[p.Index()].NextUnit()
      ensures p.Allocate().Valid() && !p.Live(p.Index(), p.Unit())
      ensures p.Index() < |p.Allocate().blocks| && p.Allocate().blocks[p.Index()].Live(p.Unit())
      ensures forall j: nat, l: nat :: p.Live(j, l) ==>
        j < |p.blocks| <= |p.WithRoom().blocks| && p.WithRoom().blocks[j].Live(l)
    {
      p.IndexInside();
      p.AllocateGood();
      assert p.Allocate().Live(p.Index(), p.Unit());
    }

    method EnsureRoom()
      requires Fits(elem) && Memory()
      modifies this
      ensures Memory() && state == old(state).WithRoom() && old(blocks) <= blocks
      ensures forall j :: |old(blocks)| <= j < |blocks| ==> fresh(blocks[j]) && blocks[j].block == null
      ensures forall j: nat, l: nat, w: nat :: j < |old(blocks)| ==> Word(j, l, w) == old(Word(j, l, w))
    {
      if withFree == [] {
        AddBlock();
      }
    }

    /** A unit goes back to its block. */
    method DeallocateIn(index: nat, offset: nat, ghost k: nat)
      requires Memory() && index < |blocks| && state.blocks[index].Live(k) && offset == blocks[index].At(k)
      modifies `state, blocks[index], (if blocks[index].block == null then {} else {blocks[index].block})
      ensures Memory()
      ensures state == old(state).(blocks := old(state).blocks[index := old(state).blocks[index].Deallocate(k)])
      ensures blocks[index].block == null || blocks[index].block == old(blocks[index].block)
      ensures old(blocks[index].block) != null
      ensures forall j :: 0 <= j < old(blocks[index].block).Length && j != offset ==>
        old(blocks[index].block)[j] == old(blocks[index].block[j])
    {
      assert blocks[index].block != null;
      hide MemBlock.Valid, Block.Deallocate;
      blocks[index].Deallocate(offset, k, index);
      forall i | 0 <= i < |blocks| && i != index
        ensures blocks[i].block == old(blocks[i].block) && blocks[i].state == old(blocks[i].state)
        ensures blocks[i].Valid(i) && (blocks[i].block != null ==> blocks[i].block != blocks[index].block)
      {
        assert blocks[i] != blocks[index];
      }
      state := state.(blocks := state.blocks[index := state.blocks[index].Deallocate(k)]);
    }

    /** No word of a unit that stays live changes. */
    method DeallocateKeeping(index: nat, offset: nat, ghost k: nat)
      requires Memory() && index < |blocks| && state.blocks[index].Live(k) && offset == blocks[index].At(k)
      modifies `state, blocks[index], (if blocks[index].block == null then {} else {blocks[index].block})
      ensures Memory()
      ensures state == old(state).(blocks := old(state).blocks[index := old(state).blocks[index].Deallocate(k)])
      ensures forall j: nat, l: nat, w: nat :: j < |blocks| && state.blocks[j].Live(l) && w < elem ==>
        Word(j, l, w) == old(Word(j, l, w))
    {
      StaysLive(index, k);
      hide MemBlock.Valid, Block.Deallocate, Block.Live, MemBlock.At;
      DeallocateIn(index, offset, k);
      forall l: nat, w: nat | state.blocks[index].Live(l) && w < elem
        ensures Word(index, l, w) == old(Word(index, l, w))
      {
        LiveInMemory(index, l);
        blocks[index].UnitsDisjoint(l, k, w, 0);
      }
      forall j: nat, l: nat, w: nat | j < |blocks| && j != index && state.blocks[j].Live(l) && w < elem
        ensures Word(j, l, w) == old(Word(j, l, w))
      {
        assert blocks[j].block == old(blocks[j].block);
      }
    }

    /** The client writes into a unit it holds: the free lists and the tags are as they were,
        and so is every other word of a live unit. */
    method Write(i: nat, k: nat, word: nat, value: int)
      requires Valid() && state.Live(i, k) && word < elem
      modifies (if i < |blocks| && blocks[i].block != null then {blocks[i].block} else {})
      ensures Valid() && state == old(state) && blocks == old(blocks)
      ensures Word(i, k, word) == value
      ensures forall j: nat, l: nat, w: nat :: state.Live(j, l) && w < elem && (j, l, w) != (i, k, word) ==>
        Word(j, l, w) == old(Word(j, l, w))
    {
      LiveMeans();
      LiveInMemory(i, k);
      Described(i);
      hide MemBlock.Valid, MemBlock.At, Block.Live, Pool.Live, Pool.Valid;
      blocks[i].Write(k, word, value, i);
      forall j | 0 <= j < |blocks| && j != i
        ensures blocks[j].Valid(j) && (blocks[j].block != null ==> blocks[j].block != blocks[i].block)
      {
        assert blocks[j] != blocks[i];
      }
      forall j: nat, l: nat, w: nat | state.Live(j, l) && w < elem && (j, l, w) != (i, k, word)
        ensures Word(j, l, w) == old(Word(j, l, w))
      {
        if j == i && l != k {
          blocks[i].UnitsDisjoint(l, k, w, word);
        }
      }
    }

    lemma StaysLive(index: nat, k: nat)
      requires Memory() && index < |blocks| && state.blocks[index].Live(k)
      ensures forall l: nat :: state.blocks[index].Deallocate(k).Live(l) ==> l != k
    {
      state.blocks[index].DeallocateValid(k);
    }

    lemma LiveInMemory(j: nat, l: nat)
      requires Memory() && j < |blocks| && state.blocks[j].Live(l)
      ensures blocks[j].block != null && blocks[j].elem == elem
    {
    }

    /** Takes a live unit back. Its tag leads to the block it belongs to. */
    method Deallocate(mem: array?<int>, offset: nat, ghost i: nat, ghost k: nat)
      requires Valid() && (mem != null ==> Holds(mem, offset, i, k))
      modifies this, blocks, Arrays()
      ensures Valid() && blocks == old(blocks)
      ensures state == if mem == null then old(state) else old(state).Deallocate(i, k)
      ensures forall j: nat, l: nat, w: nat :: state.Live(j, l) && w < elem ==> Word(j, l, w) == old(Word(j, l, w))
    {
      if mem == null {
        return;
      }
      hide Memory, Pool.Valid, MemBlock.Valid, Block.Deallocate, Pool.Live, Block.Live, Block.Full, Holds, Word;
      ghost var p := state;
      TagLeadsBack(mem, offset, i, k);
      p.DeallocateGood(i, k);
      var index := mem[offset + elem];
      assert index == i;
      TakeBack(index, offset, k);
      LiveMeans();
    }

    /** The block has room from now on. */
    method TakeBack(index: nat, offset: nat, ghost k: nat)
      requires Memory() && index < |blocks| && state.blocks[index].Live(k) && offset == blocks[index].At(k)
      modifies `state, `withFree, blocks[index], (if blocks[index].block == null then {} else {blocks[index].block})
      ensures Memory() && state == old(state).Deallocate(index, k)
      ensures forall j: nat, l: nat, w: nat :: j < |blocks| && state.blocks[j].Live(l) && w < elem ==>
        Word(j, l, w) == old(Word(j, l, w))
    {
      hide Memory, MemBlock.Valid, MemBlock.At, Block.Deallocate, Block.Live, Block.Full, Pool.Live, Pool.Valid, Word;
      Enlist(index);
      assert state.blocks[index].Live(k) && offset == blocks[index].At(k);
      DeallocateKeeping(index, offset, k);
    }

    lemma Described(index: nat)
      requires Memory() && index < |blocks|
      ensures |blocks| == |state.blocks| && blocks[index].Valid(index) && blocks[index].state == state.blocks[index]
      ensures blocks[index].elem == elem
    {
    }

    lemma Separate(index: nat)
      requires Memory() && index < |blocks|
      ensures forall j :: 0 <= j < |blocks| && j != index ==>
        blocks[j] != blocks[index] && (blocks[j].block != null ==> blocks[j].block != blocks[index].block)
    {
    }

    lemma LiveMeans()
      requires Memory()
      ensures forall j: nat, l: nat :: state.Live(j, l) ==> j < |blocks| && state.blocks[j].Live(l)
    {
    }

    lemma TagLeadsBack(mem: array<int>, offset: nat, i: nat, k: nat)
      requires Valid() && Holds(mem, offset, i, k)
      ensures offset + elem < mem.Length && mem[offset + elem] == i
      ensures i < |blocks| == |state.blocks| && blocks[i].elem == elem && blocks[i].Valid(i)
      ensures blocks[i].state == state.blocks[i] && state.blocks[i].Live(k) && state.Live(i, k)
      ensures offset == blocks[i].At(k)
    {
      assert state.Live(i, k);
      blocks[i].InBlock(k);
    }

    method Enlist(index: nat)
      requires Memory() && index < |blocks|
      modifies `state, `withFree
      ensures Memory()
      ensures state.blocks == old(state).blocks
      ensures state.withFree ==
        if old(state).blocks[index].Full() then old(state).withFree + [index] else old(state).withFree
      ensures forall j: nat, l: nat, w: nat :: Word(j, l, w) == old(Word(j, l, w))
    {
      var full := blocks[index].IsFull(index);
      if full {
        withFree := withFree + [index];
        state := state.(withFree := withFree);
      }
    }
  }
}
