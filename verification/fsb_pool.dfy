/** What an allocator of fixed-size units does, block by block, without its memory. */
module FsbPool {

  const BLOCK_ELEMENTS: nat := 512

  /** A block: how many units were carved from it, and the free ones, next first. */
  datatype Block = Block(carved: nat, free: seq<nat>) {

    predicate Full() {
      carved - |free| == BLOCK_ELEMENTS
    }

    ghost predicate Valid() {
      && carved <= BLOCK_ELEMENTS
      && (forall j :: 0 <= j < |free| ==> free[j] < carved)
      && (forall j, l :: 0 <= j < l < |free| ==> free[j] != free[l])
      && (carved > 0 ==> |free| < carved)
    }

    ghost predicate Live(k: nat) {
      k < carved && k !in free
    }

    /** The unit the next allocation takes. */
    function NextUnit(): nat {
      if free == [] then carved else free[0]
    }

    function Allocate(): Block {
      if free == [] then Block(carved + 1, []) else Block(carved, free[1..])
    }

    /** A block with no live unit left gives its memory back. */
    function Deallocate(k: nat): Block {
      if carved - (|free| + 1) == 0 then Block(0, []) else Block(carved, [k] + free)
    }

    lemma AllocateValid()
      requires Valid() && !Full()
      ensures Allocate().Valid() && !Live(NextUnit())
      ensures forall k: nat :: Allocate().Live(k) <==> Live(k) || k == NextUnit()
    {
      if free != [] {
        assert free == [free[0]] + free[1..];
        forall k: nat
          ensures Allocate().Live(k) <==> Live(k) || k == NextUnit()
        {
          assert k in free <==> k == free[0] || k in free[1..];
        }
      } else {
        assert carved < BLOCK_ELEMENTS;
      }
    }

    lemma DeallocateValid(k: nat)
      requires Valid() && Live(k)
      ensures Deallocate(k).Valid() && !Deallocate(k).Full()
      ensures forall l: nat :: Deallocate(k).Live(l) <==> Live(l) && l != k
    {
      DistinctBound(free, carved);
      if carved - (|free| + 1) == 0 {
        forall l: nat
          ensures Live(l) ==> l == k
        {
          if Live(l) && l != k {
            DistinctBound([k, l] + free, carved);
          }
        }
      }
    }
  }

  /** Distinct numbers below n are at most n. */
  lemma {:induction false} DistinctBound(s: seq<nat>, n: nat)
    requires forall j :: 0 <= j < |s| ==> s[j] < n
    requires forall j, l :: 0 <= j < l < |s| ==> s[j] != s[l]
    ensures |s| <= n
    decreases n
  {
    if s != [] {
      assert s[0] < n;
      var t := Without(s, n - 1);
      DistinctBound(t, n - 1);
    }
  }

  /** s without x, where x occurs once at most. */
  lemma Without(s: seq<nat>, x: nat) returns (t: seq<nat>)
    requires forall j, l :: 0 <= j < l < |s| ==> s[j] != s[l]
    ensures |s| <= |t| + 1
    ensures forall j :: 0 <= j < |t| ==> t[j] in s && t[j] != x
    ensures forall j, l :: 0 <= j < l < |t| ==> t[j] != t[l]
  {
    if x in s {
      var i :| 0 <= i < |s| && s[i] == x;
      t := s[..i] + s[i + 1..];
    } else {
      t := s;
    }
  }

  /** All blocks, and the indices of those with room, the one in use last. */
  datatype Pool = Pool(blocks: seq<Block>, withFree: seq<nat>) {

    ghost predicate Valid() {
      && (forall i :: 0 <= i < |blocks| ==> blocks[i].Valid())
      && (forall j :: 0 <= j < |withFree| ==> withFree[j] < |blocks| && !blocks[withFree[j]].Full())
      && (forall i :: 0 <= i < |blocks| && !blocks[i].Full() ==> i in withFree)
      && (forall j, l :: 0 <= j < l < |withFree| ==> withFree[j] != withFree[l])
    }

    ghost predicate Live(i: nat, k: nat) {
      i < |blocks| && blocks[i].Live(k)
    }

    /** A block is added only when none has room. */
    function WithRoom(): Pool {
      if withFree == [] then Pool(blocks + [Block(0, [])], [|blocks|]) else this
    }

    /** The block that serves the next allocation. */
    function Index(): nat {
      if withFree == [] then |blocks| else withFree[|withFree| - 1]
    }

    function Unit(): nat
      requires Index() < |WithRoom().blocks|
    {
      WithRoom().blocks[Index()].NextUnit()
    }

    function Allocate(): Pool
      requires Index() < |WithRoom().blocks|
    {
      var p := WithRoom();
      var b := p.blocks[Index()].Allocate();
      Pool(p.blocks[Index() := b], if b.Full() then p.withFree[..|p.withFree| - 1] else p.withFree)
    }

    function Deallocate(i: nat, k: nat): Pool
      requires i < |blocks|
    {
      Pool(blocks[i := blocks[i].Deallocate(k)], if blocks[i].Full() then withFree + [i] else withFree)
    }

    lemma IndexInside()
      requires Valid()
      ensures Index() < |WithRoom().blocks|
      ensures WithRoom().withFree != [] && WithRoom().withFree[|WithRoom().withFree| - 1] == Index()
      ensures WithRoom().Valid() && !WithRoom().blocks[Index()].Full()
      ensures forall i: nat, k: nat :: WithRoom().Live(i, k) <==> Live(i, k)
    {
      var p := WithRoom();
      if withFree == [] {
        assert p.blocks[|blocks|] == Block(0, []);
        assert forall i :: 0 <= i < |blocks| ==> p.blocks[i] == blocks[i];
        forall i | 0 <= i < |p.blocks| && !p.blocks[i].Full()
          ensures i in p.withFree
        {
        }
      }
    }

    /** The unit handed out was not live; now it is, and all else is as before. The
        list of blocks with room stays exact, and a block is added only when all are full. */
    lemma AllocateGood()
      requires Valid()
      ensures Index() < |WithRoom().blocks| && Allocate().Valid()
      ensures !Live(Index(), Unit())
      ensures forall i: nat, k: nat :: Allocate().Live(i, k) <==> Live(i, k) || (i == Index() && k == Unit())
      ensures |Allocate().blocks| > |blocks| ==> forall i :: 0 <= i < |blocks| ==> blocks[i].Full()
    {
      IndexInside();
      var p, after := WithRoom(), Allocate();
      var b := p.blocks[Index()];
      b.AllocateValid();
      if b.Allocate().Full() {
        TopDropped(p.withFree, Index());
      }
      forall i | 0 <= i < |after.blocks| && !after.blocks[i].Full()
        ensures i in after.withFree
      {
        assert i != Index() ==> after.blocks[i] == p.blocks[i];
      }
    }

    lemma DeallocateGood(i: nat, k: nat)
      requires Valid() && Live(i, k)
      ensures Deallocate(i, k).Valid()
      ensures forall j: nat, l: nat :: Deallocate(i, k).Live(j, l) <==> Live(j, l) && !(j == i && l == k)
    {
      blocks[i].DeallocateValid(k);
      var after := Deallocate(i, k);
      forall j | 0 <= j < |blocks| && !after.blocks[j].Full()
        ensures j in after.withFree
      {
        if j == i {
          assert blocks[i].Full() ==> after.withFree[|withFree|] == i;
        } else {
          var l :| 0 <= l < |withFree| && withFree[l] == j;
          assert after.withFree[l] == j;
        }
      }
    }
  }

  lemma TopDropped(s: seq<nat>, x: nat)
    requires s != [] && s[|s| - 1] == x && forall j, l :: 0 <= j < l < |s| ==> s[j] != s[l]
    ensures forall y :: y in s[..|s| - 1] <==> y in s && y != x
  {
    forall y | y in s && y != x
      ensures y in s[..|s| - 1]
    {
      var j :| 0 <= j < |s| && s[j] == y;
      assert s[..|s| - 1][j] == y;
    }
  }

  /** A client allocates, or frees a unit that is live. */
  datatype Op = Alloc | Free(i: nat, k: nat)

  ghost predicate Allowed(p: Pool, op: Op) {
    op.Free? ==> p.Live(op.i, op.k)
  }

  function Apply(p: Pool, op: Op): Pool
    requires p.Index() < |p.WithRoom().blocks|
    requires op.Free? ==> op.i < |p.blocks|
  {
    match op
    case Alloc => p.Allocate()
    case Free(i, k) => p.Deallocate(i, k)
  }

  ghost predicate Run(p: Pool, ops: seq<Op>, handed: seq<(nat, nat)>, p': Pool)
    decreases |ops|
  {
    if ops == [] then p == p' && handed == []
    else
      && p.Index() < |p.WithRoom().blocks| && Allowed(p, ops[0])
      && if ops[0].Alloc? then
           handed != [] && handed[0] == (p.Index(), p.Unit()) && Run(p.Allocate(), ops[1..], handed[1..], p')
         else Run(Apply(p, ops[0]), ops[1..], handed, p')
  }

  /** The units a run frees, in order. */
  function Freed(ops: seq<Op>): multiset<(nat, nat)> {
    if ops == [] then multiset{}
    else (if ops[0].Free? then multiset{(ops[0].i, ops[0].k)} else multiset{}) + Freed(ops[1..])
  }

  /** Each live unit was handed out once more than it was freed, any other as often. */
  ghost predicate Balanced(p: Pool, p': Pool, handed: seq<(nat, nat)>, ops: seq<Op>) {
    forall i: nat, k: nat ::
      multiset(handed)[(i, k)] + (if p.Live(i, k) then 1 else 0)
        == Freed(ops)[(i, k)] + (if p'.Live(i, k) then 1 else 0)
  }

  lemma BalancedAlloc(p: Pool, p1: Pool, p': Pool, handed: seq<(nat, nat)>, ops: seq<Op>)
    requires handed != [] && ops != [] && ops[0].Alloc? && Balanced(p1, p', handed[1..], ops[1..])
    requires !p.Live(handed[0].0, handed[0].1)
    requires forall i: nat, k: nat :: p1.Live(i, k) <==> p.Live(i, k) || (i == handed[0].0 && k == handed[0].1)
    ensures Balanced(p, p', handed, ops)
  {
    hide Pool.Live;
    assert handed == [handed[0]] + handed[1..];
    assert multiset(handed) == multiset{handed[0]} + multiset(handed[1..]);
  }

  lemma BalancedFree(p: Pool, p1: Pool, p': Pool, handed: seq<(nat, nat)>, ops: seq<Op>)
    requires ops != [] && ops[0].Free? && Balanced(p1, p', handed, ops[1..]) && p.Live(ops[0].i, ops[0].k)
    requires forall i: nat, k: nat :: p1.Live(i, k) <==> p.Live(i, k) && !(i == ops[0].i && k == ops[0].k)
    ensures Balanced(p, p', handed, ops)
  {
    hide Pool.Live;
  }

  /** Over every run: the pool stays valid, and no unit is handed out while it is live. */
  lemma {:induction false} RunGood(p: Pool, ops: seq<Op>, handed: seq<(nat, nat)>, p': Pool)
    requires p.Valid() && Run(p, ops, handed, p')
    ensures p'.Valid() && Balanced(p, p', handed, ops)
    decreases |ops|
  {
    hide Pool.Valid, Pool.Allocate, Pool.Deallocate, Pool.Index, Pool.WithRoom, Pool.Unit;
    if ops != [] {
      hide Balanced;
      if ops[0].Alloc? {
        p.AllocateGood();
        RunGood(p.Allocate(), ops[1..], handed[1..], p');
        BalancedAlloc(p, p.Allocate(), p', handed, ops);
      } else {
        p.DeallocateGood(ops[0].i, ops[0].k);
        RunGood(Apply(p, ops[0]), ops[1..], handed, p');
        BalancedFree(p, Apply(p, ops[0]), p', handed, ops);
      }
    }
  }
}
