/** The bump allocator SerialArena with its stack of cleanups (arena_impl.h, arena.cc), for a
    64-bit platform. */
module Arena {
  import opened Seqs

  /** sizeof(Block), sizeof(CleanupNode) and sizeof(SerialArena), rounded up to 8. */
  const BLOCK_HEADER_SIZE := 24
  const CLEANUP_SIZE := 16
  const SERIAL_ARENA_SIZE := 56

  /** n & -8. */
  function AlignDownTo8(n: nat): nat { n - n % 8 }

  /** AlignUpTo8. */
  function AlignUpTo8(n: nat): nat { AlignDownTo8(n + 7) }

  lemma AlignUpIsNextMultiple(n: nat)
    ensures AlignUpTo8(n) % 8 == 0 && n <= AlignUpTo8(n) < n + 8
    ensures n % 8 == 0 ==> AlignUpTo8(n) == n
  {}

  type CleanupNode = int

  datatype Policy = Policy(startBlockSize: nat, maxBlockSize: nat) {
    predicate Aligned() { startBlockSize % 8 == 0 && maxBlockSize % 8 == 0 }
  }

  const DEFAULT_POLICY := Policy(256, 8192)

  /** A block: its size, where its cleanup nodes start (once it is no longer the head), and the
      nodes by their offset. */
  datatype Block = Block(size: nat, start: nat, nodes: map<nat, CleanupNode>)

  /** A piece of memory: block number and offsets. */
  datatype Range = Range(block: nat, from: nat, to: nat) {
    predicate Disjoint(r: Range) { block != r.block || to <= r.from || r.to <= from }
  }

  /** AllocateMemory: the size of the next block. */
  function NextBlockSize(policy: Policy, lastSize: nat, minBytes: nat): (size: nat)
    ensures size >= BLOCK_HEADER_SIZE + minBytes
    ensures lastSize % 8 == 0 && policy.Aligned() && minBytes % 8 == 0 ==> size % 8 == 0
  {
    var size := if lastSize != 0 then (if 2 * lastSize < policy.maxBlockSize then 2 * lastSize else policy.maxBlockSize)
                else policy.startBlockSize;
    if size < BLOCK_HEADER_SIZE + minBytes then BLOCK_HEADER_SIZE + minBytes else size
  }

  /** A request that fits gets twice the last block, up to the limit, or the first block's size; one
      that does not gets just what it needs, with the header of 24 bytes. */
  lemma NextBlockSizeExact(policy: Policy, lastSize: nat, minBytes: nat)
    ensures var size, need := NextBlockSize(policy, lastSize, minBytes), 24 + minBytes;
            if lastSize == 0 then size == (if need <= policy.startBlockSize then policy.startBlockSize else need)
            else
              && need <= size && (need < size ==> size <= policy.maxBlockSize && size <= 2 * lastSize)
              && (size < 2 * lastSize ==> size >= policy.maxBlockSize)
  {}

  function Reversed<T>(s: seq<T>): seq<T> {
    if s == [] then [] else [s[|s| - 1]] + Reversed(s[..|s| - 1])
  }

  lemma {:induction false} ReversedAppend<T>(a: seq<T>, b: seq<T>)
    ensures Reversed(a + b) == Reversed(b) + Reversed(a)
  {
    if b == [] {
      assert a + b == a;
    } else {
      assert (a + b)[..|a + b| - 1] == a + b[..|b| - 1];
      ReversedAppend(a, b[..|b| - 1]);
    }
  }

  lemma {:induction false} ReversedAt<T>(s: seq<T>, k: nat)
    requires k < |s|
    ensures |Reversed(s)| == |s| && Reversed(s)[k] == s[|s| - 1 - k]
  {
    if k > 0 {
      ReversedAt(s[..|s| - 1], k - 1);
    } else if |s| > 1 {
      ReversedAt(s[..|s| - 1], 0);
    }
  }

  /** The end of a block's cleanup nodes: only the first block's is rounded down. */
  function Top(i: nat, size: nat): nat { if i == 0 then AlignDownTo8(size) else size }

  /** The nodes of a block: `list` in the order of registration, downwards from its end. */
  ghost predicate HoldsNodes(i: nat, b: Block, start: nat, list: seq<CleanupNode>) {
    && start + CLEANUP_SIZE * |list| == Top(i, b.size)
    && forall j :: 0 <= j < |list| ==> NodeAt(b, Top(i, b.size) - CLEANUP_SIZE * (j + 1), list[j])
  }

  ghost predicate NodeAt(b: Block, at: int, node: CleanupNode) {
    at in b.nodes && b.nodes[at] == node
  }

  /** CleanupList counts the nodes up to the rounded size, so it overlooks a single node in a
      block, other than the first, whose size is no multiple of 8. */
  predicate Overlooks(i: nat, size: nat, count: nat) { i > 0 && size % 8 != 0 && count == 1 }

  /** What CleanupList runs for the oldest `n` blocks, newest first. */
  ghost function Ran(blocks: seq<Block>, lists: seq<seq<CleanupNode>>, n: nat): seq<CleanupNode>
    requires n <= |blocks| == |lists|
  {
    if n == 0 then [] else
      (if Overlooks(n - 1, blocks[n - 1].size, |lists[n - 1]|) then [] else Reversed(lists[n - 1])) +
      Ran(blocks, lists, n - 1)
  }

  ghost predicate OverlooksAt(blocks: seq<Block>, lists: seq<seq<CleanupNode>>, i: int)
    requires 0 <= i < |blocks| == |lists|
  {
    Overlooks(i, blocks[i].size, |lists[i]|)
  }

  /** All cleanups in exact reverse order, exactly when no block is overlooked. */
  lemma {:induction false} RanIsReverse(blocks: seq<Block>, lists: seq<seq<CleanupNode>>, n: nat)
    requires n <= |blocks| == |lists|
    ensures |Ran(blocks, lists, n)| <= |Concat(lists[..n])|
    ensures Ran(blocks, lists, n) == Reversed(Concat(lists[..n])) <==>
              forall i :: 0 <= i < n ==> !OverlooksAt(blocks, lists, i)
    ensures (exists i :: 0 <= i < n && OverlooksAt(blocks, lists, i)) ==> |Ran(blocks, lists, n)| < |Concat(lists[..n])|
  {
    hide *;
    if n > 0 {
      RanIsReverse(blocks, lists, n - 1);
      RanStep(blocks, lists, n);
      OneMoreBlock(Concat(lists[..n - 1]), lists[n - 1], Ran(blocks, lists, n - 1), OverlooksAt(blocks, lists, n - 1));
    } else {
      NothingRan(blocks, lists);
    }
  }

  lemma NothingRan(blocks: seq<Block>, lists: seq<seq<CleanupNode>>)
    requires |blocks| == |lists|
    ensures |Ran(blocks, lists, 0)| <= |Concat(lists[..0])|
    ensures Ran(blocks, lists, 0) == Reversed(Concat(lists[..0]))
  {}

  lemma RanStep(blocks: seq<Block>, lists: seq<seq<CleanupNode>>, n: nat)
    requires 0 < n <= |blocks| == |lists|
    ensures Ran(blocks, lists, n)
            == (if OverlooksAt(blocks, lists, n - 1) then [] else Reversed(lists[n - 1])) + Ran(blocks, lists, n - 1)
    ensures Concat(lists[..n]) == Concat(lists[..n - 1]) + lists[n - 1]
    ensures OverlooksAt(blocks, lists, n - 1) ==> lists[n - 1] != []
  {
    assert lists[..n][..n - 1] == lists[..n - 1];
  }

  lemma OneMoreBlock(older: seq<CleanupNode>, newest: seq<CleanupNode>, before: seq<CleanupNode>, skipped: bool)
    requires |before| <= |older| && (skipped ==> newest != [])
    ensures var ran := (if skipped then [] else Reversed(newest)) + before;
            && |ran| <= |older + newest|
            && (ran == Reversed(older + newest) <==> before == Reversed(older) && !skipped)
            && (skipped || |before| < |older| ==> |ran| < |older + newest|)
  {
    ReversedAppend(older, newest);
    ReversedLength(older + newest);
    ReversedLength(newest);
    SameFront(Reversed(newest), before, Reversed(older));
  }

  lemma SameFront<T>(r: seq<T>, a: seq<T>, b: seq<T>)
    ensures r + a == r + b <==> a == b
  {
    assert a == (r + a)[|r|..] && b == (r + b)[|r|..];
  }

  lemma {:induction false} ReversedLength<T>(s: seq<T>)
    ensures |Reversed(s)| == |s|
  {
    if s != [] {
      ReversedLength(s[..|s| - 1]);
    }
  }

  /** The loop of CleanupList over one block. */
  method RunBlock(i: nat, b: Block, start: nat, ghost list: seq<CleanupNode>) returns (ran: seq<CleanupNode>)
    requires HoldsNodes(i, b, start, list)
    ensures ran == if Overlooks(i, b.size, |list|) then [] else Reversed(list)
  {
    ran := [];
    var limit, at := AlignDownTo8(b.size), start;
    var num := (limit - at) / CLEANUP_SIZE;
    ReversedLength(list);
    if num > 0 {
      ghost var m: nat := 0;
      while at < limit
        invariant at == start + CLEANUP_SIZE * m && m <= |list| == |Reversed(list)|
        invariant ran == Reversed(list)[..m]
        decreases limit + CLEANUP_SIZE - at
      {
        assert NodeAt(b, Top(i, b.size) - CLEANUP_SIZE * ((|list| - 1 - m) + 1), list[|list| - 1 - m]);
        ReversedAt(list, m);
        ran := ran + [b.nodes[at]];
        at := at + CLEANUP_SIZE;
        m := m + 1;
      }
      assert Reversed(list)[..|list|] == Reversed(list);
    }
  }

  /** The walk of CleanupList from the newest block to the oldest. */
  method RunAll(blocks: seq<Block>, ghost lists: seq<seq<CleanupNode>>) returns (ran: seq<CleanupNode>)
    requires |blocks| == |lists|
    requires forall i :: 0 <= i < |blocks| ==> HoldsNodes(i, blocks[i], blocks[i].start, lists[i])
    ensures ran == Ran(blocks, lists, |blocks|)
  {
    ran := [];
    var n := |blocks|;
    hide HoldsNodes, Reversed;
    while n > 0
      invariant 0 <= n <= |blocks|
      invariant ran + Ran(blocks, lists, n) == Ran(blocks, lists, |blocks|)
    {
      n := n - 1;
      var some := RunBlock(n, blocks[n], blocks[n].start, lists[n]);
      assert ran + (some + Ran(blocks, lists, n)) == ran + some + Ran(blocks, lists, n);
      ran := ran + some;
    }
  }

  class SerialArena {
    /** The linked blocks, oldest first; the last one is the head. */
    var blocks: seq<Block>
    var ptr: nat
    var limit: nat
    var spaceUsed: nat
    /** The cleanups registered in each block, in order. */
    ghost var lists: seq<seq<CleanupNode>>
    /** Where the bump pointer stopped in the blocks before the head. */
    ghost var ends: seq<nat>
    /** Everything handed out, and the sum of the sizes asked for. */
    ghost var ranges: seq<Range>
    ghost var requested: nat

    ghost predicate Valid()
      reads this
    {
      Pointers() && Nodes() && Handed()
    }

    ghost predicate Pointers()
      reads this
    {
      && |blocks| == |lists| == |ends| + 1
      && BLOCK_HEADER_SIZE <= ptr <= limit && ptr % 8 == 0
      && spaceUsed + ptr == requested + SERIAL_ARENA_SIZE + BLOCK_HEADER_SIZE
    }

    /** Bytes of block `i` below which allocations lie. */
    ghost function EndOf(i: int): nat
      requires 0 <= i < |blocks| == |ends| + 1
      reads this
    {
      if i < |ends| then ends[i] else ptr
    }

    /** Offset from which the cleanup nodes of block `i` lie. */
    ghost function StartOf(i: int): nat
      requires 0 <= i < |blocks|
      reads this
    {
      if i < |blocks| - 1 then blocks[i].start else limit
    }

    ghost predicate Nodes()
      requires Pointers()
      reads this
    {
      forall i :: 0 <= i < |blocks| ==> NodesOk(i)
    }

    ghost predicate NodesOk(i: int)
      requires Pointers() && 0 <= i < |blocks|
      reads this
    {
      EndOf(i) <= StartOf(i) && HoldsNodes(i, blocks[i], StartOf(i), lists[i])
    }

    /** Handed-out pieces are aligned, inside their blocks and disjoint. */
    ghost predicate Handed()
      requires Pointers()
      reads this
    {
      && (forall k :: 0 <= k < |ranges| ==> RangeOk(ranges[k]))
      && (forall j, k :: 0 <= j < k < |ranges| ==> ranges[j].Disjoint(ranges[k]))
    }

    ghost predicate RangeOk(r: Range)
      requires Pointers()
      reads this
    {
      r.block < |blocks| && BLOCK_HEADER_SIZE <= r.from <= r.to <= EndOf(r.block) && r.from % 8 == 0
    }

    /** All block sizes are multiples of 8. */
    ghost predicate Aligned()
      reads `blocks
    {
      forall i :: 0 <= i < |blocks| ==> blocks[i].size % 8 == 0
    }

    /** One new block was added, sized for `n` bytes. */
    twostate predicate Grew(n: nat, policy: Policy)
      reads this
    {
      && |old(blocks)| > 0 && |blocks| == |old(blocks)| + 1 && lists == old(lists) + [[]]
      && (forall i :: 0 <= i < |old(blocks)| ==> blocks[i].size == old(blocks)[i].size)
      && blocks[|old(blocks)|].size == NextBlockSize(policy, old(blocks)[|old(blocks)| - 1].size, n)
    }

    ghost function Registered(): seq<CleanupNode>
      reads `lists
    {
      Concat(lists)
    }

    /** New: the arena itself sits behind the header of its first block. */
    constructor New(size: nat)
      requires BLOCK_HEADER_SIZE + SERIAL_ARENA_SIZE <= size
      ensures Valid() && ranges == [] && requested == 0 && Registered() == [] && blocks == [Block(size, 0, map[])]
      ensures lists == [[]]
      ensures ptr == BLOCK_HEADER_SIZE + SERIAL_ARENA_SIZE && limit == AlignDownTo8(size)
    {
      blocks := [Block(size, 0, map[])];
      ptr, limit, spaceUsed := BLOCK_HEADER_SIZE + SERIAL_ARENA_SIZE, AlignDownTo8(size), 0;
      lists, ends, ranges, requested := [[]], [], [], 0;
      new;
      ConcatOne<CleanupNode>([]);
    }

    predicate HasSpace(n: nat)
      requires ptr <= limit
      reads this
    {
      n <= limit - ptr
    }

    /** AllocateNewBlock: the old head keeps where its nodes start. */
    method AllocateNewBlock(n: nat, policy: Policy)
      requires Valid()
      modifies this
      ensures Valid() && HasSpace(n) && ranges == old(ranges) && requested == old(requested)
      ensures Registered() == old(Registered())
      ensures Grew(n, policy) && ptr == BLOCK_HEADER_SIZE && limit == blocks[|blocks| - 1].size
      ensures old(Aligned()) && policy.Aligned() && n % 8 == 0 ==> Aligned()
    {
      var head := |blocks| - 1;
      blocks := blocks[head := blocks[head].(start := limit)];
      ghost var used := ptr;
      spaceUsed := spaceUsed + (ptr - BLOCK_HEADER_SIZE);
      var size := NextBlockSize(policy, blocks[head].size, n);
      blocks := blocks + [Block(size, 0, map[])];
      ptr, limit := BLOCK_HEADER_SIZE, size;
      ConcatSnoc(lists, []);
      lists, ends := lists + [[]], ends + [used];
      NodesStay();
      RangesStay();
      hide Nodes, Handed;
    }

    /** The nodes of the old blocks lie where they lay. */
    twostate lemma NodesStay()
      requires old(Pointers() && Nodes()) && Pointers() && |blocks| == |old(blocks)| + 1
      requires lists == old(lists) + [[]] && ends == old(ends) + [old(ptr)]
      requires var head, b := |old(blocks)| - 1, blocks[|old(blocks)|];
               && blocks == old(blocks)[head := old(blocks)[head].(start := old(limit))] + [b] && b.nodes == map[]
               && limit == b.size && ptr <= limit
      ensures Nodes()
    {
      forall i | 0 <= i < |blocks| ensures NodesOk(i) {
        if i < |old(blocks)| {
          assert old(NodesOk(i));
          SameNodes(i, old(blocks)[i], blocks[i], StartOf(i), lists[i]);
        }
      }
    }

    /** And so do the pieces handed out. */
    twostate lemma RangesStay()
      requires old(Pointers() && Handed()) && Pointers() && |blocks| == |old(blocks)| + 1
      requires ranges == old(ranges) && ends == old(ends) + [old(ptr)]
      ensures Handed()
    {
      forall k | 0 <= k < |ranges| ensures RangeOk(ranges[k]) {
        assert old(RangeOk(ranges[k]));
      }
    }

    /** AllocateAligned: the next `n` bytes, of a new block if the head has no room. */
    method AllocateAligned(n: nat, policy: Policy) returns (ret: Range)
      requires Valid() && AlignUpTo8(n) == n
      modifies this
      ensures Valid() && ret.to == ret.from + n && ranges == old(ranges) + [ret] && requested == old(requested) + n
      ensures Registered() == old(Registered())
      ensures if old(HasSpace(n)) then
              blocks == old(blocks) && lists == old(lists) && ptr == old(ptr) + n && limit == old(limit)
              else Grew(n, policy) && ptr == BLOCK_HEADER_SIZE + n && limit == blocks[|blocks| - 1].size
      ensures old(Aligned()) && policy.Aligned() ==> Aligned()
      decreases if HasSpace(n) then 0 else 1
    {
      AlignUpIsNextMultiple(n);
      hide Nodes, Handed, NextBlockSize, Registered, AlignUpTo8;
      if !HasSpace(n) {
        AllocateNewBlock(n, policy);
        ret := AllocateAligned(n, policy);
        return;
      }
      ret := Bump(n);
    }

    method Bump(n: nat) returns (ret: Range)
      requires Valid() && HasSpace(n) && n % 8 == 0
      modifies `ptr, `ranges, `requested
      ensures Valid() && ret.to == ret.from + n && ranges == old(ranges) + [ret] && requested == old(requested) + n
      ensures ptr == old(ptr) + n
    {
      ret := Range(|blocks| - 1, ptr, ptr + n);
      ptr := ptr + n;
      ranges, requested := ranges + [ret], requested + n;
      forall i | 0 <= i < |blocks| ensures NodesOk(i) {
        assert old(NodesOk(i));
      }
      forall k | 0 <= k < |ranges| ensures RangeOk(ranges[k]) {
        if k < |old(ranges)| {
          assert old(RangeOk(ranges[k]));
        }
      }
      forall k | 0 <= k < |old(ranges)| ensures ranges[k].Disjoint(ret) {
        assert old(RangeOk(ranges[k]));
      }
    }

    /** AllocateAlignedWithCleanup, with the node that the caller stores at the returned place. */
    method AllocateAlignedWithCleanup(n: nat, node: CleanupNode, policy: Policy) returns (ret: Range)
      requires Valid() && AlignUpTo8(n) == n
      modifies this
      ensures Valid() && ret.to == ret.from + n && ranges == old(ranges) + [ret] && requested == old(requested) + n
      ensures Registered() == old(Registered()) + [node]
      ensures old(HasSpace(n + CLEANUP_SIZE)) ==> OneMore(node)
      ensures old(Aligned()) && policy.Aligned() ==> Aligned()
      decreases if HasSpace(n + CLEANUP_SIZE) then 0 else 1
    {
      AlignUpIsNextMultiple(n);
      hide Nodes, Handed, NextBlockSize, AlignUpTo8;
      if !HasSpace(n + CLEANUP_SIZE) {
        AllocateNewBlock(n + CLEANUP_SIZE, policy);
        ret := AllocateAlignedWithCleanup(n, node, policy);
        return;
      }
      ret := Bump(n);
      PushNode(node);
    }

    /** The head has one more node. */
    twostate predicate OneMore(node: CleanupNode)
      reads this
    {
      && |lists| == |old(lists)| > 0 && lists == old(lists)[|lists| - 1 := old(lists)[|lists| - 1] + [node]]
      && |blocks| == |old(blocks)| && forall i :: 0 <= i < |blocks| ==> blocks[i].size == old(blocks)[i].size
    }

    /** A node in front of the head's other nodes. */
    method PushNode(node: CleanupNode)
      requires Valid() && HasSpace(CLEANUP_SIZE)
      modifies `limit, `blocks, `lists
      ensures Valid() && Registered() == old(Registered()) + [node]
      ensures OneMore(node)
    {
      var head := |blocks| - 1;
      assert NodesOk(head);
      limit := limit - CLEANUP_SIZE;
      blocks := blocks[head := blocks[head].(nodes := blocks[head].nodes[limit := node])];
      RegisterLast(lists, node);
      lists := lists[head := lists[head] + [node]];
      forall i | 0 <= i < |blocks| ensures NodesOk(i) {
        assert old(NodesOk(i));
        if i == head {
          OneMoreNode(i, old(blocks)[i], old(limit), old(lists)[i], node);
        }
      }
      forall k | 0 <= k < |ranges| ensures RangeOk(ranges[k]) {
        assert old(RangeOk(ranges[k]));
      }
    }

    method AddCleanup(node: CleanupNode, policy: Policy)
      requires Valid()
      modifies this
      ensures Valid() && Registered() == old(Registered()) + [node] && requested == old(requested)
      ensures old(HasSpace(CLEANUP_SIZE)) ==> OneMore(node)
      ensures old(Aligned()) && policy.Aligned() ==> Aligned()
    {
      var ret := AllocateAlignedWithCleanup(0, node, policy);
    }

    /** SpaceUsed is the sum of the sizes asked for. */
    method SpaceUsed() returns (used: int)
      requires Valid()
      ensures used == requested
    {
      used := ptr - BLOCK_HEADER_SIZE;
      used := used + spaceUsed;
      used := used - SERIAL_ARENA_SIZE;
    }

    /** CleanupList: what is run, in order. It is every registered cleanup once, the last first,
        exactly when no block is overlooked. */
    method CleanupList() returns (ran: seq<CleanupNode>)
      requires Valid()
      modifies `blocks
      ensures |blocks| == |lists| && forall i :: 0 <= i < |blocks| ==> blocks[i].size == old(blocks)[i].size
      ensures ran == Reversed(Registered()) <==> forall i :: 0 <= i < |blocks| ==> !OverlooksAt(blocks, lists, i)
      ensures (exists i :: 0 <= i < |blocks| && OverlooksAt(blocks, lists, i)) ==> |ran| < |Registered()|
      ensures old(Aligned()) ==> ran == Reversed(Registered())
    {
      SyncHead();
      RanAll(blocks, lists);
      ran := RunAll(blocks, lists);
    }

    /** The first step of CleanupList: the head's nodes are recorded like those of the others. */
    method SyncHead()
      requires Valid()
      modifies `blocks
      ensures |blocks| == |lists| && forall i :: 0 <= i < |blocks| ==> blocks[i].size == old(blocks)[i].size
      ensures forall i :: 0 <= i < |blocks| ==> HoldsNodes(i, blocks[i], blocks[i].start, lists[i])
    {
      var head := |blocks| - 1;
      ghost var before := blocks;
      blocks := blocks[head := blocks[head].(start := limit)];
      forall i | 0 <= i < |blocks| ensures HoldsNodes(i, blocks[i], blocks[i].start, lists[i]) {
        assert old(NodesOk(i));
        SameNodes(i, before[i], blocks[i], blocks[i].start, lists[i]);
      }
    }

    /** Every piece handed out lies below all cleanup nodes of its block. */
    lemma RangesAvoidNodes(k: nat, j: nat)
      requires Valid() && k < |ranges| && j < |lists[ranges[k].block]|
      ensures ranges[k].to <= Top(ranges[k].block, blocks[ranges[k].block].size) - CLEANUP_SIZE * (j + 1)
      ensures Top(ranges[k].block, blocks[ranges[k].block].size) <= blocks[ranges[k].block].size
    {
      assert RangeOk(ranges[k]) && NodesOk(ranges[k].block);
    }
  }

  /** A first block of 258 bytes is followed by one of 516, and the one cleanup registered there
      is never run. */
  method LoseCleanup(node: CleanupNode) returns (ran: seq<CleanupNode>)
    ensures ran == [] != [node]
  {
    var arena := RegisterOne(node);
    assert OverlooksAt(arena.blocks, arena.lists, 1);
    ran := arena.CleanupList();
    assert OverlooksAt(arena.blocks, arena.lists, 1);
  }

  method RegisterOne(node: CleanupNode) returns (arena: SerialArena)
    ensures fresh(arena) && arena.Valid() && arena.Registered() == [node]
    ensures |arena.blocks| == 2 && arena.blocks[1].size == 516 && arena.lists == [[], [node]]
  {
    hide SerialArena.Valid, SerialArena.Aligned, NextBlockSize, Concat;
    arena := SecondBlock();
    label before:
    arena.AddCleanup(node, DEFAULT_POLICY);
    assert arena.OneMore@before(node);
    assert arena.lists[1] == [] + [node] == [node] && arena.lists[0] == [];
  }

  method SecondBlock() returns (arena: SerialArena)
    ensures fresh(arena) && arena.Valid() && arena.Registered() == []
    ensures |arena.blocks| == 2 && arena.blocks[1].size == 516 && arena.lists == [[], []]
    ensures arena.ptr <= arena.limit && arena.HasSpace(CLEANUP_SIZE)
  {
    assert NextBlockSize(DEFAULT_POLICY, 258, 200) == 516;
    hide SerialArena.Valid, SerialArena.Aligned, NextBlockSize, Concat;
    arena := new SerialArena.New(258);
    assert !arena.HasSpace(200);
    var piece := arena.AllocateAligned(200, DEFAULT_POLICY);
  }

  lemma SameNodes(i: nat, a: Block, b: Block, start: nat, list: seq<CleanupNode>)
    requires HoldsNodes(i, a, start, list) && a.size == b.size && a.nodes == b.nodes
    ensures HoldsNodes(i, b, start, list)
  {
    forall j | 0 <= j < |list| ensures NodeAt(b, Top(i, b.size) - CLEANUP_SIZE * (j + 1), list[j]) {
      assert NodeAt(a, Top(i, a.size) - CLEANUP_SIZE * (j + 1), list[j]);
    }
  }

  lemma OneMoreNode(i: nat, b: Block, start: nat, list: seq<CleanupNode>, node: CleanupNode)
    requires HoldsNodes(i, b, start, list) && start >= CLEANUP_SIZE
    ensures HoldsNodes(i, b.(nodes := b.nodes[start - CLEANUP_SIZE := node]), start - CLEANUP_SIZE, list + [node])
  {
    var c := b.(nodes := b.nodes[start - CLEANUP_SIZE := node]);
    forall j | 0 <= j < |list| + 1 ensures NodeAt(c, Top(i, c.size) - CLEANUP_SIZE * (j + 1), (list + [node])[j]) {
      if j < |list| {
        assert NodeAt(b, Top(i, b.size) - CLEANUP_SIZE * (j + 1), list[j]);
      }
    }
  }

  lemma RegisterLast(lists: seq<seq<CleanupNode>>, node: CleanupNode)
    requires lists != []
    ensures var last := |lists| - 1; Concat(lists[last := lists[last] + [node]]) == Concat(lists) + [node]
  {
    var last := |lists| - 1;
    assert lists[last := lists[last] + [node]][..last] == lists[..last];
    assert Concat(lists[..last]) + (lists[last] + [node]) == Concat(lists[..last]) + lists[last] + [node];
  }

  lemma RanAll(blocks: seq<Block>, lists: seq<seq<CleanupNode>>)
    requires |blocks| == |lists|
    ensures (exists i :: 0 <= i < |blocks| && OverlooksAt(blocks, lists, i)) ==>
              |Ran(blocks, lists, |blocks|)| < |Concat(lists)|
    ensures Ran(blocks, lists, |blocks|) == Reversed(Concat(lists)) <==>
              forall i :: 0 <= i < |blocks| ==> !OverlooksAt(blocks, lists, i)
  {
    RanIsReverse(blocks, lists, |blocks|);
    assert lists[..|blocks|] == lists;
  }
}
