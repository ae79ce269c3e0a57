/** The malloc-backed pool of tools/admin/ngx_compat/ngx_compat.c: two linked
    lists updated in place over a heap that knows which addresses are live. */
module Pool {
  /** What a live address is used for. */
  datatype Use =
    | Unowned
    | PoolRecord(pool: Pool)
    | NodeRecord(node: LargeNode)
    | Block(node: LargeNode)
    | HookRecord(hook: CleanupNode)
    | HookData(hook: CleanupNode)

  datatype Call = Call(handler: nat, data: nat)

  const NULL := 0

  lemma {:induction false} Bounded(s: set<nat>) returns (m: nat)
    ensures forall y :: y in s ==> y <= m
  {
    if s == {} {
      return 0;
    }
    var x :| x in s;
    m := Bounded(s - {x});
    if m < x {
      m := x;
    }
    assert forall y :: y in s ==> y == x || y in s - {x};
  }

  /** Some address is always free to hand out. */
  lemma FreshAddress(live: set<nat>)
    ensures exists p: nat :: p != NULL && p !in live
  {
    var m := Bounded(live);
    assert m + 1 != NULL && m + 1 !in live;
  }

  ghost function Without(live: map<nat, Use>, p: nat): map<nat, Use> {
    live - {p}
  }

  /** malloc and free, and the calls cleanup handlers received. `fate` decides
      which mallocs succeed, whatever the caller does; `asked` counts them.
      Freeing an address that is not live is a precondition violation, so
      whatever verifies frees nothing twice. */
  class Heap {
    const fate: nat -> bool
    var live: map<nat, Use>
    var ran: seq<Call>
    var asked: nat

    constructor (fate: nat -> bool)
      ensures this.fate == fate && live == map[] && ran == [] && asked == 0
    {
      this.fate, live, ran, asked := fate, map[], [], 0;
    }

    /** Any address that is not live, or NULL. */
    method Malloc() returns (p: nat)
      modifies this
      ensures ran == old(ran) && asked == old(asked) + 1
      ensures p != NULL <==> fate(old(asked))
      ensures p == NULL ==> live == old(live)
      ensures p != NULL ==> p !in old(live) && live == old(live)[p := Unowned]
    {
      asked := asked + 1;
      if !fate(asked - 1) {
        return NULL;
      }
      FreshAddress(live.Keys);
      assert exists p: nat :: p != NULL && p !in live;
      p :| p != NULL && p !in live;
      live := live[p := Unowned];
    }

    method Free(p: nat)
      requires p == NULL || p in live
      modifies this
      ensures live == Without(old(live), p) && ran == old(ran) && asked == old(asked)
    {
      live := live - {p};
    }

    /** What a fresh address is for, known once its owner exists. */
    method Own(p: nat, use: Use)
      requires p in live
      modifies this
      ensures live == old(live)[p := use] && ran == old(ran) && asked == old(asked)
    {
      live := live[p := use];
    }

    method Run(handler: nat, data: nat)
      modifies this
      ensures live == old(live) && ran == old(ran) + [Call(handler, data)] && asked == old(asked)
    {
      ran := ran + [Call(handler, data)];
    }
  }

  /** ngx_pool_large_t; `address` is where malloc put it. */
  class LargeNode {
    const address: nat
    const alloc: nat
    var next: LargeNode?

    constructor (address: nat, alloc: nat, next: LargeNode?)
      ensures this.address == address && this.alloc == alloc && this.next == next
    {
      this.address, this.alloc, this.next := address, alloc, next;
    }
  }

  /** ngx_pool_cleanup_t; `allotted` is the data malloc gave it, if any. The
      caller sets handler and data afterwards, NULL for none. */
  class CleanupNode {
    const address: nat
    const allotted: nat
    var handler: nat
    var data: nat
    var next: CleanupNode?

    constructor (address: nat, allotted: nat, next: CleanupNode?)
      ensures this.address == address && this.allotted == allotted && this.next == next
      ensures handler == NULL && data == allotted
    {
      this.address, this.allotted, this.next := address, allotted, next;
      handler, data := NULL, allotted;
    }
  }

  /** The calls a list of hooks makes, first to last. */
  ghost function Calls(hooks: seq<CleanupNode>): seq<Call>
    reads set c | c in hooks
  {
    if hooks == [] then []
    else
      var c := hooks[|hooks| - 1];
      Calls(hooks[..|hooks| - 1]) + if c.handler == NULL then [] else [Call(c.handler, c.data)]
  }

  function Allocs(blocks: seq<LargeNode>): (s: seq<nat>)
    ensures |s| == |blocks| && forall i :: 0 <= i < |s| ==> s[i] == blocks[i].alloc
  {
    seq(|blocks|, i requires 0 <= i < |blocks| => blocks[i].alloc)
  }

  // What users do

  /** What a user of the pool may do, in any order. A cleanup is added and
      then given its handler and data, as the callers do; a free names any
      address at all. */
  datatype Op =
    | Alloc
    | Free(p: nat)
    | OnDestroy(size: nat, handler: nat, data: nat)

  /** How many mallocs an operation makes, the first being number n. */
  function Asks(fate: nat -> bool, n: nat, op: Op): nat {
    match op
    case Alloc => if fate(n) then 2 else 1
    case Free(_) => 0
    case OnDestroy(size, _, _) => if fate(n) && size > 0 then 2 else 1
  }

  /** Whether an operation adds a hook: its mallocs succeed. */
  predicate Adds(fate: nat -> bool, n: nat, op: Op) {
    op.OnDestroy? && fate(n) && (op.size > 0 ==> fate(n + 1))
  }

  /** The handler an operation registers, if any. */
  function Registers(fate: nat -> bool, n: nat, op: Op): seq<Call> {
    if Adds(fate, n, op) && op.handler != NULL then [Call(op.handler, op.data)] else []
  }

  function AsksAll(fate: nat -> bool, n: nat, ops: seq<Op>): nat {
    if ops == [] then 0
    else
      var before := AsksAll(fate, n, ops[..|ops| - 1]);
      before + Asks(fate, n + before, ops[|ops| - 1])
  }

  /** The handlers a sequence of operations registers, in order. */
  function RegistersAll(fate: nat -> bool, n: nat, ops: seq<Op>): seq<Call> {
    if ops == [] then []
    else
      RegistersAll(fate, n, ops[..|ops| - 1])
      + Registers(fate, n + AsksAll(fate, n, ops[..|ops| - 1]), ops[|ops| - 1])
  }

  /** Whether some cleanup of the sequence gets data of its own. */
  predicate LeavesData(fate: nat -> bool, n: nat, ops: seq<Op>) {
    exists i :: 0 <= i < |ops| && SizedAt(fate, n, ops, i)
  }

  predicate SizedAt(fate: nat -> bool, n: nat, ops: seq<Op>, i: nat)
    requires i < |ops|
  {
    ops[i].OnDestroy? && ops[i].size > 0 && Adds(fate, n + AsksAll(fate, n, ops[..i]), ops[i])
  }

  // Ownership, as a matter of the live addresses alone

  ghost predicate Uses(live: map<nat, Use>, p: nat, use: Use) {
    p != NULL && p in live && live[p] == use
  }

  ghost predicate BlockHeld(live: map<nat, Use>, n: LargeNode) {
    Uses(live, n.address, NodeRecord(n)) && Uses(live, n.alloc, Block(n))
  }

  ghost predicate HookHeld(live: map<nat, Use>, c: CleanupNode) {
    Uses(live, c.address, HookRecord(c)) && (c.allotted != NULL ==> Uses(live, c.allotted, HookData(c)))
  }

  /** Everything a pool holds is live and used for one thing, so nothing occurs
      twice. */
  ghost predicate Held(pool: Pool, live: map<nat, Use>, blocks: seq<LargeNode>, hooks: seq<CleanupNode>) {
    && Uses(live, pool.address, PoolRecord(pool))
    && (forall n :: n in blocks ==> BlockHeld(live, n))
    && (forall c :: c in hooks ==> HookHeld(live, c))
    && (forall i, j :: 0 <= i < j < |blocks| ==> blocks[i] != blocks[j])
    && (forall i, j :: 0 <= i < j < |hooks| ==> hooks[i] != hooks[j])
  }

  /** What ngx_destroy_pool gives back. */
  ghost function Freed(pool: Pool, blocks: seq<LargeNode>, hooks: seq<CleanupNode>): set<nat> {
    {pool.address} + BlockAddresses(blocks) + HookAddresses(hooks)
  }

  ghost function BlockAddresses(blocks: seq<LargeNode>): set<nat> {
    (set n | n in blocks :: n.address) + (set n | n in blocks :: n.alloc)
  }

  ghost function HookAddresses(hooks: seq<CleanupNode>): set<nat> {
    set c | c in hooks :: c.address
  }

  /** Data that ngx_pool_cleanup_add allocated. */
  ghost function Data(hooks: seq<CleanupNode>): set<nat> {
    set c | c in hooks && c.allotted != NULL :: c.allotted
  }

  /** Live addresses that are none of the pool's. */
  ghost function ForeignTo(pool: Pool, live: map<nat, Use>, blocks: seq<LargeNode>, hooks: seq<CleanupNode>)
    : map<nat, Use>
  {
    live - (Freed(pool, blocks, hooks) + Data(hooks))
  }

  function Cut<T>(s: seq<T>, i: nat): seq<T>
    requires i < |s|
  {
    s[..i] + s[i + 1..]
  }

  lemma HeldAfterAlloc(pool: Pool, live: map<nat, Use>, blocks: seq<LargeNode>, hooks: seq<CleanupNode>,
                       node: LargeNode)
    requires Held(pool, live, blocks, hooks) && node !in blocks && FreshNode(live, node)
    ensures Held(pool, WithNode(live, node), [node] + blocks, hooks)
  {
    var live', blocks' := WithNode(live, node), [node] + blocks;
    forall n | n in blocks' ensures BlockHeld(live', n) { assert n != node ==> n in blocks && BlockHeld(live, n); }
    forall c | c in hooks ensures HookHeld(live', c) { assert HookHeld(live, c); }
  }

  lemma ForeignAfterAlloc(pool: Pool, live: map<nat, Use>, blocks: seq<LargeNode>, hooks: seq<CleanupNode>,
                          node: LargeNode)
    requires FreshNode(live, node)
    ensures ForeignTo(pool, WithNode(live, node), [node] + blocks, hooks) == ForeignTo(pool, live, blocks, hooks)
  {
    hide HookAddresses, Data;
    var blocks' := [node] + blocks;
    assert forall n :: n in blocks' <==> n == node || n in blocks;
    assert BlockAddresses(blocks') == BlockAddresses(blocks) + {node.address, node.alloc};
    hide BlockAddresses;
  }

  ghost predicate FreshNode(live: map<nat, Use>, node: LargeNode) {
    && node.address != NULL && node.alloc != NULL && node.address != node.alloc
    && node.address !in live && node.alloc !in live
  }

  ghost function WithoutNode(live: map<nat, Use>, node: LargeNode): map<nat, Use> {
    Without(Without(live, node.alloc), node.address)
  }

  ghost function WithNode(live: map<nat, Use>, node: LargeNode): map<nat, Use> {
    live[node.alloc := Block(node)][node.address := NodeRecord(node)]
  }

  lemma HeldAfterFree(pool: Pool, live: map<nat, Use>, blocks: seq<LargeNode>, hooks: seq<CleanupNode>, i: nat)
    requires Held(pool, live, blocks, hooks) && i < |blocks|
    ensures Held(pool, WithoutNode(live, blocks[i]), Cut(blocks, i), hooks)
    ensures forall n :: n in Cut(blocks, i) ==> n != blocks[i] && n.alloc != blocks[i].alloc
  {
    var gone, rest := blocks[i], Cut(blocks, i);
    var live' := WithoutNode(live, gone);
    assert BlockHeld(live, gone);
    forall n | n in rest ensures n in blocks && n != gone && BlockHeld(live', n) && n.alloc != gone.alloc {
      InCut(blocks, i, n);
      assert BlockHeld(live, n);
    }
    forall c | c in hooks ensures HookHeld(live', c) { assert HookHeld(live, c); }
  }

  lemma ForeignAfterFree(pool: Pool, live: map<nat, Use>, blocks: seq<LargeNode>, hooks: seq<CleanupNode>, i: nat)
    requires i < |blocks|
    ensures ForeignTo(pool, WithoutNode(live, blocks[i]), Cut(blocks, i), hooks)
         == ForeignTo(pool, live, blocks, hooks)
  {
    hide HookAddresses, Data;
    var gone, rest := blocks[i], Cut(blocks, i);
    forall n ensures n in blocks <==> n == gone || n in rest { InCut(blocks, i, n); }
    assert BlockAddresses(blocks) == BlockAddresses(rest) + {gone.address, gone.alloc};
    hide BlockAddresses;
  }

  lemma InCut<T>(s: seq<T>, i: nat, x: T)
    requires i < |s|
    ensures x in s <==> x == s[i] || x in Cut(s, i)
  {
    assert s == s[..i] + [s[i]] + s[i + 1..];
  }

  lemma HeldAfterHook(pool: Pool, live: map<nat, Use>, blocks: seq<LargeNode>, hooks: seq<CleanupNode>,
                      hook: CleanupNode)
    requires Held(pool, live, blocks, hooks) && hook !in hooks && FreshHook(live, hook)
    ensures Held(pool, WithHook(live, hook), blocks, [hook] + hooks)
  {
    var live' := WithHook(live, hook);
    var hooks' := [hook] + hooks;
    forall n | n in blocks ensures BlockHeld(live', n) { assert BlockHeld(live, n); }
    forall c | c in hooks' ensures HookHeld(live', c) { assert c != hook ==> c in hooks && HookHeld(live, c); }
  }

  lemma ForeignAfterHook(pool: Pool, live: map<nat, Use>, blocks: seq<LargeNode>, hooks: seq<CleanupNode>,
                         hook: CleanupNode)
    requires FreshHook(live, hook)
    ensures ForeignTo(pool, WithHook(live, hook), blocks, [hook] + hooks) == ForeignTo(pool, live, blocks, hooks)
  {
    hide BlockAddresses;
    var hooks' := [hook] + hooks;
    assert forall c :: c in hooks' <==> c == hook || c in hooks;
    assert HookAddresses(hooks') == HookAddresses(hooks) + {hook.address};
    assert Data(hooks') == Data(hooks) + if hook.allotted == NULL then {} else {hook.allotted};
    hide HookAddresses, Data;
  }

  ghost predicate FreshHook(live: map<nat, Use>, hook: CleanupNode) {
    && hook.address != NULL && hook.address !in live
    && (hook.allotted != NULL ==> hook.allotted !in live && hook.address != hook.allotted)
  }

  ghost function WithHook(live: map<nat, Use>, hook: CleanupNode): map<nat, Use> {
    (if hook.allotted == NULL then live else live[hook.allotted := HookData(hook)])[hook.address := HookRecord(hook)]
  }

  /** What position i of a chain points to. */
  ghost function LinkAt(blocks: seq<LargeNode>, i: nat): LargeNode? {
    if i + 1 < |blocks| then blocks[i + 1] else null
  }

  ghost function HookLinkAt(hooks: seq<CleanupNode>, i: nat): CleanupNode? {
    if i + 1 < |hooks| then hooks[i + 1] else null
  }

  ghost predicate Chained(first: LargeNode?, blocks: seq<LargeNode>)
    reads set n | n in blocks
  {
    && first == (if blocks == [] then null else blocks[0])
    && forall i :: 0 <= i < |blocks| ==> blocks[i].next == LinkAt(blocks, i)
  }

  lemma ChainedCons(node: LargeNode, blocks: seq<LargeNode>)
    requires Chained(node.next, blocks)
    ensures Chained(node, [node] + blocks)
  {
    var longer := [node] + blocks;
    forall i | 0 <= i < |longer|
      ensures longer[i].next == LinkAt(longer, i)
    {
      if i > 0 {
        assert longer[i] == blocks[i - 1];
      }
    }
  }

  lemma HooksChainedCons(hook: CleanupNode, hooks: seq<CleanupNode>)
    requires HooksChained(hook.next, hooks)
    ensures HooksChained(hook, [hook] + hooks)
  {
    var longer := [hook] + hooks;
    forall i | 0 <= i < |longer|
      ensures longer[i].next == HookLinkAt(longer, i)
    {
      if i > 0 {
        assert longer[i] == hooks[i - 1];
      }
    }
  }

  /** Position i is skipped by what comes before it; the rest is a chain. */
  ghost predicate Skips(first: LargeNode?, blocks: seq<LargeNode>, i: nat)
    requires i < |blocks|
    reads set n | n in blocks
  {
    && (if i == 0 then first == LinkAt(blocks, 0) else first == blocks[0] && blocks[i - 1].next == LinkAt(blocks, i))
    && forall j :: 0 <= j < |blocks| && j != i - 1 ==> blocks[j].next == LinkAt(blocks, j)
  }

  lemma SkippedIsCut(first: LargeNode?, blocks: seq<LargeNode>, i: nat)
    requires i < |blocks| && Skips(first, blocks, i)
    ensures Chained(first, Cut(blocks, i))
  {
    var rest := Cut(blocks, i);
    forall j | 0 <= j < |rest|
      ensures rest[j].next == LinkAt(rest, j)
    {
      var k := if j < i then j else j + 1;
      assert rest[j] == blocks[k];
    }
  }

  ghost predicate HooksChained(first: CleanupNode?, hooks: seq<CleanupNode>)
    reads set c | c in hooks
  {
    && first == (if hooks == [] then null else hooks[0])
    && forall i :: 0 <= i < |hooks| ==> hooks[i].next == HookLinkAt(hooks, i)
  }

  /** What freeing both addresses of a block means for its caller. */
  lemma GoneForGood(pool: Pool, live: map<nat, Use>, blocks: seq<LargeNode>, hooks: seq<CleanupNode>, i: nat)
    requires Held(pool, live, blocks, hooks) && i < |blocks|
    ensures blocks[i].alloc !in WithoutNode(live, blocks[i])
    ensures blocks[i].alloc !in Allocs(Cut(blocks, i))
  {
    HeldAfterFree(pool, live, blocks, hooks, i);
    hide Held, Cut;
    forall k | 0 <= k < |Cut(blocks, i)| ensures Allocs(Cut(blocks, i))[k] != blocks[i].alloc {
      assert Cut(blocks, i)[k] in Cut(blocks, i);
    }
  }

  /** The two mallocs of ngx_palloc; the block goes back if there is no record
      for it. */
  method MallocPair(heap: Heap) returns (p: nat, record: nat)
    modifies heap
    ensures heap.ran == old(heap.ran)
    ensures p != NULL <==> heap.fate(old(heap.asked)) && heap.fate(old(heap.asked) + 1)
    ensures heap.asked == old(heap.asked) + if heap.fate(old(heap.asked)) then 2 else 1
    ensures p == NULL ==> heap.live == old(heap.live)
    ensures p != NULL ==>
              && record != NULL && record != p && p !in old(heap.live) && record !in old(heap.live)
              && heap.live == old(heap.live)[p := Unowned][record := Unowned]
  {
    record := NULL;
    p := heap.Malloc();
    if p == NULL {
      return;
    }
    record := heap.Malloc();
    if record == NULL {
      heap.Free(p);
      assert heap.live == old(heap.live);
      p := NULL;
    }
  }

  class Pool {
    const heap: Heap
    const address: nat
    var large: LargeNode?
    var cleanup: CleanupNode?
    ghost var blocks: seq<LargeNode>
    ghost var hooks: seq<CleanupNode>

    ghost function Repr(): set<object>
      reads this
    {
      {this, heap} + (set n | n in blocks) + (set c | c in hooks)
    }

    ghost predicate Valid()
      reads Repr()
    {
      Chained(large, blocks) && HooksChained(cleanup, hooks) && Held(this, heap.live, blocks, hooks)
    }

    /** The live blocks, newest first. */
    ghost function Blocks(): seq<nat>
      reads this
    {
      Allocs(blocks)
    }

    /** Live addresses that are none of the pool's. */
    ghost function Foreign(): map<nat, Use>
      reads this, heap
    {
      ForeignTo(this, heap.live, blocks, hooks)
    }

    /** ngx_create_pool, once its malloc succeeded. */
    constructor (heap: Heap, address: nat)
      requires address != NULL && address in heap.live
      modifies heap
      ensures Valid() && this.heap == heap && this.address == address && blocks == [] && hooks == []
      ensures heap.live == old(heap.live)[address := PoolRecord(this)]
      ensures heap.ran == old(heap.ran) && heap.asked == old(heap.asked)
    {
      this.heap, this.address := heap, address;
      large, cleanup, blocks, hooks := null, null, [], [];
      new;
      heap.Own(address, PoolRecord(this));
    }

    /** ngx_palloc. */
    method Palloc() returns (p: nat)
      requires Valid()
      modifies this, heap
      ensures Valid() && hooks == old(hooks) && heap.ran == old(heap.ran) && Foreign() == old(Foreign())
      ensures p != NULL <==> heap.fate(old(heap.asked)) && heap.fate(old(heap.asked) + 1)
      ensures heap.asked == old(heap.asked) + if heap.fate(old(heap.asked)) then 2 else 1
      ensures p == NULL ==> blocks == old(blocks) && heap.live == old(heap.live)
      ensures p != NULL ==> p !in old(heap.live) && p in heap.live && Blocks() == [p] + old(Blocks())
      ensures p != NULL ==> |blocks| > 0 && fresh(blocks[0]) && blocks[1..] == old(blocks)
    {
      hide Held, ForeignTo, Chained, HooksChained;
      var record;
      p, record := MallocPair(heap);
      if p == NULL {
        return;
      }
      var node := new LargeNode(record, p, large);
      heap.Own(p, Block(node));
      heap.Own(record, NodeRecord(node));
      HeldAfterAlloc(this, old(heap.live), blocks, hooks, node);
      ForeignAfterAlloc(this, old(heap.live), blocks, hooks, node);
      assert heap.live == WithNode(old(heap.live), node);
      ChainedCons(node, blocks);
      large := node;
      blocks := [node] + blocks;
    }

    /** ngx_pfree: succeeds exactly on a live block, and takes out that block
        and no other. */
    method Pfree(p: nat) returns (ok: bool)
      requires Valid()
      modifies this, heap, set n | n in blocks
      ensures Valid() && hooks == old(hooks) && heap.ran == old(heap.ran) && Foreign() == old(Foreign())
      ensures ok <==> p in old(Blocks())
      ensures heap.asked == old(heap.asked)
      ensures ok ==> p !in heap.live && p !in Blocks()
      ensures ok ==> exists i: nat :: Unlinked(i) && old(blocks)[i].alloc == p
      ensures !ok ==> blocks == old(blocks) && heap.live == old(heap.live)
    {
      hide Held, ForeignTo, HooksChained, Cut, WithoutNode;
      var prev: LargeNode? := null;
      var l := large;
      ghost var i := 0;
      while l != null
        invariant 0 <= i <= |blocks|
        invariant l == (if i < |blocks| then blocks[i] else null)
        invariant prev == (if i == 0 then null else blocks[i - 1])
        invariant forall j :: 0 <= j < i ==> blocks[j].alloc != p
        decreases |blocks| - i
      {
        if l.alloc == p {
          GoneForGood(this, heap.live, blocks, hooks, i);
          Unlink(prev, l, i);
          return true;
        }
        prev := l;
        l := l.next;
        i := i + 1;
      }
      ok := false;
    }

    /** ngx_pool_cleanup_add. */
    method CleanupAdd(size: nat) returns (c: CleanupNode?)
      requires Valid()
      modifies this, heap
      ensures Valid() && blocks == old(blocks) && heap.ran == old(heap.ran) && Foreign() == old(Foreign())
      ensures c != null <==>
                heap.fate(old(heap.asked)) && (size > 0 ==> heap.fate(old(heap.asked) + 1))
      ensures heap.asked == old(heap.asked) + if heap.fate(old(heap.asked)) && size > 0 then 2 else 1
      ensures c == null ==> hooks == old(hooks) && heap.live == old(heap.live)
      ensures c != null ==> fresh(c) && hooks == [c] + old(hooks) && c.handler == NULL && c.data == c.allotted
      ensures c != null ==> (c.allotted != NULL <==> size > 0) && (size > 0 ==> c.data in heap.live)
    {
      hide Held, ForeignTo, Chained, HooksChained;
      var record := heap.Malloc();
      if record == NULL {
        return null;
      }
      var data := NULL;
      if size > 0 {
        data := heap.Malloc();
        if data == NULL {
          heap.Free(record);
          assert heap.live == old(heap.live);
          return null;
        }
      }
      c := new CleanupNode(record, data, cleanup);
      if data != NULL {
        heap.Own(data, HookData(c));
      }
      heap.Own(record, HookRecord(c));
      assert heap.live == WithHook(old(heap.live), c);
      HeldAfterHook(this, old(heap.live), blocks, hooks, c);
      ForeignAfterHook(this, old(heap.live), blocks, hooks, c);
      HooksChainedCons(c, hooks);
      cleanup := c;
      hooks := [c] + hooks;
    }

    /** ngx_destroy_pool: every handler that is set runs once, the hook added
        last first, and every address of the pool is freed once, but for the
        data that ngx_pool_cleanup_add allocated. */
    method Destroy()
      requires Valid()
      modifies heap
      ensures heap.ran == old(heap.ran) + old(Calls(hooks))
      ensures heap.live == old(heap.live) - old(Freed(this, blocks, hooks))
      ensures heap.asked == old(heap.asked)
    {
      hide Held, HookAddresses, BlockAddresses, Calls, Without;
      ghost var live := heap.live;
      ghost var i := 0;
      NothingYet();
      var c := cleanup;
      while c != null
        invariant 0 <= i <= |hooks| && c == (if i < |hooks| then hooks[i] else null)
        invariant heap.live == live - HookAddresses(hooks[..i])
        invariant heap.ran == old(heap.ran) + Calls(hooks[..i]) && heap.asked == old(heap.asked)
        decreases |hooks| - i
      {
        HookTurn(this, live, blocks, hooks, i);
        var cnext := c.next;
        if c.handler != NULL {
          heap.Run(c.handler, c.data);
        }
        heap.Free(c.address);
        c := cnext;
        i := i + 1;
      }
      assert hooks[..i] == hooks;
      ghost var j := 0;
      var l := large;
      while l != null
        invariant 0 <= j <= |blocks| && l == (if j < |blocks| then blocks[j] else null)
        invariant heap.live == live - HookAddresses(hooks) - BlockAddresses(blocks[..j])
        invariant heap.ran == old(heap.ran) + Calls(hooks) && heap.asked == old(heap.asked)
        decreases |blocks| - j
      {
        BlockTurn(this, live, blocks, hooks, j);
        var next := l.next;
        heap.Free(l.alloc);
        heap.Free(l.address);
        l := next;
        j := j + 1;
      }
      assert blocks[..j] == blocks;
      LastTurn(this, live, blocks, hooks);
      heap.Free(address);
    }

    /** The block at position i is gone, and nothing else is. */
    twostate predicate Unlinked(i: nat)
      reads Repr()
    {
      && i < |old(blocks)| && blocks == Cut(old(blocks), i)
      && heap.live == WithoutNode(old(heap.live), old(blocks)[i])
    }

    /** The unlinking branch: `*prev = l->next`, and both frees. */
    method Unlink(prev: LargeNode?, l: LargeNode, ghost i: nat)
      requires Valid() && i < |blocks| && l == blocks[i]
      requires prev == (if i == 0 then null else blocks[i - 1])
      modifies this, heap, set n | n in blocks
      ensures Valid() && Unlinked(i)
      ensures hooks == old(hooks) && heap.ran == old(heap.ran) && Foreign() == old(Foreign())
      ensures heap.asked == old(heap.asked)
    {
      hide Held, ForeignTo, HooksChained, Cut, Without;
      HeldAfterFree(this, heap.live, blocks, hooks, i);
      ForeignAfterFree(this, heap.live, blocks, hooks, i);
      Distinct(this, heap.live, blocks, hooks, l);
      ghost var was := blocks;
      if prev == null {
        large := l.next;
      } else {
        prev.next := l.next;
      }
      heap.Free(l.alloc);
      heap.Free(l.address);
      blocks := Cut(blocks, i);
      SkippedIsCut(large, was, i);
    }
  }

  lemma Distinct(pool: Pool, live: map<nat, Use>, blocks: seq<LargeNode>, hooks: seq<CleanupNode>, n: LargeNode)
    requires Held(pool, live, blocks, hooks) && n in blocks
    ensures n.alloc in live && n.address in Without(live, n.alloc)
    ensures forall i, j :: 0 <= i < j < |blocks| ==> blocks[i] != blocks[j]
  {
    assert BlockHeld(live, n);
  }

  // Giving everything back

  lemma NothingYet()
    ensures HookAddresses([]) == {} && BlockAddresses([]) == {} && Calls([]) == []
  {
  }

  /** The turn of hook i: its record is still live, and freeing it and running
      its handler is what the longer prefix says. */
  lemma HookTurn(pool: Pool, live: map<nat, Use>, blocks: seq<LargeNode>, hooks: seq<CleanupNode>, i: nat)
    requires Held(pool, live, blocks, hooks) && i < |hooks|
    ensures var before := live - HookAddresses(hooks[..i]);
            && hooks[i].address in before
            && Without(before, hooks[i].address) == live - HookAddresses(hooks[..i + 1])
    ensures Calls(hooks[..i + 1])
         == Calls(hooks[..i])
            + if hooks[i].handler == NULL then [] else [Call(hooks[i].handler, hooks[i].data)]
  {
    assert hooks[..i + 1][..i] == hooks[..i];
    assert HookHeld(live, hooks[i]);
    forall c | c in hooks[..i] ensures c.address != hooks[i].address {
      assert HookHeld(live, c);
    }
    assert forall c :: c in hooks[..i + 1] <==> c in hooks[..i] || c == hooks[i];
    assert HookAddresses(hooks[..i + 1]) == HookAddresses(hooks[..i]) + {hooks[i].address};
    hide HookAddresses, Calls, Held;
  }

  lemma BlockTurn(pool: Pool, live: map<nat, Use>, blocks: seq<LargeNode>, hooks: seq<CleanupNode>, j: nat)
    requires Held(pool, live, blocks, hooks) && j < |blocks|
    ensures var before := live - HookAddresses(hooks) - BlockAddresses(blocks[..j]);
            && blocks[j].alloc in before && blocks[j].address in Without(before, blocks[j].alloc)
            && WithoutNode(before, blocks[j]) == live - HookAddresses(hooks) - BlockAddresses(blocks[..j + 1])
  {
    var n := blocks[j];
    assert BlockHeld(live, n);
    forall m | m in blocks[..j]
      ensures m.address != n.address && m.address != n.alloc && m.alloc != n.address && m.alloc != n.alloc
    {
      assert BlockHeld(live, m);
    }
    forall c | c in hooks ensures c.address != n.address && c.address != n.alloc {
      assert HookHeld(live, c);
    }
    assert forall m :: m in blocks[..j + 1] <==> m in blocks[..j] || m == n;
    assert BlockAddresses(blocks[..j + 1]) == BlockAddresses(blocks[..j]) + {n.address, n.alloc};
    assert n.address !in HookAddresses(hooks) + BlockAddresses(blocks[..j]);
    assert n.alloc !in HookAddresses(hooks) + BlockAddresses(blocks[..j]);
    hide HookAddresses, BlockAddresses, Held;
  }

  lemma LastTurn(pool: Pool, live: map<nat, Use>, blocks: seq<LargeNode>, hooks: seq<CleanupNode>)
    requires Held(pool, live, blocks, hooks)
    ensures var before := live - HookAddresses(hooks) - BlockAddresses(blocks);
            && pool.address in before
            && Without(before, pool.address) == live - Freed(pool, blocks, hooks)
  {
    forall n | n in blocks ensures n.address != pool.address && n.alloc != pool.address {
      assert BlockHeld(live, n);
    }
    forall c | c in hooks ensures c.address != pool.address {
      assert HookHeld(live, c);
    }
  }

  /** Destruction leaves nothing of the pool behind if and only if no cleanup
      was added with data of its own: nothing frees that data. */
  lemma LeakFree(pool: Pool, live: map<nat, Use>, blocks: seq<LargeNode>, hooks: seq<CleanupNode>)
    requires Held(pool, live, blocks, hooks)
    ensures live - Freed(pool, blocks, hooks) == ForeignTo(pool, live, blocks, hooks)
       <==> forall c :: c in hooks ==> c.allotted == NULL
  {
    var after := live - Freed(pool, blocks, hooks);
    if c :| c in hooks && c.allotted != NULL {
      DataApart(pool, live, blocks, hooks, c);
      assert c.allotted in Data(hooks);
      assert c.allotted in after && c.allotted !in ForeignTo(pool, live, blocks, hooks);
    } else {
      assert Data(hooks) == {};
    }
  }

  lemma DataApart(pool: Pool, live: map<nat, Use>, blocks: seq<LargeNode>, hooks: seq<CleanupNode>, c: CleanupNode)
    requires Held(pool, live, blocks, hooks) && c in hooks && c.allotted != NULL
    ensures c.allotted in live && c.allotted !in Freed(pool, blocks, hooks)
  {
    assert HookHeld(live, c);
    forall n | n in blocks ensures n.address != c.allotted && n.alloc != c.allotted {
      assert BlockHeld(live, n);
    }
    forall d | d in hooks ensures d.address != c.allotted {
      assert HookHeld(live, d);
    }
  }

  // Whole lives

  function Reversed(s: seq<Call>): seq<Call> {
    if s == [] then [] else [s[|s| - 1]] + Reversed(s[..|s| - 1])
  }

  lemma ReversedAdd(added: seq<Call>, more: seq<Call>)
    requires |more| <= 1
    ensures Reversed(added + more) == more + Reversed(added)
  {
    if more == [] {
      assert added + more == added;
    } else {
      assert (added + more)[..|added|] == added;
    }
  }

  lemma CallsCons(c: CleanupNode, hooks: seq<CleanupNode>)
    ensures Calls([c] + hooks)
         == (if c.handler == NULL then [] else [Call(c.handler, c.data)]) + Calls(hooks)
  {
    if hooks == [] {
      assert [c] + hooks == [c] && [c][..0] == [];
    } else {
      CallsCons(c, hooks[..|hooks| - 1]);
      assert ([c] + hooks)[..|hooks|] == [c] + hooks[..|hooks| - 1];
    }
  }

  twostate lemma CallsStay(hooks: seq<CleanupNode>)
    requires forall c :: c in hooks ==> c.handler == old(c.handler) && c.data == old(c.data)
    ensures Calls(hooks) == old(Calls(hooks))
  {
    if hooks != [] {
      CallsStay(hooks[..|hooks| - 1]);
    }
  }

  ghost predicate HasData(hooks: seq<CleanupNode>) {
    exists c :: c in hooks && c.allotted != NULL
  }

  /** One operation on a pool. */
  method Apply(pool: Pool, op: Op)
    requires pool.Valid()
    modifies pool.Repr()
    ensures pool.Valid() && fresh(pool.Repr() - old(pool.Repr()))
    ensures pool.heap.ran == old(pool.heap.ran) && pool.Foreign() == old(pool.Foreign())
    ensures pool.heap.asked == old(pool.heap.asked) + Asks(pool.heap.fate, old(pool.heap.asked), op)
    ensures Calls(pool.hooks) == Registers(pool.heap.fate, old(pool.heap.asked), op) + old(Calls(pool.hooks))
    ensures HasData(pool.hooks) <==>
              || old(HasData(pool.hooks))
              || (op.OnDestroy? && op.size > 0 && Adds(pool.heap.fate, old(pool.heap.asked), op))
  {
    hide Held, ForeignTo, Calls, Chained;
    match op {
      case Alloc =>
        var p := pool.Palloc();
        CallsStay(old(pool.hooks));
      case Free(p) =>
        var ok := pool.Pfree(p);
        CallsStay(old(pool.hooks));
      case OnDestroy(size, handler, data) =>
        var c := pool.CleanupAdd(size);
        CallsStay(old(pool.hooks));
        if c != null {
          c.handler := handler;
          c.data := data;
          CallsStay(old(pool.hooks));
          CallsCons(c, old(pool.hooks));
          DataCons(c, old(pool.hooks));
        }
    }
  }

  lemma DataCons(c: CleanupNode, hooks: seq<CleanupNode>)
    ensures HasData([c] + hooks) <==> c.allotted != NULL || HasData(hooks)
  {
    assert forall d :: d in [c] + hooks <==> d == c || d in hooks;
  }

  /** A pool's whole life, over any sequence of operations with any failures of
      malloc. The handlers of exactly the cleanups whose mallocs succeeded run,
      once each and last first; and everything allocated is given back if and
      only if none of those cleanups came with a size. */
  method Session(heap: Heap, ops: seq<Op>)
    modifies heap
    ensures var n := old(heap.asked);
            && heap.asked == n + 1 + (if heap.fate(n) then AsksAll(heap.fate, n + 1, ops) else 0)
            && heap.ran == old(heap.ran)
                           + (if heap.fate(n) then Reversed(RegistersAll(heap.fate, n + 1, ops)) else [])
            && (heap.live == old(heap.live) <==> !heap.fate(n) || !LeavesData(heap.fate, n + 1, ops))
    ensures forall p :: p in old(heap.live) ==> p in heap.live && heap.live[p] == old(heap.live)[p]
  {
    hide Held, ForeignTo, Calls, Chained, HooksChained, Freed, LeavesData, HasData, AsksAll, RegistersAll, Reversed;
    var address := heap.Malloc();
    if address == NULL {
      return;
    }
    var pool := new Pool(heap, address);
    NothingForeign(pool, old(heap.live));
    NoData(pool.hooks);
    Perform(pool, ops);
    LeakFree(pool, heap.live, pool.blocks, pool.hooks);
    NoData(pool.hooks);
    ForeignKept(pool, heap.live, pool.blocks, pool.hooks);
    pool.Destroy();
  }

  /** Any operations on a pool without hooks. */
  method Perform(pool: Pool, ops: seq<Op>)
    requires pool.Valid() && pool.hooks == []
    modifies pool.Repr()
    ensures pool.Valid() && fresh(pool.Repr() - old(pool.Repr()))
    ensures pool.heap.ran == old(pool.heap.ran) && pool.Foreign() == old(pool.Foreign())
    ensures var fate, n := pool.heap.fate, old(pool.heap.asked);
            && pool.heap.asked == n + AsksAll(fate, n, ops)
            && Calls(pool.hooks) == Reversed(RegistersAll(fate, n, ops))
            && (HasData(pool.hooks) <==> LeavesData(fate, n, ops))
  {
    hide Held, ForeignTo, Calls, Chained, HooksChained, LeavesData, HasData, Asks, Adds, Registers, Pool.Valid;
    hide Pool.Foreign;
    ghost var n := pool.heap.asked;
    NoOps(pool.heap.fate, n);
    assert ops[..0] == [];
    for i := 0 to |ops|
      invariant pool.Valid() && fresh(pool.Repr() - old(pool.Repr()))
      invariant pool.heap.ran == old(pool.heap.ran) && pool.Foreign() == old(pool.Foreign())
      invariant pool.heap.asked == n + AsksAll(pool.heap.fate, n, ops[..i])
      invariant Calls(pool.hooks) == Reversed(RegistersAll(pool.heap.fate, n, ops[..i]))
      invariant HasData(pool.hooks) <==> LeavesData(pool.heap.fate, n, ops[..i])
    {
      OneMoreOp(pool.heap.fate, n, ops, i);
      Apply(pool, ops[i]);
    }
    assert ops[..|ops|] == ops;
  }

  lemma NoOps(fate: nat -> bool, n: nat)
    ensures !LeavesData(fate, n, []) && !HasData([]) && Calls([]) == [] && RegistersAll(fate, n, []) == []
    ensures AsksAll(fate, n, []) == 0 && Reversed([]) == []
  {
  }

  lemma NoData(hooks: seq<CleanupNode>)
    ensures HasData(hooks) <==> !forall c :: c in hooks ==> c.allotted == NULL
  {
  }

  lemma OneMoreOp(fate: nat -> bool, n: nat, ops: seq<Op>, i: nat)
    requires i < |ops|
    ensures var m, op := n + AsksAll(fate, n, ops[..i]), ops[i];
            && n + AsksAll(fate, n, ops[..i + 1]) == m + Asks(fate, m, op)
            && Reversed(RegistersAll(fate, n, ops[..i + 1]))
            == Registers(fate, m, op) + Reversed(RegistersAll(fate, n, ops[..i]))
            && (LeavesData(fate, n, ops[..i + 1]) <==>
                LeavesData(fate, n, ops[..i]) || (op.OnDestroy? && op.size > 0 && Adds(fate, m, op)))
  {
    hide Asks, Adds, AsksAll, Reversed;
    assert ops[..i + 1][..i] == ops[..i];
    RegisteredAll(fate, n, ops[..i + 1]);
    ReversedAdd(RegistersAll(fate, n, ops[..i]), Registers(fate, n + AsksAll(fate, n, ops[..i]), ops[i]));
    forall j | 0 <= j <= i
      ensures SizedAt(fate, n, ops[..i + 1], j) <==> SizedAt(fate, n, ops, j)
      ensures j < i ==> (SizedAt(fate, n, ops[..i], j) <==> SizedAt(fate, n, ops, j))
    {
      assert ops[..i + 1][..j] == ops[..j];
      assert j < i ==> ops[..i][..j] == ops[..j];
    }
    if LeavesData(fate, n, ops[..i]) {
      var j :| 0 <= j < |ops[..i]| && SizedAt(fate, n, ops[..i], j);
      assert SizedAt(fate, n, ops[..i + 1], j);
    }
    if SizedAt(fate, n, ops, i) {
      assert SizedAt(fate, n, ops[..i + 1], i);
    }
    if LeavesData(fate, n, ops[..i + 1]) {
      var j :| 0 <= j < |ops[..i + 1]| && SizedAt(fate, n, ops[..i + 1], j);
      assert j < i ==> SizedAt(fate, n, ops[..i], j);
    }
  }

  lemma RegisteredAll(fate: nat -> bool, n: nat, ops: seq<Op>)
    requires ops != []
    ensures var before, m := ops[..|ops| - 1], n + AsksAll(fate, n, ops[..|ops| - 1]);
            && n + AsksAll(fate, n, ops) == m + Asks(fate, m, ops[|ops| - 1])
            && RegistersAll(fate, n, ops)
            == RegistersAll(fate, n, before) + Registers(fate, m, ops[|ops| - 1])
  {
  }

  lemma NothingForeign(pool: Pool, live: map<nat, Use>)
    requires pool.address !in live
    ensures ForeignTo(pool, live[pool.address := Unowned][pool.address := PoolRecord(pool)], [], []) == live
    ensures Calls([]) == []
  {
    assert Freed(pool, [], []) + Data([]) == {pool.address};
  }

  lemma ForeignKept(pool: Pool, live: map<nat, Use>, blocks: seq<LargeNode>, hooks: seq<CleanupNode>)
    ensures var foreign, after := ForeignTo(pool, live, blocks, hooks), live - Freed(pool, blocks, hooks);
            forall p :: p in foreign ==> p in after && after[p] == foreign[p]
  {
    hide Freed, Data;
  }
}
