/** The pool allocator: blocks of chunks of one size, and a list through the chunks that are free. */
module MemPoolClass {

  /** A free chunk holds the next free one; what a chunk in use holds is its user's business. */
  class Chunk {
    var next: Chunk?

    constructor ()
    {
      next := null;
    }
  }

  function Flatten<T>(blocks: seq<seq<T>>): seq<T> {
    if blocks == [] then [] else Flatten(blocks[..|blocks| - 1]) + blocks[|blocks| - 1]
  }

  lemma FlattenMore<T>(blocks: seq<seq<T>>, b: seq<T>)
    ensures Flatten(blocks + [b]) == Flatten(blocks) + b
  {
    assert (blocks + [b])[..|blocks|] == blocks;
  }

  ghost predicate Distinct<T>(s: seq<T>) {
    forall i, j :: 0 <= i < j < |s| ==> s[i] != s[j]
  }

  lemma DistinctJoin<T>(a: seq<T>, b: seq<T>)
    requires Distinct(a) && Distinct(b) && forall x :: x in a ==> x !in b
    ensures Distinct(a + b)
  {
    forall i, j | 0 <= i < j < |a + b|
      ensures (a + b)[i] != (a + b)[j]
    {
      if i < |a| <= j { assert a[i] in a && b[j - |a|] in b; }
    }
  }

  /** The chunks of a list, from its first to its last. */
  ghost predicate Chained(root: Chunk?, list: seq<Chunk>)
    reads list
  {
    if list == [] then root == null
    else
      && root == list[0] && list[|list| - 1].next == null
      && forall i :: 0 <= i < |list| - 1 ==> list[i].next == list[i + 1]
  }

  /** The first chunk of a list leaves a list behind. */
  lemma WithoutFirst(root: Chunk?, list: seq<Chunk>)
    requires Chained(root, list) && Distinct(list) && list != []
    ensures root == list[0] && Chained(list[0].next, list[1..])
    ensures Distinct(list[1..]) && list[0] !in list[1..]
    ensures forall c :: c in list <==> c == list[0] || c in list[1..]
  {
  }

  lemma NoRoot(root: Chunk?, list: seq<Chunk>)
    requires Chained(root, list)
    ensures root == null <==> list == []
  {
  }

  class MemPool {
    const count: nat               // chunks in a block
    var blocks: seq<seq<Chunk>>
    var root: Chunk?
    var inUse: nat
    ghost var freeList: seq<Chunk>     // the free list
    ghost var live: set<Chunk>     // chunks in use

    /** The free list is free of cycles and of chunks in use; together they are all chunks of all blocks. */
    ghost predicate Valid()
      reads this, freeList
    {
      && count > 0
      && Chained(root, freeList) && Distinct(freeList)
      && Distinct(Flatten(blocks))
      && (forall c :: c in Flatten(blocks) ==> c in freeList || c in live)
      && (forall c :: c in freeList ==> c in Flatten(blocks))
      && (forall c :: c in live ==> c in Flatten(blocks))
      && (forall c :: c in freeList ==> c !in live)
      && |live| == inUse
    }

    constructor (count: nat)
      requires count > 0
      ensures Valid() && blocks == [] && freeList == [] && live == {} && this.count == count
    {
      this.count := count;
      blocks, root, inUse := [], null, 0;
      freeList, live := [], {};
    }

    /** A block whose chunks are chained one behind the other. */
    method NewBlock() returns (chunks: seq<Chunk>)
      requires count > 0
      ensures |chunks| == count && Distinct(chunks) && Chained(chunks[0], chunks)
      ensures forall c :: c in chunks ==> fresh(c)
    {
      chunks := [];
      while |chunks| < count
        invariant |chunks| <= count && Distinct(chunks)
        invariant forall k :: 0 <= k < |chunks| ==> fresh(chunks[k])
      {
        var c := new Chunk();
        chunks := chunks + [c];
      }
      var i := 0;
      while i < count - 1
        invariant 0 <= i <= count - 1
        invariant forall k :: 0 <= k < i ==> chunks[k].next == chunks[k + 1]
        modifies chunks
      {
        chunks[i].next := chunks[i + 1];
        i := i + 1;
      }
      chunks[count - 1].next := null;
    }

    /** A chunk that nobody uses; a new block only when no chunk is free. */
    method Alloc() returns (chunk: Chunk)
      requires Valid()
      modifies this
      ensures Valid() && chunk !in old(live) && live == old(live) + {chunk} && inUse == old(inUse) + 1
      ensures old(freeList) != [] ==>
                blocks == old(blocks) && chunk == old(freeList)[0] && freeList == old(freeList)[1..]
      ensures old(freeList) == [] ==>
                && fresh(chunk) && |blocks| == |old(blocks)| + 1 && blocks[..|old(blocks)|] == old(blocks)
                && |freeList| == count - 1
      ensures forall c :: c in freeList ==> c in old(freeList) || fresh(c)
    {
      hide Flatten, Chained, Distinct;
      NoRoot(root, freeList);
      if root == null { Grow(); }
      WithoutFirst(root, freeList);
      chunk := root;
      root := root.next;
      inUse := inUse + 1;
      freeList, live := freeList[1..], live + {chunk};
    }

    /** One more block when no chunk is free. */
    method Grow()
      requires Valid() && freeList == []
      modifies this
      ensures Valid() && live == old(live) && inUse == old(inUse) && |freeList| == count
      ensures |blocks| == |old(blocks)| + 1 && blocks[..|old(blocks)|] == old(blocks)
              && blocks[|old(blocks)|] == freeList
      ensures forall c :: c in freeList ==> fresh(c)
    {
      var block := NewBlock();
      FlattenMore(blocks, block);
      assert forall c :: c in Flatten(blocks) ==> c !in block;
      DistinctJoin(Flatten(blocks), block);
      root := block[0];
      blocks := blocks + [block];
      freeList := block;
    }

    /** The chunk becomes the first free one; a null pointer is let through. */
    method Free(addr: Chunk?)
      requires Valid() && (addr != null ==> addr in live)
      modifies this, if addr == null then {} else {addr}
      ensures Valid() && blocks == old(blocks)
      ensures addr == null ==> live == old(live) && freeList == old(freeList) && inUse == old(inUse)
      ensures addr != null ==>
              live == old(live) - {addr} && freeList == [addr] + old(freeList) && inUse == old(inUse) - 1
    {
      if addr == null { return; }
      ghost var was := freeList;
      assert was != [] ==> root == was[0];
      addr.next := root;
      root := addr;
      inUse := inUse - 1;
      freeList, live := [addr] + freeList, live - {addr};
      assert forall c :: c in freeList <==> c == addr || c in was;
      assert forall i :: 0 < i < |freeList| ==> freeList[i] == was[i - 1];
    }

    method Clear()
      requires Valid()
      modifies this
      ensures Valid() && blocks == [] && freeList == [] && live == {} && inUse == 0
    {
      blocks, root, inUse := [], null, 0;
      freeList, live := [], {};
    }
  }

  /** A user's run: which chunks it holds decides everything it can see of the pool. */
  datatype Command = Take | Give(i: nat) | Reset

  /** Over any run the chunks handed out and not given back are all different and are what the pool counts. */
  method Drive(count: nat, commands: seq<Command>) returns (pool: MemPool, held: seq<Chunk>)
    requires count > 0
    ensures fresh(pool) && pool.Valid() && Distinct(held) && pool.inUse == |held|
    ensures forall c :: c in held <==> c in pool.live
    ensures |Flatten(pool.blocks)| == |pool.freeList| + |held|
  {
    hide Flatten, Chained;
    pool := new MemPool(count);
    held := [];
    for n := 0 to |commands|
      invariant fresh(pool) && pool.Valid() && Distinct(held)
      invariant (forall c :: c in pool.freeList ==> fresh(c)) && forall c :: c in pool.live ==> fresh(c)
      invariant forall c :: c in held <==> c in pool.live
    {
      match commands[n] {
        case Take =>
          var chunk := pool.Alloc();
          held := held + [chunk];
        case Give(i) =>
          if i < |held| {
            Without(held, i);
            assert held[i] in held && held[i] in pool.live;
            pool.Free(held[i]);
            held := held[..i] + held[i + 1..];
          }
        case Reset =>
          pool.Clear();
          held := [];
      }
    }
    Counts(held, pool.live);
    TwoParts(Flatten(pool.blocks), pool.freeList, held);
  }

  lemma TwoParts<T>(all: seq<T>, a: seq<T>, b: seq<T>)
    requires Distinct(all) && Distinct(a) && Distinct(b) && forall x :: x in a ==> x !in b
    requires (forall x :: x in all ==> x in a || x in b) && (forall x :: x in a ==> x in all)
             && (forall x :: x in b ==> x in all)
    ensures |all| == |a| + |b|
  {
    var s := set x | x in all;
    Counts(all, s);
    DistinctJoin(a, b);
    Counts(a + b, s);
  }

  lemma Without<T>(s: seq<T>, i: nat)
    requires Distinct(s) && i < |s|
    ensures var t := s[..i] + s[i + 1..];
            Distinct(t) && (forall x :: x in t ==> x in s && x != s[i]) && (forall x :: x in s ==> x == s[i] || x in t)
  {
    var t := s[..i] + s[i + 1..];
    forall x | x in s
      ensures x == s[i] || x in t
    {
      var j :| 0 <= j < |s| && s[j] == x;
      if j < i { assert t[j] == x; } else if j > i { assert t[j - 1] == x; }
    }
  }

  lemma {:induction false} Counts<T>(s: seq<T>, live: set<T>)
    requires Distinct(s) && forall c :: c in s <==> c in live
    ensures |s| == |live|
    decreases |s|
  {
    if s == [] {
      assert live == {};
    } else {
      var c, rest := s[0], s[1..];
      assert forall d :: d in rest <==> d in live - {c};
      Counts(rest, live - {c});
    }
  }
}
