/** Initializers without bit-fields: how the list of an object is built, and that initializing the object on
    the stack leaves the same bytes as its data directives. */
module StackImage {
  import opened Words
  import opened Memory
  import opened Bits
  import opened StaticImage

  // ---------- building the list ----------

  ghost predicate Sorted(inits: seq<Initializer>) {
    forall j, k :: 0 <= j < k < |inits| ==> Less(inits[j], inits[k])
  }

  predicate SameKey(i: Initializer, j: Initializer) {
    i.offset == j.offset && i.begin == j.begin
  }

  /** The signed number in some bytes, as the parser reads it through a pointer. */
  function ReadSigned(s: seq<Byte>): int {
    var u := ReadUnsigned(s);
    if 2 * u < Pow2(8 * |s|) then u else u - Pow2(8 * |s|)
  }

  function ReadUnsigned(s: seq<Byte>): nat
    decreases |s|
  {
    if s == [] then 0 else s[0] + 256 * ReadUnsigned(s[1..])
  }

  /** The entries for the bytes of a literal. */
  function Chunks(s: seq<Byte>, offset: nat): seq<Initializer>
    decreases |s|
  {
    if s == [] then []
    else
      var unit := UnitFor(|s|);
      [Initializer(offset, unit, 0, 0, ReadSigned(s[..unit]))] + Chunks(s[unit..], offset + unit)
  }

  /** The list `now` is `was` with the entries `cs` put in. */
  ghost predicate Added(was: seq<Initializer>, now: seq<Initializer>, cs: seq<Initializer>) {
    forall i :: i in now <==> i in cs || (i in was && Apart(i, cs))
  }

  ghost predicate Apart(i: Initializer, cs: seq<Initializer>) {
    forall c :: c in cs ==> !SameKey(i, c)
  }

  lemma AddedTwice(a: seq<Initializer>, b: seq<Initializer>, c: seq<Initializer>, xs: seq<Initializer>,
      ys: seq<Initializer>)
    requires Added(a, b, xs) && Added(b, c, ys)
    requires forall x :: x in xs ==> Apart(x, ys)
    ensures Added(a, c, xs + ys)
  {
    forall i
      ensures i in c <==> i in xs + ys || (i in a && Apart(i, xs + ys))
    {
      assert Apart(i, xs + ys) <==> Apart(i, xs) && Apart(i, ys);
    }
  }

  lemma NothingAdded(inits: seq<Initializer>)
    ensures Added(inits, inits, [])
  {
  }

  lemma NextChunk(s: seq<Byte>, offset: nat, unit: nat, cs: seq<Initializer>)
    requires s != [] && unit == UnitFor(|s|)
    ensures var c := Initializer(offset, unit, 0, 0, ReadSigned(s[..unit]));
            cs + Chunks(s, offset) == cs + [c] + Chunks(s[unit..], offset + unit)
  {
  }

  lemma AddedLater(a: seq<Initializer>, b: seq<Initializer>, c: seq<Initializer>, xs: seq<Initializer>,
      ys: seq<Initializer>)
    requires Added(a, b, xs) && Added(b, c, ys)
    requires forall x, y :: x in xs && y in ys ==> x.offset < y.offset
    ensures Added(a, c, xs + ys)
  {
    AddedTwice(a, b, c, xs, ys);
  }

  class Declaration {
    var inits: seq<Initializer>

    constructor ()
      ensures inits == []
    {
      inits := [];
    }

    /** The ordered set of the source: an entry with the same place is taken out first. The list stays sorted,
        has the new entry, and of the old ones exactly those with another place. */
    method AddInit(init: Initializer)
      requires Sorted(inits)
      modifies this
      ensures Sorted(inits)
      ensures Added(old(inits), inits, [init])
    {
      var at := 0;
      while at < |inits| && Less(inits[at], init)
        invariant at <= |inits|
        invariant forall k :: 0 <= k < at ==> Less(inits[k], init)
        invariant inits == old(inits)
      {
        at := at + 1;
      }
      var rest := inits[at..];
      if rest != [] && SameKey(rest[0], init) { rest := rest[1..]; }
      inits := inits[..at] + [init] + rest;
      assert forall k :: at < k < |inits| ==> inits[k] == rest[k - at - 1];
      assert forall i :: i in old(inits) ==> i in old(inits)[..at] || i in old(inits)[at..];
      forall i
        ensures i in inits <==> i == init || (i in old(inits) && !SameKey(i, init))
      {
      }
    }

    /** One of the loops of the literal initializer: as many entries of `unit` bytes as fit. */
    method AddChunks(unit: nat, str: seq<Byte>, offset: nat)
      returns (rest: seq<Byte>, next: nat, ghost cs: seq<Initializer>)
      requires Sorted(inits) && unit in {8, 4, 2, 1} && (unit == 8 || |str| < 2 * unit)
      modifies this
      ensures Sorted(inits) && Added(old(inits), inits, cs)
      ensures |rest| < unit && Chunks(str, offset) == cs + Chunks(rest, next)
      ensures offset <= next && forall c :: c in cs ==> offset <= c.offset < next
    {
      hide Chunks, Added, Sorted, ReadSigned;
      rest, next, cs := str, offset, [];
      NothingAdded(inits);
      while |rest| >= unit
        invariant unit == 8 || |rest| < 2 * unit
        invariant Sorted(inits) && Added(old(inits), inits, cs)
        invariant Chunks(str, offset) == cs + Chunks(rest, next)
        invariant offset <= next && forall c :: c in cs ==> offset <= c.offset < next
        decreases |rest|
      {
        ghost var before := inits;
        var init := Initializer(next, unit, 0, 0, ReadSigned(rest[..unit]));
        AddInit(init);
        AddedLater(old(inits), before, inits, cs, [init]);
        NextChunk(rest, next, unit, cs);
        cs := cs + [init];
        rest, next := rest[unit..], next + unit;
      }
    }

    /** A string literal, cut to the array, becomes integers of 8, 4, 2 and 1 bytes. */
    method ParseLiteralInitializer(literal: seq<Byte>, arrayWidth: nat, offset: nat)
      requires Sorted(inits)
      modifies this
      ensures Sorted(inits)
      ensures Added(old(inits), inits, Chunks(literal[..Least(arrayWidth, |literal|)], offset))
    {
      assert forall at: nat :: Chunks([], at) == [];
      hide Chunks, Added, Apart, Sorted;
      var str := literal[..Least(arrayWidth, |literal|)];
      ghost var all := Chunks(str, offset);
      ghost var was := inits;
      ghost var c8, c4, c2, c1;
      var at := offset;
      str, at, c8 := AddChunks(8, str, at);
      ghost var i8 := inits;
      str, at, c4 := AddChunks(4, str, at);
      AddedLater(was, i8, inits, c8, c4);
      assert all == c8 + c4 + Chunks(str, at);
      ghost var i4 := inits;
      str, at, c2 := AddChunks(2, str, at);
      AddedLater(was, i4, inits, c8 + c4, c2);
      assert all == c8 + c4 + c2 + Chunks(str, at);
      ghost var i2 := inits;
      str, at, c1 := AddChunks(1, str, at);
      AddedLater(was, i2, inits, c8 + c4 + c2, c1);
      assert all == c8 + c4 + c2 + c1;
    }
  }

  function Least(a: nat, b: nat): nat {
    if a <= b then a else b
  }

  /** Entry `k` is `i`, and none of the following up to `n` has its place. */
  ghost predicate LastAt(xs: seq<Initializer>, k: nat, n: nat, i: Initializer)
    requires k < n <= |xs|
  {
    xs[k] == i && Apart(i, xs[k + 1..n])
  }

  /** What a declaration holds after any run of additions: of each place, the last entry. */
  method AddAll(xs: seq<Initializer>) returns (d: Declaration)
    ensures fresh(d) && Sorted(d.inits)
    ensures forall i :: i in d.inits <==> exists k :: 0 <= k < |xs| && LastAt(xs, k, |xs|, i)
  {
    d := new Declaration();
    for n := 0 to |xs|
      invariant fresh(d) && Sorted(d.inits)
      invariant forall i :: i in d.inits <==> exists k :: 0 <= k < n && LastAt(xs, k, n, i)
    {
      ghost var before, m := d.inits, n + 1;
      d.AddInit(xs[n]);
      forall i
        ensures i in d.inits <==> exists k :: 0 <= k < m && LastAt(xs, k, m, i)
      {
        LastWins(xs, n, m, before, i);
      }
    }
  }

  lemma LastWins(xs: seq<Initializer>, n: nat, m: nat, before: seq<Initializer>, i: Initializer)
    requires n < |xs| && m == n + 1
    requires i in before <==> exists k :: 0 <= k < n && LastAt(xs, k, n, i)
    ensures i == xs[n] || (i in before && Apart(i, [xs[n]]))
        <==> exists k :: 0 <= k < m && LastAt(xs, k, m, i)
  {
    if i == xs[n] { assert LastAt(xs, n, m, i); }
    forall k | 0 <= k < n
      ensures LastAt(xs, k, m, i) <==> LastAt(xs, k, n, i) && Apart(i, [xs[n]])
    {
      assert xs[k + 1..m] == xs[k + 1..n] + [xs[n]];
    }
  }

  // ---------- the bytes of a literal ----------

  lemma {:induction false} ReadBit(s: seq<Byte>, b: nat)
    requires b < 8 * |s|
    ensures ReadUnsigned(s) < Pow2(8 * |s|) && Bit(ReadUnsigned(s), b) == BitAt(s, b)
    decreases |s|
  {
    var n := |s|;
    var rest := ReadUnsigned(s[1..]);
    var u := s[0] + 256 * rest;
    Pow2Byte();
    Pow2Step(n);
    assert u / 256 == rest && u % 256 == s[0];
    if n > 1 {
      ReadBit(s[1..], if b < 8 then 0 else b - 8);
    } else {
      assert s[1..] == [] && Pow2(0) == 1;
    }
    if b < 8 {
      BitOfRemainder(u, 8, b);
    } else {
      BitOfQuotient(u, 8, b - 8);
      assert (b - 8) / 8 == b / 8 - 1 && (b - 8) % 8 == b % 8;
    }
  }

  lemma ReadSignedBit(s: seq<Byte>, b: nat)
    requires b < 8 * |s|
    ensures Bit(ReadSigned(s), b) == BitAt(s, b)
  {
    ReadBit(s, b);
    var u: int, p: int := ReadUnsigned(s), Pow2(8 * |s|);
    ModShift(u, -1, p);
    BitOfRemainder(u, 8 * |s|, b);
    BitOfRemainder(u - p, 8 * |s|, b);
  }

  lemma {:induction false} ChunksListed(s: seq<Byte>, offset: nat)
    ensures Listed(Chunks(s, offset), offset + |s|)
    ensures forall c :: c in Chunks(s, offset) ==> c.offset >= offset && c.width == 0
    decreases |s|
  {
    if s != [] {
      var unit := UnitFor(|s|);
      var rest := Chunks(s[unit..], offset + unit);
      ChunksListed(s[unit..], offset + unit);
      assert forall k :: 0 < k < |Chunks(s, offset)| ==> Chunks(s, offset)[k] == rest[k - 1];
    }
  }

  /** Each bit of the literal belongs to one of its entries. */
  lemma {:induction false} ChunkOfBit(s: seq<Byte>, offset: nat, b: nat) returns (c: Initializer)
    requires b < 8 * |s|
    ensures c in Chunks(s, offset) && Covers(c, 8 * offset + b)
    ensures Bit(c.val, 8 * offset + b - First(c)) == BitAt(s, b)
    decreases |s|
  {
    var unit := UnitFor(|s|);
    if b < 8 * unit {
      c := Initializer(offset, unit, 0, 0, ReadSigned(s[..unit]));
      ReadSignedBit(s[..unit], b);
    } else {
      c := ChunkOfBit(s[unit..], offset + unit, b - 8 * unit);
      assert (b - 8 * unit) / 8 == b / 8 - unit && (b - 8 * unit) % 8 == b % 8;
    }
  }

  lemma LiteralBit(s: seq<Byte>, offset: nat, inits: seq<Initializer>, image: seq<Byte>, b: nat)
    requires Listed(inits, |image|) && ImageOf(image, inits)
    requires forall c :: c in Chunks(s, offset) ==> c in inits
    requires b < 8 * |s|
    ensures 8 * offset + b < 8 * |image| && BitAt(image, 8 * offset + b) == BitAt(s, b)
  {
    var c := ChunkOfBit(s, offset, b);
    var k :| 0 <= k < |inits| && inits[k] == c;
    OnlyOne(inits, |image|, k, 8 * offset + b);
  }

  /** Wherever its entries end up in a list, the bytes of the literal are in the object. */
  lemma LiteralImage(s: seq<Byte>, offset: nat, inits: seq<Initializer>, image: seq<Byte>)
    requires Listed(inits, |image|) && ImageOf(image, inits)
    requires forall c :: c in Chunks(s, offset) ==> c in inits
    ensures s != [] ==> offset + |s| <= |image| && image[offset..offset + |s|] == s
  {
    if s != [] {
      LiteralBit(s, offset, inits, image, 8 * |s| - 1);
      forall k | 0 <= k < |s|
        ensures image[offset + k] == s[k]
      {
        forall i: nat | i < 8
          ensures Bit(image[offset + k], i) == Bit(s[k], i)
        {
          assert (8 * k + i) / 8 == k && (8 * k + i) % 8 == i;
          assert (8 * offset + (8 * k + i)) / 8 == offset + k && (8 * offset + (8 * k + i)) % 8 == i;
          LiteralBit(s, offset, inits, image, 8 * k + i);
        }
        Pow2Byte();
        SameBits(image[offset + k], s[k], 8);
      }
    }
  }

  // ---------- initializing on the stack ----------

  /** The instructions of an initialization: a value in the accumulator, and stores of its low bytes. */
  datatype Instr = SetRax(v: int) | StoreRax(at: int, size: nat)

  datatype Cpu = Cpu(rax: int, mem: Mem)

  function Exec(i: Instr, s: Cpu): Cpu {
    match i
    case SetRax(v) => s.(rax := v)
    case StoreRax(at, size) => s.(mem := Store(s.mem, at, size, s.rax))
  }

  function ExecAll(code: seq<Instr>, s: Cpu): Cpu {
    if code == [] then s else Exec(code[|code| - 1], ExecAll(code[..|code| - 1], s))
  }

  lemma ExecNext(code: seq<Instr>, i: Instr, s: Cpu)
    ensures ExecAll(code + [i], s) == Exec(i, ExecAll(code, s))
  {
    assert (code + [i])[..|code|] == code;
  }

  /** The bytes from `base` on are `image`, all others are as they were. */
  ghost predicate Filled(was: Mem, now: Mem, base: int, image: seq<Byte>) {
    && (forall k :: 0 <= k < |image| ==> At(now, base + k) == image[k])
    && (forall a :: a < base || base + |image| <= a ==> At(now, a) == At(was, a))
  }

  lemma FillMore(was: Mem, now: Mem, base: int, image: seq<Byte>, size: nat, v: int)
    requires Filled(was, now, base, image)
    ensures Filled(was, Store(now, base + |image|, size, v), base, image + LittleEndian(v, size))
  {
    var at := base + |image|;
    forall k | 0 <= k < size
      ensures At(Store(now, at, size, v), base + |image| + k) == LittleEndian(v, size)[k]
    {
      StoredByte(now, at, size, v, k);
    }
    var image' := image + LittleEndian(v, size);
    forall k | 0 <= k < |image'|
      ensures At(Store(now, at, size, v), base + k) == image'[k]
    {
      if k >= |image| { assert base + k == base + |image| + (k - |image|); }
    }
  }

  lemma {:induction false} ZeroIsZeros(n: nat)
    ensures LittleEndian(0, n) == ZeroBytes(n)
  {
    if n > 0 { ZeroIsZeros(n - 1); }
  }

  lemma Begin(m: Mem, base: int, inits: seq<Initializer>, width: nat)
    requires Listed(inits, width)
    ensures Filled(m, m, base, []) && ImageOf([], inits) && Emitted(inits, 0, 0)
  {
    NothingEmitted(inits, width);
  }

  /** The next entry starts behind what is initialized and ends inside the object. */
  lemma Place(inits: seq<Initializer>, width: nat, n: nat, at: nat)
    requires Listed(inits, width) && Emitted(inits, n, at) && n < |inits| && inits[n].width == 0
    ensures at <= inits[n].offset && inits[n].offset + inits[n].size <= width
  {
  }

  lemma NoZeros(image: seq<Byte>)
    ensures image + ZeroBytes(0) == image
  {
  }

  /** Code for one object, and what it does when it is run from any state. */
  class StackInit {
    var out: seq<Instr>
    const base: int
    ghost const start: Cpu

    constructor (base: int, ghost start: Cpu)
      ensures this.base == base && this.start == start && out == []
    {
      this.base := base;
      this.start := start;
      out := [];
    }

    ghost function Now(): Cpu
      reads this
    {
      ExecAll(out, start)
    }

    ghost predicate Holds(image: seq<Byte>)
      reads this
    {
      Filled(start.mem, Now().mem, base, image)
    }

    method Emit(i: Instr)
      modifies this
      ensures Now() == Exec(i, old(Now()))
    {
      ExecNext(out, i, start);
      out := out + [i];
    }

    method EmitStore(at: int, size: nat, ghost image: seq<Byte>, ghost v: int)
      requires Holds(image) && at == base + |image| && Now().rax == v
      modifies this
      ensures Holds(image + LittleEndian(v, size)) && Now().rax == v
    {
      FillMore(start.mem, Now().mem, base, image, size, v);
      Emit(StoreRax(at, size));
    }

    /** Zeros in units of 8, 4, 2 and 1 bytes. */
    method EmitZero(at: int, width: nat, ghost image: seq<Byte>)
      requires Holds(image) && at == base + |image|
      modifies this
      ensures Holds(image + ZeroBytes(width))
    {
      var units := [8, 4, 2, 1];
      Emit(SetRax(0));
      ghost var image' := image;
      var addr, left := at, width;
      for u := 0 to 4
        invariant Holds(image') && Now().rax == 0 && addr == base + |image'|
        invariant 0 <= left <= width && image' == image + ZeroBytes(width - left)
        invariant u == 0 || left < units[u - 1]
      {
        while left >= units[u]
          invariant Holds(image') && Now().rax == 0 && addr == base + |image'|
          invariant 0 <= left <= width && image' == image + ZeroBytes(width - left)
          decreases left
        {
          EmitStore(addr, units[u], image', 0);
          ZeroIsZeros(units[u]);
          image' := image' + LittleEndian(0, units[u]);
          addr := addr + units[u];
          left := left - units[u];
        }
      }
    }

    /** The whole object: the bytes that the data directives of a static object with this list have. */
    method VisitDeclaration(inits: seq<Initializer>, width: nat) returns (ghost image: seq<Byte>)
      requires Listed(inits, width) && forall k :: 0 <= k < |inits| ==> inits[k].width == 0
      requires Now().mem == start.mem
      modifies this
      ensures Holds(image) && |image| == width && ImageOf(image, inits)
    {
      hide ImageOf, PieceOf, Listed, Emitted, Filled, ZeroBytes, LittleEndian;
      image := [];
      Begin(start.mem, base, inits, width);
      var lastEnd := base;
      for n := 0 to |inits|
        invariant Holds(image) && lastEnd == base + |image|
        invariant |image| <= width && ImageOf(image, inits) && Emitted(inits, n, |image|)
      {
        var init := inits[n];
        var addr := base + init.offset;
        Place(inits, width, n, |image|);
        GapPiece(inits, width, n, |image|, init.offset);
        Grow(image, ZeroBytes(init.offset - |image|), inits);
        if lastEnd != addr {
          EmitZero(lastEnd, addr - lastEnd, image);
        }
        NoZeros(image);
        image := image + ZeroBytes(init.offset - |image|);
        IntegerPiece(inits, width, n);
        Grow(image, LittleEndian(init.val, init.size), inits);
        Emit(SetRax(init.val));
        EmitStore(addr, init.size, image, init.val);
        image := image + LittleEndian(init.val, init.size);
        lastEnd := addr + init.size;
      }
      var objEnd := base + width;
      GapPiece(inits, width, |inits|, |image|, width);
      Grow(image, ZeroBytes(width - |image|), inits);
      if lastEnd != objEnd {
        EmitZero(lastEnd, objEnd - lastEnd, image);
      }
      NoZeros(image);
      image := image + ZeroBytes(width - |image|);
    }
  }
}
