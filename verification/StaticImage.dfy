/** The data directives of an initialized static object: bit-fields are packed byte by byte, gaps are filled
    with zeros. */
module StaticImage {
  import opened Words
  import opened Memory
  import opened Bits

  /** One entry of the initializer list of an object: `size` is the width of its type in bytes, `width` the
      width of a bit-field or 0. */
  datatype Initializer = Initializer(offset: nat, size: nat, begin: nat, width: nat, val: int)

  function First(i: Initializer): nat {
    8 * i.offset + i.begin
  }

  function Count(i: Initializer): nat {
    if i.width == 0 then 8 * i.size else i.width
  }

  function End(i: Initializer): nat {
    First(i) + Count(i)
  }

  predicate Covers(i: Initializer, b: nat) {
    First(i) <= b < End(i)
  }

  /** The order of the list. */
  predicate Less(i: Initializer, j: Initializer) {
    i.offset < j.offset || (i.offset == j.offset && i.begin < j.begin)
  }

  predicate WellFormed(i: Initializer) {
    && i.size in {1, 2, 4, 8}
    && i.begin < 8
    && (i.width == 0 ==> i.begin == 0)
    && i.width <= 64
  }

  /** Sorted, pairwise disjoint, and inside an object of `width` bytes. */
  ghost predicate Listed(inits: seq<Initializer>, width: nat) {
    && (forall k :: 0 <= k < |inits| ==> WellFormed(inits[k]) && End(inits[k]) <= 8 * width)
    && (forall j, k :: 0 <= j < k < |inits| ==> Less(inits[j], inits[k]) && Disjoint(inits[j], inits[k]))
  }

  ghost predicate Disjoint(i: Initializer, j: Initializer) {
    forall b: nat :: !(Covers(i, b) && Covers(j, b))
  }

  lemma InOrder(inits: seq<Initializer>, width: nat, j: nat, k: nat)
    requires Listed(inits, width) && j < k < |inits|
    ensures End(inits[j]) <= First(inits[k])
  {
    var x, y := inits[j], inits[k];
    assert Less(x, y) && Disjoint(x, y);
    if End(x) > First(y) {
      assert Covers(x, First(y)) && Covers(y, First(y));
    }
  }

  /** What bit `b` of the object has to be. */
  ghost predicate ObjectBit(inits: seq<Initializer>, b: nat) {
    exists k :: 0 <= k < |inits| && Covers(inits[k], b) && Bit(inits[k].val, b - First(inits[k]))
  }

  predicate BitAt(image: seq<Byte>, b: nat)
    requires b < 8 * |image|
  {
    Bit(image[b / 8], b % 8)
  }

  /** The first `|image|` bytes of the object. */
  ghost predicate ImageOf(image: seq<Byte>, inits: seq<Initializer>) {
    forall b: nat :: b < 8 * |image| ==> BitAt(image, b) == ObjectBit(inits, b)
  }

  /** Only one initializer decides a bit. */
  lemma OnlyOne(inits: seq<Initializer>, width: nat, k: nat, b: nat)
    requires Listed(inits, width) && k < |inits| && Covers(inits[k], b)
    ensures ObjectBit(inits, b) == Bit(inits[k].val, b - First(inits[k]))
  {
    forall j | 0 <= j < |inits| && Covers(inits[j], b)
      ensures j == k
    {
      if j < k && Disjoint(inits[j], inits[k]) { assert false; }
      if k < j && Disjoint(inits[k], inits[j]) { assert false; }
    }
  }

  /** The list decides every byte of the object. */
  lemma ImageUnique(a: seq<Byte>, b: seq<Byte>, inits: seq<Initializer>)
    requires ImageOf(a, inits) && ImageOf(b, inits) && |a| == |b|
    ensures a == b
  {
    forall k | 0 <= k < |a|
      ensures a[k] == b[k]
    {
      forall i: nat | i < 8
        ensures Bit(a[k], i) == Bit(b[k], i)
      {
        assert (8 * k + i) / 8 == k && (8 * k + i) % 8 == i;
        assert BitAt(a, 8 * k + i) == BitAt(b, 8 * k + i);
      }
      Pow2Byte();
      SameBits(a[k], b[k], 8);
    }
  }

  // ---------- directives ----------

  datatype Directive = Zero(n: nat) | Data(size: nat, val: int)

  function BytesOf(d: Directive): seq<Byte> {
    match d
    case Zero(n) => ZeroBytes(n)
    case Data(size, val) => LittleEndian(val, size)
  }

  function Assemble(out: seq<Directive>): seq<Byte> {
    if out == [] then [] else Assemble(out[..|out| - 1]) + BytesOf(out[|out| - 1])
  }

  lemma AssembleOne(out: seq<Directive>, d: Directive)
    ensures Assemble(out + [d]) == Assemble(out) + BytesOf(d)
  {
    assert (out + [d])[..|out|] == out;
  }

  // ---------- growing the image ----------

  lemma BitAtAppend(a: seq<Byte>, c: seq<Byte>, b: nat)
    requires b < 8 * |a + c|
    ensures BitAt(a + c, b) == if b < 8 * |a| then BitAt(a, b) else BitAt(c, b - 8 * |a|)
  {
    if b >= 8 * |a| {
      assert (b - 8 * |a|) / 8 == b / 8 - |a| && (b - 8 * |a|) % 8 == b % 8;
    }
  }

  /** A piece of the image that starts at byte `at`. */
  ghost predicate PieceOf(piece: seq<Byte>, at: nat, inits: seq<Initializer>) {
    forall b: nat :: b < 8 * |piece| ==> BitAt(piece, b) == ObjectBit(inits, 8 * at + b)
  }

  lemma Grow(image: seq<Byte>, piece: seq<Byte>, inits: seq<Initializer>)
    requires ImageOf(image, inits) && PieceOf(piece, |image|, inits)
    ensures ImageOf(image + piece, inits)
  {
    forall b: nat | b < 8 * |image + piece|
      ensures BitAt(image + piece, b) == ObjectBit(inits, b)
    {
      BitAtAppend(image, piece, b);
      if b >= 8 * |image| {
        var c := b - 8 * |image|;
        assert BitAt(piece, c) == ObjectBit(inits, 8 * |image| + c);
      }
    }
  }

  /** The list up to `next` ends before byte `at`, the rest ends behind it. */
  ghost predicate Emitted(inits: seq<Initializer>, next: nat, at: nat) {
    && next <= |inits|
    && (forall j :: 0 <= j < next ==> End(inits[j]) <= 8 * at)
    && (forall j :: next <= j < |inits| ==> End(inits[j]) > 8 * at)
    && (next < |inits| && inits[next].width == 0 ==> inits[next].offset >= at)
  }

  lemma NothingEmitted(inits: seq<Initializer>, width: nat)
    requires Listed(inits, width)
    ensures ImageOf([], inits) && Emitted(inits, 0, 0)
  {
  }

  /** No initializer covers the bits between two bytes. */
  lemma GapPiece(inits: seq<Initializer>, width: nat, next: nat, at: nat, to: nat)
    requires Listed(inits, width) && Emitted(inits, next, at) && at <= to
    requires at < to && next < |inits| ==> to <= inits[next].offset
    ensures PieceOf(ZeroBytes(to - at), at, inits) && Emitted(inits, next, to)
  {
    var piece := ZeroBytes(to - at);
    forall j | at < to && next <= j < |inits|
      ensures First(inits[j]) >= 8 * to
    {
      if next < j { InOrder(inits, width, next, j); }
    }
    forall b: nat | b < 8 * |piece|
      ensures BitAt(piece, b) == ObjectBit(inits, 8 * at + b)
    {
      BitOfZeroByte(to - at, b / 8, b % 8);
      forall k | 0 <= k < |inits|
        ensures !Covers(inits[k], 8 * at + b)
      {
      }
    }
  }

  /** A whole integer. */
  lemma IntegerPiece(inits: seq<Initializer>, width: nat, next: nat)
    requires Listed(inits, width) && next < |inits| && inits[next].width == 0
    requires Emitted(inits, next, inits[next].offset)
    ensures PieceOf(LittleEndian(inits[next].val, inits[next].size), inits[next].offset, inits)
    ensures Emitted(inits, next + 1, inits[next].offset + inits[next].size)
  {
    var i := inits[next];
    var piece := LittleEndian(i.val, i.size);
    forall b: nat | b < 8 * |piece|
      ensures BitAt(piece, b) == ObjectBit(inits, 8 * i.offset + b)
    {
      BitOfByte(i.val, i.size, b / 8, b % 8);
      OnlyOne(inits, width, next, 8 * i.offset + b);
    }
    forall j | next + 1 <= j < |inits|
      ensures First(inits[j]) >= End(i)
    {
      InOrder(inits, width, next, j);
    }
  }

  // ---------- one byte of bit-fields ----------

  /** The low `bits` bits of the byte at `at` are packed into `val`, the others are still 0. */
  ghost predicate Packed(inits: seq<Initializer>, at: nat, val: int, bits: nat) {
    && 0 <= val < 256
    && (forall k: nat :: Bit(val, k) == (k < bits && ObjectBit(inits, 8 * at + k)))
  }

  /** The initializers before `next` are packed, the others start at or behind bit `bits` of the byte, except
      for one that began in an earlier byte. */
  ghost predicate Packing(inits: seq<Initializer>, next: nat, at: nat, bits: nat) {
    && next <= |inits| && bits <= 8
    && (forall j :: 0 <= j < next ==> End(inits[j]) <= 8 * at + bits)
    && (forall j :: next <= j < |inits| ==> End(inits[j]) > 8 * at + bits)
    && (forall j :: next <= j < |inits| && 0 < bits < 8 ==> First(inits[j]) >= 8 * at + bits)
    && (next < |inits| && inits[next].width == 0 ==> bits > 0 && First(inits[next]) >= 8 * at + bits)
  }

  /** `val | (((bitVal & mask) >> valBegin) << begin)` puts the bits of the value in place. */
  function PackInto(val: int, bitVal: int, valBegin: nat, valWidth: nat, begin: nat): int
    requires 0 < valWidth && valBegin + valWidth <= 64
  {
    var mask := BitFieldMask(valBegin, valWidth);
    Bitwise(BitOr, 8, val, Shl(Shr(Bitwise64(BitAnd, bitVal, mask), valBegin), begin))
  }

  lemma PackBits(val: int, bitVal: int, valBegin: nat, valWidth: nat, begin: nat, k: nat)
    requires 0 <= val < 256 && 0 < valWidth && valBegin + valWidth <= 64 && begin + valWidth <= 8
    ensures 0 <= PackInto(val, bitVal, valBegin, valWidth, begin) < 256
    ensures Bit(PackInto(val, bitVal, valBegin, valWidth, begin), k)
         == (k < 8 && (Bit(val, k) || (begin <= k < begin + valWidth && Bit(bitVal, valBegin + k - begin))))
  {
    hide Bit, Bitwise, BitFieldMask, Shl, Shr;
    var mask := BitFieldMask(valBegin, valWidth);
    var picked := Bitwise64(BitAnd, bitVal, mask);
    var piece := Shl(Shr(picked, valBegin), begin);
    Pow2Byte();
    BitOfBitwise(BitOr, 8, val, piece, k);
    if k < 8 {
      BitOfShl(Shr(picked, valBegin), begin, k);
      if begin <= k {
        BitOfShr(picked, valBegin, k - begin);
        BitOfBitwise(BitAnd, 64, bitVal, mask, k - begin + valBegin);
        MaskBits(valBegin, valWidth, k - begin + valBegin);
      }
    }
  }

  function Bitwise64(op: BitOp, a: int, b: int): Word {
    Pow2Is64();
    Bitwise(op, 64, a, b)
  }

  /** The part of initializer `next` that falls into the byte at `at`. */
  ghost predicate PartAt(inits: seq<Initializer>, next: nat, at: nat, begin: nat, valBegin: nat, valWidth: nat) {
    && next < |inits| && inits[next].offset <= at && 0 < inits[next].width <= 64
    && begin == (if inits[next].offset < at then 0 else inits[next].begin) && begin < 8
    && valBegin == 8 * at + begin - First(inits[next])
    && valWidth == (if 8 - begin <= inits[next].width - valBegin then 8 - begin else inits[next].width - valBegin)
    && 0 < valWidth
  }

  /** One round of the packing loop keeps what is packed and adds the bits of one initializer. */
  lemma PackStep(inits: seq<Initializer>, width: nat, next: nat, at: nat, val: int, bits: nat,
                 begin: nat, valBegin: nat, valWidth: nat)
    requires Listed(inits, width) && Packing(inits, next, at, bits) && Packed(inits, at, val, bits) && bits < 8
    requires PartAt(inits, next, at, begin, valBegin, valWidth)
    ensures bits <= begin
    ensures Packed(inits, at, PackInto(val, inits[next].val, valBegin, valWidth, begin), begin + valWidth)
    ensures Packing(inits, if valWidth == inits[next].width - valBegin then next + 1 else next, at, begin + valWidth)
  {
    hide Listed, Packing, PackInto, ObjectBit, Bit, Bitwise;
    PackingStep(inits, width, next, at, bits, begin, valBegin, valWidth);
    PackBits(val, inits[next].val, valBegin, valWidth, begin, 0);
    var val' := PackInto(val, inits[next].val, valBegin, valWidth, begin);
    forall k: nat
      ensures Bit(val', k) == (k < begin + valWidth && ObjectBit(inits, 8 * at + k))
    {
      PackedBit(inits, width, next, at, val, bits, begin, valBegin, valWidth, k);
    }
  }

  lemma PackedBit(inits: seq<Initializer>, width: nat, next: nat, at: nat, val: int, bits: nat,
                  begin: nat, valBegin: nat, valWidth: nat, k: nat)
    requires Listed(inits, width) && Packing(inits, next, at, bits) && Packed(inits, at, val, bits) && bits <= begin
    requires PartAt(inits, next, at, begin, valBegin, valWidth)
    ensures Bit(PackInto(val, inits[next].val, valBegin, valWidth, begin), k)
         == (k < begin + valWidth && ObjectBit(inits, 8 * at + k))
  {
    PackBits(val, inits[next].val, valBegin, valWidth, begin, k);
    PartBit(inits, width, next, at, bits, begin, valBegin, valWidth, k);
    hide Listed, Packing, PackInto, ObjectBit, Bit;
  }

  lemma PackingStep(inits: seq<Initializer>, width: nat, next: nat, at: nat, bits: nat,
                    begin: nat, valBegin: nat, valWidth: nat)
    requires Listed(inits, width) && Packing(inits, next, at, bits) && bits < 8
    requires PartAt(inits, next, at, begin, valBegin, valWidth)
    ensures bits <= begin
    ensures Packing(inits, if valWidth == inits[next].width - valBegin then next + 1 else next, at, begin + valWidth)
  {
    forall j | next < j < |inits|
      ensures First(inits[j]) >= End(inits[next]) && End(inits[j]) > First(inits[j])
    {
      InOrder(inits, width, next, j);
    }
  }

  /** Between the packed bits and the end of the part, the object's bits are those of the part. */
  lemma PartBit(inits: seq<Initializer>, width: nat, next: nat, at: nat, bits: nat,
                begin: nat, valBegin: nat, valWidth: nat, k: nat)
    requires Listed(inits, width) && Packing(inits, next, at, bits) && bits <= begin
    requires PartAt(inits, next, at, begin, valBegin, valWidth)
    ensures bits <= k < begin ==> !ObjectBit(inits, 8 * at + k)
    ensures begin <= k < begin + valWidth ==>
              ObjectBit(inits, 8 * at + k) == Bit(inits[next].val, valBegin + k - begin)
  {
    if begin <= k < begin + valWidth {
      OnlyOne(inits, width, next, 8 * at + k);
    } else if bits <= k < begin {
      forall j | 0 <= j < |inits|
        ensures !Covers(inits[j], 8 * at + k)
      {
        if next < j { InOrder(inits, width, next, j); }
      }
    }
  }

  /** A full byte, or one behind which nothing starts before the next byte. */
  lemma BytePiece(inits: seq<Initializer>, width: nat, next: nat, at: nat, val: int, bits: nat)
    requires Listed(inits, width) && Packing(inits, next, at, bits) && Packed(inits, at, val, bits)
    requires next == |inits| || inits[next].offset > at || bits == 8
    requires bits > 0
    ensures PieceOf(LittleEndian(val, 1), at, inits) && Emitted(inits, next, at + 1)
  {
    var piece := LittleEndian(val, 1);
    forall j | next <= j < |inits|
      ensures bits < 8 ==> First(inits[j]) >= 8 * (at + 1)
      ensures End(inits[j]) > 8 * (at + 1)
    {
      if next < j { InOrder(inits, width, next, j); }
    }
    forall b: nat | b < 8 * |piece|
      ensures BitAt(piece, b) == ObjectBit(inits, 8 * at + b)
    {
      assert piece[0] == val;
      assert Bit(val, b) == (b < bits && ObjectBit(inits, 8 * at + b));
      if b >= bits {
        forall j | 0 <= j < |inits|
          ensures !Covers(inits[j], 8 * at + b)
        {
        }
      }
    }
  }

  class DataSection {
    var out: seq<Directive>

    constructor ()
      ensures out == []
    {
      out := [];
    }

    method Emit(d: Directive)
      modifies this
      ensures Assemble(out) == Assemble(old(out)) + BytesOf(d)
    {
      AssembleOne(out, d);
      out := out + [d];
    }

    /** The whole object: as many bytes as its type has, each bit of an initializer in its place, all other
        bits zero. */
    method GenStaticDecl(inits: seq<Initializer>, width: nat) returns (ghost image: seq<Byte>)
      requires Listed(inits, width)
      modifies this
      ensures Assemble(out) == Assemble(old(out)) + image
      ensures |image| == width && ImageOf(image, inits)
    {
      hide ImageOf, PieceOf, Assemble, ZeroBytes, LittleEndian, Listed;
      var offset: nat, iter: nat := 0, 0;
      image := [];
      NothingEmitted(inits, width);
      while iter < |inits|
        invariant Assemble(out) == Assemble(old(out)) + image
        invariant |image| == offset <= width && ImageOf(image, inits) && Emitted(inits, iter, offset)
        decreases width - offset
      {
        GapPiece(inits, width, iter, offset, Max(inits[iter].offset, offset));
        var staticInit;
        staticInit, iter := GetStaticInit(inits, iter, Max(inits[iter].offset, offset), width);
        if staticInit.offset > offset {
          Grow(image, ZeroBytes(staticInit.offset - offset), inits);
          image := image + ZeroBytes(staticInit.offset - offset);
          Emit(Zero(staticInit.offset - offset));
        }
        Grow(image, LittleEndian(staticInit.val, staticInit.size), inits);
        image := image + LittleEndian(staticInit.val, staticInit.size);
        Emit(Data(staticInit.size, staticInit.val));
        offset := staticInit.offset + staticInit.size;
      }
      if width > offset {
        GapPiece(inits, width, iter, offset, width);
        Grow(image, ZeroBytes(width - offset), inits);
        image := image + ZeroBytes(width - offset);
        Emit(Zero(width - offset));
      }
    }
  }

  datatype StaticInitializer = StaticInitializer(offset: nat, size: nat, val: int)

  /** The next whole integer, or the next byte of bit-fields; `next` is where the list goes on, which is still
      `iter` as long as a wide field has bits left. */
  method GetStaticInit(inits: seq<Initializer>, iter: nat, offset: nat, ghost width: nat)
    returns (r: StaticInitializer, next: nat)
    requires Listed(inits, width) && iter < |inits| && Emitted(inits, iter, offset)
    requires inits[iter].offset <= offset
    ensures r.offset == offset && 0 < r.size && offset + r.size <= width
    ensures PieceOf(LittleEndian(r.val, r.size), offset, inits) && Emitted(inits, next, offset + r.size)
  {
    hide Packing, Packed, PieceOf, Bitwise, Shl, Shr, LittleEndian, BitFieldMask, Pow2;
    var init := inits[iter];
    if init.width == 0 {
      IntegerPiece(inits, width, iter);
      return StaticInitializer(init.offset, init.size, init.val), iter + 1;
    }
    var totalBits: nat, val: int := 0, 0;
    next := iter;
    NothingPacked(inits, iter, offset);
    while next < |inits| && inits[next].offset <= offset && totalBits < 8
      invariant iter <= next <= |inits| && totalBits <= 8
      invariant Packing(inits, next, offset, totalBits) && Packed(inits, offset, val, totalBits)
      invariant next == iter ==> totalBits == 0 || totalBits == 8
      invariant totalBits == 0 ==> next == iter
      decreases 8 - totalBits
    {
      init := inits[next];
      Unfinished(inits, width, next, offset, totalBits);
      var begin: nat, left: int, valBegin: nat := init.begin, init.width, 0;
      if init.offset < offset {
        begin := 0;
        left := left - (8 - init.begin);
        if offset - init.offset > 1 { left := left - (offset - init.offset - 1) * 8; }
        valBegin := init.width - left;
      }
      assert left > 0;
      var valWidth := if 8 - begin <= left then 8 - begin else left;
      assert left == init.width - valBegin && valBegin == 8 * offset + begin - First(init);
      var mask := BitFieldMask(valBegin, valWidth);
      ghost var was := val;
      val := Bitwise(BitOr, 8, val, Shl(Shr(Bitwise64(BitAnd, init.val, mask), valBegin), begin));
      assert val == PackInto(was, init.val, valBegin, valWidth, begin);
      PackStep(inits, width, next, offset, was, totalBits, begin, valBegin, valWidth);
      totalBits := begin + valWidth;
      if left - valWidth <= 0 { next := next + 1; }
    }
    BytePiece(inits, width, next, offset, val, totalBits);
    r := StaticInitializer(offset, 1, val);
  }

  /** The initializer whose turn it is has bits in this byte that are not packed yet. */
  lemma Unfinished(inits: seq<Initializer>, width: nat, next: nat, at: nat, bits: nat)
    requires Listed(inits, width) && Packing(inits, next, at, bits)
    requires next < |inits| && bits < 8 && inits[next].offset <= at
    ensures var i := inits[next];
            && 0 < i.width <= 64 && i.begin < 8 && End(i) > 8 * at + bits && (i.offset == at ==> i.begin >= bits)
  {
  }

  lemma NothingPacked(inits: seq<Initializer>, next: nat, at: nat)
    requires Emitted(inits, next, at) && next < |inits| && inits[next].width > 0
    ensures Packing(inits, next, at, 0) && Packed(inits, at, 0, 0)
  {
    forall k: nat
      ensures !Bit(0, k)
    {
      BitOfZero(k);
    }
  }

  function Max(a: nat, b: nat): nat {
    if a >= b then a else b
  }
}
