/** Messages on the wire (msg_cpp.h, msg_cpp.cpp) and their reassembly from partial receives (msg_sock.cpp). */
module Wire {
  import opened Wrappers
  import opened Bytes

  const U16: nat := 0x1_0000
  const U32: nat := 0x1_0000_0000

  // ----- numbers, highest byte first

  function Big(n: nat, k: nat): (w: seq<Byte>)
    ensures |w| == k
  {
    if k == 0 then [] else Big(n / 256, k - 1) + [(n % 256) as Byte]
  }

  function BigNumber(w: seq<Byte>): nat {
    if w == [] then 0 else 256 * BigNumber(w[..|w| - 1]) + w[|w| - 1] as nat
  }

  lemma {:induction false} NumberOfBig(n: nat, k: nat)
    requires n < Power256(k)
    ensures BigNumber(Big(n, k)) == n
  {
    if k > 0 {
      assert Big(n, k)[..k - 1] == Big(n / 256, k - 1);
      NumberOfBig(n / 256, k - 1);
    }
  }

  lemma Widths()
    ensures Power256(2) == U16 && Power256(4) == U32
  {
    assert Power256(2) == 256 * (256 * Power256(0));
    assert Power256(4) == 256 * (256 * Power256(2));
  }

  lemma {:induction false} BigBound(w: seq<Byte>)
    ensures BigNumber(w) < Power256(|w|)
  {
    if w != [] { BigBound(w[..|w| - 1]); }
  }

  // ----- fields

  datatype Guid = Guid(data1: nat, data2: nat, data3: nat, data4: seq<Byte>)

  ghost predicate GuidOk(g: Guid) { g.data1 < U32 && g.data2 < U16 && g.data3 < U16 && |g.data4| == 8 }

  datatype Header = Header(
    msgid: nat, majver: nat, minver: nat, priority: nat, timeout: nat,
    kind: nat, marker: Guid, sender: Guid, receiver: Guid, session: Guid, timestamp: nat, size: nat)

  ghost predicate HeaderOk(h: Header) {
    && h.msgid < U32 && h.majver < U32 && h.minver < U32 && h.priority < U32 && h.timeout < U32 * U32
    && h.kind < U32 && GuidOk(h.marker) && GuidOk(h.sender) && GuidOk(h.receiver) && GuidOk(h.session)
    && h.timestamp < U32 * U32 && h.size < U32
  }

  // pack64: the low half first
  function Long(x: nat): (w: seq<Byte>)
    ensures |w| == 8
  {
    Big(x % U32, 4) + Big(x / U32, 4)
  }

  function LongNumber(w: seq<Byte>): nat
    requires |w| == 8
  {
    BigNumber(w[..4]) + U32 * BigNumber(w[4..])
  }

  lemma NumberOfLong(x: nat)
    requires x < U32 * U32
    ensures LongNumber(Long(x)) == x
  {
    Widths();
    assert x / U32 < U32;
    NumberOfBig(x % U32, 4);
    NumberOfBig(x / U32, 4);
    assert Long(x)[..4] == Big(x % U32, 4) && Long(x)[4..] == Big(x / U32, 4);
  }

  function GuidBytes(g: Guid): (w: seq<Byte>)
    ensures |g.data4| == 8 ==> |w| == 16
  {
    Big(g.data1, 4) + (Big(g.data2, 2) + (Big(g.data3, 2) + g.data4))
  }

  function ReadGuid(w: seq<Byte>): Guid
    requires |w| == 16
  {
    Guid(BigNumber(w[..4]), BigNumber(w[4..6]), BigNumber(w[6..8]), w[8..])
  }

  lemma FourParts(a: seq<Byte>, b: seq<Byte>, c: seq<Byte>, d: seq<Byte>)
    requires |a| == 4 && |b| == |c| == 2
    ensures var w := a + (b + (c + d)); w[..4] == a && w[4..6] == b && w[6..8] == c && w[8..] == d
  {}

  lemma GuidBack(g: Guid)
    requires GuidOk(g)
    ensures ReadGuid(GuidBytes(g)) == g
  {
    Widths();
    NumberOfBig(g.data1, 4);
    NumberOfBig(g.data2, 2);
    NumberOfBig(g.data3, 2);
    FourParts(Big(g.data1, 4), Big(g.data2, 2), Big(g.data3, 2), g.data4);
  }

  // ----- the header

  const OFFSET: nat := 108      // from the beginning of a block to the body

  function FirstFields(h: Header): (w: seq<Byte>)
    ensures |w| == 24
  {
    Big(h.msgid, 4) + (Big(h.majver, 4) + (Big(h.minver, 4) + (Big(h.priority, 4) + Long(h.timeout))))
  }

  function MiddleFields(h: Header): (w: seq<Byte>)
    ensures HeaderOk(h) ==> |w| == 68
  {
    Big(h.kind, 4) + (GuidBytes(h.marker) + (GuidBytes(h.sender) + (GuidBytes(h.receiver) + GuidBytes(h.session))))
  }

  function LastFields(h: Header): (w: seq<Byte>)
    ensures |w| == 12
  {
    Long(h.timestamp) + Big(h.size, 4)
  }

  /** The fields as they follow the length of the block, and what follows them. */
  function HeaderAnd(h: Header, tail: seq<Byte>): seq<Byte> {
    FirstFields(h) + (MiddleFields(h) + (LastFields(h) + tail))
  }

  lemma Five(p: seq<Byte>, a: seq<Byte>, b: seq<Byte>, c: seq<Byte>, d: seq<Byte>, e: seq<Byte>)
    ensures ((((p + a) + b) + c) + d) + e == p + (a + (b + (c + (d + e))))
  {
    Regroup(p, a, b + (c + (d + e)));
    Regroup(p + a, b, c + (d + e));
    Regroup((p + a) + b, c, d + e);
    Regroup(((p + a) + b) + c, d, e);
  }

  /** A field inside a part of a block. */
  lemma Inside(b: seq<Byte>, i: nat, j: nat, w: seq<Byte>, k: nat, l: nat)
    requires i <= j <= |b| && b[i..j] == w && k <= l <= |w|
    ensures b[i + k..i + l] == w[k..l]
  {
    forall m | 0 <= m < l - k ensures b[i + k..i + l][m] == b[i..j][k..l][m] {}
  }

  /** Five fields one behind the other. */
  lemma Apart(a: seq<Byte>, b: seq<Byte>, c: seq<Byte>, d: seq<Byte>, e: seq<Byte>)
    ensures var w, i, j, k, l := a + (b + (c + (d + e))), |a|, |a| + |b|, |a| + |b| + |c|, |a| + |b| + |c| + |d|;
      w[..i] == a && w[i..j] == b && w[j..k] == c && w[k..l] == d && w[l..] == e
  {
    var w := a + (b + (c + (d + e)));
    assert w[|a|..] == b + (c + (d + e));
    Step(w, |a|, b, c + (d + e));
    Step(w, |a| + |b|, c, d + e);
    Step(w, |a| + |b| + |c|, d, e);
  }

  /** The three parts written one behind the other leave the length and the body alone. */
  lemma Assembled(b0: seq<Byte>, b1: seq<Byte>, b2: seq<Byte>, b3: seq<Byte>, h: Header)
    requires HeaderOk(h) && |b0| == |b1| == |b2| == |b3| >= OFFSET
    requires b1[..28] == b0[..4] + FirstFields(h) && b1[28..] == b0[28..]
    requires b2[..96] == b1[..28] + MiddleFields(h) && b2[96..] == b1[96..]
    requires b3[..OFFSET] == b2[..96] + LastFields(h) && b3[OFFSET..] == b2[OFFSET..]
    ensures b3[..4] == b0[..4] && b3[OFFSET..] == b0[OFFSET..] && b3[4..] == HeaderAnd(h, b0[OFFSET..])
  {
    var p, f, m, l, t := b0[..4], FirstFields(h), MiddleFields(h), LastFields(h), b0[OFFSET..];
    assert b1[OFFSET..] == b1[28..][80..] == b0[28..][80..] == t;
    assert b2[OFFSET..] == b2[96..][12..] == b1[96..][12..] == b1[OFFSET..];
    assert b3 == b3[..OFFSET] + b3[OFFSET..];
    assert b3 == (((p + f) + m) + l) + t;
    Regroup(p, f, m + (l + t));
    Regroup(p + f, m, l + t);
    Regroup((p + f) + m, l, t);
    assert b3 == p + HeaderAnd(h, t);
  }

  /** Reading from the beginning of b gives w and leaves r. */
  lemma Step(b: seq<Byte>, at: nat, w: seq<Byte>, r: seq<Byte>)
    requires at <= |b| && b[at..] == w + r
    ensures at + |w| <= |b| && b[at..at + |w|] == w && b[at + |w|..] == r
  {
    assert b[at..at + |w|] == b[at..][..|w|];
    assert b[at + |w|..] == b[at..][|w|..];
  }

  /** The fields a block holds. */
  function Fields(b: seq<Byte>): Header
    requires |b| >= OFFSET
  {
    Header(BigNumber(b[4..8]), BigNumber(b[8..12]), BigNumber(b[12..16]), BigNumber(b[16..20]), LongNumber(b[20..28]),
           BigNumber(b[28..32]), ReadGuid(b[32..48]), ReadGuid(b[48..64]), ReadGuid(b[64..80]), ReadGuid(b[80..96]),
           LongNumber(b[96..104]), BigNumber(b[104..108]))
  }

  /** The parts of a packed block. */
  lemma Parts(b: seq<Byte>, h: Header, tail: seq<Byte>)
    requires HeaderOk(h) && |b| >= 4 && b[4..] == HeaderAnd(h, tail)
    ensures |b| >= OFFSET && b[4..28] == FirstFields(h) && b[28..96] == MiddleFields(h) && b[96..OFFSET] == LastFields(h)
    ensures b[OFFSET..] == tail
  {
    Step(b, 4, FirstFields(h), MiddleFields(h) + (LastFields(h) + tail));
    Step(b, 28, MiddleFields(h), LastFields(h) + tail);
    Step(b, 96, LastFields(h), tail);
  }

  lemma FirstBack(b: seq<Byte>, h: Header)
    requires |b| >= OFFSET && b[4..28] == FirstFields(h)
    ensures b[4..8] == Big(h.msgid, 4) && b[8..12] == Big(h.majver, 4) && b[12..16] == Big(h.minver, 4)
    ensures b[16..20] == Big(h.priority, 4) && b[20..28] == Long(h.timeout)
  {
    Apart(Big(h.msgid, 4), Big(h.majver, 4), Big(h.minver, 4), Big(h.priority, 4), Long(h.timeout));
    Inside(b, 4, 28, FirstFields(h), 0, 4);
    Inside(b, 4, 28, FirstFields(h), 4, 8);
    Inside(b, 4, 28, FirstFields(h), 8, 12);
    Inside(b, 4, 28, FirstFields(h), 12, 16);
    Inside(b, 4, 28, FirstFields(h), 16, 24);
  }

  lemma MiddleBack(b: seq<Byte>, h: Header)
    requires HeaderOk(h) && |b| >= OFFSET && b[28..96] == MiddleFields(h)
    ensures b[28..32] == Big(h.kind, 4) && b[32..48] == GuidBytes(h.marker) && b[48..64] == GuidBytes(h.sender)
    ensures b[64..80] == GuidBytes(h.receiver) && b[80..96] == GuidBytes(h.session)
  {
    Apart(Big(h.kind, 4), GuidBytes(h.marker), GuidBytes(h.sender), GuidBytes(h.receiver), GuidBytes(h.session));
    Inside(b, 28, 96, MiddleFields(h), 0, 4);
    Inside(b, 28, 96, MiddleFields(h), 4, 20);
    Inside(b, 28, 96, MiddleFields(h), 20, 36);
    Inside(b, 28, 96, MiddleFields(h), 36, 52);
    Inside(b, 28, 96, MiddleFields(h), 52, 68);
  }

  lemma LastBack(b: seq<Byte>, h: Header)
    requires |b| >= OFFSET && b[96..OFFSET] == LastFields(h)
    ensures b[96..104] == Long(h.timestamp) && b[104..108] == Big(h.size, 4)
  {
    Inside(b, 96, OFFSET, LastFields(h), 0, 8);
    Inside(b, 96, OFFSET, LastFields(h), 8, 12);
  }

  /** Every field comes back, and the body with them. */
  lemma FieldsBack(b: seq<Byte>, h: Header, body: seq<Byte>)
    requires HeaderOk(h) && |b| >= 4 && b[4..] == HeaderAnd(h, body)
    ensures |b| >= OFFSET && Fields(b) == h && b[OFFSET..] == body
  {
    Parts(b, h, body);
    FirstBack(b, h);
    MiddleBack(b, h);
    LastBack(b, h);
    Widths();
    NumberOfBig(h.msgid, 4);
    NumberOfBig(h.majver, 4);
    NumberOfBig(h.minver, 4);
    NumberOfBig(h.priority, 4);
    NumberOfLong(h.timeout);
    NumberOfBig(h.kind, 4);
    GuidBack(h.marker);
    GuidBack(h.sender);
    GuidBack(h.receiver);
    GuidBack(h.session);
    NumberOfLong(h.timestamp);
    NumberOfBig(h.size, 4);
  }

  lemma {:induction false} BigOfNumber(w: seq<Byte>)
    ensures Big(BigNumber(w), |w|) == w
  {
    if w != [] {
      var v := w[..|w| - 1];
      BigOfNumber(v);
      assert (256 * BigNumber(v) + w[|w| - 1] as nat) / 256 == BigNumber(v);
      assert w == v + [w[|w| - 1]];
    }
  }

  /** What is read is in range. */
  lemma FieldsOk(b: seq<Byte>)
    requires |b| >= OFFSET
    ensures HeaderOk(Fields(b))
  {
    Widths();
    ReadableInts(b);
    LongBound(b[20..28]);
    LongBound(b[96..104]);
    GuidBound(b[32..48]);
    GuidBound(b[48..64]);
    GuidBound(b[64..80]);
    GuidBound(b[80..96]);
  }

  lemma ReadableInts(b: seq<Byte>)
    requires |b| >= OFFSET
    ensures BigNumber(b[4..8]) < U32 && BigNumber(b[8..12]) < U32 && BigNumber(b[12..16]) < U32 && BigNumber(b[16..20]) < U32
    ensures BigNumber(b[28..32]) < U32 && BigNumber(b[104..108]) < U32
  {
    Widths();
    BigBound(b[4..8]);
    BigBound(b[8..12]);
    BigBound(b[12..16]);
    BigBound(b[16..20]);
    BigBound(b[28..32]);
    BigBound(b[104..108]);
  }

  lemma LengthBound(w: seq<Byte>)
    requires |w| == 4
    ensures BigNumber(w) < U32
  {
    Widths();
    BigBound(w);
  }

  lemma LongBound(w: seq<Byte>)
    requires |w| == 8
    ensures LongNumber(w) < U32 * U32
  {
    Widths();
    BigBound(w[..4]);
    BigBound(w[4..]);
  }

  lemma GuidBound(w: seq<Byte>)
    requires |w| == 16
    ensures GuidOk(ReadGuid(w))
  {
    Widths();
    BigBound(w[..4]);
    BigBound(w[4..6]);
    BigBound(w[6..8]);
  }

  // ----- the block

  function CryptSize(size: nat): nat { if size > 0 then (size + 15) / 16 * 16 else 0 }

  function BlockSize(size: nat): nat { CryptSize(size) + OFFSET }

  lemma RoundedOnce(size: nat)
    ensures CryptSize(CryptSize(size)) == CryptSize(size) >= size
  {}

  lemma Rounded(a: nat, b: nat)
    requires a <= b
    ensures CryptSize(a) <= CryptSize(b)
  {}

  class Message {
    var h: Header                // the fields; h.size is _size
    var block: seq<Byte>         // what _block points to; _body is 0, or points into it behind the header

    ghost predicate Valid()
      reads this
    {
      && HeaderOk(h) && BlockSize(h.size) < U32 && |block| >= BlockSize(h.size)
      && block[..4] == Big(BlockSize(h.size), 4)
    }

    ghost function Body(): seq<Byte>
      requires |block| >= OFFSET + h.size
      reads this
    {
      block[OFFSET..OFFSET + h.size]
    }

    constructor (h: Header, memory: seq<Byte>)
      requires HeaderOk(h) && BlockSize(h.size) < U32 && |memory| == BlockSize(h.size)
      ensures Valid() && this.h == h && |block| == BlockSize(h.size)
    {
      this.h := h;
      block := Big(BlockSize(h.size), 4) + memory[4..];
    }

    // resize: the common part of the body is kept, and the length that stands in the block is right.
    method Resize(size: nat, memory: seq<Byte>)
      requires Valid() && BlockSize(size) < U32 && |memory| == BlockSize(size)
      modifies this
      ensures Valid() && h == old(h).(size := size)
      ensures var n := if size < old(h.size) then size else old(h.size); Body()[..n] == old(Body())[..n]
      ensures size < old(h.size) ==> |block| >= OFFSET + old(h.size) && Zero(block[OFFSET + size..OFFSET + old(h.size)])
    {
      if h.size < size {
        Grow(size, memory);
      } else if h.size > size {
        Shrink(size);
      }
    }

    // A new block with the old body at its place.
    method Grow(size: nat, memory: seq<Byte>)
      requires Valid() && BlockSize(size) < U32 && |memory| == BlockSize(size) && size > h.size
      modifies this
      ensures Valid() && h == old(h).(size := size) && Body()[..old(h.size)] == old(Body())
    {
      var buf := memory;
      Grown(block, h.size, memory, Big(BlockSize(size), 4));
      if h.size > 0 {
        buf := buf[..OFFSET] + block[OFFSET..OFFSET + h.size] + buf[OFFSET + h.size..];
      }
      block := Big(BlockSize(size), 4) + buf[4..];
      h := h.(size := size);
      Inside(block, OFFSET, OFFSET + size, Body(), 0, old(h.size));
    }

    // The part of the body that goes is overwritten.
    method Shrink(size: nat)
      requires Valid() && size < h.size
      modifies this
      ensures Valid() && h == old(h).(size := size) && Body() == old(Body())[..size]
      ensures |block| >= OFFSET + old(h.size) && Zero(block[OFFSET + size..OFFSET + old(h.size)])
    {
      Rounded(size, h.size);
      Shrunk(block, h.size, size, Big(BlockSize(size), 4));
      Inside(block, OFFSET, OFFSET + h.size, Body(), 0, size);
      block := block[..OFFSET + size] + seq(h.size - size, i => 0 as Byte) + block[OFFSET + h.size..];
      block := Big(BlockSize(size), 4) + block[4..];
      h := h.(size := size);
    }

    // pack_msg: the fields are written between the length and the body, one behind the other.
    method PackMsg()
      requires Valid()
      modifies this`block
      ensures Valid() && |block| == old(|block|) && Body() == old(Body())
      ensures block[4..] == HeaderAnd(h, old(block)[OFFSET..])
    {
      ghost var b0 := block;
      PackFirst();
      ghost var b1 := block;
      PackMiddle();
      ghost var b2 := block;
      PackLast();
      Assembled(b0, b1, b2, block, h);
    }

    method PackFirst()
      requires |block| >= OFFSET
      modifies this`block
      ensures |block| == old(|block|) && block[..28] == old(block)[..4] + FirstFields(h) && block[28..] == old(block)[28..]
    {
      var pt := 4;
      pt := Write(pt, Big(h.msgid, 4));
      pt := Write(pt, Big(h.majver, 4));
      pt := Write(pt, Big(h.minver, 4));
      pt := Write(pt, Big(h.priority, 4));
      pt := Write(pt, Long(h.timeout));
      Five(old(block)[..4], Big(h.msgid, 4), Big(h.majver, 4), Big(h.minver, 4), Big(h.priority, 4), Long(h.timeout));
    }

    method PackMiddle()
      requires HeaderOk(h) && |block| >= OFFSET
      modifies this`block
      ensures |block| == old(|block|) && block[..96] == old(block)[..28] + MiddleFields(h) && block[96..] == old(block)[96..]
    {
      var pt := 28;
      pt := Write(pt, Big(h.kind, 4));
      pt := Write(pt, GuidBytes(h.marker));
      pt := Write(pt, GuidBytes(h.sender));
      pt := Write(pt, GuidBytes(h.receiver));
      pt := Write(pt, GuidBytes(h.session));
      Five(old(block)[..28], Big(h.kind, 4), GuidBytes(h.marker), GuidBytes(h.sender), GuidBytes(h.receiver), GuidBytes(h.session));
    }

    method PackLast()
      requires |block| >= OFFSET
      modifies this`block
      ensures |block| == old(|block|) && block[..OFFSET] == old(block)[..96] + LastFields(h) && block[OFFSET..] == old(block)[OFFSET..]
    {
      var pt := 96;
      pt := Write(pt, Long(h.timestamp));
      pt := Write(pt, Big(h.size, 4));
      Regroup(old(block)[..96], Long(h.timestamp), Big(h.size, 4));
    }

    // unpack_msg: accepted if and only if the length of the block agrees with the length of the body.
    method UnpackMsg() returns (ok: bool)
      requires OFFSET <= |block| && BigNumber(block[..4]) <= |block|
      modifies this`h
      ensures ok <==> BigNumber(block[..4]) == BlockSize(Fields(block).size)
      ensures ok ==> h == Fields(block) && Valid() && Body() == block[OFFSET..OFFSET + h.size]
    {
      FieldsOk(block);
      BigOfNumber(block[..4]);
      LengthBound(block[..4]);
      var size, pt := Read32(0);
      if size < BlockSize(0) {
        return false;
      }
      ReadFirst();
      ReadMiddle();
      ReadLast();
      ok := size == BlockSize(h.size);
    }

    method ReadFirst()
      requires OFFSET <= |block|
      modifies this`h
      ensures var f := Fields(block);
        h == old(h).(msgid := f.msgid, majver := f.majver, minver := f.minver, priority := f.priority, timeout := f.timeout)
    {
      var msgid, majver, minver, priority, timeout;
      var pt := 4;
      msgid, pt := Read32(pt);
      majver, pt := Read32(pt);
      minver, pt := Read32(pt);
      priority, pt := Read32(pt);
      timeout, pt := Read64(pt);
      h := h.(msgid := msgid, majver := majver, minver := minver, priority := priority, timeout := timeout);
    }

    method ReadMiddle()
      requires OFFSET <= |block|
      modifies this`h
      ensures var f := Fields(block);
        h == old(h).(kind := f.kind, marker := f.marker, sender := f.sender, receiver := f.receiver, session := f.session)
    {
      var kind, marker, sender, receiver, session;
      var pt := 28;
      kind, pt := Read32(pt);
      marker, pt := ReadAddress(pt);
      sender, pt := ReadAddress(pt);
      receiver, pt := ReadAddress(pt);
      session, pt := ReadAddress(pt);
      h := h.(kind := kind, marker := marker, sender := sender, receiver := receiver, session := session);
    }

    method ReadLast()
      requires OFFSET <= |block|
      modifies this`h
      ensures h == old(h).(timestamp := Fields(block).timestamp, size := Fields(block).size)
    {
      var timestamp, bodySize;
      var pt := 96;
      timestamp, pt := Read64(pt);
      bodySize, pt := Read32(pt);
      h := h.(timestamp := timestamp, size := bodySize);
    }

    method Read32(pt: nat) returns (x: nat, pt': nat)
      requires pt + 4 <= |block|
      ensures pt' == pt + 4 && x == BigNumber(block[pt..pt + 4])
    {
      x, pt' := BigNumber(block[pt..pt + 4]), pt + 4;
    }

    method Read64(pt: nat) returns (x: nat, pt': nat)
      requires pt + 8 <= |block|
      ensures pt' == pt + 8 && x == LongNumber(block[pt..pt + 8])
    {
      var low, high;
      low, pt' := Read32(pt);
      high, pt' := Read32(pt');
      x := low + U32 * high;
      assert block[pt..pt + 8][..4] == block[pt..pt + 4] && block[pt..pt + 8][4..] == block[pt + 4..pt + 8];
    }

    method ReadAddress(pt: nat) returns (g: Guid, pt': nat)
      requires pt + 16 <= |block|
      ensures pt' == pt + 16 && g == ReadGuid(block[pt..pt + 16])
    {
      var data1;
      data1, pt' := Read32(pt);
      var data2, data3 := BigNumber(block[pt + 4..pt + 6]), BigNumber(block[pt + 6..pt + 8]);
      g, pt' := Guid(data1, data2, data3, block[pt + 8..pt + 16]), pt + 16;
      ghost var w := block[pt..pt + 16];
      assert w[..4] == block[pt..pt + 4] && w[4..6] == block[pt + 4..pt + 6] && w[6..8] == block[pt + 6..pt + 8];
      assert w[8..] == block[pt + 8..pt + 16];
    }

    // A field is written and the pointer moves behind it.
    method Write(pt: nat, w: seq<Byte>) returns (pt': nat)
      requires pt + |w| <= |block|
      modifies this`block
      ensures pt' == pt + |w| && |block| == old(|block|)
      ensures block[..pt'] == old(block)[..pt] + w && forall i :: pt' <= i < |block| ==> block[i] == old(block)[i]
    {
      block := block[..pt] + w + block[pt + |w|..];
      pt' := pt + |w|;
    }
  }

  ghost predicate Zero(s: seq<Byte>) { forall i :: 0 <= i < |s| ==> s[i] == 0 }

  lemma BehindLength(length: seq<Byte>, buf: seq<Byte>, i: nat, j: nat)
    requires |length| == 4 <= i <= j <= |buf|
    ensures (length + buf[4..])[i..j] == buf[i..j]
  {}

  lemma Grown(block: seq<Byte>, size: nat, memory: seq<Byte>, length: seq<Byte>)
    requires |block| >= OFFSET + size && |memory| >= OFFSET + size && |length| == 4
    ensures var buf := memory[..OFFSET] + block[OFFSET..OFFSET + size] + memory[OFFSET + size..];
      |buf| == |memory| && (length + buf[4..])[OFFSET..OFFSET + size] == block[OFFSET..OFFSET + size]
  {
    var buf := memory[..OFFSET] + block[OFFSET..OFFSET + size] + memory[OFFSET + size..];
    assert buf[OFFSET..OFFSET + size] == block[OFFSET..OFFSET + size];
    BehindLength(length, buf, OFFSET, OFFSET + size);
  }

  lemma Shrunk(block: seq<Byte>, before: nat, size: nat, length: seq<Byte>)
    requires size < before && |block| >= OFFSET + before && |length| == 4
    ensures var buf := block[..OFFSET + size] + seq(before - size, i => 0 as Byte) + block[OFFSET + before..];
      var b := length + buf[4..];
      && |buf| == |block| && b[OFFSET..OFFSET + size] == block[OFFSET..OFFSET + size] && Zero(b[OFFSET + size..OFFSET + before])
  {
    var buf := block[..OFFSET + size] + seq(before - size, i => 0 as Byte) + block[OFFSET + before..];
    assert buf[OFFSET..OFFSET + size] == block[OFFSET..OFFSET + size];
    BehindLength(length, buf, OFFSET, OFFSET + size);
    BehindLength(length, buf, OFFSET + size, OFFSET + before);
    assert buf[OFFSET + size..OFFSET + before] == seq(before - size, i => 0 as Byte);
  }

  // The receiving side of a socket connection: first the length of a block, then the rest of it in any parts.
  class Receiver {
    var block: Option<seq<Byte>>   // the block of _msg_recv
    var offset: nat
    var requested: nat             // what the port has been asked for
    ghost var total: nat           // the length that came
    ghost var got: seq<Byte>       // what has come since

    ghost predicate Valid()
      reads this
    {
      match block
      case None => requested == 4
      case Some(b) =>
        && OFFSET <= total && 4 <= offset && requested > 0 && offset + requested == total <= |b|
        && |b| == BlockSize(total - OFFSET) && b[..4] == Big(|b|, 4) && b[4..offset] == got
    }

    constructor ()
      ensures Valid() && block == None
    {
      block, offset, requested, total, got := None, 0, 4, 0, [];
    }

    // The first step of v_on_receive: the length as a signed number must reach over the header.
    method OnLength(four: seq<Byte>, memory: seq<Byte>) returns (ok: bool)
      requires Valid() && block == None && |four| <= 4
      requires |four| == 4 ==> |memory| == BlockSize(if BigNumber(four) >= OFFSET then BigNumber(four) - OFFSET else 0)
      modifies this
      ensures Valid() && (ok <==> |four| == 4 && OFFSET <= BigNumber(four) < U32 / 2) && (ok <==> block.Some?)
      ensures ok ==> total == BigNumber(four) && got == []
    {
      if |four| != 4 {
        return false;
      }
      var sizeh := BigNumber(four);
      var bodySize: int := (if sizeh < U32 / 2 then sizeh as int else sizeh - U32) - BlockSize(0);
      if bodySize < 0 {
        return false;
      }
      RoundedOnce(bodySize);
      LengthBound(four);
      Begun(Big(BlockSize(bodySize), 4), memory);
      block := Some(Big(BlockSize(bodySize), 4) + memory[4..]);
      offset, requested := 4, sizeh - 4;
      total, got := sizeh, [];
      ok := true;
    }

    // The other steps: a part is added; the last one completes the block and the next length is awaited.
    method OnPart(part: seq<Byte>) returns (whole: Option<seq<Byte>>)
      requires Valid() && block.Some? && |part| <= requested
      modifies this
      ensures Valid() && total == old(total) && got == old(got) + part
      ensures whole.None? <==> |part| < old(requested)
      ensures whole.None? ==> block.Some? && requested == old(requested) - |part|
      ensures whole.Some? ==> block == None && |whole.value| == BlockSize(total - OFFSET) >= total
      ensures whole.Some? ==> whole.value[..4] == Big(|whole.value|, 4) && whole.value[4..total] == got
    {
      var b := block.value[..offset] + part + block.value[offset + |part|..];
      PartAdded(block.value, offset, part, got);
      got := got + part;
      if requested != |part| {
        block := Some(b);
        offset, requested := offset + |part|, requested - |part|;
        whole := None;
      } else {
        whole := Some(b);
        block, offset, requested := None, 0, 4;
      }
    }
  }

  lemma Begun(length: seq<Byte>, memory: seq<Byte>)
    requires |length| == 4 <= |memory|
    ensures var b := length + memory[4..]; |b| == |memory| && b[..4] == length && b[4..4] == []
  {}

  lemma PartAdded(block: seq<Byte>, offset: nat, part: seq<Byte>, got: seq<Byte>)
    requires 4 <= offset && offset + |part| <= |block| && block[4..offset] == got
    ensures var b := block[..offset] + part + block[offset + |part|..];
      |b| == |block| && b[..4] == block[..4] && b[4..offset + |part|] == got + part
  {}

  /** A packed block that was cut into any parts on its way comes back whole, with every field and the body. */
  lemma BlockBack(b: seq<Byte>, h: Header, tail: seq<Byte>, total: nat, got: seq<Byte>, whole: seq<Byte>)
    requires HeaderOk(h) && BlockSize(h.size) < U32 && |b| == BlockSize(h.size)
    requires b[..4] == Big(BlockSize(h.size), 4) && b[4..] == HeaderAnd(h, tail)
    requires total == BigNumber(b[..4]) >= OFFSET && got == b[4..]
    requires |whole| == BlockSize(total - OFFSET) >= total && whole[..4] == Big(|whole|, 4) && whole[4..total] == got
    ensures whole == b && Fields(whole) == h && whole[OFFSET..] == tail && BigNumber(whole[..4]) == BlockSize(h.size)
  {
    LengthBack(h.size);
    WholeBlock(b, whole);
    FieldsBack(b, h, tail);
  }

  lemma LengthBack(size: nat)
    requires BlockSize(size) < U32
    ensures BigNumber(Big(BlockSize(size), 4)) == BlockSize(size) && BlockSize(BlockSize(size) - OFFSET) == BlockSize(size)
  {
    Widths();
    NumberOfBig(BlockSize(size), 4);
    RoundedOnce(size);
  }

  lemma WholeBlock(b: seq<Byte>, whole: seq<Byte>)
    requires |b| == |whole| >= 4 && whole[..4] == b[..4] && whole[4..] == b[4..]
    ensures whole == b
  {
    assert whole == whole[..4] + whole[4..] && b == b[..4] + b[4..];
  }

  // ----- from one message to another

  function Sum(sizes: seq<nat>): nat { if sizes == [] then 0 else sizes[0] + Sum(sizes[1..]) }

  ghost predicate Positive(sizes: seq<nat>) { forall i :: 0 <= i < |sizes| ==> sizes[i] > 0 }

  lemma {:induction false} SumOver(sizes: seq<nat>, i: nat)
    requires i < |sizes| && Positive(sizes)
    ensures 0 < sizes[i] <= Sum(sizes[i..]) && Sum(sizes[i + 1..]) == Sum(sizes[i..]) - sizes[i]
    ensures Sum(sizes[i + 1..]) == 0 <==> i + 1 == |sizes|
  {
    assert sizes[i..][1..] == sizes[i + 1..];
    if i + 1 < |sizes| {
      assert sizes[i + 1..][0] == sizes[i + 1];
    }
  }

  lemma NextPart(b: seq<Byte>, at: nat, n: nat)
    requires 4 <= at && at + n <= |b|
    ensures b[4..at] + b[at..at + n] == b[4..at + n]
  {}

  // The bytes of a block behind its length arrive in parts of the given sizes.
  method Receive(r: Receiver, b: seq<Byte>, sizes: seq<nat>) returns (whole: seq<Byte>)
    requires r.Valid() && r.block.Some? && r.total == |b| && r.got == [] && r.requested == |b| - 4
    requires Positive(sizes) && Sum(sizes) == |b| - 4
    modifies r
    ensures r.Valid() && r.block == None && |whole| == BlockSize(|b| - OFFSET) >= |b|
    ensures whole[..4] == Big(|whole|, 4) && whole[4..|b|] == b[4..]
  {
    var i, at := 0, 4;
    whole := [];
    assert sizes[0..] == sizes && b[4..4] == [];
    while i < |sizes|
      invariant i <= |sizes| && 4 <= at <= |b| && Sum(sizes[i..]) == |b| - at && r.Valid()
      invariant r.total == |b| && r.got == b[4..at] && |b| >= OFFSET
      invariant if i < |sizes| then r.block.Some? && r.requested == |b| - at else r.block == None && at == |b|
      invariant i == |sizes| ==> |whole| == BlockSize(|b| - OFFSET) >= |b|
      invariant i == |sizes| ==> whole[..4] == Big(|whole|, 4) && whole[4..|b|] == r.got
    {
      SumOver(sizes, i);
      NextPart(b, at, sizes[i]);
      var block := r.OnPart(b[at..at + sizes[i]]);
      at, i := at + sizes[i], i + 1;
      whole := if block.Some? then block.value else [];
    }
    assert b[4..|b|] == b[4..];
  }

  // A packed block is received: its length, and then the parts.
  method Transfer(b: seq<Byte>, r: Receiver, sizes: seq<nat>, memory: seq<Byte>, ghost h: Header) returns (whole: seq<Byte>)
    requires HeaderOk(h) && BlockSize(h.size) < U32 / 2 && |b| == BlockSize(h.size)
    requires b[..4] == Big(BlockSize(h.size), 4) && b[4..] == HeaderAnd(h, b[OFFSET..])
    requires r.Valid() && r.block == None && |memory| == |b| && Positive(sizes) && Sum(sizes) == |b| - 4
    modifies r
    ensures r.Valid() && r.block == None
    ensures whole == b && Fields(whole) == h && BigNumber(whole[..4]) == BlockSize(h.size)
  {
    LengthBack(h.size);
    var ok := r.OnLength(b[..4], memory);
    whole := Receive(r, b, sizes);
    BlockBack(b, h, b[OFFSET..], |b|, b[4..], whole);
  }

  lemma Packed(block: seq<Byte>, h: Header)
    requires HeaderOk(h) && |block| >= BlockSize(h.size) && block[4..] == HeaderAnd(h, block[OFFSET..])
    ensures var b := block[..BlockSize(h.size)];
      b[..4] == block[..4] && b[4..] == HeaderAnd(h, b[OFFSET..])
      && b[OFFSET..OFFSET + h.size] == block[OFFSET..OFFSET + h.size]
  {
    var n := BlockSize(h.size);
    var f := FirstFields(h) + (MiddleFields(h) + LastFields(h));
    Joined(h, block[OFFSET..]);
    Joined(h, block[..n][OFFSET..]);
    assert |f| == OFFSET - 4 && block[4..OFFSET] == f;
    assert block[..n][4..] == block[4..OFFSET] + block[..n][OFFSET..];
  }

  lemma Joined(h: Header, tail: seq<Byte>)
    requires HeaderOk(h)
    ensures HeaderAnd(h, tail) == (FirstFields(h) + (MiddleFields(h) + LastFields(h))) + tail
  {
    Regroup(MiddleFields(h), LastFields(h), tail);
    Regroup(FirstFields(h), MiddleFields(h) + LastFields(h), tail);
  }

  // The receiver's message takes the block over.
  method Arrive(b: seq<Byte>, r: Receiver, sizes: seq<nat>, memory: seq<Byte>, n: Message, ghost h: Header) returns (ok: bool)
    requires HeaderOk(h) && BlockSize(h.size) < U32 / 2 && |b| == BlockSize(h.size)
    requires b[..4] == Big(BlockSize(h.size), 4) && b[4..] == HeaderAnd(h, b[OFFSET..])
    requires r.Valid() && r.block == None && |memory| == |b| && Positive(sizes) && Sum(sizes) == |b| - 4
    modifies r, n
    ensures ok && n.Valid() && n.h == h && n.Body() == b[OFFSET..OFFSET + h.size] && r.Valid() && r.block == None
  {
    n.block := Transfer(b, r, sizes, memory, h);
    ok := n.UnpackMsg();
  }

  // A message is packed, sent in any parts, received and unpacked.
  method Deliver(m: Message, r: Receiver, sizes: seq<nat>, memory: seq<Byte>, n: Message) returns (ok: bool)
    requires m.Valid() && BlockSize(m.h.size) < U32 / 2 && r.Valid() && r.block == None
    requires |memory| == BlockSize(m.h.size) && Positive(sizes) && Sum(sizes) == BlockSize(m.h.size) - 4
    modifies m, r, n
    ensures ok && n.Valid() && n.h == old(m.h) && n.Body() == old(m.Body()) && r.Valid() && r.block == None
  {
    m.PackMsg();
    Packed(m.block, m.h);
    ok := Arrive(m.block[..BlockSize(m.h.size)], r, sizes, memory, n, m.h);
  }
}
