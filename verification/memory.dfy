/** The allocators (memory.hpp, memory.cpp): blocks cut from chunks, and lists of freed blocks that run through the
    blocks themselves. An address is a number; 0 is the null pointer. */
module Memory {
  import opened Wrappers

  const WORD: nat := 8

  function Aligned(size: nat): nat { (size + WORD - 1) / WORD * WORD }

  datatype Chunk = Chunk(mem: nat, size: nat)
  datatype Block = Block(lo: nat, hi: nat)

  predicate Apart(a: Block, b: Block) { a.hi <= b.lo || b.hi <= a.lo }

  function Room(c: Chunk): Block { Block(c.mem, c.mem + c.size) }

  ghost predicate AllApart(bs: seq<Block>) { forall i, j :: 0 <= i < j < |bs| ==> Apart(bs[i], bs[j]) }

  ghost predicate ChunksApart(cs: seq<Chunk>) {
    && (forall i :: 0 <= i < |cs| ==> cs[i].mem > 0)
    && (forall i, j :: 0 <= i < j < |cs| ==> Apart(Room(cs[i]), Room(cs[j])))
  }

  /** A block is not empty and lies in its chunk, in the chunk in use below the free position. */
  ghost predicate Placed(b: Block, i: nat, cs: seq<Chunk>, inUse: nat, free: nat) {
    && i <= inUse < |cs| && cs[i].mem <= b.lo < b.hi <= cs[i].mem + cs[i].size
    && (i == inUse ==> b.hi <= free)
  }

  /** What malloc promises about a new chunk. */
  ghost predicate Fresh(at: nat, size: nat, cs: seq<Chunk>) {
    at > 0 && forall i :: 0 <= i < |cs| ==> Apart(Block(at, at + size), Room(cs[i]))
  }

  /** The blocks do not overlap, and each lies where it was cut. */
  ghost predicate Kept(given: seq<Block>, home: seq<nat>, cs: seq<Chunk>, inUse: nat, free: nat) {
    && |home| == |given| && AllApart(given)
    && (forall i :: 0 <= i < |given| ==> Placed(given[i], home[i], cs, inUse, free))
  }

  /** A block cut at the free position, or in a later chunk, is apart from all blocks. */
  lemma NewBlock(given: seq<Block>, home: seq<nat>, cs: seq<Chunk>, inUse: nat, free: nat, cs': seq<Chunk>, i: nat, at: nat, size: nat)
    requires Kept(given, home, cs, inUse, free) && ChunksApart(cs') && cs <= cs' && i < |cs'| && size > 0
    requires cs'[i].mem <= at && at + size <= cs'[i].mem + cs'[i].size
    requires cs == [] || i > inUse || (i == inUse && at == free)
    ensures Kept(given + [Block(at, at + size)], home + [i], cs', i, at + size)
  {
    forall k | 0 <= k < |given|
      ensures Apart(given[k], Block(at, at + size)) && Placed(given[k], home[k], cs', i, at + size)
    {
      assert Placed(given[k], home[k], cs, inUse, free);
      assert cs'[home[k]] == cs[home[k]];
      if home[k] < i { assert Apart(Room(cs'[home[k]]), Room(cs'[i])); }
    }
  }

  class ByteAllocator {
    const capacity: nat
    var chunks: seq<Chunk>       // from _start_chunk on
    var inUse: nat               // the place of _using_chunk, if there is a chunk
    var free: nat                // _free_pos
    var count: nat
    ghost var given: seq<Block>  // the blocks given out since the last reset
    ghost var home: seq<nat>     // the chunks they lie in

    ghost predicate Valid()
      reads this
    {
      && count == |chunks| && ChunksApart(chunks)
      && (if chunks == [] then given == []
          else inUse < |chunks| && chunks[inUse].mem <= free <= chunks[inUse].mem + chunks[inUse].size)
      && Kept(given, home, chunks, inUse, free)
    }

    constructor (capacity: nat, standard: nat)
      ensures Valid() && chunks == [] && given == [] && this.capacity == if capacity > standard then capacity else standard
    {
      this.capacity := if capacity > standard then capacity else standard;
      chunks, inUse, free, count, given, home := [], 0, 0, 0, [], [];
    }

    // allocate: a block of its own inside one chunk, apart from all blocks given out since the last reset.
    method Allocate(size: nat, at: nat) returns (p: nat)
      requires Valid() && Fresh(at, if Aligned(size) > capacity then Aligned(size) else capacity, chunks)
      modifies this
      ensures Valid() && old(chunks) <= chunks
      ensures size == 0 ==> p == 0 && given == old(given)
      ensures size > 0 ==> p > 0 && given == old(given) + [Block(p, p + Aligned(size))]
    {
      if size == 0 {
        return 0;
      }
      var correct := Aligned(size);
      if chunks != [] && chunks[inUse].size - (free - chunks[inUse].mem) >= correct {
        p := free;
        NewBlock(given, home, chunks, inUse, free, chunks, inUse, p, correct);
        free := free + correct;
        given, home := given + [Block(p, p + correct)], home + [inUse];
      } else {
        p := NextChunk(correct, at);
      }
    }

    // The first of the chunks behind the one in use that has room, or a new one.
    method NextChunk(size: nat, at: nat) returns (p: nat)
      requires Valid() && size > 0 && Fresh(at, if size > capacity then size else capacity, chunks)
      modifies this
      ensures Valid() && old(chunks) <= chunks && p > 0 && given == old(given) + [Block(p, p + size)]
    {
      var next := if chunks == [] then 0 else inUse + 1;
      while next < |chunks|
        invariant next <= |chunks| && chunks == old(chunks) && given == old(given) && home == old(home)
        invariant chunks != [] ==> old(inUse) < next && inUse == next - 1
        invariant free == old(free) && count == old(count)
      {
        inUse := next;
        var pos := chunks[next].mem;
        if chunks[next].size - (pos - chunks[next].mem) >= size {
          p := pos;
          NewBlock(given, home, chunks, old(inUse), free, chunks, next, p, size);
          free := pos + size;
          given, home := given + [Block(p, p + size)], home + [next];
          return;
        }
        next := next + 1;
      }
      p := NewChunk(size, at, old(inUse));
    }

    // A chunk is put behind the one in use, which is the last one, so that the chain keeps all chunks.
    method NewChunk(size: nat, at: nat, ghost inUse0: nat) returns (p: nat)
      requires count == |chunks| && ChunksApart(chunks) && size > 0 && Fresh(at, if size > capacity then size else capacity, chunks)
      requires if chunks == [] then given == [] else inUse == |chunks| - 1 && inUse0 <= inUse
      requires Kept(given, home, chunks, inUse0, free)
      modifies this
      ensures Valid() && old(chunks) <= chunks && p > 0 && given == old(given) + [Block(p, p + size)]
    {
      var newSize := if size > capacity then size else capacity;
      var chunk := Chunk(at, newSize);
      if chunks != [] {
        chunks := chunks[..inUse + 1] + [chunk];
        inUse := inUse + 1;
      } else {
        chunks, inUse := [chunk], 0;
      }
      count := count + 1;
      NewBlock(given, home, old(chunks), inUse0, free, chunks, inUse, at, size);
      free := at + size;
      p := at;
      given, home := given + [Block(p, p + size)], home + [inUse];
    }

    // reset: the chunks stay, the blocks are forgotten.
    method Reset()
      requires count == |chunks| && ChunksApart(chunks)
      modifies this
      ensures Valid() && chunks == old(chunks) && given == []
    {
      inUse := 0;
      free := if chunks != [] then chunks[0].mem else 0;
      given, home := [], [];
    }

    // clear_extra: only the first chunk stays.
    method ClearExtra()
      requires Valid()
      modifies this
      ensures Valid() && chunks == (if old(chunks) == [] then [] else [old(chunks)[0]]) && given == []
    {
      if chunks != [] { chunks := chunks[..1]; }
      count := |chunks|;
      Reset();
    }
  }

  // ----- freed blocks

  /** From head on, each block's first word leads to the next one; the last leads to null. */
  ghost predicate Chain(word: map<nat, nat>, head: nat, free: seq<nat>)
    decreases |free|
  {
    if free == [] then head == 0
    else head == free[0] && head != 0 && head in word && Chain(word, word[head], free[1..])
  }

  lemma ChainOn(word: map<nat, nat>, head: nat, free: seq<nat>, i: nat)
    requires i < |free| && Chain(word, head, free[i..])
    ensures head in word && Chain(word, word[head], free[i + 1..])
    ensures if word[head] == 0 then i + 1 == |free| else i + 1 < |free| && word[head] == free[i + 1]
  {
    assert free[i..][1..] == free[i + 1..];
  }

  /** Writing elsewhere does not break the chain. */
  lemma {:induction false} ChainKept(word: map<nat, nat>, head: nat, free: seq<nat>, at: nat, v: nat)
    requires Chain(word, head, free) && at !in free
    ensures Chain(word[at := v], head, free)
    decreases |free|
  {
    if free != [] { ChainKept(word, word[head], free[1..], at, v); }
  }

  /** The chain from a block in the middle of the list. */
  lemma {:induction false} ChainFrom(word: map<nat, nat>, head: nat, free: seq<nat>, i: nat)
    requires Chain(word, head, free) && i < |free|
    ensures free[i] != 0 && free[i] in word && Chain(word, free[i], free[i..]) && Chain(word, word[free[i]], free[i + 1..])
    decreases i
  {
    if i > 0 {
      ChainFrom(word, word[head], free[1..], i - 1);
      assert free[1..][i - 1..] == free[i..] && free[1..][i..] == free[i + 1..];
    }
  }

  /** Redirecting block i to the block after the next one takes out exactly the next one. */
  lemma {:induction false} ChainCut(word: map<nat, nat>, head: nat, free: seq<nat>, i: nat)
    requires Chain(word, head, free) && NoDup(free) && i + 1 < |free|
    ensures free[i] in word && free[i + 1] in word
    ensures Chain(word[free[i] := word[free[i + 1]]], head, free[..i + 1] + free[i + 2..])
    decreases i
  {
    ChainFrom(word, head, free, i);
    ChainFrom(word, head, free, i + 1);
    var word', free' := word[free[i] := word[free[i + 1]]], free[..i + 1] + free[i + 2..];
    if i == 0 {
      assert free'[1..] == free[2..] && free[0] !in free[2..];
      ChainKept(word, word[free[1]], free[2..], free[0], word[free[1]]);
    } else {
      ChainCut(word, word[head], free[1..], i - 1);
      assert free'[1..] == free[1..][..i] + free[1..][i + 1..];
      assert head == free[0] != free[i];
    }
  }

  lemma WithoutOne(s: seq<nat>, i: nat)
    requires NoDup(s) && i < |s|
    ensures NoDup(s[..i] + s[i + 1..]) && forall p :: p in s[..i] + s[i + 1..] <==> p in s && p != s[i]
  {
    assert s == s[..i] + [s[i]] + s[i + 1..];
  }

  /** Block i of the byte allocator begins with the header of array made[i] and holds its elements. */
  ghost predicate Headed(given: seq<Block>, made: seq<nat>, room: map<nat, nat>, header: nat, unit: nat) {
    && |made| == |given|
    && forall i :: 0 <= i < |made| ==>
      made[i] in room && made[i] >= header + 1 && room[made[i]] > 0 && given[i] == BlockOf(made[i], room[made[i]], header, unit)
  }

  ghost function BlockOf(p: nat, n: nat, header: nat, unit: nat): Block
    requires p >= header
  {
    Block(p - header, p + n * unit)
  }

  /** Different arrays lie in blocks that do not overlap. */
  lemma ApartArrays(given: seq<Block>, made: seq<nat>, room: map<nat, nat>, header: nat, unit: nat, p: nat, q: nat)
    requires Headed(given, made, room, header, unit) && AllApart(given) && p in made && q in made && p != q
    ensures p in room && q in room && p >= header && q >= header
    ensures Apart(BlockOf(p, room[p], header, unit), BlockOf(q, room[q], header, unit))
  {
    var i :| 0 <= i < |made| && made[i] == p;
    var j :| 0 <= j < |made| && made[j] == q;
    assert Apart(given[i], given[j]) || Apart(given[j], given[i]);
  }

  lemma UnitsHold(n: nat, unit: nat)
    requires n > 0 && unit >= WORD
    ensures n * unit >= WORD
  {
    assert n * unit >= unit;
  }

  /** What is written inside one array is neither in the header nor in the first word of another one. */
  lemma Elsewhere(given: seq<Block>, made: seq<nat>, room: map<nat, nat>, header: nat, unit: nat, p: nat, at: nat, q: nat)
    requires Headed(given, made, room, header, unit) && AllApart(given) && p in made && q in made && p != q
    requires unit >= WORD && p in room && p <= at + header && at < p + room[p] * unit
    ensures q >= header && at != q && at != q - header
  {
    ApartArrays(given, made, room, header, unit, p, q);
    UnitsHold(room[q], unit);
  }

  /** A list of freed blocks beside the blocks in use. */
  ghost predicate Parted(made: seq<nat>, live: set<nat>, free: seq<nat>) {
    && NoDup(made) && NoDup(free)
    && (forall p :: p in made <==> p in live || p in free) && (forall p :: p in free ==> p !in live)
  }

  lemma PartedTaken(made: seq<nat>, live: set<nat>, free: seq<nat>, i: nat)
    requires Parted(made, live, free) && i < |free|
    ensures Parted(made, live + {free[i]}, free[..i] + free[i + 1..])
  {
    WithoutOne(free, i);
  }

  lemma PartedAdded(made: seq<nat>, live: set<nat>, free: seq<nat>, p: nat)
    requires Parted(made, live, free) && p !in made
    ensures Parted(made + [p], live + {p}, free)
  {}

  /** Block i is unlinked: the head, or the block before it, leads to the block behind it. */
  lemma Unlinked(word: map<nat, nat>, head: nat, free: seq<nat>, i: nat)
    requires Chain(word, head, free) && NoDup(free) && i < |free|
    ensures free[i] in word
    ensures var free' := free[..i] + free[i + 1..];
      if i == 0 then Chain(word, word[free[i]], free') else Chain(word[free[i - 1] := word[free[i]]], head, free')
  {
    ChainFrom(word, head, free, i);
    if i == 0 { assert free[..0] + free[1..] == free[1..]; } else { ChainCut(word, head, free, i - 1); }
  }

  lemma FirstOut(word: map<nat, nat>, head: nat, made: seq<nat>, live: set<nat>, free: seq<nat>)
    requires Chain(word, head, free) && Parted(made, live, free) && head != 0
    ensures free != [] && head == free[0] && head in made && head !in live && head in word
    ensures Chain(word, word[head], free[1..]) && Parted(made, live + {head}, free[1..])
  {
    Unlinked(word, head, free, 0);
    PartedTaken(made, live, free, 0);
    assert free[..0] + free[1..] == free[1..];
    assert free[0] in free;
  }

  /** The header of each array is intact. */
  ghost predicate Labelled(word: map<nat, nat>, made: seq<nat>, room: map<nat, nat>) {
    && (forall p :: p in made ==> p >= WORD && p in room && p - WORD in word && word[p - WORD] == room[p])
    && (forall p :: p in room ==> p in made)
  }

  lemma LabelledAdded(word: map<nat, nat>, made: seq<nat>, room: map<nat, nat>, p: nat, n: nat)
    requires Labelled(word, made, room) && p >= WORD && forall q :: q in made ==> q != p && q - WORD != p - WORD
    ensures Labelled(word[p - WORD := n], made + [p], room[p := n])
  {}

  lemma LabelledKept(word: map<nat, nat>, made: seq<nat>, room: map<nat, nat>, at: nat, v: nat)
    requires Labelled(word, made, room) && forall q :: q in made ==> q - WORD != at
    ensures Labelled(word[at := v], made, room)
  {}

  // Arrays of elements of one size; the count of elements an array was made for stands in the word before it.
  class ArrayAllocator {
    const unit: nat              // the aligned size of an element
    const bytes: ByteAllocator
    var head: nat                // _rep
    var word: map<nat, nat>      // the words of the blocks
    ghost var free: seq<nat>     // the freed arrays, the last freed first
    ghost var live: set<nat>     // the arrays in use
    ghost var made: seq<nat>     // all arrays, in the order of their blocks
    ghost var room: map<nat, nat>

    ghost predicate Valid()
      reads this, bytes
    {
      && bytes.Valid() && unit >= WORD && unit % WORD == 0 && Headed(bytes.given, made, room, WORD, unit)
      && Parted(made, live, free) && Chain(word, head, free) && Labelled(word, made, room)
    }

    constructor (size: nat, capacity: nat, standard: nat)
      requires size > 0
      ensures Valid() && unit == Aligned(size) && live == {} && fresh(bytes) && bytes.chunks == []
    {
      unit := Aligned(size);
      bytes := new ByteAllocator((if capacity > 0 then capacity else standard) * Aligned(size), standard);
      head, word, free, live, made, room := 0, map[], [], {}, [], map[];
    }

    // Exactly the first array of the list with room for n elements is taken out.
    ghost predicate FirstFit(free: seq<nat>, free': seq<nat>, p: nat, n: nat)
      requires forall q :: q in free ==> q in room
      reads this
    {
      exists i :: 0 <= i < |free| && p == free[i] && free' == free[..i] + free[i + 1..] && forall j :: 0 <= j < i ==> room[free[j]] < n
    }

    // The first freed array, the last freed first, that has room for n elements.
    method Pop(n: nat) returns (p: nat)
      requires Valid()
      modifies this`head, this`word, this`free, this`live
      ensures Valid() && room == old(room) && made == old(made)
      ensures p == 0 <==> forall q :: q in old(free) ==> room[q] < n
      ensures p == 0 ==> live == old(live) && free == old(free)
      ensures p != 0 ==> live == old(live) + {p} && room[p] >= n && FirstFit(old(free), free, p, n)
    {
      var cur, prev;
      ghost var i;
      FreeListed();
      cur, prev, i := FindFit(n);
      if cur == 0 {
        return 0;
      }
      p := TakeOut(cur, prev, i);
    }

    // The sizes of the freed arrays can be read in front of them.
    ghost predicate Listed()
      reads this
    {
      forall q :: q in free ==> q >= WORD && q in room && q - WORD in word && word[q - WORD] == room[q]
    }

    lemma FreeListed()
      requires Valid()
      ensures Chain(word, head, free) && Listed()
    {}

    // The search along the list.
    method FindFit(n: nat) returns (cur: nat, prev: nat, ghost i: nat)
      requires Chain(word, head, free) && Listed()
      ensures i <= |free| && forall j :: 0 <= j < i ==> free[j] in room && room[free[j]] < n
      ensures if cur == 0 then i == |free| else i < |free| && cur == free[i] && cur in room && room[cur] >= n
      ensures if i == 0 then prev == 0 else prev == free[i - 1]
    {
      cur, prev, i := head, 0, 0;
      assert free[0..] == free;
      while cur != 0 && word[cur - WORD] < n
        invariant i <= |free| && Chain(word, cur, free[i..])
        invariant if i == 0 then prev == 0 else prev == free[i - 1]
        invariant if cur == 0 then i == |free| else i < |free| && cur == free[i] && cur in free
        invariant forall j :: 0 <= j < i ==> free[j] in room && room[free[j]] < n
        decreases |free| - i
      {
        ChainOn(word, cur, free, i);
        prev := cur;
        cur := word[cur];
        i := i + 1;
        assert cur != 0 ==> free[i] in free;
      }
    }

    // Block i of the list is unlinked.
    method TakeOut(cur: nat, prev: nat, ghost i: nat) returns (p: nat)
      requires Valid() && i < |free| && cur == free[i] && (if i == 0 then prev == 0 else prev == free[i - 1])
      modifies this`head, this`word, this`free, this`live
      ensures Valid() && room == old(room) && made == old(made) && p == cur
      ensures live == old(live) + {p} && free == old(free)[..i] + old(free)[i + 1..]
    {
      Unlinked(word, head, free, i);
      PartedTaken(made, live, free, i);
      assert free[i] in free && free[i] in made;
      assert i > 0 ==> free[i - 1] in free;
      if prev == 0 {
        head := word[cur];
      } else {
        Relabelled(prev, word[cur]);
        word := word[prev := word[cur]];
      }
      free := free[..i] + free[i + 1..];
      live := live + {cur};
      p := cur;
    }

    // Writing to the first word of an array leaves all headers alone.
    lemma Relabelled(p: nat, v: nat)
      requires Valid() && p in made
      ensures Labelled(word[p := v], made, room)
    {
      forall q | q in made ensures q - WORD != p {
        if q != p { UnitsHold(room[p], unit); Elsewhere(bytes.given, made, room, WORD, unit, p, p, q); }
      }
      LabelledKept(word, made, room, p, v);
    }

    method Deallocate(p: nat)
      requires Valid() && (p == 0 || p in live)
      modifies this`head, this`word, this`free, this`live
      ensures Valid() && room == old(room) && made == old(made)
      ensures p != 0 ==> live == old(live) - {p} && free == [p] + old(free)
      ensures p == 0 ==> live == old(live) && free == old(free)
    {
      if p == 0 {
        return;
      }
      ChainKept(word, head, free, p, head);
      Relabelled(p, head);
      word := word[p := head];
      head := p;
      free := [p] + free;
      live := live - {p};
      assert free[1..] == old(free);
    }

    // The owner of an array may write any of its words.
    method Write(p: nat, at: nat, v: nat)
      requires Valid() && p in live && p <= at && at + WORD <= p + room[p] * unit
      modifies this`word
      ensures Valid() && word == old(word)[at := v]
    {
      forall q | q in made ensures at != q - WORD && (q in free ==> at != q) {
        if q != p { Elsewhere(bytes.given, made, room, WORD, unit, p, at, q); }
      }
      ChainKept(word, head, free, at, v);
      LabelledKept(word, made, room, at, v);
      word := word[at := v];
    }

    // allocate: an array in use that was not in use before, with room for n elements, apart from all others in use.
    method Allocate(n: nat, at: nat) returns (p: nat)
      requires Valid()
      requires Fresh(at, if n * unit + WORD > bytes.capacity then n * unit + WORD else bytes.capacity, bytes.chunks)
      modifies this, bytes
      ensures Valid()
      ensures n == 0 ==> p == 0 && live == old(live)
      ensures n > 0 ==> p > 0 && p !in old(live) && live == old(live) + {p} && p in room && room[p] >= n
      ensures forall q :: q in old(room) ==> q in room && room[q] == old(room)[q]
    {
      if n == 0 {
        return 0;
      }
      p := Pop(n);
      if p == 0 {
        p := MakeNew(n, at);
      }
    }

    method MakeNew(n: nat, at: nat) returns (p: nat)
      requires Valid() && n > 0
      requires Fresh(at, if n * unit + WORD > bytes.capacity then n * unit + WORD else bytes.capacity, bytes.chunks)
      modifies this, bytes
      ensures Valid() && p > 0 && p !in old(made) && live == old(live) + {p}
      ensures room == old(room)[p := n] && p !in old(room)
    {
      AlignedSum(n, unit);
      var ob := bytes.Allocate(n * unit + WORD, at);
      p := Adopt(ob, n, old(bytes.given));
    }

    // A new block becomes an array.
    method Adopt(ob: nat, n: nat, ghost given: seq<Block>) returns (p: nat)
      requires bytes.Valid() && unit >= WORD && unit % WORD == 0 && n > 0 && ob > 0
      requires bytes.given == given + [BlockOf(ob + WORD, n, WORD, unit)] && Headed(given, made, room, WORD, unit)
      requires Parted(made, live, free) && Chain(word, head, free) && Labelled(word, made, room)
      modifies this`word, this`made, this`room, this`live
      ensures Valid() && p == ob + WORD && p !in old(made) && live == old(live) + {p}
      ensures room == old(room)[p := n] && p !in old(room)
    {
      p := ob + WORD;
      BrandNew(given, bytes.given, made, room, WORD, unit, p, n);
      ChainKept(word, head, free, ob, n);
      LabelledAdded(word, made, room, p, n);
      PartedAdded(made, live, free, p);
      word := word[ob := n];
      made, room, live := made + [p], room[p := n], live + {p};
    }
  }

  /** Any two blocks in use are apart, and each lies in one of the chunks, apart from the freed ones as well. */
  lemma BlocksApart(bytes: ByteAllocator, made: seq<nat>, room: map<nat, nat>, header: nat, unit: nat, p: nat)
    requires bytes.Valid() && Headed(bytes.given, made, room, header, unit) && p in made
    ensures p in room && p >= header
    ensures exists c :: c in bytes.chunks && c.mem <= p - header < p + room[p] * unit <= c.mem + c.size
    ensures forall q :: q in made && q != p ==>
      (q in room && q >= header && Apart(BlockOf(p, room[p], header, unit), BlockOf(q, room[q], header, unit)))
  {
    var k :| 0 <= k < |made| && made[k] == p;
    assert Placed(bytes.given[k], bytes.home[k], bytes.chunks, bytes.inUse, bytes.free);
    forall q | q in made && q != p
      ensures q in room && q >= header && Apart(BlockOf(p, room[p], header, unit), BlockOf(q, room[q], header, unit))
    {
      ApartArrays(bytes.given, made, room, header, unit, p, q);
    }
  }

  // Nodes of one size. A freed node's first word leads to the node freed before it.
  class NodeAllocator {
    const unit: nat              // the aligned size of a node
    const bytes: ByteAllocator
    var head: nat                // _rep
    var word: map<nat, nat>      // the words of the blocks
    ghost var free: seq<nat>     // the freed nodes, the last freed first
    ghost var live: set<nat>     // the nodes in use
    ghost var made: seq<nat>     // all nodes, in the order of their blocks
    ghost var room: map<nat, nat>

    ghost predicate Valid()
      reads this, bytes
    {
      && bytes.Valid() && unit >= WORD && unit % WORD == 0 && Headed(bytes.given, made, room, 0, unit)
      && Parted(made, live, free) && Chain(word, head, free) && forall p :: p in room ==> p in made && room[p] == 1
    }

    constructor (size: nat, capacity: nat, standard: nat)
      requires size > 0
      ensures Valid() && unit == Aligned(size) && live == {} && fresh(bytes) && bytes.chunks == []
    {
      unit := Aligned(size);
      bytes := new ByteAllocator((if capacity > 0 then capacity else standard) * Aligned(size), standard);
      head, word, free, live, made, room := 0, map[], [], {}, [], map[];
    }

    // allocate: a node in use that was not in use before; the last freed one, if there is one.
    method Allocate(at: nat) returns (p: nat)
      requires Valid() && Fresh(at, if unit > bytes.capacity then unit else bytes.capacity, bytes.chunks)
      modifies this, bytes
      ensures Valid() && p > 0 && p !in old(live) && live == old(live) + {p}
      ensures if old(free) == [] then free == [] && p !in old(made) && made == old(made) + [p]
        else p == old(free)[0] && free == old(free)[1..] && made == old(made) && bytes.given == old(bytes.given)
    {
      if head == 0 {
        AlignedUnit(unit);
        p := bytes.Allocate(unit, at);
        Adopt(p, old(bytes.given));
      } else {
        p := Pop();
      }
    }

    // chunk_stack::pop on a list that is not empty.
    method Pop() returns (p: nat)
      requires Valid() && head != 0
      modifies this`head, this`free, this`live
      ensures Valid() && old(free) != [] && p == old(free)[0] && free == old(free)[1..] && p > 0
      ensures p !in old(live) && live == old(live) + {p}
    {
      p := head;
      FirstOut(word, head, made, live, free);
      head := word[p];
      free, live := free[1..], live + {p};
    }

    // A new block becomes a node.
    method Adopt(p: nat, ghost given: seq<Block>)
      requires bytes.Valid() && unit >= WORD && unit % WORD == 0 && p > 0 && head == 0
      requires bytes.given == given + [BlockOf(p, 1, 0, unit)] && Headed(given, made, room, 0, unit)
      requires Parted(made, live, free) && Chain(word, head, free) && forall q :: q in room ==> q in made && room[q] == 1
      modifies this`made, this`room, this`live
      ensures Valid() && p !in old(made) && made == old(made) + [p] && live == old(live) + {p} && free == []
    {
      BrandNew(given, bytes.given, made, room, 0, unit, p, 1);
      PartedAdded(made, live, free, p);
      made, room, live := made + [p], room[p := 1], live + {p};
    }

    method Deallocate(p: nat)
      requires Valid() && (p == 0 || p in live)
      modifies this`head, this`word, this`free, this`live
      ensures Valid() && made == old(made)
      ensures p != 0 ==> live == old(live) - {p} && free == [p] + old(free)
      ensures p == 0 ==> live == old(live) && free == old(free)
    {
      if p == 0 {
        return;
      }
      ChainKept(word, head, free, p, head);
      word := word[p := head];
      head := p;
      free := [p] + free;
      live := live - {p};
      assert free[1..] == old(free);
    }

    // The owner of a node may write any of its words.
    method Write(p: nat, at: nat, v: nat)
      requires Valid() && p in live && p <= at && at + WORD <= p + unit
      modifies this`word
      ensures Valid() && word == old(word)[at := v]
    {
      forall q | q in free ensures at != q {
        assert q in made && p in made;
        Elsewhere(bytes.given, made, room, 0, unit, p, at, q);
      }
      ChainKept(word, head, free, at, v);
      word := word[at := v];
    }
  }

  lemma AlignedUnit(unit: nat)
    requires unit % WORD == 0
    ensures Aligned(unit) == unit && 1 * unit == unit
  {}

  /** The array in a new block is none of the arrays there are, and lies apart from them. */
  lemma BrandNew(given: seq<Block>, given': seq<Block>, made: seq<nat>, room: map<nat, nat>, header: nat, unit: nat, p: nat, n: nat)
    requires Headed(given, made, room, header, unit) && NoDup(made) && unit >= WORD && n > 0 && p > header
    requires given' == given + [BlockOf(p, n, header, unit)] && AllApart(given')
    ensures forall q :: q in made ==> q != p && q != p - header
    ensures Headed(given', made + [p], room[p := n], header, unit) && NoDup(made + [p])
  {
    UnitsHold(n, unit);
    forall i | 0 <= i < |made| ensures made[i] != p && made[i] != p - header {
      UnitsHold(room[made[i]], unit);
      assert Apart(given'[i], given'[|given|]);
    }
  }

  lemma AlignedSum(n: nat, unit: nat)
    requires unit % WORD == 0
    ensures Aligned(n * unit + WORD) == n * unit + WORD
  {
    var k := unit / WORD;
    assert n * unit == (n * k) * WORD;
  }
}
