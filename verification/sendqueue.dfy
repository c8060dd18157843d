// The send side of one pin of the asynchronous gate (aiogate.cpp): a chain of
// fixed-size chunks, of which the port sends one piece at a time.
module SendQueue {
  import opened Wrappers
  import opened Bytes

  type Addr = a: seq<Byte> | |a| == 16 witness seq(16, _ => 0)

  const CHUNK: nat := 65536
  const HEADER: nat := 20       // a socket address and the payload length

  // One buffer of the chain: `bytes` is the filled part, up to `_end`.
  datatype Chunk = Chunk(bytes: seq<Byte>, begin: nat)
  datatype Datagram = Datagram(addr: Addr, payload: seq<Byte>)
  datatype Flight = Idle | Sending(addr: Addr, data: seq<Byte>)
  datatype Sent = Accepted | Refused | Fault
  datatype After = Continued | Drained | MustClose

  // ---------- the bytes of a TCP chain ----------

  function Rest(c: Chunk): seq<Byte>
  {
    if c.begin <= |c.bytes| then c.bytes[c.begin..] else []
  }

  function Pending(cs: seq<Chunk>): seq<Byte>
  {
    if cs == [] then [] else Rest(cs[0]) + Pending(cs[1..])
  }

  lemma {:induction false} PendingAppend(cs: seq<Chunk>, c: Chunk)
    ensures Pending(cs + [c]) == Pending(cs) + Rest(c)
  {
    if cs != [] {
      assert (cs + [c])[1..] == cs[1..] + [c];
      PendingAppend(cs[1..], c);
    } else {
      assert [c][1..] == [];
    }
  }

  function Grown(c: Chunk, more: seq<Byte>): Chunk
  {
    Chunk(c.bytes + more, c.begin)
  }

  // The chain with more written behind what its last chunk holds.
  function Written(cs: seq<Chunk>, more: seq<Byte>): seq<Chunk>
    requires cs != []
  {
    cs[|cs| - 1 := Grown(cs[|cs| - 1], more)]
  }

  // The free bytes of the last chunk.
  function Tail(cs: seq<Chunk>): nat
  {
    if cs == [] || |cs[|cs| - 1].bytes| > CHUNK then 0 else CHUNK - |cs[|cs| - 1].bytes|
  }

  lemma TailWritten(cs: seq<Chunk>, more: seq<Byte>)
    requires 0 < |more| <= Tail(cs)
    ensures |Written(cs, more)| == |cs| && Tail(Written(cs, more)) == Tail(cs) - |more|
  {}

  lemma WrittenLater(cs: seq<Chunk>, more: seq<Byte>)
    requires |cs| > 1
    ensures Written(cs, more)[0] == cs[0] && Written(cs, more)[1..] == Written(cs[1..], more)
  {}

  lemma WrittenOne(cs: seq<Chunk>, more: seq<Byte>)
    requires |cs| == 1
    ensures Written(cs, more) == [Grown(cs[0], more)] && cs[1..] == Written(cs, more)[1..] == []
  {}

  lemma RestGrown(c: Chunk, flying: seq<Byte>, f: seq<Byte>)
    requires c.begin <= |c.bytes| && flying <= Rest(c)
    ensures Rest(Grown(c, f)) == Rest(c) + f && flying <= Rest(c) + f
    ensures (Rest(c) + f)[|flying|..] == Rest(c)[|flying|..] + f
  {}

  // Writing after `_end` of the last chunk adds to the end of the stream.
  lemma {:induction false} PendingGrow(cs: seq<Chunk>, more: seq<Byte>)
    requires cs != [] && cs[|cs| - 1].begin <= |cs[|cs| - 1].bytes|
    ensures Pending(Written(cs, more)) == Pending(cs) + more
    decreases |cs|
  {
    if |cs| == 1 {
      WrittenOne(cs, more);
      RestGrown(cs[0], [], more);
      assert Pending([]) == [];
    } else {
      WrittenLater(cs, more);
      PendingGrow(cs[1..], more);
      Regroup(Rest(cs[0]), Pending(cs[1..]), more);
    }
  }

  // Every chunk still has something to send.
  ghost predicate Solid(cs: seq<Chunk>)
  {
    forall i :: 0 <= i < |cs| ==> cs[i].begin < |cs[i].bytes| <= CHUNK
  }

  // The last chunk may have been added just now.
  ghost predicate Open(cs: seq<Chunk>)
  {
    Solid(cs) || (cs != [] && Solid(cs[..|cs| - 1]) && cs[|cs| - 1] == Chunk([], 0))
  }

  // The port still reads what it was given.
  ghost predicate Carries(cs: seq<Chunk>, flight: Flight)
  {
    flight.Sending? ==> cs != [] && flight.data <= Rest(cs[0])
  }

  // Bytes written to the last chunk.
  lemma StreamGrow(cs: seq<Chunk>, piece: seq<Byte>, flight: Flight)
    requires Open(cs) && Carries(cs, flight) && cs != [] && piece != [] && |cs[|cs| - 1].bytes| + |piece| <= CHUNK
    ensures var cs' := Written(cs, piece);
      Solid(cs') && Carries(cs', flight) && Pending(cs') == Pending(cs) + piece
  {
    var n := |cs| - 1;
    assert forall i :: 0 <= i < n ==> cs[i] == cs[..n][i];
    PendingGrow(cs, piece);
  }

  // A chunk added at the end.
  lemma StreamExtend(cs: seq<Chunk>, flight: Flight)
    requires Solid(cs) && Carries(cs, flight)
    ensures var cs' := cs + [Chunk([], 0)]; Open(cs') && Carries(cs', flight) && Pending(cs') == Pending(cs)
  {
    PendingAppend(cs, Chunk([], 0));
    assert (cs + [Chunk([], 0)])[..|cs|] == cs;
  }

  // The first n bytes of the first chunk are sent, which frees it if nothing is left in it.
  function Advanced(cs: seq<Chunk>, n: nat): seq<Chunk>
    requires cs != []
  {
    var c := Chunk(cs[0].bytes, cs[0].begin + n);
    if c.begin == |c.bytes| then cs[1..] else [c] + cs[1..]
  }

  lemma StreamAdvance(cs: seq<Chunk>, n: nat)
    requires Solid(cs) && cs != [] && n <= |Rest(cs[0])|
    ensures Solid(Advanced(cs, n)) && Pending(cs) == Rest(cs[0])[..n] + Pending(Advanced(cs, n))
  {
    var c, more := Chunk(cs[0].bytes, cs[0].begin + n), cs[1..];
    assert Rest(c) == Rest(cs[0])[n..];
    if c.begin < |c.bytes| {
      assert ([c] + more)[0] == c && ([c] + more)[1..] == more;
      SplitRest(Rest(cs[0]), n, Pending(more));
    } else {
      assert Rest(cs[0])[..n] == Rest(cs[0]);
    }
  }

  lemma StreamSent(cs: seq<Chunk>, flight: Flight, n: nat, sent: seq<Byte>)
    requires Solid(cs) && Carries(cs, flight) && flight.Sending? && n <= |flight.data|
    ensures Solid(Advanced(cs, n)) && sent + Pending(cs) == (sent + flight.data[..n]) + Pending(Advanced(cs, n))
  {
    StreamAdvance(cs, n);
    assert Rest(cs[0])[..n] == flight.data[..n];
    Regroup(sent, flight.data[..n], Pending(Advanced(cs, n)));
  }

  lemma SplitRest(r: seq<Byte>, n: nat, p: seq<Byte>)
    requires n <= |r|
    ensures r + p == r[..n] + (r[n..] + p)
  {}

  // ---------- the datagrams of a UDP chain ----------

  function Framed(d: Datagram): (f: seq<Byte>)
    ensures |f| == HEADER + |d.payload|
  {
    d.addr + Little(|d.payload|, 4) + d.payload
  }

  // The datagrams in a chain, or Broken if it is not made of whole datagrams.
  datatype Parsed = Broken | Good(ds: seq<Datagram>)

  function Then(p: Parsed, q: Parsed): Parsed
  {
    if p.Good? && q.Good? then Good(p.ds + q.ds) else Broken
  }

  // One header and payload after the other.
  function Parse(b: seq<Byte>): Parsed
  {
    if b == [] then Good([])
    else if |b| < HEADER then Broken
    else
      var n := Number(b[16..HEADER]);
      if n == 0 || HEADER + n > |b| then Broken
      else Then(Good([Datagram(b[..16], b[HEADER..HEADER + n])]), Parse(b[HEADER + n..]))
  }

  // No chunk is empty; the first one also holds the payload in flight.
  function Unpack(cs: seq<Chunk>, flying: seq<Byte>): Parsed
  {
    if cs == [] then if flying == [] then Good([]) else Broken
    else Then(UnpackOne(cs[0], flying), Unpack(cs[1..], []))
  }

  function UnpackOne(c: Chunk, flying: seq<Byte>): Parsed
  {
    if c.begin < |c.bytes| <= CHUNK && flying <= Rest(c) then Parse(Rest(c)[|flying|..]) else Broken
  }

  lemma PayloadLength(n: nat)
    requires n <= CHUNK
    ensures Number(Little(n, 4)) == n
  {
    assert Power256(4) == 256 * (256 * (256 * 256));
    NumberOfLittle(n, 4);
  }

  lemma FrameParts(d: Datagram)
    ensures var f := Framed(d); f[..16] == d.addr && f[16..HEADER] == Little(|d.payload|, 4) && f[HEADER..] == d.payload
  {}

  lemma ParseFrame(d: Datagram)
    requires d.payload != [] && |d.payload| <= CHUNK
    ensures Parse(Framed(d)) == Good([d])
  {
    var f := Framed(d);
    FrameParts(d);
    PayloadLength(|d.payload|);
    assert f[HEADER..HEADER + |d.payload|] == f[HEADER..] && f[HEADER + |d.payload|..] == [];
  }

  lemma {:induction false} ParseAppend(b: seq<Byte>, d: Datagram)
    requires Parse(b).Good? && d.payload != [] && |d.payload| <= CHUNK
    ensures Parse(b + Framed(d)) == Good(Parse(b).ds + [d])
    decreases |b|
  {
    var f := Framed(d);
    ParseFrame(d);
    if b == [] {
      assert b + f == f;
    } else {
      var n := Number(b[16..HEADER]);
      ParseAppend(b[HEADER + n..], d);
      SameFront(b, f, HEADER + n);
      Regroup([Datagram(b[..16], b[HEADER..HEADER + n])], Parse(b[HEADER + n..]).ds, [d]);
    }
  }

  lemma SameFront(b: seq<Byte>, f: seq<Byte>, n: nat)
    requires HEADER <= n <= |b|
    ensures (b + f)[..16] == b[..16] && (b + f)[16..HEADER] == b[16..HEADER] && (b + f)[HEADER..n] == b[HEADER..n]
    ensures (b + f)[n..] == b[n..] + f
  {}

  lemma GrowOne(c: Chunk, flying: seq<Byte>, d: Datagram)
    requires UnpackOne(c, flying).Good? && d.payload != [] && |c.bytes| + HEADER + |d.payload| <= CHUNK
    ensures UnpackOne(Grown(c, Framed(d)), flying) == Good(UnpackOne(c, flying).ds + [d])
  {
    RestGrown(c, flying, Framed(d));
    ParseAppend(Rest(c)[|flying|..], d);
  }

  // A datagram written behind the others of the last chunk.
  lemma {:induction false} UnpackGrow(cs: seq<Chunk>, flying: seq<Byte>, d: Datagram)
    requires Unpack(cs, flying).Good? && d.payload != [] && HEADER + |d.payload| <= Tail(cs)
    ensures Unpack(Written(cs, Framed(d)), flying) == Good(Unpack(cs, flying).ds + [d])
    decreases |cs|
  {
    if |cs| == 1 {
      GrowOne(cs[0], flying, d);
      WrittenOne(cs, Framed(d));
    } else {
      UnpackGrow(cs[1..], [], d);
      WrittenLater(cs, Framed(d));
      Regroup(UnpackOne(cs[0], flying).ds, Unpack(cs[1..], []).ds, [d]);
    }
  }

  // A datagram written to a new chunk.
  lemma {:induction false} UnpackExtend(cs: seq<Chunk>, flying: seq<Byte>, d: Datagram)
    requires Unpack(cs, flying).Good? && d.payload != [] && HEADER + |d.payload| <= CHUNK
    ensures Unpack(cs + [Chunk(Framed(d), 0)], flying) == Good(Unpack(cs, flying).ds + [d])
    decreases |cs|
  {
    var c := Chunk(Framed(d), 0);
    if cs == [] {
      ParseFrame(d);
      assert [c][1..] == [] && Rest(c)[0..] == Framed(d);
    } else {
      UnpackExtend(cs[1..], [], d);
      assert (cs + [c])[1..] == cs[1..] + [c];
      Regroup(UnpackOne(cs[0], flying).ds, Unpack(cs[1..], []).ds, [d]);
    }
  }

  // The length that stands in the header at the beginning of a chunk.
  function Length(c: Chunk): nat
    requires c.begin + HEADER <= |c.bytes|
  {
    Number(c.bytes[c.begin + 16..c.begin + HEADER])
  }

  ghost predicate HeaderReadable(c: Chunk)
  {
    c.begin + HEADER <= |c.bytes| && c.begin + HEADER + Length(c) <= |c.bytes| && Length(c) > 0
  }

  ghost function Header(c: Chunk): Datagram
    requires HeaderReadable(c)
  {
    var b := c.begin + HEADER;
    Datagram(c.bytes[c.begin..c.begin + 16], c.bytes[b..b + Length(c)])
  }

  lemma HeadOfRest(c: Chunk)
    requires c.begin + HEADER <= |c.bytes|
    ensures var r, b := Rest(c), c.begin + HEADER;
      r[0..] == r && r[16..HEADER] == c.bytes[c.begin + 16..b] && r[..16] == c.bytes[c.begin..c.begin + 16]
  {}

  lemma BodyOfRest(c: Chunk, n: nat)
    requires c.begin + HEADER + n <= |c.bytes|
    ensures var r, b := Rest(c), c.begin + HEADER;
      r[HEADER..HEADER + n] == c.bytes[b..b + n] && r[HEADER + n..] == Rest(Chunk(c.bytes, b))[n..]
    ensures c.bytes[c.begin + HEADER..c.begin + HEADER + n] <= Rest(Chunk(c.bytes, c.begin + HEADER))
  {
    Subsequences(c.bytes, c.begin, HEADER, n);
  }

  lemma Subsequences(s: seq<Byte>, a: nat, h: nat, n: nat)
    requires a + h + n <= |s|
    ensures s[a..][h..h + n] == s[a + h..a + h + n] && s[a..][h + n..] == s[a + h..][n..]
    ensures s[a + h..a + h + n] <= s[a + h..]
  {}

  lemma LaunchOne(c: Chunk)
    requires UnpackOne(c, []).Good?
    ensures HeaderReadable(c)
    ensures UnpackOne(c, []) == Then(Good([Header(c)]), UnpackOne(Chunk(c.bytes, c.begin + HEADER), Header(c).payload))
  {
    HeadOfRest(c);
    BodyOfRest(c, Length(c));
  }

  // The header of the first waiting datagram is passed.
  lemma UnpackLaunch(cs: seq<Chunk>)
    requires Unpack(cs, []).Good? && cs != []
    ensures HeaderReadable(cs[0])
    ensures Unpack(cs, []) == Then(Good([Header(cs[0])]), Unpack(Passed(cs), Header(cs[0]).payload))
  {
    var c' := Chunk(cs[0].bytes, cs[0].begin + HEADER);
    LaunchOne(cs[0]);
    assert Passed(cs)[0] == c' && Passed(cs)[1..] == cs[1..];
    ThenLater(Good([Header(cs[0])]), UnpackOne(c', Header(cs[0]).payload), Unpack(cs[1..], []));
  }

  // What is waiting after that.
  lemma {:induction false} WaitingAfter(cs: seq<Chunk>, all: seq<Datagram>, n: nat)
    requires n <= |all| && Unpack(cs, []) == Good(all[n..]) && cs != []
    ensures n < |all| && HeaderReadable(cs[0]) && all[n] == Header(cs[0])
    ensures Unpack(Passed(cs), Header(cs[0]).payload) == Good(all[n + 1..])
  {
    UnpackLaunch(cs);
    FirstAndRest(all, n, Header(cs[0]), Unpack(Passed(cs), Header(cs[0]).payload).ds);
  }

  lemma WaitingMore(all: seq<Datagram>, handed: seq<Datagram>, d: Datagram)
    requires handed <= all
    ensures handed <= all + [d] && (all + [d])[|handed|..] == all[|handed|..] + [d]
  {}

  lemma NextHanded(all: seq<Datagram>, handed: seq<Datagram>)
    requires handed <= all && |handed| < |all|
    ensures handed + [all[|handed|]] <= all
  {}

  lemma FirstAndRest(all: seq<Datagram>, n: nat, d: Datagram, w: seq<Datagram>)
    requires n <= |all| && all[n..] == [d] + w
    ensures n < |all| && all[n] == d && all[n + 1..] == w
  {
    assert all[n..][0] == all[n] && all[n..][1..] == all[n + 1..];
  }

  function Passed(cs: seq<Chunk>): seq<Chunk>
    requires cs != []
  {
    cs[0 := Chunk(cs[0].bytes, cs[0].begin + HEADER)]
  }

  lemma ThenLater(p: Parsed, q: Parsed, r: Parsed)
    ensures Then(Then(p, q), r) == Then(p, Then(q, r))
  {}

  // The datagram in flight is done with.
  lemma UnpackAdvance(cs: seq<Chunk>, flying: seq<Byte>)
    requires Unpack(cs, flying).Good? && cs != [] && flying != []
    ensures Unpack(Advanced(cs, |flying|), []) == Unpack(cs, flying)
  {
    var c := Chunk(cs[0].bytes, cs[0].begin + |flying|);
    var r := Rest(cs[0])[|flying|..];
    assert Rest(c) == r;
    if c.begin == |c.bytes| {
      assert Parse(r) == Good([]);
      assert [] + Unpack(cs[1..], []).ds == Unpack(cs[1..], []).ds;
    } else {
      assert ([c] + cs[1..])[1..] == cs[1..] && r[0..] == r;
    }
  }

  function Blank(n: nat): seq<Chunk>
  {
    seq(n, i => Chunk([], 0))
  }

  // A datagram stored in the last of the chunks, or in the one just added.
  lemma UnpackStore(cs: seq<Chunk>, added: nat, cs': seq<Chunk>, flying: seq<Byte>, d: Datagram)
    requires Unpack(cs, flying).Good? && d.payload != [] && added <= 1
    requires cs' == cs + Blank(added) && HEADER + |d.payload| <= Tail(cs')
    ensures Unpack(Written(cs', Framed(d)), flying) == Good(Unpack(cs, flying).ds + [d])
  {
    if added == 0 {
      NoneAdded(cs);
      UnpackGrow(cs', flying, d);
    } else {
      LastAdded(cs, Framed(d));
      UnpackExtend(cs, flying, d);
    }
  }

  lemma StoreKeeps(before: seq<Chunk>, added: nat, cs: seq<Chunk>, flying: seq<Byte>,
                   accepted: seq<Datagram>, handed: seq<Datagram>, d: Datagram)
    requires handed <= accepted && Unpack(before, flying) == Good(accepted[|handed|..])
    requires added <= 1 && cs == before + Blank(added) && HEADER + |d.payload| <= Tail(cs) && d.payload != []
    ensures handed <= accepted + [d] && Unpack(Written(cs, Framed(d)), flying) == Good((accepted + [d])[|handed|..])
  {
    UnpackStore(before, added, cs, flying, d);
    WaitingMore(accepted, handed, d);
  }

  lemma OneAdded(cs: seq<Chunk>, n: nat)
    ensures cs + Blank(n) + [Chunk([], 0)] == cs + Blank(n + 1)
    ensures |cs + Blank(n)| > 0 <==> cs != [] || n > 0
  {}

  lemma BlankTail(cs: seq<Chunk>, n: nat)
    requires n > 0
    ensures Tail(cs + Blank(n)) == CHUNK
  {}

  // Where a datagram of n bytes goes, or that it goes nowhere.
  lemma PlaceFound(before: seq<Chunk>, added: nat, cs: seq<Chunk>, n: nat)
    requires cs == before + Blank(added) && (HEADER + n <= CHUNK ==> added <= 1)
    requires added > 0 ==> HEADER + n > Tail(before)
    ensures HEADER + n <= CHUNK ==>
      if added == 0 then cs == before else HEADER + n <= Tail(cs) && Tail(cs) == CHUNK && HEADER + n > Tail(before)
    ensures HEADER + n > CHUNK ==> HEADER + n > Tail(cs)
    ensures added == 0 ==> cs == before
  {
    if added == 0 { NoneAdded(before); } else { BlankTail(before, added); }
  }

  lemma NoneAdded(cs: seq<Chunk>)
    ensures cs + Blank(0) == cs
  {}

  lemma LastAdded(cs: seq<Chunk>, f: seq<Byte>)
    ensures var cs' := cs + Blank(1); Written(cs', f) == cs + [Chunk(f, 0)]
  {
    assert [] + f == f;
  }

  // ---------- what one call sends ----------

  function Concat(bulk: seq<seq<Byte>>): seq<Byte>
  {
    if bulk == [] then [] else Concat(bulk[..|bulk| - 1]) + bulk[|bulk| - 1]
  }

  // Empty buffers are passed over.
  function Datagrams(addr: Addr, bulk: seq<seq<Byte>>): seq<Datagram>
  {
    if bulk == [] then []
    else
      var b := bulk[|bulk| - 1];
      Datagrams(addr, bulk[..|bulk| - 1]) + if b == [] then [] else [Datagram(addr, b)]
  }

  lemma {:induction false} ConcatPrefix(bulk: seq<seq<Byte>>, i: nat, k: nat)
    requires i < |bulk| && k <= |bulk[i]|
    ensures Concat(bulk[..i]) + bulk[i][..k] <= Concat(bulk)
    ensures k < |bulk[i]| ==> |Concat(bulk[..i]) + bulk[i][..k]| < |Concat(bulk)|
    decreases |bulk|
  {
    var n := |bulk| - 1;
    if i < n {
      assert bulk[..n][..i] == bulk[..i];
      ConcatPrefix(bulk[..n], i, k);
    }
  }

  ghost predicate AllEmpty(bulk: seq<seq<Byte>>)
  {
    forall i :: 0 <= i < |bulk| ==> bulk[i] == []
  }

  lemma NextBuffer(bulk: seq<seq<Byte>>, i: nat, to: Addr)
    requires i < |bulk|
    ensures AllEmpty(bulk[..i + 1]) <==> AllEmpty(bulk[..i]) && bulk[i] == []
    ensures Datagrams(to, bulk[..i + 1]) == Datagrams(to, bulk[..i]) + if bulk[i] == [] then [] else [Datagram(to, bulk[i])]
  {
    assert bulk[..i + 1][..i] == bulk[..i] && bulk[..i + 1][i] == bulk[i];
    assert forall k :: 0 <= k < i ==> bulk[..i + 1][k] == bulk[..i][k];
  }

  lemma DatagramsNext(before: seq<Datagram>, bulk: seq<seq<Byte>>, i: nat, to: Addr)
    requires i < |bulk|
    ensures before + Datagrams(to, bulk[..i + 1]) ==
      (before + Datagrams(to, bulk[..i])) + if bulk[i] == [] then [] else [Datagram(to, bulk[i])]
  {
    NextBuffer(bulk, i, to);
    Regroup(before, Datagrams(to, bulk[..i]), if bulk[i] == [] then [] else [Datagram(to, bulk[i])]);
  }

  lemma {:induction false} ConcatEmpty(bulk: seq<seq<Byte>>)
    ensures Concat(bulk) == [] <==> AllEmpty(bulk)
  {
    var n := |bulk| - 1;
    if bulk != [] {
      ConcatEmpty(bulk[..n]);
      assert bulk[..n + 1] == bulk;
      NextBuffer(bulk, n, seq(16, i => 0));
    }
  }

  // The bytes a TCP pin can still take, with the chunks the allocator has left.
  function Space(cs: seq<Chunk>, room: nat): nat
  {
    Tail(cs) + CHUNK * room
  }

  function Fitting(b: seq<Byte>, space: nat): seq<Byte>
  {
    if |b| <= space then b else b[..space]
  }

  lemma FittingPart(b: seq<Byte>, space: nat, n: nat)
    requires n == |b| <= space || n == space < |b|
    ensures Fitting(b, space) == b[..n] && |Fitting(b, space)| == n
  {}

  // A buffer of a bulk that fits, and one that does not.
  lemma NextFits(bulk: seq<seq<Byte>>, i: nat)
    requires i < |bulk|
    ensures Concat(bulk[..i + 1]) == Concat(bulk[..i]) + bulk[i]
  {
    assert bulk[..i + 1][..i] == bulk[..i];
  }

  lemma NextDoesNot(bulk: seq<seq<Byte>>, i: nat, space: nat)
    requires i < |bulk| && |Concat(bulk[..i])| <= space < |Concat(bulk[..i])| + |bulk[i]|
    ensures |Concat(bulk)| > space
    ensures Fitting(Concat(bulk), space) == Concat(bulk[..i]) + bulk[i][..space - |Concat(bulk[..i])|]
  {
    ConcatPrefix(bulk, i, space - |Concat(bulk[..i])|);
  }

  // Datagrams are put behind one another into the last chunk, and each that does not fit there begins a new one: how
  // many new ones that takes, and what is left free in the last.
  datatype Packing = Packing(need: nat, tail: nat)

  function Packed(bulk: seq<seq<Byte>>, tail: nat): Packing
  {
    if bulk == [] then Packing(0, tail)
    else Pack(Packed(bulk[..|bulk| - 1], tail), |bulk[|bulk| - 1]|)
  }

  function Pack(p: Packing, n: nat): Packing
  {
    if n == 0 then p
    else if HEADER + n <= p.tail then Packing(p.need, p.tail - HEADER - n)
    else Packing(p.need + 1, if HEADER + n <= CHUNK then CHUNK - HEADER - n else 0)
  }

  // Every datagram of the bulk finds a place.
  ghost predicate Fits(bulk: seq<seq<Byte>>, tail: nat, room: nat)
  {
    (forall i :: 0 <= i < |bulk| && bulk[i] != [] ==> HEADER + |bulk[i]| <= CHUNK) && Packed(bulk, tail).need <= room
  }

  // The longest first part of the bulk that does.
  ghost function Stored(bulk: seq<seq<Byte>>, tail: nat, room: nat): (m: nat)
    ensures m <= |bulk| && Fits(bulk[..m], tail, room) && (Fits(bulk, tail, room) <==> m == |bulk|)
  {
    assert bulk[..|bulk|] == bulk;
    assert forall m :: 0 <= m < |bulk| ==> bulk[..|bulk| - 1][..m] == bulk[..m];
    if Fits(bulk, tail, room) then |bulk| else Stored(bulk[..|bulk| - 1], tail, room)
  }

  // The buffer behind it passes the guard on long datagrams but fits into no chunk, and there are chunks to try.
  ghost predicate Drains(bulk: seq<seq<Byte>>, tail: nat, room: nat)
  {
    var m := Stored(bulk, tail, room);
    m < |bulk| && CHUNK - HEADER < |bulk[m]| <= CHUNK + HEADER && Packed(bulk[..m], tail).need < room
  }

  // The chunks that are left behind it: none, but where the guard ends the call.
  ghost function Left(bulk: seq<seq<Byte>>, tail: nat, room: nat): nat
  {
    var m := Stored(bulk, tail, room);
    if m < |bulk| && |bulk[m]| <= CHUNK + HEADER then 0 else room - Packed(bulk[..m], tail).need
  }

  lemma FitsNext(bulk: seq<seq<Byte>>, i: nat, tail: nat, room: nat)
    requires i < |bulk| && Fits(bulk[..i], tail, room)
    ensures Packed(bulk[..i + 1], tail) == Pack(Packed(bulk[..i], tail), |bulk[i]|)
    ensures Fits(bulk[..i + 1], tail, room) <==>
      bulk[i] == [] || (HEADER + |bulk[i]| <= CHUNK && Packed(bulk[..i + 1], tail).need <= room)
  {
    var b := bulk[..i + 1];
    assert b[..i] == bulk[..i] && b[i] == bulk[i];
    assert forall k :: 0 <= k < i ==> b[k] == bulk[..i][k];
  }

  // A first part of a bulk that fits does so too.
  lemma FitsLess(bulk: seq<seq<Byte>>, tail: nat, room: nat)
    requires bulk != [] && Fits(bulk, tail, room)
    ensures Fits(bulk[..|bulk| - 1], tail, room)
  {}

  lemma {:induction false} StoredIs(bulk: seq<seq<Byte>>, i: nat, tail: nat, room: nat)
    requires i < |bulk| && Fits(bulk[..i], tail, room) && !Fits(bulk[..i + 1], tail, room)
    ensures !Fits(bulk, tail, room) && Stored(bulk, tail, room) == i
  {
    var n := |bulk| - 1;
    if i == n {
      assert bulk[..i + 1] == bulk;
    } else {
      assert bulk[..n][..i] == bulk[..i] && bulk[..n][..i + 1] == bulk[..i + 1];
      StoredIs(bulk[..n], i, tail, room);
      if Fits(bulk, tail, room) {
        FitsLess(bulk, tail, room);
      }
    }
  }

  // A pin as it is at the beginning of a call: what it has taken, what it can still take, and whether the chain is null.
  datatype Mark = Mark(taken: seq<Byte>, accepted: seq<Datagram>, tail: nat, room: nat, total: nat, torn: bool, blank: bool) {
    function Space(): nat {
      tail + CHUNK * room
    }
  }

  lemma OneChunk(room: nat)
    requires room > 0
    ensures CHUNK * room == CHUNK * (room - 1) + CHUNK
  {}

  // One buffer more of a TCP bulk, and of a UDP bulk.
  lemma StreamNext(o: Mark, bulk: seq<seq<Byte>>, i: nat, before: seq<Byte>, after: seq<Byte>, left: nat)
    requires i < |bulk| && before == o.taken + Concat(bulk[..i]) && |Concat(bulk[..i])| + left == o.Space()
    requires after == before + Fitting(bulk[i], left)
    ensures |bulk[i]| <= left ==>
      after == o.taken + Concat(bulk[..i + 1]) && |Concat(bulk[..i + 1])| == |Concat(bulk[..i])| + |bulk[i]|
    ensures |bulk[i]| > left ==>
      |Concat(bulk)| > o.Space() && after == o.taken + Fitting(Concat(bulk), o.Space())
  {
    Regroup(o.taken, Concat(bulk[..i]), Fitting(bulk[i], left));
    if |bulk[i]| <= left {
      NextFits(bulk, i);
    } else {
      NextDoesNot(bulk, i, o.Space());
    }
  }

  lemma StowNext(o: Mark, bulk: seq<seq<Byte>>, i: nat, room: nat, tail: nat)
    requires i < |bulk| && Fits(bulk[..i], o.tail, o.room) && room <= o.room
    requires Packed(bulk[..i], o.tail) == Packing(o.room - room, tail)
    ensures var p := Pack(Packing(0, tail), |bulk[i]|);
      Packed(bulk[..i + 1], o.tail) == Packing(o.room - room + p.need, p.tail)
    ensures Fits(bulk[..i + 1], o.tail, o.room) <==>
      bulk[i] == [] || (HEADER + |bulk[i]| <= CHUNK && (room > 0 || HEADER + |bulk[i]| <= tail))
  {
    FitsNext(bulk, i, o.tail, o.room);
  }

  lemma StowStops(o: Mark, bulk: seq<seq<Byte>>, i: nat, room: nat, tail: nat)
    requires i < |bulk| && Fits(bulk[..i], o.tail, o.room) && room <= o.room
    requires Packed(bulk[..i], o.tail) == Packing(o.room - room, tail)
    requires !Fits(bulk[..i + 1], o.tail, o.room)
    ensures !Fits(bulk, o.tail, o.room) && Stored(bulk, o.tail, o.room) == i
    ensures Left(bulk, o.tail, o.room) == if |bulk[i]| > CHUNK + HEADER then room else 0
    ensures Drains(bulk, o.tail, o.room) <==> CHUNK - HEADER < |bulk[i]| <= CHUNK + HEADER && room > 0
  {
    StoredIs(bulk, i, o.tail, o.room);
  }

  lemma TookPiece(before: seq<Byte>, buf: seq<Byte>, i: nat, n: nat)
    requires i <= |buf| && n <= |buf| - i
    ensures (before + buf[..i]) + buf[i..][..n] == before + buf[..i + n]
  {}

  // The send side of a pin. The port may be asked for one send at a time: the send
  // bit stays set from the request until the on_send callback has returned.
  class Pin {
    const tcp: bool
    var chunks: seq<Chunk>       // from _shead to _stail
    var inProgress: bool         // the send bit of _in_progress_mask
    var invoking: bool           // the send bit of _callback_invoking_mask
    var flight: Flight           // what the port is sending
    var room: nat                // chunks the allocator, which all pins share, can still give

    ghost var taken: seq<Byte>                // TCP: bytes put into the chain
    ghost var sent: seq<Byte>                 // TCP: bytes the port reported as sent
    ghost var accepted: seq<Datagram>         // UDP: datagrams put into the chain
    ghost var handed: seq<Datagram>           // UDP: datagrams given to the port
    ghost var torn: bool                      // UDP: a header was passed without its datagram, or a chunk is empty

    // The bytes sent and the bytes in the chain are the bytes taken, in order.
    ghost predicate StreamKept()
      reads this
    {
      Solid(chunks) && Carries(chunks, flight) && taken == sent + Pending(chunks)
    }

    // The same while a call is adding to the chain, when the last chunk may be empty.
    ghost predicate Growing()
      reads this
    {
      Open(chunks) && Carries(chunks, flight) && taken == sent + Pending(chunks)
    }

    ghost function Flying(): seq<Byte>
      reads this
    {
      if flight.Sending? then flight.data else []
    }

    // The datagrams given to the port are the first ones accepted, and the chain holds exactly the others;
    // in flight is the last one given.
    ghost predicate DatagramsKept()
      reads this
    {
      handed <= accepted && Unpack(chunks, Flying()) == Good(accepted[|handed|..]) && LastInFlight()
    }

    ghost predicate LastInFlight()
      reads this`flight, this`handed
    {
      flight.Sending? ==>
        flight.data != [] && handed != [] && handed[|handed| - 1] == Datagram(flight.addr, flight.data)
    }

    ghost predicate Kept()
      reads this
    {
      (tcp ==> StreamKept()) && (!tcp && !torn ==> DatagramsKept())
    }

    // Exactly one request is with the port, or the callback is running, if and only if the send bit is set.
    ghost predicate OneOutstanding()
      reads this
    {
      (inProgress <==> flight.Sending? || invoking) && !(flight.Sending? && invoking)
    }

    ghost predicate Valid()
      reads this
    {
      Kept() && OneOutstanding()
    }

    constructor (tcp: bool, room: nat)
      ensures Valid() && this.tcp == tcp && this.room == room && !torn && !inProgress && chunks == []
      ensures taken == [] && sent == [] && accepted == [] && handed == []
    {
      this.tcp, this.room, chunks, inProgress, invoking, flight := tcp, room, [], false, false, Idle;
      taken, sent, accepted, handed, torn := [], [], [], [], false;
    }

    // ---------- putting buffers into the chain ----------

    method CopyToTail(piece: seq<Byte>)
      requires Growing()
      requires 0 < |piece| <= Tail(chunks)
      modifies this`chunks, this`taken
      ensures StreamKept() && taken == old(taken) + piece
      ensures |chunks| == old(|chunks|) && Tail(chunks) == old(Tail(chunks)) - |piece|
    {
      StreamGrow(chunks, piece, flight);
      Regroup(sent, Pending(chunks), piece);
      TailWritten(chunks, piece);
      chunks := Written(chunks, piece);
      taken := taken + piece;
    }

    // Chunks in the chain and chunks to be had: no call loses one.
    ghost function Total(): nat
      reads this
    {
      |chunks| + room
    }

    method AddChunk() returns (ok: bool)
      modifies this`chunks, this`room
      ensures ok <==> old(room) > 0
      ensures if ok then room == old(room) - 1 && chunks == old(chunks) + [Chunk([], 0)] else chunks == old(chunks)
      ensures !ok ==> room == 0
    {
      ok := room > 0;
      if ok {
        room := room - 1;
        chunks := chunks + [Chunk([], 0)];
      }
    }

    method AddToStream() returns (ok: bool)
      requires StreamKept() && Tail(chunks) == 0
      modifies this`chunks, this`room
      ensures ok <==> old(Space(chunks, room)) > 0
      ensures Space(chunks, room) == old(Space(chunks, room)) && Growing() && Total() == old(Total())
      ensures if ok then room < old(room) && chunks != [] else chunks == old(chunks)
    {
      if room > 0 {
        StreamExtend(chunks, flight);
        OneChunk(room);
      }
      ok := AddChunk();
    }

    // One round of the loop: bytes are copied to the last chunk, or a chunk is added.
    method PutPiece(rest: seq<Byte>) returns (ok: bool, clen: nat)
      requires Growing() && rest != []
      modifies this`chunks, this`room, this`taken
      ensures Growing() && Total() == old(Total())
      ensures ok <==> old(Space(chunks, room)) > 0
      ensures clen <= |rest| && taken == old(taken) + rest[..clen] && Space(chunks, room) == old(Space(chunks, room)) - clen
      ensures if ok then chunks != [] else Solid(chunks) && clen == 0
      ensures ok ==> if clen > 0 then Solid(chunks) && room <= old(room) else room < old(room)
    {
      ok, clen := true, 0;
      if chunks == [] {
        ok := AddToStream();
      }
      if ok {
        ok, clen := FillTail(rest);
      }
    }

    method FillTail(rest: seq<Byte>) returns (ok: bool, clen: nat)
      requires Growing() && rest != [] && chunks != []
      modifies this`chunks, this`room, this`taken
      ensures Growing() && Total() == old(Total()) && chunks != []
      ensures ok <==> old(Space(chunks, room)) > 0
      ensures clen <= |rest| && taken == old(taken) + rest[..clen] && Space(chunks, room) == old(Space(chunks, room)) - clen
      ensures clen > 0 || !ok ==> Solid(chunks)
      ensures if clen > 0 then room == old(room) else !ok || room < old(room)
    {
      clen := 0;
      var end := |chunks[|chunks| - 1].bytes|;
      if end < CHUNK {
        clen := if CHUNK - end < |rest| then CHUNK - end else |rest|;
        CopyToTail(rest[..clen]);
        ok := true;
      } else {
        ok := AddToStream();
      }
    }

    // A TCP buffer fills the last chunk and then further chunks, as far as there is space.
    method PutStream(buf: seq<Byte>) returns (ok: bool)
      requires StreamKept()
      modifies this`chunks, this`room, this`taken
      ensures StreamKept() && (ok && (buf != [] || old(chunks) != []) ==> chunks != []) && Total() == old(Total())
      ensures ok <==> |buf| <= old(Space(chunks, room))
      ensures taken == old(taken) + Fitting(buf, old(Space(chunks, room)))
      ensures Space(chunks, room) == old(Space(chunks, room)) - |Fitting(buf, old(Space(chunks, room)))|
    {
      ghost var space := Space(chunks, room);
      var offset := 0;
      while offset < |buf|
        invariant offset <= |buf| && taken == old(taken) + buf[..offset]
        invariant Space(chunks, room) == space - offset && Total() == old(Total())
        invariant Growing()
        invariant offset == |buf| ==> Solid(chunks)
        invariant offset > 0 || old(chunks) != [] ==> chunks != []
        decreases |buf| - offset, room
      {
        var clen;
        ok, clen := PutPiece(buf[offset..]);
        TookPiece(old(taken), buf, offset, clen);
        offset := offset + clen;
        if !ok {
          FittingPart(buf, space, offset);
          return;
        }
      }
      FittingPart(buf, space, offset);
      ok := true;
    }

    // The header and the payload are written behind what the last chunk holds.
    method Store(addr: Addr, buf: seq<Byte>, ghost before: seq<Chunk>, ghost added: nat)
      requires handed <= accepted && Unpack(before, Flying()) == Good(accepted[|handed|..])
      requires added <= 1 && chunks == before + Blank(added) && HEADER + |buf| <= Tail(chunks) && buf != []
      modifies this`chunks, this`accepted
      ensures accepted == old(accepted) + [Datagram(addr, buf)]
      ensures |chunks| == old(|chunks|) && Tail(chunks) == old(Tail(chunks)) - HEADER - |buf|
      ensures handed <= accepted && Unpack(chunks, Flying()) == Good(accepted[|handed|..])
      ensures old(LastInFlight()) ==> DatagramsKept()
    {
      ghost var d := Datagram(addr, buf);
      StoreKeeps(before, added, chunks, Flying(), accepted, handed, d);
      var frame := addr + Little(|buf|, 4) + buf;
      TailWritten(chunks, frame);
      chunks := Written(chunks, frame);
      accepted := accepted + [d];
    }

    // A UDP buffer goes behind its header into one chunk. One that does not fit into any chunk uses up the allocator.
    method PutDatagram(addr: Addr, buf: seq<Byte>) returns (ok: bool)
      requires DatagramsKept() && !torn && buf != []
      modifies this`chunks, this`room, this`accepted, this`torn
      ensures ok <==> HEADER + |buf| <= CHUNK && (old(room) > 0 || HEADER + |buf| <= old(Tail(chunks)))
      ensures ok ==> DatagramsKept() && accepted == old(accepted) + [Datagram(addr, buf)] && chunks != []
      ensures ok && HEADER + |buf| <= old(Tail(chunks)) ==>
        room == old(room) && Tail(chunks) == old(Tail(chunks)) - HEADER - |buf|
      ensures ok && HEADER + |buf| > old(Tail(chunks)) ==>
        room == old(room) - 1 && Tail(chunks) == CHUNK - HEADER - |buf|
      ensures !ok ==> room == 0 && accepted == old(accepted) && (torn || (DatagramsKept() && chunks == old(chunks)))
      ensures (torn <==> HEADER + |buf| > CHUNK && old(room) > 0) && Total() == old(Total())
    {
      ghost var before, added := chunks, 0;
      ok, added := FindPlace(|buf|);
      PlaceFound(before, added, chunks, |buf|);
      if ok {
        Store(addr, buf, before, added);
      }
    }

    // Chunks are added until the datagram fits into the last one, or no chunk is to be had.
    method FindPlace(n: nat) returns (ok: bool, ghost added: nat)
      requires !torn && n > 0
      modifies this`chunks, this`room, this`torn
      ensures Looking(old(chunks), old(room), added, n)
      ensures if ok then HEADER + n <= Tail(chunks) else HEADER + n > Tail(chunks) && room == 0
    {
      added := 0;
      NoneAdded(chunks);
      ok := true;
      while chunks == [] || CHUNK - |chunks[|chunks| - 1].bytes| < HEADER + n
        invariant Looking(old(chunks), old(room), added, n)
        decreases room
      {
        ok, added := AddForDatagram(old(chunks), old(room), added, n);
        if !ok {
          return;
        }
      }
    }

    // The search for a place has added chunks, which stay empty if the datagram fits into none.
    ghost predicate Looking(before: seq<Chunk>, room0: nat, added: nat, n: nat)
      reads this
    {
      && chunks == before + Blank(added) && room + added == room0
      && (HEADER + n <= CHUNK ==> added <= 1) && torn == (HEADER + n > CHUNK && added > 0)
      && (added > 0 ==> HEADER + n > Tail(before))
    }

    // One chunk more.
    method AddForDatagram(ghost before: seq<Chunk>, ghost room0: nat, ghost added: nat, ghost n: nat)
      returns (ok: bool, ghost added': nat)
      requires Looking(before, room0, added, n) && HEADER + n > Tail(chunks)
      modifies this`chunks, this`room, this`torn
      ensures Looking(before, room0, added', n) && (ok ==> chunks != [] && room < old(room))
      ensures if ok then added' == added + 1 else added' == added && room == 0 && chunks == old(chunks) && torn == old(torn)
    {
      OneAdded(before, added);
      NoneAdded(before);
      if added > 0 { BlankTail(before, added); }
      ok := AddChunk();
      added' := added;
      if ok {
        added', torn := added + 1, HEADER + n > CHUNK;
      }
    }

    // Whether a buffer of a bulk can be taken.
    ghost predicate Takes(buf: seq<Byte>)
      reads this
    {
      if tcp then |buf| <= Space(chunks, room)
      else HEADER + |buf| <= CHUNK && (room > 0 || HEADER + |buf| <= Tail(chunks))
    }

    // One buffer of a bulk.
    method Put(buf: seq<Byte>, to: Addr) returns (ok: bool)
      requires Kept() && (tcp || !torn) && buf != []
      modifies this`chunks, this`room, this`taken, this`accepted, this`torn
      ensures Kept() && (ok <==> old(Takes(buf))) && (ok ==> chunks != []) && Total() == old(Total())
      ensures tcp ==> accepted == old(accepted) && torn == old(torn)
      ensures tcp ==> taken == old(taken) + Fitting(buf, old(Space(chunks, room)))
      ensures tcp ==> Space(chunks, room) == old(Space(chunks, room)) - |Fitting(buf, old(Space(chunks, room)))|
      ensures !tcp ==> taken == old(taken) && accepted == old(accepted) + if ok then [Datagram(to, buf)] else []
      ensures !tcp && ok ==> room <= old(room)
      ensures !tcp && ok ==> Pack(Packing(0, old(Tail(chunks))), |buf|) == Packing(old(room) - room, Tail(chunks))
      ensures !tcp && !ok ==> room == if |buf| > CHUNK + HEADER then old(room) else 0
      ensures !tcp ==> (torn <==> CHUNK - HEADER < |buf| <= CHUNK + HEADER && old(room) > 0)
    {
      if tcp {
        ok := PutStream(buf);
      } else {
        if |buf| > CHUNK + HEADER {
          return false;
        }
        ok := PutDatagram(to, buf);
      }
    }

    // The pin has taken the buffers `done` since it was as described by `o`.
    ghost predicate Streamed(o: Mark, done: seq<seq<Byte>>)
      reads this
    {
      && taken == o.taken + Concat(done) && accepted == o.accepted
      && |Concat(done)| <= o.Space() && Space(chunks, room) == o.Space() - |Concat(done)|
    }

    ghost predicate Stowed(o: Mark, done: seq<seq<Byte>>, to: Addr)
      reads this
    {
      && taken == o.taken && accepted == o.accepted + Datagrams(to, done)
      && Fits(done, o.tail, o.room) && room <= o.room && Packed(done, o.tail) == Packing(o.room - room, Tail(chunks))
    }

    ghost predicate Has(o: Mark, done: seq<seq<Byte>>, to: Addr)
      reads this
    {
      && Kept() && torn == o.torn && Total() == o.total && (chunks == [] <==> AllEmpty(done) && o.blank)
      && if tcp then Streamed(o, done) else Stowed(o, done, to)
    }

    // What of the bulk was taken, whether it is all of it or not.
    ghost predicate Done(o: Mark, bulk: seq<seq<Byte>>, to: Addr)
      reads this
    {
      if tcp then StreamDone(o, bulk) else StowDone(o, bulk, to)
    }

    ghost predicate StreamDone(o: Mark, bulk: seq<seq<Byte>>)
      reads this
    {
      && taken == o.taken + Fitting(Concat(bulk), o.Space()) && accepted == o.accepted
      && Space(chunks, room) == o.Space() - |Fitting(Concat(bulk), o.Space())|
    }

    ghost predicate StowDone(o: Mark, bulk: seq<seq<Byte>>, to: Addr)
      reads this
    {
      && accepted == o.accepted + Datagrams(to, bulk[..Stored(bulk, o.tail, o.room)])
      && room == Left(bulk, o.tail, o.room) && taken == o.taken
    }

    // The pin could not take all of the bulk.
    ghost predicate Stopped(o: Mark, bulk: seq<seq<Byte>>, to: Addr)
      reads this
    {
      && Kept() && Total() == o.total && !AllEmpty(bulk)
      && (if tcp then |Concat(bulk)| > o.Space() && torn == o.torn
          else !Fits(bulk, o.tail, o.room) && torn == Drains(bulk, o.tail, o.room))
      && Done(o, bulk, to)
    }

    // The loop of send_bulk. Where it stops early, the buffers before stay in the chain.
    method PutAll(bulk: seq<seq<Byte>>, to: Addr, ghost o: Mark) returns (ok: bool)
      requires Kept() && (tcp || !torn)
      requires o == Mark(taken, accepted, Tail(chunks), room, Total(), torn, chunks == [])
      modifies this`chunks, this`room, this`taken, this`accepted, this`torn
      ensures if ok then Has(o, bulk, to) else Stopped(o, bulk, to)
    {
      var index := 0;
      while index < |bulk|
        invariant index <= |bulk| && Has(o, bulk[..index], to)
      {
        ok := PutNext(bulk, index, to, o);
        if !ok {
          return;
        }
        index := index + 1;
      }
      assert bulk[..index] == bulk;
      ok := true;
    }

    lemma AllDone(o: Mark, bulk: seq<seq<Byte>>, to: Addr)
      requires Has(o, bulk, to) && (tcp || !o.torn)
      ensures Done(o, bulk, to) && (tcp || !Drains(bulk, o.tail, o.room))
      ensures if tcp then |Concat(bulk)| <= o.Space() else Fits(bulk, o.tail, o.room)
    {
      assert bulk[..|bulk|] == bulk;
    }

    // One round of the loop.
    method PutNext(bulk: seq<seq<Byte>>, i: nat, to: Addr, ghost o: Mark) returns (ok: bool)
      requires i < |bulk| && Has(o, bulk[..i], to) && (tcp || !torn)
      modifies this`chunks, this`room, this`taken, this`accepted, this`torn
      ensures if ok then Has(o, bulk[..i + 1], to) else Stopped(o, bulk, to)
    {
      NextBuffer(bulk, i, to);
      ok := true;
      if bulk[i] != [] {
        ok := Put(bulk[i], to);
      }
      if tcp {
        StreamNext(o, bulk, i, old(taken), taken, old(Space(chunks, room)));
      } else {
        StowNext(o, bulk, i, old(room), old(Tail(chunks)));
        if ok {
          DatagramsNext(o.accepted, bulk, i, to);
        } else {
          StowStops(o, bulk, i, old(room), old(Tail(chunks)));
        }
      }
    }

    // The first waiting piece goes to the port.
    method Launch(accepts: bool) returns (ok: bool)
      requires Kept() && (tcp || !torn) && flight == Idle && chunks != []
      modifies this`chunks, this`flight, this`handed, this`torn
      ensures Kept() && ok == accepts && |chunks| == old(|chunks|)
      ensures ok <==> flight.Sending?
      ensures torn <==> old(torn) || (!tcp && !ok)
      ensures tcp ==> chunks == old(chunks) && (ok ==> flight.data == Rest(chunks[0]))
      ensures if !tcp && ok then |handed| == |old(handed)| + 1 else handed == old(handed)
    {
      if tcp {
        var head := chunks[0];
        if accepts {
          flight := Sending(seq(16, i => 0), head.bytes[head.begin..]);
        }
      } else {
        LaunchDatagram(accepts);
      }
      ok := accepts;
    }

    method ReadHead() returns (addr: Addr, data: seq<Byte>)
      requires chunks != [] && HeaderReadable(chunks[0])
      modifies this`chunks
      ensures chunks == Passed(old(chunks)) && Datagram(addr, data) == Header(old(chunks)[0])
    {
      var head := chunks[0];
      var begin := head.begin + HEADER;
      var requested := Length(head);
      addr, data := head.bytes[head.begin..head.begin + 16], head.bytes[begin..begin + requested];
      chunks := chunks[0 := Chunk(head.bytes, begin)];
    }

    // The header says where to and how much; it is passed whether or not the port accepts.
    method LaunchDatagram(accepts: bool)
      requires DatagramsKept() && flight == Idle && chunks != []
      modifies this`chunks, this`flight, this`handed, this`torn
      ensures |chunks| == old(|chunks|) && (accepts <==> flight.Sending?)
      ensures accepts ==> DatagramsKept() && torn == old(torn) && |handed| == |old(handed)| + 1
      ensures !accepts ==> torn && handed == old(handed)
    {
      WaitingAfter(chunks, accepted, |handed|);
      NextHanded(accepted, handed);
      var addr, data := ReadHead();
      if accepts {
        flight := Sending(addr, data);
        handed := handed + [accepted[|handed|]];
      } else {
        torn := true;
      }
    }

    // ---------- the entry points ----------

    // The whole bulk can be taken.
    ghost predicate HasRoom(bulk: seq<seq<Byte>>)
      reads this
    {
      if tcp then |Concat(bulk)| <= Space(chunks, room) else Fits(bulk, Tail(chunks), room)
    }

    // The last part of send_bulk: unless a send is under way, one is started.
    method StartSend(accepts: bool) returns (r: Sent)
      requires Valid() && (tcp || !torn)
      modifies this`chunks, this`torn, this`inProgress, this`flight, this`handed
      ensures Valid() && |chunks| == old(|chunks|)
      ensures r == Fault <==> old(chunks) == [] && !old(inProgress)
      ensures r == Refused <==> !old(inProgress) && old(chunks) != [] && !accepts
      ensures if r == Accepted then inProgress else inProgress == old(inProgress)
      ensures torn <==> old(torn) || (!tcp && r == Refused)
      ensures tcp ==> chunks == old(chunks)
      ensures old(inProgress) ==> chunks == old(chunks) && flight == old(flight) && handed == old(handed)
      ensures !old(inProgress) && r == Accepted ==>
        if tcp then chunks != [] && flight.Sending? && flight.data == Rest(chunks[0]) else |handed| == |old(handed)| + 1
    {
      if !inProgress {
        if chunks == [] {
          return Fault;
        }
        inProgress := true;
        var ok := Launch(accepts);
        if !ok {
          inProgress := false;
          return Refused;
        }
      }
      return Accepted;
    }

    // send_bulk behind the checks of its arguments.
    method SendSome(bulk: seq<seq<Byte>>, to: Addr, accepts: bool) returns (r: Sent)
      requires Valid() && (tcp || !torn)
      modifies this`chunks, this`room, this`taken, this`accepted, this`torn, this`inProgress, this`flight, this`handed
      ensures Valid() && Total() == old(Total())
      ensures r == Fault <==> AllEmpty(bulk) && old(chunks) == [] && !old(inProgress)
      ensures r == Refused <==>
        !old(HasRoom(bulk)) || (!old(inProgress) && !accepts && !(AllEmpty(bulk) && old(chunks) == []))
      ensures if r == Accepted then inProgress else inProgress == old(inProgress)
      ensures Done(old(Mark(taken, accepted, Tail(chunks), room, Total(), torn, chunks == [])), bulk, to)
      ensures if tcp then torn == old(torn)
        else torn == (old(Drains(bulk, Tail(chunks), room)) || (r == Refused && old(HasRoom(bulk))))
      ensures old(inProgress) ==> flight == old(flight) && handed == old(handed)
      ensures !old(inProgress) && r == Accepted ==>
        if tcp then chunks != [] && flight.Sending? && flight.data == Rest(chunks[0]) else |handed| == |old(handed)| + 1
    {
      ghost var o := Mark(taken, accepted, Tail(chunks), room, Total(), torn, chunks == []);
      var ok := PutAll(bulk, to, o);
      if !ok {
        return Refused;
      }
      AllDone(o, bulk, to);
      r := StartSend(accepts);
    }

    // send_bulk. It is refused if not all buffers can be taken, and then it keeps what it could take; or if it is for it
    // to start a send and the port does not accept that, and then it has taken all of them. The one call that follows a
    // null chain is a bulk of empty buffers on an idle pin.
    method SendBulk(bulk: seq<seq<Byte>>, to: Option<Addr>, accepts: bool) returns (r: Sent)
      requires Valid() && (tcp || !torn)
      modifies this`chunks, this`room, this`taken, this`accepted, this`torn, this`inProgress, this`flight, this`handed
      ensures Valid() && sent == old(sent) && Total() == old(Total())
      ensures r == Fault <==> bulk != [] && (tcp || to.Some?) && AllEmpty(bulk) && old(chunks) == [] && !old(inProgress)
      ensures r == Refused <==>
        bulk == [] || (!tcp && to.None?) || !old(HasRoom(bulk)) ||
        (!old(inProgress) && !accepts && !(AllEmpty(bulk) && old(chunks) == []))
      ensures if r == Accepted then inProgress else inProgress == old(inProgress)
      ensures tcp ==> taken == old(taken) + Fitting(Concat(bulk), old(Space(chunks, room)))
      ensures tcp ==> Space(chunks, room) == old(Space(chunks, room)) - |Fitting(Concat(bulk), old(Space(chunks, room)))|
      ensures tcp ==> (taken == old(taken) <==> AllEmpty(bulk) || old(Space(chunks, room)) == 0)
      ensures tcp ==> accepted == old(accepted) && torn == old(torn)
      ensures !tcp && to.Some? ==>
        accepted == old(accepted) + Datagrams(to.value, bulk[..Stored(bulk, old(Tail(chunks)), old(room))])
      ensures !tcp && to.Some? ==> room == Left(bulk, old(Tail(chunks)), old(room))
      ensures !tcp && to.Some? ==>
        (torn <==> old(Drains(bulk, Tail(chunks), room)) || (r == Refused && bulk != [] && old(HasRoom(bulk))))
      ensures !tcp && to.None? ==> accepted == old(accepted) && room == old(room) && torn == old(torn)
      ensures !tcp ==> taken == old(taken)
      ensures old(inProgress) ==> flight == old(flight) && handed == old(handed)
      ensures !old(inProgress) && r == Accepted ==>
        if tcp then flight.Sending? && flight.data == Rest(chunks[0]) else |handed| == |old(handed)| + 1
    {
      ConcatEmpty(bulk);
      if bulk == [] || (!tcp && to.None?) {
        return Refused;
      }
      r := SendSome(bulk, if to.Some? then to.value else seq(16, i => 0), accepts);
    }

    // The first part of v_on_send: what was sent leaves the chain. A datagram leaves as a whole.
    method Advance(processed: nat)
      requires Kept() && (tcp || !torn) && flight.Sending? && processed <= |flight.data|
      modifies this`chunks, this`room, this`flight, this`sent
      ensures Kept() && flight == Idle && Total() == old(Total())
      ensures old(chunks) != [] && chunks == Advanced(old(chunks), if tcp then processed else |old(flight.data)|)
      ensures tcp ==> sent == old(sent) + old(flight.data)[..processed]
    {
      if tcp {
        StreamSent(chunks, flight, processed, sent);
        sent := sent + flight.data[..processed];
      } else {
        UnpackAdvance(chunks, flight.data);
      }
      DropSent(if tcp then processed else |flight.data|);
      flight := Idle;
    }

    // The offset moves on, and a chunk that is used up goes back to the allocator.
    method DropSent(n: nat)
      requires chunks != []
      modifies this`chunks, this`room
      ensures chunks == Advanced(old(chunks), n) && Total() == old(Total())
    {
      var head := Chunk(chunks[0].bytes, chunks[0].begin + n);
      if head.begin == |head.bytes| {
        chunks, room := chunks[1..], room + 1;
      } else {
        chunks := [head] + chunks[1..];
      }
    }

    // The next piece is sent, or the pin is to be closed.
    method Resume(accepts: bool) returns (r: After)
      requires Kept() && (tcp || !torn) && flight == Idle && chunks != [] && !invoking
      modifies this`chunks, this`flight, this`handed, this`torn, this`inProgress
      ensures Valid() && |chunks| == old(|chunks|)
      ensures if accepts then r == Continued && flight.Sending? && torn == old(torn) else r == MustClose && !inProgress
      ensures accepts ==> if tcp then flight.data == Rest(chunks[0]) else |handed| == |old(handed)| + 1
    {
      inProgress := true;
      var ok := Launch(accepts);
      if ok {
        return Continued;
      }
      inProgress := false;
      return MustClose;
    }

    // v_on_send up to the callback: the next piece is sent, or on_send may run, and then all that was taken is sent.
    method OnSent(processed: nat, accepts: bool) returns (r: After)
      requires Valid() && (tcp || !torn) && flight.Sending? && processed <= |flight.data|
      modifies this`chunks, this`room, this`flight, this`sent, this`handed, this`torn, this`inProgress, this`invoking
      ensures Valid() && Total() == old(Total()) && old(chunks) != []
      ensures tcp ==> sent == old(sent) + old(flight.data)[..processed]
      ensures r == Drained <==> Advanced(old(chunks), if tcp then processed else |old(flight.data)|) == []
      ensures r == Drained ==> invoking && chunks == [] && (if tcp then sent == taken else handed == accepted)
      ensures r == Continued ==> accepts && flight.Sending? && torn == old(torn)
      ensures r == Continued ==> if tcp then flight.data == Rest(chunks[0]) else |handed| == |old(handed)| + 1
      ensures r == MustClose ==> !accepts && !inProgress
    {
      Advance(processed);
      r := Proceed(accepts);
    }

    method Proceed(accepts: bool) returns (r: After)
      requires Kept() && (tcp || !torn) && flight == Idle && inProgress && !invoking
      modifies this`chunks, this`flight, this`handed, this`torn, this`inProgress, this`invoking
      ensures Valid() && |chunks| == old(|chunks|)
      ensures r == Drained <==> old(chunks) == []
      ensures r == Drained ==> invoking && (if tcp then sent == taken else handed == accepted)
      ensures r == Continued ==> accepts && flight.Sending? && torn == old(torn)
      ensures r == Continued ==> if tcp then flight.data == Rest(chunks[0]) else |handed| == |old(handed)| + 1
      ensures r == MustClose ==> !accepts && !inProgress
    {
      if chunks != [] {
        r := Resume(accepts);
        return;
      }
      invoking := true;
      return Drained;
    }

    // v_on_send after the callback, in which more buffers may have been taken.
    method AfterCallback(accepts: bool) returns (r: After)
      requires Valid() && (tcp || !torn) && invoking
      modifies this`chunks, this`flight, this`handed, this`torn, this`inProgress, this`invoking
      ensures Valid() && !invoking && taken == old(taken) && accepted == old(accepted) && sent == old(sent)
      ensures r == Continued <==> old(chunks) != [] && accepts
      ensures r == Continued ==> flight.Sending? && torn == old(torn)
      ensures r == Continued ==> if tcp then flight.data == Rest(chunks[0]) else |handed| == |old(handed)| + 1
      ensures r == Drained <==> old(chunks) == []
      ensures r == Drained ==> !inProgress && chunks == [] && (if tcp then sent == taken else handed == accepted)
    {
      invoking, inProgress := false, false;
      if chunks == [] {
        return Drained;
      }
      r := Resume(accepts);
    }

    // The send bit in v_on_error. What the failed request has delivered is not known; of a datagram the header is gone.
    method OnError()
      requires Valid() && flight.Sending?
      modifies this`flight, this`inProgress, this`torn
      ensures Valid() && !inProgress && flight == Idle && torn == (old(torn) || !tcp)
    {
      flight, inProgress := Idle, false;
      torn := torn || !tcp;
    }
  }

  // ---------- refused, and sent all the same ----------

  lemma ConcatOne(b: seq<Byte>)
    ensures Concat([b]) == b
  {
    assert [b][..0] == [] && Concat([]) == [];
  }

  lemma ConcatTwo(b: seq<Byte>, c: seq<Byte>)
    ensures Concat([b, c]) == b + c
  {
    assert [b, c][..1] == [b];
    ConcatOne(b);
  }

  // With one chunk left, a first buffer that fills it is taken and a second one is not: the call is refused, and the
  // next call sends the first buffer.
  method RefusedInTheMiddle(first: seq<Byte>) returns (pin: Pin, r: Sent, next: Sent)
    requires |first| == CHUNK
    ensures r == Refused && pin.taken == first
    ensures next == Accepted && pin.taken == first && pin.flight.Sending? && pin.flight.data == first
  {
    pin := new Pin(true, 1);
    ConcatTwo(first, [1]);
    r := pin.SendBulk([first, [1]], None, true);
    assert pin.taken == first by {
      assert Fitting(first + [1], CHUNK) == first && [] + first == first;
    }
    ConcatOne([]);
    assert pin.Total() == 1 && Pending(pin.chunks) == first by {
      assert [] + Pending(pin.chunks) == Pending(pin.chunks);
    }
    OnlyOne(pin.chunks);
    next := pin.SendBulk([[]], None, true);
    OnlyOne(pin.chunks);
    assert pin.taken == first by {
      assert Fitting([], 0) == [] && first + [] == first;
    }
  }

  lemma OnlyOne(cs: seq<Chunk>)
    requires |cs| == 1
    ensures Pending(cs) == Rest(cs[0])
  {
    assert Pending(cs[1..]) == [] && Rest(cs[0]) + [] == Rest(cs[0]);
  }

  // With room for it a buffer is accepted or refused as the port is, and taken in both cases; with none it is not.
  method RefusedByThePort(room: nat, accepts: bool) returns (pin: Pin, r: Sent)
    ensures r == if room > 0 && accepts then Accepted else Refused
    ensures pin.taken == if room > 0 then [1, 2, 3] else []
  {
    pin := new Pin(true, room);
    ConcatOne([1, 2, 3]);
    r := pin.SendBulk([[1, 2, 3]], None, accepts);
  }

  // A datagram as long as a chunk passes the guard, and the allocator is used up looking for a place for it.
  method RefusedAndDrained(to: Addr, long: seq<Byte>) returns (pin: Pin, r: Sent)
    requires |long| == CHUNK
    ensures r == Refused && pin.accepted == [Datagram(to, [1])] && pin.room == 0 && pin.torn
  {
    pin := new Pin(false, 5);
    StoredOne([1], long, 5);
    r := pin.SendBulk([[1], long], Some(to), true);
  }

  lemma StoredOne(b: seq<Byte>, long: seq<Byte>, room: nat)
    requires b == [1] && |long| == CHUNK && room > 1
    ensures !Fits([b, long], 0, room) && Stored([b, long], 0, room) == 1 && [b, long][..1] == [b]
    ensures Drains([b, long], 0, room) && Left([b, long], 0, room) == 0
  {
    assert [b, long][..1] == [b] && [b][..0] == [];
    assert [b, long][1] == long;
  }
}
