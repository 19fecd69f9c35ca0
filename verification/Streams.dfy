/**
 * The client's bytes on their way through the proxy: one byte is peeked and one read is made through a
 * buffered reader, after which the raw connection is used; error pages replay what was read.  The network may
 * split the bytes in any way: a connection is the list of the chunks it will deliver.
 */
module Streams {
  import opened Wrappers
  import opened ClientHello
  import ClientHelloGrammar
  import Text

  const BUFFER_SIZE: nat := 4096 // of bufio.NewReader
  const HELLO_SIZE: nat := 16384

  type Bytes = seq<Byte>

  function Min(a: nat, b: nat): nat {
    if a < b then a else b
  }

  // ---------------------------------------------------------------- connections

  /** Everything the chunks hold. */
  function Flatten(chunks: seq<Bytes>): Bytes {
    if chunks == [] then [] else chunks[0] + Flatten(chunks[1..])
  }

  predicate NoneEmpty(chunks: seq<Bytes>) {
    chunks == [] || (chunks[0] != [] && NoneEmpty(chunks[1..]))
  }

  /** One read of at most size bytes never joins two chunks; at the end of the stream it is empty. */
  function RawRead(chunks: seq<Bytes>, size: nat): (Bytes, seq<Bytes>) {
    if chunks == [] then ([], [])
    else if size < |chunks[0]| then (chunks[0][..size], [chunks[0][size..]] + chunks[1..])
    else (chunks[0], chunks[1..])
  }

  /** A read takes a prefix of the stream, and something unless the buffer is empty or the stream is over. */
  lemma RawReadConserves(chunks: seq<Bytes>, size: nat)
    requires NoneEmpty(chunks)
    ensures var (got, rest) := RawRead(chunks, size);
      && got + Flatten(rest) == Flatten(chunks) && |got| <= size && NoneEmpty(rest)
      && (got == [] <==> size == 0 || Flatten(chunks) == [])
  {
    if chunks != [] {
      var (got, rest) := RawRead(chunks, size);
      var (head, tail) := (chunks[0], Flatten(chunks[1..]));
      assert |Flatten(chunks)| == |head| + |tail|;
      if size < |head| {
        assert Flatten(rest) == head[size..] + tail by {
          assert rest[1..] == chunks[1..];
        }
        assert head == got + head[size..];
        Text.Assoc(got, head[size..], tail);
      }
    }
  }

  // ---------------------------------------------------------------- the buffered reader

  /** Bytes read from the connection but not from the reader, and the connection. */
  datatype Reader = Reader(buffered: Bytes, chunks: seq<Bytes>)

  function Pending(s: Reader): Bytes {
    s.buffered + Flatten(s.chunks)
  }

  predicate ValidReader(s: Reader) {
    NoneEmpty(s.chunks) && |s.buffered| <= BUFFER_SIZE
  }

  function Fill(s: Reader): Reader {
    var (got, rest) := RawRead(s.chunks, BUFFER_SIZE);
    if s.buffered == [] then Reader(got, rest) else s
  }

  /** Peek(1): fills an empty buffer with one read. */
  function Peek(s: Reader): (Option<Byte>, Reader) {
    var s' := Fill(s);
    (if s'.buffered == [] then None else Some(s'.buffered[0]), s')
  }

  /** A peek shows the first byte of the stream, if there is one, and takes nothing from it. */
  lemma PeekIsFirst(s: Reader)
    requires ValidReader(s)
    ensures var (first, s') := Peek(s);
      && first == (if Pending(s) == [] then None else Some(Pending(s)[0]))
      && Pending(s') == Pending(s) && ValidReader(s')
  {
    FillConserves(s);
  }

  function Copy(s: Reader, size: nat): (Bytes, Reader) {
    var n := Min(size, |s.buffered|);
    (s.buffered[..n], s.(buffered := s.buffered[n..]))
  }

  /** A read gives what is buffered, or makes one read; large reads of an empty buffer go past it. */
  function BufferedRead(s: Reader, size: nat): (Bytes, Reader) {
    if s.buffered == [] && size >= BUFFER_SIZE then
      var (got, rest) := RawRead(s.chunks, size);
      (got, Reader([], rest))
    else if size == 0 then ([], s)
    else Copy(Fill(s), size)
  }

  lemma FillConserves(s: Reader)
    requires ValidReader(s)
    ensures Pending(Fill(s)) == Pending(s) && ValidReader(Fill(s))
    ensures Fill(s).buffered == [] <==> Pending(s) == []
  {
    RawReadConserves(s.chunks, BUFFER_SIZE);
  }

  lemma CopyConserves(s: Reader, size: nat)
    requires ValidReader(s)
    ensures var (got, s') := Copy(s, size);
      && got + Pending(s') == Pending(s) && |got| == Min(size, |s.buffered|) && ValidReader(s')
  {
    var (got, s') := Copy(s, size);
    Text.Assoc(got, s'.buffered, Flatten(s.chunks));
    assert got + s'.buffered == s.buffered;
  }

  /** Nothing is lost, duplicated or reordered by a buffered read. */
  lemma ReadConserves(s: Reader, size: nat)
    requires ValidReader(s)
    ensures var (got, s') := BufferedRead(s, size);
      && got + Pending(s') == Pending(s) && |got| <= size && ValidReader(s')
      && (got == [] <==> size == 0 || Pending(s) == [])
  {
    if s.buffered == [] && size >= BUFFER_SIZE {
      RawReadConserves(s.chunks, size);
    } else {
      FillConserves(s);
      CopyConserves(Fill(s), size);
    }
  }

  /** The bytes of a sequence of buffered reads, and what is left. */
  function BufferedReads(s: Reader, sizes: seq<nat>): (Bytes, Reader)
    decreases |sizes|
  {
    if sizes == [] then ([], s)
    else
      var (got, s1) := BufferedRead(s, sizes[0]);
      var (more, s2) := BufferedReads(s1, sizes[1..]);
      (got + more, s2)
  }

  /** A plain HTTP connection is read through the buffer to its end: any reads after the peek give the stream. */
  lemma {:induction false} BufferedPrefix(s: Reader, sizes: seq<nat>)
    requires ValidReader(s)
    ensures var (got, s') := BufferedReads(s, sizes); got + Pending(s') == Pending(s) && ValidReader(s')
    decreases |sizes|
  {
    if sizes != [] {
      var (got, s1) := BufferedRead(s, sizes[0]);
      var (more, s2) := BufferedReads(s1, sizes[1..]);
      ReadConserves(s, sizes[0]);
      BufferedPrefix(s1, sizes[1..]);
      Text.Assoc(got, more, Pending(s2));
    }
  }

  // ---------------------------------------------------------------- peek, first read, raw continuation

  /** What is read of a connection that starts with a handshake byte, and what the raw connection still holds. */
  function FirstRead(chunks: seq<Bytes>, size: nat): (Bytes, Reader) {
    BufferedRead(Peek(Reader([], chunks)).1, size)
  }

  /**
   * After a peek and one read of any size, going on with the raw connection continues the stream exactly when
   * the read emptied the buffer, that is, when its size was at least what the peek had buffered.
   */
  lemma RawContinuationIff(chunks: seq<Bytes>, size: nat)
    requires NoneEmpty(chunks)
    ensures var (got, s) := FirstRead(chunks, size);
      got + Flatten(s.chunks) == Flatten(chunks) <==> |Peek(Reader([], chunks)).1.buffered| <= size
  {
    var s0 := Reader([], chunks);
    var s1 := Fill(s0);
    FillConserves(s0);
    ReadConserves(s1, size);
    var (got, s) := FirstRead(chunks, size);
    var tail := Flatten(s.chunks);
    assert got + (s.buffered + tail) == Flatten(chunks);
    if s.buffered == [] {
      assert s.buffered + tail == tail;
    } else {
      assert |got + tail| < |Flatten(chunks)|;
    }
  }

  /**
   * With the sizes of the source nothing is ever lost, whether the bytes are forwarded or replayed; the first
   * read holds at most one buffer, however much room there is, and is empty only on an empty stream.
   */
  lemma FirstReadKeepsTheStream(chunks: seq<Bytes>)
    requires NoneEmpty(chunks)
    ensures var (got, s) := FirstRead(chunks, HELLO_SIZE);
      && got + Flatten(s.chunks) == Flatten(chunks) && s.buffered == []
      && Left(Replay(got, false, s.chunks)) == Flatten(chunks)
      && |got| <= BUFFER_SIZE && (got == [] <==> Flatten(chunks) == [])
  {
    FillConserves(Reader([], chunks));
    RawContinuationIff(chunks, HELLO_SIZE);
    ReadConserves(Fill(Reader([], chunks)), HELLO_SIZE);
    RawReadConserves(chunks, BUFFER_SIZE);
  }

  /** A name found in the first read is the name that the whole stream carries, however the network split it. */
  lemma FirstReadNameIsTheStreams(chunks: seq<Bytes>)
    requires NoneEmpty(chunks) && ParseSni(FirstRead(chunks, HELLO_SIZE).0).Ok?
    ensures ParseSni(Flatten(chunks)) == ParseSni(FirstRead(chunks, HELLO_SIZE).0)
  {
    var (got, s) := FirstRead(chunks, HELLO_SIZE);
    FirstReadKeepsTheStream(chunks);
    ClientHelloGrammar.SuccessIsPrefixStable(got, Flatten(s.chunks));
  }

  /** The first read is the first chunk, up to the size of the buffer: reads never join chunks. */
  lemma FirstReadIsFirstChunk(chunks: seq<Bytes>)
    requires NoneEmpty(chunks) && chunks != []
    ensures FirstRead(chunks, HELLO_SIZE).0 == chunks[0][..Min(BUFFER_SIZE, |chunks[0]|)]
  {
    var n := Min(BUFFER_SIZE, |chunks[0]|);
    var s := Fill(Reader([], chunks));
    assert s.buffered == chunks[0][..n];
    assert s.buffered[..|s.buffered|] == s.buffered;
  }

  lemma PrefixOfPrefix<T>(a: seq<T>, b: seq<T>, c: seq<T>, n: nat)
    requires n <= |a| && n <= |b| && a + c == b
    ensures a[..n] == b[..n]
  {
  }

  /**
   * Which hellos get through, however the network splits the connection: a well-formed hello, whatever follows
   * it, is answered with its first server name (or with its want of one) if and only if it comes whole in the
   * first chunk and fits the reader's buffer.
   */
  lemma HelloGetsThroughIff(h: ClientHelloGrammar.Hello, t: Bytes, chunks: seq<Bytes>)
    requires ClientHelloGrammar.HelloOk(h) && NoneEmpty(chunks) && chunks != []
    requires Flatten(chunks) == ClientHelloGrammar.Encode(h) + t
    ensures ParseSni(FirstRead(chunks, HELLO_SIZE).0) == ClientHelloGrammar.FirstServerName(h.extensions) <==>
      var size := |ClientHelloGrammar.Encode(h)|; size <= |chunks[0]| && size <= BUFFER_SIZE
  {
    var wire, n := ClientHelloGrammar.Encode(h), Min(BUFFER_SIZE, |chunks[0]|);
    FirstReadIsFirstChunk(chunks);
    PrefixOfPrefix(chunks[0], wire + t, Flatten(chunks[1..]), n);
    if |wire| <= n {
      assert (wire + t)[..n] == wire + t[..n - |wire|];
      ClientHelloGrammar.ParserInvertsEncoder(h, t[..n - |wire|]);
    } else {
      assert (wire + t)[..n] == wire[..n];
      ClientHelloGrammar.CutHelloIsRefused(h, n);
      ClientHelloGrammar.NameOrNotFound(h.extensions);
    }
  }

  ghost predicate Refused(h: ClientHelloGrammar.Hello, chunks: seq<Bytes>) {
    && ClientHelloGrammar.HelloOk(h) && ClientHelloGrammar.FirstServerName(h.extensions).Ok?
    && NoneEmpty(chunks) && Flatten(chunks) == ClientHelloGrammar.Encode(h)
    && ParseSni(FirstRead(chunks, HELLO_SIZE).0).Err?
  }

  /** A hello of 5,000 bytes and some is refused even when it arrives in one chunk. */
  lemma LongHelloIsRefused(name: Bytes)
    requires |name| < 256
    ensures exists h: ClientHelloGrammar.Hello, chunks :: Refused(h, chunks) && |chunks| == 1
  {
    var h := ClientHelloGrammar.Sample(name, 5000);
    ClientHelloGrammar.SampleIsOk(name, 5000);
    var chunks := [ClientHelloGrammar.Encode(h)];
    assert chunks[0] + Flatten(chunks[1..]) == chunks[0];
    HelloGetsThroughIff(h, [], chunks);
    RefusedUnlessThrough(h, chunks);
  }

  /** A hello of a few hundred bytes at most is refused when it arrives in two chunks. */
  lemma SplitHelloIsRefused(name: Bytes)
    requires |name| < 256
    ensures exists h: ClientHelloGrammar.Hello, chunks ::
      Refused(h, chunks) && |chunks| == 2 && |ClientHelloGrammar.Encode(h)| < BUFFER_SIZE
  {
    var h := ClientHelloGrammar.Sample(name, 0);
    ClientHelloGrammar.SampleIsOk(name, 0);
    var wire := ClientHelloGrammar.Encode(h);
    var chunks := [wire[..1], wire[1..]];
    assert chunks[1..] == [wire[1..]] && Flatten(chunks[1..]) == wire[1..];
    assert wire[..1] + wire[1..] == wire;
    HelloGetsThroughIff(h, [], chunks);
    RefusedUnlessThrough(h, chunks);
  }

  lemma RefusedUnlessThrough(h: ClientHelloGrammar.Hello, chunks: seq<Bytes>)
    requires ClientHelloGrammar.HelloOk(h) && NoneEmpty(chunks) && chunks != []
    requires Flatten(chunks) == ClientHelloGrammar.Encode(h) && ClientHelloGrammar.FirstServerName(h.extensions).Ok?
    requires ParseSni(FirstRead(chunks, HELLO_SIZE).0) != ClientHelloGrammar.FirstServerName(h.extensions)
    ensures Refused(h, chunks)
  {
    ClientHelloGrammar.ParserInvertsEncoder(h, []);
    assert ClientHelloGrammar.Encode(h) + [] == ClientHelloGrammar.Encode(h);
    if ParseSni(FirstRead(chunks, HELLO_SIZE).0).Ok? {
      FirstReadNameIsTheStreams(chunks);
    }
  }

  /** No hello whose record is longer than the reader's buffer gets through, although the read has room for it. */
  lemma LongRecordIsRefused(chunks: seq<Bytes>)
    requires NoneEmpty(chunks)
    requires var d := Flatten(chunks); |d| >= 5 && 5 + Word(d[3], d[4]) > BUFFER_SIZE
    ensures ParseSni(FirstRead(chunks, HELLO_SIZE).0).Err?
  {
    FirstReadKeepsTheStream(chunks);
    var (got, s) := FirstRead(chunks, HELLO_SIZE);
    if |got| >= 5 {
      assert Flatten(chunks)[3] == got[3] && Flatten(chunks)[4] == got[4];
    }
  }

  // ---------------------------------------------------------------- replay

  /** What an error page reads: first the bytes already read, then the connection. */
  datatype Replay = Replay(initial: Bytes, replayed: bool, chunks: seq<Bytes>)

  function Left(s: Replay): Bytes {
    (if s.replayed then [] else s.initial) + Flatten(s.chunks)
  }

  function ReplayRead(s: Replay, size: nat): (Bytes, Replay) {
    if !s.replayed && |s.initial| > 0 then
      if size >= |s.initial| then (s.initial, Replay([], true, s.chunks))
      else (s.initial[..size], s.(initial := s.initial[size..]))
    else
      var (got, rest) := RawRead(s.chunks, size);
      (got, s.(chunks := rest))
  }

  lemma ReplayReadConserves(s: Replay, size: nat)
    requires NoneEmpty(s.chunks)
    ensures var (got, s') := ReplayRead(s, size);
      && got + Left(s') == Left(s) && |got| <= size && NoneEmpty(s'.chunks)
      && (got == [] <==> size == 0 || Left(s) == [])
  {
    RawReadConserves(s.chunks, size);
    if !s.replayed && |s.initial| > 0 && size < |s.initial| {
      assert s.initial == s.initial[..size] + s.initial[size..];
    }
  }

  /** The bytes of a sequence of reads, and what is left. */
  function ReplayReads(s: Replay, sizes: seq<nat>): (Bytes, Replay)
    decreases |sizes|
  {
    if sizes == [] then ([], s)
    else
      var (got, s1) := ReplayRead(s, sizes[0]);
      var (more, s2) := ReplayReads(s1, sizes[1..]);
      (got + more, s2)
  }

  /**
   * For every sequence of buffer sizes the reads concatenate to a prefix of initial ++ rest, and reads with
   * room come to an end only with the stream: k of them give at least k bytes, or all of it.
   */
  lemma {:induction false} ReplayedPrefix(s: Replay, sizes: seq<nat>)
    requires NoneEmpty(s.chunks)
    ensures var (got, s') := ReplayReads(s, sizes);
      && got + Left(s') == Left(s) && NoneEmpty(s'.chunks)
      && ((forall n | n in sizes :: n > 0) ==> |got| >= |sizes| || Left(s') == [])
    decreases |sizes|
  {
    if sizes != [] {
      var (got, s1) := ReplayRead(s, sizes[0]);
      var (more, s2) := ReplayReads(s1, sizes[1..]);
      ReplayReadConserves(s, sizes[0]);
      ReplayedPrefix(s1, sizes[1..]);
      Text.Assoc(got, more, Left(s2));
      assert sizes[0] in sizes && forall n | n in sizes[1..] :: n in sizes;
    }
  }

  // ---------------------------------------------------------------- the objects

  class Conn {
    var chunks: seq<Bytes>

    constructor (chunks: seq<Bytes>)
      ensures this.chunks == chunks
    {
      this.chunks := chunks;
    }

    /** Reads into b[from..]; n == 0 stands for the end of the stream, or for no room. */
    method Read(b: array<Byte>, from: nat) returns (n: nat)
      requires from <= b.Length
      modifies this, b
      ensures var (got, rest) := RawRead(old(chunks), b.Length - from);
        && n == |got| <= b.Length - from && chunks == rest
        && b[..from] == old(b[..from]) && b[from..from + n] == got && b[from + n..] == old(b[..])[from + n..]
    {
      if chunks == [] {
        return 0;
      }
      var head := chunks[0];
      n := Min(b.Length - from, |head|);
      CopyInto(b, from, head[..n]);
      chunks := if n < |head| then [head[n..]] + chunks[1..] else chunks[1..];
    }
  }

  /** copy(b[from:], src). */
  method CopyInto(b: array<Byte>, from: nat, src: Bytes)
    requires from + |src| <= b.Length
    modifies b
    ensures b[..from] == old(b[..from]) && b[from..from + |src|] == src && b[from + |src|..] == old(b[from + |src|..])
  {
    var i := 0;
    while i < |src|
      invariant 0 <= i <= |src|
      invariant forall k | 0 <= k < b.Length :: b[k] == if from <= k < from + i then src[k - from] else old(b[k])
    {
      b[from + i] := src[i];
      i := i + 1;
    }
  }

  lemma SlicesOf<T>(s: seq<T>, from: nat, mid: nat, to: nat)
    requires from <= mid <= to <= |s|
    ensures s[from..mid] == s[from..to][..mid - from] && s[mid..to] == s[from..to][mid - from..]
  {
  }

  /** A connection with its buffered reader. */
  class PeekConn {
    const conn: Conn
    const buf: array<Byte>
    var r: nat
    var w: nat

    predicate Valid()
      reads this, conn
    {
      r <= w <= buf.Length && buf.Length == BUFFER_SIZE && NoneEmpty(conn.chunks)
    }

    function View(): Reader
      reads this, conn, buf
      requires Valid()
    {
      Reader(buf[r..w], conn.chunks)
    }

    constructor (conn: Conn)
      requires NoneEmpty(conn.chunks)
      ensures Valid() && View() == Reader([], conn.chunks) && this.conn == conn && fresh(buf)
    {
      this.conn := conn;
      buf := new Byte[BUFFER_SIZE];
      r, w := 0, 0;
    }

    /** One read from the connection into the empty buffer. */
    method FillBuffer()
      requires Valid() && r == w
      modifies this, conn, buf
      ensures Valid() && View() == Fill(old(View()))
    {
      RawReadConserves(conn.chunks, BUFFER_SIZE);
      r := 0;
      w := conn.Read(buf, 0);
    }

    method IsTLS() returns (tls: bool)
      requires Valid()
      modifies this, conn, buf
      ensures Valid() && View() == Peek(old(View())).1 && Pending(View()) == old(Pending(View()))
      ensures tls <==> old(Pending(View())) != [] && old(Pending(View()))[0] == 0x16
    {
      PeekIsFirst(View());
      if r == w {
        FillBuffer();
      }
      if r == w {
        return false;
      }
      return buf[r] == 0x16;
    }

    /** Copies what is buffered. */
    method CopyOut(b: array<Byte>) returns (n: nat)
      requires Valid() && b != buf
      modifies this, b
      ensures Valid() && n <= b.Length && b[n..] == old(b[..])[n..]
      ensures b[..n] == Copy(old(View()), b.Length).0 && View() == Copy(old(View()), b.Length).1
    {
      n := Min(b.Length, w - r);
      SlicesOf(buf[..], r, r + n, w);
      CopyInto(b, 0, buf[r..r + n]);
      r := r + n;
    }

    /** Reads from the connection past the empty buffer. */
    method ReadPast(b: array<Byte>) returns (n: nat)
      requires Valid() && b != buf && r == w
      modifies conn, b
      ensures Valid() && n <= b.Length && b[n..] == old(b[..])[n..]
      ensures var (got, rest) := RawRead(old(conn.chunks), b.Length); b[..n] == got && View() == Reader([], rest)
    {
      RawReadConserves(conn.chunks, b.Length);
      n := conn.Read(b, 0);
      assert buf[r..w] == [];
    }

    method Read(b: array<Byte>) returns (n: nat)
      requires Valid() && b != buf
      modifies this, conn, buf, b
      ensures Valid() && n <= b.Length && b[n..] == old(b[..])[n..]
      ensures var (got, s) := BufferedRead(old(View()), b.Length); b[..n] == got && View() == s
    {
      if r == w {
        if b.Length >= buf.Length {
          n := ReadPast(b);
          return;
        }
        if b.Length == 0 {
          return 0;
        }
        FillBuffer();
      }
      n := CopyOut(b);
    }
  }

  /** The start of a TLS connection: the bytes for the backend, and the name in them. */
  method ReadClientHello(c: PeekConn) returns (hello: Bytes, sni: Result<Bytes, SniError>)
    requires c.Valid() && c.View().buffered != []
    modifies c, c.conn, c.buf
    ensures c.Valid() && (hello, c.View()) == BufferedRead(old(c.View()), HELLO_SIZE) && sni == ParseSni(hello)
    ensures hello + Flatten(c.conn.chunks) == old(Pending(c.View()))
  {
    ReadConserves(c.View(), HELLO_SIZE);
    var buf := new Byte[HELLO_SIZE];
    var n := c.Read(buf);
    hello := buf[..n];
    sni := ExtractSNI(hello);
  }

  class ReplayConn {
    const conn: Conn
    var initial: Bytes
    var replayed: bool

    function View(): Replay
      reads this, conn
    {
      Replay(initial, replayed, conn.chunks)
    }

    constructor (conn: Conn, initial: Bytes)
      ensures View() == Replay(initial, false, conn.chunks) && this.conn == conn
    {
      this.conn := conn;
      this.initial, replayed := initial, false;
    }

    method Read(b: array<Byte>) returns (n: nat)
      modifies this, conn, b
      ensures n <= b.Length
      ensures var (got, s) := ReplayRead(old(View()), b.Length);
        b[..n] == got && View() == s && b[n..] == old(b[..])[n..]
    {
      if !replayed && |initial| > 0 {
        n := Min(b.Length, |initial|);
        CopyInto(b, 0, initial[..n]);
        assert n == |initial| ==> initial[..n] == initial;
        if n >= |initial| {
          replayed := true;
          initial := [];
        } else {
          initial := initial[n..];
        }
        return;
      }
      n := conn.Read(b, 0);
    }
  }
}
