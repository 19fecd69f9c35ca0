/**
 * Finding the server name in the first bytes of a TLS connection.  ParseSni and its parts take the branches
 * of the cursor-based parser; ClientHelloGrammar says which inputs it accepts.
 */
module ClientHello {
  import opened Wrappers

  type Byte = x: int | 0 <= x < 256
  type U16 = x: int | 0 <= x < 65536

  datatype SniError =
    | ShortRecord | NotHandshake | IncompleteRecord | ShortHandshake | NotClientHello
    | ShortSessionId | ShortCipherSuites | ShortCompression | NoExtensions
    | ShortServerName | TruncatedName | NotFound

  /** int(hi)<<8 | int(lo). */
  function Word(hi: Byte, lo: Byte): U16 {
    256 * hi + lo
  }

  /** Record and handshake headers.  The handshake is everything after the record header. */
  function ValidateTLSHandshake(data: seq<Byte>): Result<seq<Byte>, SniError> {
    if |data| < 5 then Err(ShortRecord)
    else if data[0] != 0x16 then Err(NotHandshake)
    else if |data| < 5 + Word(data[3], data[4]) then Err(IncompleteRecord)
    else if |data| - 5 < 4 then Err(ShortHandshake)
    else if data[5] != 0x01 then Err(NotClientHello)
    else Ok(data[5..])
  }

  /** Offset of the first extension, and the declared length of all of them. */
  function SkipToExtensions(handshake: seq<Byte>): (r: Result<(nat, U16), SniError>)
    ensures r.Ok? ==> r.value.0 <= |handshake|
  {
    var pos: nat := 38; // header, version and random
    if |handshake| < pos + 1 then Err(ShortSessionId)
    else
      var pos: nat := pos + 1 + handshake[pos];
      if |handshake| < pos + 2 then Err(ShortCipherSuites)
      else
        var pos: nat := pos + 2 + Word(handshake[pos], handshake[pos + 1]);
        if |handshake| < pos + 1 then Err(ShortCompression)
        else
          var pos: nat := pos + 1 + handshake[pos];
          if |handshake| < pos + 2 then Err(NoExtensions)
          else Ok((pos + 2, Word(handshake[pos], handshake[pos + 1])))
  }

  /** The first name of a server_name extension, whatever its name type. */
  function FirstName(body: seq<Byte>): Result<seq<Byte>, SniError> {
    if |body| < 5 then Err(ShortServerName)
    else if |body| < 5 + Word(body[3], body[4]) then Err(TruncatedName)
    else Ok(body[5..5 + Word(body[3], body[4])])
  }

  /** The scan of the extensions from a cursor position on. */
  function FindFrom(extensions: seq<Byte>, extLen: nat, pos: nat): Result<seq<Byte>, SniError>
    decreases |extensions| - pos
  {
    if pos + 4 <= extLen && pos + 4 <= |extensions| then
      var extType := Word(extensions[pos], extensions[pos + 1]);
      var next := pos + 4 + Word(extensions[pos + 2], extensions[pos + 3]);
      if next > |extensions| then Err(NotFound)
      else if extType == 0 then FirstName(extensions[pos + 4..next])
      else FindFrom(extensions, extLen, next)
    else Err(NotFound)
  }

  method FindSNIInExtensions(extensions: seq<Byte>, extLen: nat) returns (r: Result<seq<Byte>, SniError>)
    ensures r == FindFrom(extensions, extLen, 0)
  {
    var pos := 0;
    while pos + 4 <= extLen && pos + 4 <= |extensions|
      invariant 0 <= pos <= |extensions|
      invariant FindFrom(extensions, extLen, pos) == FindFrom(extensions, extLen, 0)
      decreases |extensions| - pos
    {
      var extType := Word(extensions[pos], extensions[pos + 1]);
      var thisExtLen := Word(extensions[pos + 2], extensions[pos + 3]);
      pos := pos + 4;
      if pos + thisExtLen > |extensions| {
        return Err(NotFound);
      }
      if extType == 0 {
        return FirstName(extensions[pos..pos + thisExtLen]);
      }
      pos := pos + thisExtLen;
    }
    return Err(NotFound);
  }

  function ParseSni(data: seq<Byte>): Result<seq<Byte>, SniError> {
    var v := ValidateTLSHandshake(data);
    if v.Err? then Err(v.error)
    else
      var k := SkipToExtensions(v.value);
      if k.Err? then Err(k.error) else FindFrom(v.value[k.value.0..], k.value.1, 0)
  }

  method ExtractSNI(data: seq<Byte>) returns (r: Result<seq<Byte>, SniError>)
    ensures r == ParseSni(data)
  {
    var handshake := ValidateTLSHandshake(data);
    if handshake.Err? {
      return Err(handshake.error);
    }
    var skip := SkipToExtensions(handshake.value);
    if skip.Err? {
      return Err(skip.error);
    }
    r := FindSNIInExtensions(handshake.value[skip.value.0..], skip.value.1);
  }
}

/**
 * The language of inputs in which the parser finds a name, and the encoder of well-formed ClientHellos
 * (section 4.1.2 of RFC 8446, section 3 of RFC 6066).
 */
module ClientHelloGrammar {
  import opened Wrappers
  import opened ClientHello
  import Text

  /** The two bytes that Word puts together to n. */
  ghost function Bytes16(n: U16): (r: seq<Byte>)
    ensures |r| == 2 && Word(r[0], r[1]) == n
  {
    assert Word(n / 256, n % 256) == n;
    var hi: Byte, lo: Byte :| Word(hi, lo) == n;
    [hi, lo]
  }

  lemma WordBytes(hi: Byte, lo: Byte)
    ensures Bytes16(Word(hi, lo)) == [hi, lo]
  {
  }

  type Block = b: seq<Byte> | |b| < 65536
  type ShortBlock = b: seq<Byte> | |b| < 256

  /** A vector with a two-byte, or a one-byte, length in front. */
  ghost function Vec16(b: Block): seq<Byte> {
    Bytes16(|b|) + b
  }

  function Vec8(b: ShortBlock): seq<Byte> {
    [|b|] + b
  }

  datatype RawExt = RawExt(extType: U16, body: Block)

  ghost function EncodeExt(e: RawExt): seq<Byte> {
    Bytes16(e.extType) + Vec16(e.body)
  }

  ghost function EncodeExts(es: seq<RawExt>): seq<Byte> {
    if es == [] then [] else EncodeExt(es[0]) + EncodeExts(es[1..])
  }

  /** Everything up to the extensions that the parser reads or skips. */
  datatype Prelude = Prelude(
    recordVersion: seq<Byte>, recordLen: U16, handshakeLen: seq<Byte>, versionRandom: seq<Byte>,
    sessionId: ShortBlock, cipherSuites: Block, compression: ShortBlock, extLen: U16)

  predicate PreludeOk(p: Prelude) {
    |p.recordVersion| == 2 && |p.handshakeLen| == 3 && |p.versionRandom| == 34
  }

  /** The body of the ClientHello after the random. */
  ghost function EncodeVectors(p: Prelude): seq<Byte> {
    Vec8(p.sessionId) + (Vec16(p.cipherSuites) + (Vec8(p.compression) + Bytes16(p.extLen)))
  }

  ghost function EncodeHandshake(p: Prelude, extensions: seq<Byte>): seq<Byte> {
    ([0x01] + p.handshakeLen + p.versionRandom) + (EncodeVectors(p) + extensions)
  }

  ghost function EncodeRecord(p: Prelude, extensions: seq<Byte>): seq<Byte> {
    ([0x16] + p.recordVersion + Bytes16(p.recordLen)) + EncodeHandshake(p, extensions)
  }

  /** A server_name extension as the parser reads it: list length, name type, one name, whatever follows. */
  datatype NameExt = NameExt(listLenType: seq<Byte>, name: Block, more: seq<Byte>)

  predicate NameExtOk(n: NameExt) {
    |n.listLenType| == 3 && 5 + |n.name| + |n.more| < 65536
  }

  ghost function NameBody(n: NameExt): Block
    requires NameExtOk(n)
  {
    n.listLenType + Vec16(n.name) + n.more
  }

  /** Extensions of other types, then a server_name extension, then anything. */
  predicate NoServerName(es: seq<RawExt>) {
    es == [] || (es[0].extType != 0 && NoServerName(es[1..]))
  }

  ghost function NamedExtensions(skipped: seq<RawExt>, n: NameExt, rest: seq<Byte>): seq<Byte>
    requires NameExtOk(n)
  {
    EncodeExts(skipped) + (EncodeExt(RawExt(0, NameBody(n))) + rest)
  }

  /** The bytes d carry the name s where the parser looks for it. */
  ghost predicate Carries(d: seq<Byte>, s: seq<Byte>, p: Prelude, skipped: seq<RawExt>, n: NameExt, rest: seq<Byte>) {
    && PreludeOk(p) && NameExtOk(n) && NoServerName(skipped)
    && d == EncodeRecord(p, NamedExtensions(skipped, n, rest))
    && 5 + p.recordLen <= |d|
    && |EncodeExts(skipped)| + 4 <= p.extLen
    && n.name == s
  }

  // ---------------------------------------------------------------- reading back what was written

  /** Stepping the cursor over a part. */
  lemma Over<T>(d: seq<T>, pos: nat, part: seq<T>, tail: seq<T>)
    requires pos <= |d| && d[pos..] == part + tail
    ensures pos + |part| <= |d| && d[pos..pos + |part|] == part && d[pos + |part|..] == tail
  {
    var rest := d[pos..];
    assert rest[..|part|] == part && rest[|part|..] == tail;
  }

  lemma OverWord(d: seq<Byte>, pos: nat, n: U16, tail: seq<Byte>)
    requires pos <= |d| && d[pos..] == Bytes16(n) + tail
    ensures pos + 2 <= |d| && Word(d[pos], d[pos + 1]) == n && d[pos + 2..] == tail
  {
    Over(d, pos, Bytes16(n), tail);
    var two := d[pos..pos + 2];
    assert two[0] == d[pos] && two[1] == d[pos + 1];
  }

  lemma OverVec16(d: seq<Byte>, pos: nat, b: Block, tail: seq<Byte>)
    requires pos <= |d| && d[pos..] == Vec16(b) + tail
    ensures pos + 2 + |b| <= |d| && Word(d[pos], d[pos + 1]) == |b|
    ensures d[pos + 2..pos + 2 + |b|] == b && d[pos + 2 + |b|..] == tail
  {
    Text.Assoc(Bytes16(|b|), b, tail);
    OverWord(d, pos, |b|, b + tail);
    Over(d, pos + 2, b, tail);
  }

  lemma OverVec8(d: seq<Byte>, pos: nat, b: ShortBlock, tail: seq<Byte>)
    requires pos <= |d| && d[pos..] == Vec8(b) + tail
    ensures pos + 1 + |b| <= |d| && d[pos] == |b| && d[pos + 1 + |b|..] == tail
  {
    Over(d, pos, Vec8(b), tail);
    var part := d[pos..pos + 1 + |b|];
    assert part[0] == d[pos];
  }

  lemma SkipsVectors(h: seq<Byte>, p: Prelude, extensions: seq<Byte>)
    requires 38 <= |h|
    requires h[38..]
      == Vec8(p.sessionId) + (Vec16(p.cipherSuites) + (Vec8(p.compression) + (Bytes16(p.extLen) + extensions)))
    ensures SkipToExtensions(h).Ok? && SkipToExtensions(h).value.1 == p.extLen
    ensures h[SkipToExtensions(h).value.0..] == extensions
  {
    var t3 := Bytes16(p.extLen) + extensions;
    OverVec8(h, 38, p.sessionId, Vec16(p.cipherSuites) + (Vec8(p.compression) + t3));
    var a := 39 + |p.sessionId|;
    OverVec16(h, a, p.cipherSuites, Vec8(p.compression) + t3);
    SkipsLast(h, a + 2 + |p.cipherSuites|, p, extensions);
  }

  lemma SkipsLast(h: seq<Byte>, b: nat, p: Prelude, extensions: seq<Byte>)
    requires b <= |h| && h[b..] == Vec8(p.compression) + (Bytes16(p.extLen) + extensions)
    ensures var c := b + 1 + |p.compression|;
      && c + 2 <= |h| && h[b] == |p.compression| && Word(h[c], h[c + 1]) == p.extLen && h[c + 2..] == extensions
  {
    OverVec8(h, b, p.compression, Bytes16(p.extLen) + extensions);
    OverWord(h, b + 1 + |p.compression|, p.extLen, extensions);
  }

  lemma SkipsPrelude(p: Prelude, extensions: seq<Byte>)
    requires PreludeOk(p)
    ensures var h := EncodeHandshake(p, extensions);
      && SkipToExtensions(h).Ok?
      && SkipToExtensions(h).value.1 == p.extLen
      && h[SkipToExtensions(h).value.0..] == extensions
  {
    var h := EncodeHandshake(p, extensions);
    assert h[38..] == EncodeVectors(p) + extensions;
    AssocVectors(p, extensions);
    SkipsVectors(h, p, extensions);
  }

  /** The three stages of the parser, put together. */
  lemma ParseParts(d: seq<Byte>, h: seq<Byte>, at: nat, extLen: U16, extensions: seq<Byte>)
    requires ValidateTLSHandshake(d) == Ok(h) && SkipToExtensions(h) == Ok((at, extLen)) && h[at..] == extensions
    ensures ParseSni(d) == Scan(extensions, extLen)
  {
    ScanIsFind(extensions, extLen, 0);
    assert extensions[0..] == extensions;
  }

  lemma ValidatesRecord(p: Prelude, extensions: seq<Byte>)
    requires PreludeOk(p) && 5 + p.recordLen <= |EncodeRecord(p, extensions)|
    ensures ValidateTLSHandshake(EncodeRecord(p, extensions)) == Ok(EncodeHandshake(p, extensions))
  {
    var d, h := EncodeRecord(p, extensions), EncodeHandshake(p, extensions);
    var head := [0x16] + p.recordVersion + Bytes16(p.recordLen);
    assert d[..5] == head && d[5..] == h;
    assert d[0] == head[0] && d[3] == head[3] && d[4] == head[4];
    assert h[0] == 0x01;
  }

  /** Parsing an encoded record is scanning its extensions. */
  lemma ParsesRecord(p: Prelude, extensions: seq<Byte>)
    requires PreludeOk(p) && 5 + p.recordLen <= |EncodeRecord(p, extensions)|
    ensures ParseSni(EncodeRecord(p, extensions)) == Scan(extensions, p.extLen)
  {
    var h := EncodeHandshake(p, extensions);
    ValidatesRecord(p, extensions);
    SkipsPrelude(p, extensions);
    ParseParts(EncodeRecord(p, extensions), h, SkipToExtensions(h).value.0, p.extLen, extensions);
  }

  /** The scan without a cursor: what is left of the bytes, and of the declared length. */
  function Scan(d: seq<Byte>, left: int): Result<seq<Byte>, SniError> {
    if 4 <= left && 4 <= |d| then
      var next := 4 + Word(d[2], d[3]);
      if next > |d| then Err(NotFound)
      else if Word(d[0], d[1]) == 0 then FirstName(d[4..next])
      else Scan(d[next..], left - next)
    else Err(NotFound)
  }

  lemma {:induction false} ScanIsFind(d: seq<Byte>, extLen: nat, pos: nat)
    requires pos <= |d|
    ensures Scan(d[pos..], extLen - pos) == FindFrom(d, extLen, pos)
    decreases |d| - pos
  {
    if pos + 4 <= extLen && pos + 4 <= |d| {
      var len := 4 + Word(d[pos + 2], d[pos + 3]);
      if pos + len <= |d| {
        ScanIsFind(d, extLen, pos + len);
        assert d[pos..][len..] == d[pos + len..];
        assert d[pos..][4..len] == d[pos + 4..pos + len];
      }
    }
  }

  lemma ScanStep(d: seq<Byte>, left: int, len: nat)
    requires 4 <= left && 4 + len <= |d| && Word(d[2], d[3]) == len
    ensures Scan(d, left)
         == if Word(d[0], d[1]) == 0 then FirstName(d[4..4 + len]) else Scan(d[4 + len..], left - 4 - len)
  {
  }

  /** The scan of one whole extension. */
  lemma ScansExt(e: RawExt, tail: seq<Byte>, left: int)
    requires 4 <= left
    ensures Scan(EncodeExt(e) + tail, left)
         == if e.extType == 0 then FirstName(e.body) else Scan(tail, left - |EncodeExt(e)|)
  {
    var d, after := EncodeExt(e) + tail, Vec16(e.body) + tail;
    Text.Assoc(Bytes16(e.extType), Vec16(e.body), tail);
    assert d[0..] == Bytes16(e.extType) + after;
    OverWord(d, 0, e.extType, after);
    OverVec16(d, 2, e.body, tail);
    ScanStep(d, left, |e.body|);
  }

  lemma ExtLength(e: RawExt)
    ensures |EncodeExt(e)| == 4 + |e.body|
  {
  }

  lemma SkipsOne(e: RawExt, rest: seq<Byte>, tail: seq<Byte>, left: int)
    requires e.extType != 0 && |EncodeExt(e)| <= left
    ensures Scan((EncodeExt(e) + rest) + tail, left) == Scan(rest + tail, left - |EncodeExt(e)|)
  {
    ExtLength(e);
    Text.Assoc(EncodeExt(e), rest, tail);
    ScansExt(e, rest + tail, left);
  }

  /** The scan skips extensions of other types. */
  lemma {:induction false} SkipsOthers(es: seq<RawExt>, tail: seq<Byte>, left: int)
    requires NoServerName(es) && |EncodeExts(es)| <= left
    ensures Scan(EncodeExts(es) + tail, left) == Scan(tail, left - |EncodeExts(es)|)
  {
    if es == [] {
      assert EncodeExts(es) + tail == tail;
    } else {
      SkipsOne(es[0], EncodeExts(es[1..]), tail, left);
      SkipsOthers(es[1..], tail, left - |EncodeExt(es[0])|);
    }
  }

  lemma ReadsFirstName(n: NameExt)
    requires NameExtOk(n)
    ensures FirstName(NameBody(n)) == Ok(n.name)
  {
    var body := NameBody(n);
    Text.Assoc(n.listLenType, Vec16(n.name), n.more);
    assert body[0..] == n.listLenType + (Vec16(n.name) + n.more);
    Over(body, 0, n.listLenType, Vec16(n.name) + n.more);
    OverVec16(body, 3, n.name, n.more);
  }

  lemma FindsName(skipped: seq<RawExt>, n: NameExt, rest: seq<Byte>, extLen: nat)
    requires NameExtOk(n) && NoServerName(skipped) && |EncodeExts(skipped)| + 4 <= extLen
    ensures Scan(NamedExtensions(skipped, n, rest), extLen) == Ok(n.name)
  {
    var sni := RawExt(0, NameBody(n));
    SkipsOthers(skipped, EncodeExt(sni) + rest, extLen);
    ScansExt(sni, rest, extLen - |EncodeExts(skipped)|);
    ReadsFirstName(n);
  }

  /** The parser finds the name wherever the grammar says there is one. */
  lemma GrammarIsParsed(d: seq<Byte>, s: seq<Byte>, p: Prelude, skipped: seq<RawExt>, n: NameExt, rest: seq<Byte>)
    requires Carries(d, s, p, skipped, n, rest)
    ensures ParseSni(d) == Ok(s)
  {
    ParsesRecord(p, NamedExtensions(skipped, n, rest));
    FindsName(skipped, n, rest, p.extLen);
  }

  // ---------------------------------------------------------------- and only there

  lemma SplitAt<T>(d: seq<T>, pos: nat, next: nat)
    requires pos <= next <= |d|
    ensures d[pos..] == d[pos..next] + d[next..]
  {
  }

  lemma SplitVec16(d: seq<Byte>, pos: nat) returns (b: Block, next: nat)
    requires pos + 2 <= |d| && pos + 2 + Word(d[pos], d[pos + 1]) <= |d|
    ensures next == pos + 2 + Word(d[pos], d[pos + 1]) && b == d[pos + 2..next]
    ensures d[pos..] == Vec16(b) + d[next..]
  {
    next := pos + 2 + Word(d[pos], d[pos + 1]);
    b := d[pos + 2..next];
    WordBytes(d[pos], d[pos + 1]);
    SplitAt(d, pos, next);
    assert d[pos..next] == Vec16(b);
  }

  lemma SplitVec8(d: seq<Byte>, pos: nat) returns (b: ShortBlock, next: nat)
    requires pos + 1 <= |d| && pos + 1 + d[pos] <= |d|
    ensures next == pos + 1 + d[pos] && b == d[pos + 1..next]
    ensures d[pos..] == Vec8(b) + d[next..]
  {
    next := pos + 1 + d[pos];
    b := d[pos + 1..next];
    SplitAt(d, pos, next);
    assert d[pos..next] == Vec8(b);
  }

  /** The vectors of a handshake that the parser steps over. */
  lemma VectorsOf(h: seq<Byte>) returns (sid: ShortBlock, suites: Block, comp: ShortBlock, c: nat)
    requires SkipToExtensions(h).Ok?
    ensures 39 <= |h| && c + 2 <= |h| && SkipToExtensions(h) == Ok((c + 2, Word(h[c], h[c + 1])))
    ensures h[38..] == Vec8(sid) + (Vec16(suites) + (Vec8(comp) + h[c..]))
  {
    var a, b;
    sid, a := SplitVec8(h, 38);
    suites, b := SplitVec16(h, a);
    comp, c := SplitVec8(h, b);
  }

  /** A handshake the parser gets through to the extensions has the shape of the grammar. */
  lemma HandshakeOf(h: seq<Byte>, recordVersion: seq<Byte>, recordLen: U16) returns (p: Prelude, extensions: seq<Byte>)
    requires SkipToExtensions(h).Ok? && |recordVersion| == 2 && h[0] == 0x01
    ensures PreludeOk(p) && h == EncodeHandshake(p, extensions)
    ensures p.recordVersion == recordVersion && p.recordLen == recordLen
  {
    var sid, suites, comp, c := VectorsOf(h);
    WordBytes(h[c], h[c + 1]);
    SplitAt(h, c, c + 2);
    extensions := h[c + 2..];
    p := Prelude(recordVersion, recordLen, h[1..4], h[4..38], sid, suites, comp, Word(h[c], h[c + 1]));
    assert h[c..c + 2] == Bytes16(p.extLen);
    AssocVectors(p, extensions);
    SplitAt(h, 0, 38);
    assert h[0..38] == [0x01] + p.handshakeLen + p.versionRandom;
    assert h[0..] == h;
  }

  lemma AssocVectors(p: Prelude, extensions: seq<Byte>)
    ensures EncodeVectors(p) + extensions
         == Vec8(p.sessionId) + (Vec16(p.cipherSuites) + (Vec8(p.compression) + (Bytes16(p.extLen) + extensions)))
  {
    var t3 := Bytes16(p.extLen);
    Text.Assoc(Vec8(p.compression), t3, extensions);
    Text.Assoc(Vec16(p.cipherSuites), Vec8(p.compression) + t3, extensions);
    Text.Assoc(Vec8(p.sessionId), Vec16(p.cipherSuites) + (Vec8(p.compression) + t3), extensions);
  }

  lemma PreludeOf(d: seq<Byte>) returns (p: Prelude, extensions: seq<Byte>)
    requires ValidateTLSHandshake(d).Ok? && SkipToExtensions(ValidateTLSHandshake(d).value).Ok?
    ensures PreludeOk(p) && d == EncodeRecord(p, extensions) && 5 + p.recordLen <= |d|
  {
    p, extensions := HandshakeOf(d[5..], d[1..3], Word(d[3], d[4]));
    WordBytes(d[3], d[4]);
    assert d[..5] == [0x16] + p.recordVersion + Bytes16(p.recordLen);
    assert d == d[..5] + d[5..];
  }

  lemma NameExtOf(body: Block) returns (n: NameExt)
    requires FirstName(body).Ok?
    ensures NameExtOk(n) && NameBody(n) == body && Ok(n.name) == FirstName(body)
  {
    var name, next := SplitVec16(body, 3);
    n := NameExt(body[..3], name, body[next..]);
    assert body == body[..3] + body[3..];
    Text.Assoc(n.listLenType, Vec16(name), n.more);
  }

  lemma SplitExt(d: seq<Byte>) returns (e: RawExt, next: nat)
    requires 4 <= |d| && 4 + Word(d[2], d[3]) <= |d|
    ensures next == 4 + Word(d[2], d[3])
    ensures e == RawExt(Word(d[0], d[1]), d[4..next]) && d == EncodeExt(e) + d[next..]
  {
    var body, n := SplitVec16(d, 2);
    next := n;
    e := RawExt(Word(d[0], d[1]), body);
    WordBytes(d[0], d[1]);
    assert d == d[..2] + d[2..];
    assert d[..2] == Bytes16(e.extType);
    Text.Assoc(Bytes16(e.extType), Vec16(body), d[next..]);
  }

  /** A scan that succeeds met a chain of other extensions and then a server_name extension. */
  lemma {:induction false} ChainOf(d: seq<Byte>, left: int)
    returns (skipped: seq<RawExt>, n: NameExt, rest: seq<Byte>)
    requires Scan(d, left).Ok?
    ensures NameExtOk(n) && NoServerName(skipped) && d == NamedExtensions(skipped, n, rest)
    ensures |EncodeExts(skipped)| + 4 <= left && Scan(d, left) == Ok(n.name)
  {
    var e, next := SplitExt(d);
    if e.extType == 0 {
      skipped, rest := [], d[next..];
      n := NameExtOf(e.body);
      assert d == EncodeExts([]) + (EncodeExt(e) + rest);
    } else {
      skipped, n, rest := ChainOf(d[next..], left - next);
      Text.Assoc(EncodeExt(e), EncodeExts(skipped), EncodeExt(RawExt(0, NameBody(n))) + rest);
      ExtLength(e);
      assert ([e] + skipped)[1..] == skipped;
      skipped := [e] + skipped;
    }
  }

  /** On arbitrary bytes the parser returns a name exactly when the bytes carry it in the grammar's sense. */
  lemma ParsesExactlyTheGrammar(d: seq<Byte>, s: seq<Byte>)
    ensures ParseSni(d) == Ok(s) <==> exists p, skipped, n, rest :: Carries(d, s, p, skipped, n, rest)
  {
    if ParseSni(d) == Ok(s) {
      var p, extensions := PreludeOf(d);
      ParsesRecord(p, extensions);
      var skipped, n, rest := ChainOf(extensions, p.extLen);
      assert Carries(d, s, p, skipped, n, rest);
    } else {
      forall p, skipped, n, rest | Carries(d, s, p, skipped, n, rest)
        ensures false
      {
        GrammarIsParsed(d, s, p, skipped, n, rest);
      }
    }
  }

  /** Success is prefix-stable: more bytes after a ClientHello in which a name was found change nothing. */
  lemma SuccessIsPrefixStable(d: seq<Byte>, t: seq<Byte>)
    requires ParseSni(d).Ok?
    ensures ParseSni(d + t) == ParseSni(d)
  {
    var s := ParseSni(d).value;
    ParsesExactlyTheGrammar(d, s);
    var p, skipped, n, rest :| Carries(d, s, p, skipped, n, rest);
    var sni := EncodeExt(RawExt(0, NameBody(n)));
    Text.Assoc(sni, rest, t);
    Text.Assoc(EncodeExts(skipped), sni + rest, t);
    RecordAppend(p, NamedExtensions(skipped, n, rest), t);
    GrammarIsParsed(d + t, s, p, skipped, n, rest + t);
  }

  lemma RecordAppend(p: Prelude, extensions: seq<Byte>, t: seq<Byte>)
    ensures EncodeRecord(p, extensions) + t == EncodeRecord(p, extensions + t)
  {
    Text.Assoc([0x16] + p.recordVersion + Bytes16(p.recordLen), EncodeHandshake(p, extensions), t);
    Text.Assoc([0x01] + p.handshakeLen + p.versionRandom, EncodeVectors(p) + extensions, t);
    Text.Assoc(EncodeVectors(p), extensions, t);
  }

  lemma {:induction false} ScannedNameIsSlice(d: seq<Byte>, extLen: nat, pos: nat) returns (at: nat)
    requires FindFrom(d, extLen, pos).Ok?
    ensures var s := FindFrom(d, extLen, pos).value;
      2 <= at && at + |s| <= |d| && s == d[at..at + |s|] && |s| == Word(d[at - 2], d[at - 1])
    decreases |d| - pos
  {
    var next := pos + 4 + Word(d[pos + 2], d[pos + 3]);
    if Word(d[pos], d[pos + 1]) == 0 {
      at := pos + 9;
      var body := d[pos + 4..next];
      assert body[3] == d[pos + 7] && body[4] == d[pos + 8];
    } else {
      at := ScannedNameIsSlice(d, extLen, next);
    }
  }

  /** A name that is found is a slice of the input, as long as the two bytes before it say. */
  lemma NameIsSlice(d: seq<Byte>) returns (at: nat)
    requires ParseSni(d).Ok?
    ensures var s := ParseSni(d).value;
      2 <= at && at + |s| <= |d| && s == d[at..at + |s|] && |s| == Word(d[at - 2], d[at - 1])
  {
    var k := SkipToExtensions(d[5..]).value;
    var from := 5 + k.0;
    assert d[5..][k.0..] == d[from..];
    var i := ScannedNameIsSlice(d[from..], k.1, 0);
    at := from + i;
    assert d[from..][i - 2] == d[at - 2] && d[from..][i - 1] == d[at - 1];
  }

  // ---------------------------------------------------------------- well-formed ClientHellos

  datatype ServerName = ServerName(nameType: Byte, name: Block)

  datatype Extension = ServerNames(names: seq<ServerName>) | Other(extType: U16, body: Block)

  datatype Hello = Hello(
    recordVersion: seq<Byte>, version: seq<Byte>, random: seq<Byte>, sessionId: ShortBlock,
    cipherSuites: seq<U16>, compression: ShortBlock, extensions: seq<Extension>)

  ghost function EncodeNames(names: seq<ServerName>): seq<Byte> {
    if names == [] then []
    else [names[0].nameType] + Vec16(names[0].name) + EncodeNames(names[1..])
  }

  ghost predicate ExtensionOk(e: Extension) {
    match e
    case ServerNames(names) => names != [] && |EncodeNames(names)| + 2 < 65536
    case Other(extType, _) => extType != 0
  }

  ghost function RawOf(e: Extension): RawExt
    requires ExtensionOk(e)
  {
    match e
    case ServerNames(names) => RawExt(0, Vec16(EncodeNames(names)))
    case Other(extType, body) => RawExt(extType, body)
  }

  ghost predicate ExtensionsOk(es: seq<Extension>) {
    es == [] || (ExtensionOk(es[0]) && ExtensionsOk(es[1..]))
  }

  ghost function RawExts(es: seq<Extension>): (r: seq<RawExt>)
    requires ExtensionsOk(es)
  {
    if es == [] then [] else [RawOf(es[0])] + RawExts(es[1..])
  }

  ghost function EncodeSuites(suites: seq<U16>): (r: seq<Byte>)
    ensures |r| == 2 * |suites|
  {
    if suites == [] then [] else Bytes16(suites[0]) + EncodeSuites(suites[1..])
  }

  ghost predicate HelloOk(h: Hello) {
    && |h.recordVersion| == 2 && |h.version| == 2 && |h.random| == 32
    && 2 * |h.cipherSuites| < 65536
    && ExtensionsOk(h.extensions)
    && |EncodeExts(RawExts(h.extensions))| < 65536
    && HandshakeSize(h) < 65536
  }

  ghost function HandshakeSize(h: Hello): nat
    requires ExtensionsOk(h.extensions)
  {
    4 + 34 + 1 + |h.sessionId| + 2 + 2 * |h.cipherSuites| + 1 + |h.compression| + 2
      + |EncodeExts(RawExts(h.extensions))|
  }

  function Bytes24(n: nat): seq<Byte> {
    [n / 65536 % 256, n / 256 % 256, n % 256]
  }

  ghost function PreludeOfHello(h: Hello): Prelude
    requires HelloOk(h)
  {
    Prelude(h.recordVersion, HandshakeSize(h), Bytes24(HandshakeSize(h) - 4), h.version + h.random,
            h.sessionId, EncodeSuites(h.cipherSuites), h.compression, |EncodeExts(RawExts(h.extensions))|)
  }

  /** A single-record ClientHello on the wire. */
  ghost function Encode(h: Hello): seq<Byte>
    requires HelloOk(h)
  {
    EncodeRecord(PreludeOfHello(h), EncodeExts(RawExts(h.extensions)))
  }

  /** The first name in the first server_name extension, whatever its name type. */
  ghost function FirstServerName(es: seq<Extension>): Result<seq<Byte>, SniError>
    requires ExtensionsOk(es)
  {
    if es == [] then Err(NotFound)
    else if es[0].ServerNames? then Ok(es[0].names[0].name)
    else FirstServerName(es[1..])
  }

  lemma ReadsServerNames(names: seq<ServerName>)
    requires ExtensionOk(ServerNames(names))
    ensures FirstName(Vec16(EncodeNames(names))) == Ok(names[0].name)
  {
    var list := EncodeNames(names);
    var n := NameExt(Bytes16(|list|) + [names[0].nameType], names[0].name, EncodeNames(names[1..]));
    assert Vec16(list) == NameBody(n);
    ReadsFirstName(n);
  }

  lemma {:induction false} ScansExtensions(es: seq<Extension>, t: seq<Byte>)
    requires ExtensionsOk(es)
    ensures var wire := EncodeExts(RawExts(es)); Scan(wire + t, |wire|) == FirstServerName(es)
  {
    if es != [] {
      var e, tail := RawOf(es[0]), EncodeExts(RawExts(es[1..]));
      assert EncodeExts(RawExts(es)) == EncodeExt(e) + tail by {
        assert RawExts(es)[1..] == RawExts(es[1..]);
      }
      ExtLength(e);
      assert EncodeExts(RawExts(es)) + t == EncodeExt(e) + (tail + t) by {
        Text.Assoc(EncodeExt(e), tail, t);
      }
      ScansExt(e, tail + t, |EncodeExt(e)| + |tail|);
      if es[0].ServerNames? {
        ReadsServerNames(es[0].names);
      } else {
        ScansExtensions(es[1..], t);
      }
    }
  }

  lemma RecordLength(h: Hello)
    requires HelloOk(h)
    ensures |Encode(h)| == 5 + HandshakeSize(h)
  {
  }

  /**
   * For every well-formed single-record ClientHello, followed by any bytes, the parser returns the first name of
   * the first server_name extension, whatever its name type, and an error when there is no such extension.
   */
  lemma ParserInvertsEncoder(h: Hello, t: seq<Byte>)
    requires HelloOk(h)
    ensures ParseSni(Encode(h) + t) == FirstServerName(h.extensions)
  {
    var p, es := PreludeOfHello(h), EncodeExts(RawExts(h.extensions));
    RecordAppend(p, es, t);
    RecordLength(h);
    ParsesRecord(p, es + t);
    ScansExtensions(h.extensions, t);
  }
  // ---------------------------------------------------------------- hellos that are cut short

  lemma RecordHeader(h: Hello)
    requires HelloOk(h)
    ensures var d := Encode(h); |d| > 5 && d[0] == 0x16 && Word(d[3], d[4]) == |d| - 5
  {
    RecordLength(h);
    var p := PreludeOfHello(h);
    var header := [0x16] + p.recordVersion + Bytes16(p.recordLen);
    assert Encode(h)[..5] == header;
    assert header[3] == Bytes16(p.recordLen)[0] && header[4] == Bytes16(p.recordLen)[1];
    assert Encode(h)[3] == header[3] && Encode(h)[4] == header[4] && Encode(h)[0] == header[0];
  }

  /** A hello cut anywhere before its end is refused, and not for want of a name. */
  lemma CutHelloIsRefused(h: Hello, n: nat)
    requires HelloOk(h) && n < |Encode(h)|
    ensures ParseSni(Encode(h)[..n]) == Err(if n < 5 then ShortRecord else IncompleteRecord)
  {
    RecordHeader(h);
  }

  lemma {:induction false} NameOrNotFound(es: seq<Extension>)
    requires ExtensionsOk(es)
    ensures FirstServerName(es).Ok? || FirstServerName(es) == Err(NotFound)
  {
    if es != [] && es[0].Other? {
      NameOrNotFound(es[1..]);
    }
  }

  /** A hello with one host name and so many bytes of padding (section 3 of RFC 7685). */
  function Sample(name: Block, padding: nat): Hello
    requires |name| + padding < 60000
  {
    Hello([3, 1], [3, 3], seq(32, _ => 0), [], [], [],
          [ServerNames([ServerName(0, name)]), Other(21, seq(padding, _ => 0))])
  }

  lemma OneMoreExtension(e: Extension, es: seq<Extension>)
    requires ExtensionOk(e) && ExtensionsOk(es)
    ensures ExtensionsOk([e] + es)
    ensures |EncodeExts(RawExts([e] + es))| == 4 + |RawOf(e).body| + |EncodeExts(RawExts(es))|
  {
    assert ([e] + es)[1..] == es;
    assert ([RawOf(e)] + RawExts(es))[1..] == RawExts(es);
    ExtLength(RawOf(e));
  }

  lemma SampleIsOk(name: Block, padding: nat)
    requires |name| + padding < 60000
    ensures var h := Sample(name, padding);
      HelloOk(h) && |Encode(h)| == 62 + |name| + padding && FirstServerName(h.extensions) == Ok(name)
  {
    var h := Sample(name, padding);
    var names, pad: Block := [ServerName(0, name)], seq(padding, _ => 0);
    assert names[1..] == [] && |EncodeNames(names)| == 3 + |name|;
    OneMoreExtension(Other(21, pad), []);
    OneMoreExtension(ServerNames(names), [Other(21, pad)] + []);
    assert h.extensions == [ServerNames(names)] + ([Other(21, pad)] + []);
    RecordLength(h);
  }
}
