/** Base64 (sections 4 and 5 of RFC 4648) as the two ends use it: `STANDARD` and
    `URL_SAFE_NO_PAD` of the Rust engine, and the Java encoders and decoders on the phone. */
module Base64 {
  import opened Wrappers
  import opened Bytes

  /** The standard alphabet is padded, the URL-safe one is not. */
  datatype Variant = Standard | UrlSafe

  /** The Rust engine insists on the canonical text; Java takes the padding as optional and
      ignores the unused bits of the last symbol. */
  datatype Engine = Rust | Java

  const PAD: char := '='

  type sextet = n: int | 0 <= n < 64

  function Symbol(v: Variant, n: sextet): char {
    if n < 26 then (n + 'A' as int) as char
    else if n < 52 then (n - 26 + 'a' as int) as char
    else if n < 62 then (n - 52 + '0' as int) as char
    else if n == 62 then (if v == Standard then '+' else '-')
    else (if v == Standard then '/' else '_')
  }

  function Value(v: Variant, c: char): Option<sextet> {
    if 'A' <= c <= 'Z' then Some(c as int - 'A' as int)
    else if 'a' <= c <= 'z' then Some(c as int - 'a' as int + 26)
    else if '0' <= c <= '9' then Some(c as int - '0' as int + 52)
    else if c == (if v == Standard then '+' else '-') then Some(62)
    else if c == (if v == Standard then '/' else '_') then Some(63)
    else None
  }

  function Padding(v: Variant, n: nat): string {
    if v == Standard then seq(n, i => PAD) else ""
  }

  // The four sextets of three bytes, and back.
  function First(a: byte): sextet { a / 4 }
  function Second(a: byte, b: byte): sextet { a % 4 * 16 + b / 16 }
  function Third(b: byte, c: byte): sextet { b % 16 * 4 + c / 64 }
  function Fourth(c: byte): sextet { c % 64 }

  function Byte0(p: sextet, q: sextet): byte { p * 4 + q / 16 }
  function Byte1(q: sextet, r: sextet): byte { q % 16 * 16 + r / 4 }
  function Byte2(r: sextet, t: sextet): byte { r % 4 * 64 + t }

  function Pair(v: Variant, p: sextet, q: sextet): string {
    [Symbol(v, p), Symbol(v, q)] + Padding(v, 2)
  }

  function Triple(v: Variant, p: sextet, q: sextet, r: sextet): string {
    [Symbol(v, p), Symbol(v, q), Symbol(v, r)] + Padding(v, 1)
  }

  function Quad(v: Variant, p: sextet, q: sextet, r: sextet, t: sextet): (s: string)
    ensures |s| == 4
  {
    [Symbol(v, p), Symbol(v, q), Symbol(v, r), Symbol(v, t)]
  }

  function Encode(v: Variant, b: seq<byte>): string {
    if |b| == 0 then ""
    else if |b| == 1 then Pair(v, First(b[0]), Second(b[0], 0))
    else if |b| == 2 then Triple(v, First(b[0]), Second(b[0], b[1]), Third(b[1], 0))
    else Quad(v, First(b[0]), Second(b[0], b[1]), Third(b[1], b[2]), Fourth(b[2])) + Encode(v, b[3..])
  }

  /** How many symbols the last group holds, once its padding is found acceptable. */
  function LastSymbols(v: Variant, e: Engine, s: string): (r: Option<nat>)
    ensures r.Some? ==> r.value <= |s| && r.value in {2, 3}
  {
    if |s| == 4 && s[2] == PAD && s[3] == PAD then (if v == Standard || e == Java then Some(2) else None)
    else if |s| == 4 && s[3] == PAD then (if v == Standard || e == Java then Some(3) else None)
    else if |s| == 2 || |s| == 3 then (if v == UrlSafe || e == Java then Some(|s|) else None)
    else None
  }

  function DecodePair(e: Engine, p: sextet, q: sextet): Option<seq<byte>> {
    if e == Rust && q % 16 != 0 then None else Some([Byte0(p, q)])
  }

  function DecodeTriple(e: Engine, p: sextet, q: sextet, r: sextet): Option<seq<byte>> {
    if e == Rust && r % 4 != 0 then None else Some([Byte0(p, q), Byte1(q, r)])
  }

  function DecodeLast(v: Variant, e: Engine, s: string): Option<seq<byte>> {
    match LastSymbols(v, e, s)
    case None => None
    case Some(n) =>
      match (Value(v, s[0]), Value(v, s[1]))
      case (Some(p), Some(q)) =>
        if n == 2 then DecodePair(e, p, q)
        else (
          match Value(v, s[2])
          case Some(r) => DecodeTriple(e, p, q, r)
          case None => None
        )
      case _ => None
  }

  predicate FullGroup(v: Variant, s: string) {
    |s| >= 4 && Value(v, s[0]).Some? && Value(v, s[1]).Some? && Value(v, s[2]).Some? && Value(v, s[3]).Some?
  }

  function DecodeQuad(p: sextet, q: sextet, r: sextet, t: sextet): (b: seq<byte>)
    ensures |b| == 3
  {
    [Byte0(p, q), Byte1(q, r), Byte2(r, t)]
  }

  function DecodeGroup(v: Variant, s: string): (b: seq<byte>)
    requires FullGroup(v, s)
    ensures |b| == 3
  {
    DecodeQuad(Value(v, s[0]).value, Value(v, s[1]).value, Value(v, s[2]).value, Value(v, s[3]).value)
  }

  function Decode(v: Variant, e: Engine, s: string): Option<seq<byte>> {
    if s == "" then Some([])
    else if FullGroup(v, s) then
      match Decode(v, e, s[4..])
      case Some(b) => Some(DecodeGroup(v, s) + b)
      case None => None
    else DecodeLast(v, e, s)
  }

  lemma SymbolValue(v: Variant, n: sextet)
    ensures Value(v, Symbol(v, n)) == Some(n)
    ensures Symbol(v, n) != PAD
  {
  }

  lemma ValueSymbol(v: Variant, c: char)
    requires Value(v, c).Some?
    ensures Symbol(v, Value(v, c).value) == c
  {
  }

  lemma JoinSplit(a: byte, b: byte, c: byte)
    ensures DecodeQuad(First(a), Second(a, b), Third(b, c), Fourth(c)) == [a, b, c]
  {
  }

  lemma JoinSplitTwo(a: byte, b: byte)
    ensures DecodeTriple(Rust, First(a), Second(a, b), Third(b, 0)) == Some([a, b])
    ensures DecodeTriple(Java, First(a), Second(a, b), Third(b, 0)) == Some([a, b])
  {
    assert Third(b, 0) % 4 == 0;
    assert Byte0(First(a), Second(a, b)) == a;
    assert Byte1(Second(a, b), Third(b, 0)) == b;
  }

  lemma SplitJoin(p: sextet, q: sextet, r: sextet, t: sextet)
    ensures First(Byte0(p, q)) == p
    ensures Second(Byte0(p, q), Byte1(q, r)) == q
    ensures Third(Byte1(q, r), Byte2(r, t)) == r
    ensures Fourth(Byte2(r, t)) == t
  {
  }

  lemma ReadQuad(v: Variant, p: sextet, q: sextet, r: sextet, t: sextet, rest: string)
    ensures var s := Quad(v, p, q, r, t) + rest;
      s[4..] == rest && FullGroup(v, s) && DecodeGroup(v, s) == DecodeQuad(p, q, r, t)
  {
    SymbolValue(v, p);
    SymbolValue(v, q);
    SymbolValue(v, r);
    SymbolValue(v, t);
  }

  lemma ReadPair(v: Variant, e: Engine, p: sextet, q: sextet)
    ensures Decode(v, e, Pair(v, p, q)) == DecodePair(e, p, q)
  {
    SymbolValue(v, p);
    SymbolValue(v, q);
  }

  lemma ReadTriple(v: Variant, e: Engine, p: sextet, q: sextet, r: sextet)
    ensures Decode(v, e, Triple(v, p, q, r)) == DecodeTriple(e, p, q, r)
  {
    SymbolValue(v, p);
    SymbolValue(v, q);
    SymbolValue(v, r);
    var s := Triple(v, p, q, r);
    assert s[2] == Symbol(v, r);
    assert v == Standard ==> |s| == 4 && s[3] == PAD;
    assert v == UrlSafe ==> |s| == 3;
  }

  lemma DecodeEncodeOne(v: Variant, e: Engine, a: byte)
    ensures Decode(v, e, Encode(v, [a])) == Some([a])
  {
    ReadPair(v, e, First(a), Second(a, 0));
    assert Byte0(First(a), Second(a, 0)) == a;
  }

  lemma DecodeEncodeTwo(v: Variant, e: Engine, a: byte, b: byte)
    ensures Decode(v, e, Encode(v, [a, b])) == Some([a, b])
  {
    ReadTriple(v, e, First(a), Second(a, b), Third(b, 0));
    JoinSplitTwo(a, b);
  }

  lemma EncodeThree(v: Variant, a: byte, b: byte, c: byte, rest: seq<byte>)
    ensures Encode(v, [a, b, c] + rest) == Quad(v, First(a), Second(a, b), Third(b, c), Fourth(c)) + Encode(v, rest)
  {
    assert ([a, b, c] + rest)[3..] == rest;
  }

  /** Either engine reads back what either end encoded, at every length. */
  lemma {:induction false} DecodeEncode(v: Variant, e: Engine, b: seq<byte>)
    ensures Decode(v, e, Encode(v, b)) == Some(b)
  {
    if |b| == 1 {
      DecodeEncodeOne(v, e, b[0]);
      assert b == [b[0]];
    } else if |b| == 2 {
      DecodeEncodeTwo(v, e, b[0], b[1]);
      assert b == [b[0], b[1]];
    } else if |b| >= 3 {
      var rest := b[3..];
      assert b == [b[0], b[1], b[2]] + rest;
      DecodeEncode(v, e, rest);
      EncodeThree(v, b[0], b[1], b[2], rest);
      ReadQuad(v, First(b[0]), Second(b[0], b[1]), Third(b[1], b[2]), Fourth(b[2]), Encode(v, rest));
      JoinSplit(b[0], b[1], b[2]);
    }
  }

  lemma WriteGroup(v: Variant, s: string)
    requires FullGroup(v, s)
    ensures forall rest :: Encode(v, DecodeGroup(v, s) + rest) == s[..4] + Encode(v, rest)
  {
    var p, q := Value(v, s[0]).value, Value(v, s[1]).value;
    var r, t := Value(v, s[2]).value, Value(v, s[3]).value;
    SplitJoin(p, q, r, t);
    forall i | 0 <= i < 4 ensures Value(v, s[i]).Some? && Symbol(v, Value(v, s[i]).value) == s[i] {
      ValueSymbol(v, s[i]);
    }
    assert Quad(v, p, q, r, t) == s[..4];
    forall rest ensures Encode(v, DecodeGroup(v, s) + rest) == s[..4] + Encode(v, rest) {
      var b := DecodeQuad(p, q, r, t) + rest;
      assert b[3..] == rest;
    }
  }

  lemma WritePair(v: Variant, p: sextet, q: sextet)
    requires q % 16 == 0
    ensures Encode(v, [Byte0(p, q)]) == Pair(v, p, q)
  {
    SplitJoin(p, q, 0, 0);
  }

  lemma WriteTriple(v: Variant, p: sextet, q: sextet, r: sextet)
    requires r % 4 == 0
    ensures Encode(v, [Byte0(p, q), Byte1(q, r)]) == Triple(v, p, q, r)
  {
    SplitJoin(p, q, r, 0);
    assert Third(Byte1(q, r), 0) == r;
  }

  lemma LastText(v: Variant, s: string)
    requires DecodeLast(v, Rust, s).Some?
    ensures LastSymbols(v, Rust, s) == Some(2) ==> s == [s[0], s[1]] + Padding(v, 2)
    ensures LastSymbols(v, Rust, s) == Some(3) ==> s == [s[0], s[1], s[2]] + Padding(v, 1)
  {
  }

  lemma WriteLast(v: Variant, s: string)
    requires DecodeLast(v, Rust, s).Some?
    ensures Encode(v, DecodeLast(v, Rust, s).value) == s
  {
    LastText(v, s);
    ValueSymbol(v, s[0]);
    ValueSymbol(v, s[1]);
    if LastSymbols(v, Rust, s) == Some(2) {
      WritePair(v, Value(v, s[0]).value, Value(v, s[1]).value);
    } else {
      ValueSymbol(v, s[2]);
      WriteTriple(v, Value(v, s[0]).value, Value(v, s[1]).value, Value(v, s[2]).value);
    }
  }

  /** The Rust engine accepts only what its own encoder writes, so a text it accepts is the
      encoding of the bytes it stands for. */
  lemma {:induction false} EncodeDecode(v: Variant, s: string)
    requires Decode(v, Rust, s).Some?
    ensures Encode(v, Decode(v, Rust, s).value) == s
  {
    if s != "" {
      if FullGroup(v, s) {
        EncodeDecode(v, s[4..]);
        WriteGroup(v, s);
        assert s == s[..4] + s[4..];
      } else {
        WriteLast(v, s);
      }
    }
  }
}
