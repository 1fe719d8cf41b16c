/** CBOR (section 3 of RFC 8949) for the kinds of value CTAP2 uses: integers, byte and text strings,
    arrays and maps of definite length, truth values and null. */
module Cbor {
  import opened Wrappers
  import opened Numbers
  import opened Bytes

  /** A text is given by its UTF-8 bytes. */
  datatype Value =
    | Integer(n: int)
    | Blob(bytes: seq<byte>)
    | Text(utf8: seq<byte>)
    | Array(items: seq<Value>)
    | Map(entries: seq<Entry>)
    | Bool(flag: bool)
    | Null

  datatype Entry = Entry(key: Value, value: Value)

  type u64 = n: nat | n < U64_LIMIT

  function Be64(n: u64): (s: seq<byte>)
    ensures |s| == 8
  {
    Be32(n / 0x1_0000_0000) + Be32(n % 0x1_0000_0000)
  }

  function FromBe64(s: seq<byte>): u64
    requires |s| == 8
  {
    (FromBe32(s[..4]) as int) * 0x1_0000_0000 + FromBe32(s[4..]) as int
  }

  lemma Be64RoundTrip(n: u64)
    ensures FromBe64(Be64(n)) == n
  {
    assert Be64(n)[..4] == Be32(n / 0x1_0000_0000) && Be64(n)[4..] == Be32(n % 0x1_0000_0000);
    Be32RoundTrip(n / 0x1_0000_0000);
    Be32RoundTrip(n % 0x1_0000_0000);
  }

  // ---- Heads -----------------------------------------------------------------------------

  type major = m: int | 0 <= m < 8

  /** The shortest head for an argument. */
  function Head(m: major, n: u64): (s: seq<byte>)
    ensures |s| > 0
  {
    if n < 24 then [m * 32 + n]
    else if n < 0x100 then [m * 32 + 24, n]
    else if n < 0x1_0000 then [m * 32 + 25] + Be16(n)
    else if n < 0x1_0000_0000 then [m * 32 + 26] + Be32(n)
    else [m * 32 + 27] + Be64(n)
  }

  datatype HeadRead = HeadRead(m: major, n: u64, rest: seq<byte>)

  function ReadHead(s: seq<byte>): (r: Option<HeadRead>)
    ensures r.Some? ==> |r.value.rest| < |s|
  {
    if s == [] then None
    else
      var m: major, info := s[0] / 32, s[0] % 32;
      if info < 24 then Some(HeadRead(m, info, s[1..]))
      else if info == 24 && |s| >= 2 then Some(HeadRead(m, s[1], s[2..]))
      else if info == 25 && |s| >= 3 then Some(HeadRead(m, FromBe16(s[1..3]), s[3..]))
      else if info == 26 && |s| >= 5 then Some(HeadRead(m, FromBe32(s[1..5]), s[5..]))
      else if info == 27 && |s| >= 9 then Some(HeadRead(m, FromBe64(s[1..9]), s[9..]))
      else None
  }

  /** The bytes of an argument after the first. */
  function TailLength(info: nat): nat {
    if info < 24 then 0 else if info == 24 then 1 else if info == 25 then 2 else if info == 26 then 4 else 8
  }

  /** How `ReadHead` reads a head with an argument of `|tail|` bytes. */
  lemma ReadLead(m: major, info: nat, tail: seq<byte>, rest: seq<byte>)
    requires info < 28
    requires |tail| == TailLength(info)
    ensures ReadHead([m * 32 + info] + tail + rest) == Some(HeadRead(m,
      (if info < 24 then info else if info == 24 then tail[0] else if info == 25 then FromBe16(tail)
       else if info == 26 then FromBe32(tail) else FromBe64(tail)), rest))
  {
    var s := [m * 32 + info] + tail + rest;
    assert s[0] == m * 32 + info && s[1..1 + |tail|] == tail && s[1 + |tail|..] == rest;
    assert tail != [] ==> s[1] == tail[0];
    LeadParts(m, info);
  }

  lemma LeadParts(m: major, info: nat)
    requires info < 32
    ensures (m * 32 + info) / 32 == m && (m * 32 + info) % 32 == info
  {
  }

  lemma ReadWrittenHead(m: major, n: u64, rest: seq<byte>)
    ensures ReadHead(Head(m, n) + rest) == Some(HeadRead(m, n, rest))
  {
    if n < 24 {
      ReadLead(m, n, [], rest);
      assert [m * 32 + n] + [] == Head(m, n);
    } else if n < 0x100 {
      ReadLead(m, 24, [n], rest);
      assert [m * 32 + 24] + [n] == Head(m, n);
    } else if n < 0x1_0000 {
      ReadLead(m, 25, Be16(n), rest);
      Be16RoundTrip(n);
    } else if n < 0x1_0000_0000 {
      ReadLead(m, 26, Be32(n), rest);
      Be32RoundTrip(n);
    } else {
      ReadLead(m, 27, Be64(n), rest);
      Be64RoundTrip(n);
    }
  }

  // The simple values, written in the head itself.
  const FALSE: u64 := 20
  const TRUE: u64 := 21
  const NULL: u64 := 22

  // ---- Values ----------------------------------------------------------------------------

  /** Within the range of a CBOR argument everywhere. */
  predicate Encodable(v: Value) {
    match v
    case Integer(n) => -1 - U64_LIMIT < n < U64_LIMIT
    case Blob(bytes) => |bytes| < U64_LIMIT
    case Text(utf8) => |utf8| < U64_LIMIT
    case Bool(_) => true
    case Null => true
    case Array(items) => |items| < U64_LIMIT && forall i :: 0 <= i < |items| ==> Encodable(items[i])
    case Map(entries) =>
      && |entries| < U64_LIMIT
      && forall i :: 0 <= i < |entries| ==> Encodable(entries[i].key) && Encodable(entries[i].value)
  }

  /** A value with no other inside it, within range. */
  predicate Leaf(v: Value) {
    match v
    case Integer(n) => -1 - U64_LIMIT < n < U64_LIMIT
    case Blob(bytes) => |bytes| < U64_LIMIT
    case Text(utf8) => |utf8| < U64_LIMIT
    case Bool(_) => true
    case Null => true
    case _ => false
  }

  lemma LeafEncodable(v: Value)
    requires Leaf(v)
    ensures Encodable(v)
  {
  }

  lemma LeavesEncodable(entries: seq<Entry>)
    requires |entries| < U64_LIMIT && forall i :: 0 <= i < |entries| ==> Leaf(entries[i].key) && Leaf(entries[i].value)
    ensures Encodable(Map(entries))
  {
    forall i | 0 <= i < |entries| ensures Encodable(entries[i].key) && Encodable(entries[i].value) {
      LeafEncodable(entries[i].key);
      LeafEncodable(entries[i].value);
    }
  }

  lemma ThreeEncodable(entries: seq<Entry>)
    requires |entries| == 3 && Encodable(entries[0].value) && Encodable(entries[1].value) && Encodable(entries[2].value)
    requires Leaf(entries[0].key) && Leaf(entries[1].key) && Leaf(entries[2].key)
    ensures Encodable(Map(entries))
  {
    forall i | 0 <= i < |entries| ensures Encodable(entries[i].key) && Encodable(entries[i].value) {
      assert i == 0 || i == 1 || i == 2;
      LeafEncodable(entries[i].key);
    }
  }

  lemma ConsEncodable(e: Entry, es: seq<Entry>)
    requires Encodable(Map(es)) && Leaf(e.key) && Encodable(e.value) && |es| + 1 < U64_LIMIT
    ensures Encodable(Map([e] + es))
  {
    var all := [e] + es;
    LeafEncodable(e.key);
    forall i | 0 <= i < |all| ensures Encodable(all[i].key) && Encodable(all[i].value) {
      if i > 0 { assert all[i] == es[i - 1]; }
    }
  }

  function Encode(v: Value): seq<byte>
    requires Encodable(v)
    decreases v, 0
  {
    match v
    case Integer(n) => if n >= 0 then Head(0, n) else Head(1, -1 - n)
    case Blob(bytes) => Head(2, |bytes|) + bytes
    case Text(utf8) => Head(3, |utf8|) + utf8
    case Bool(flag) => Head(7, if flag then TRUE else FALSE)
    case Null => Head(7, NULL)
    case Array(items) => Head(4, |items|) + EncodeItems(items)
    case Map(entries) => Head(5, |entries|) + EncodeEntries(entries)
  }

  function EncodeItems(items: seq<Value>): seq<byte>
    requires forall i :: 0 <= i < |items| ==> Encodable(items[i])
    decreases items, 1
  {
    if items == [] then [] else Encode(items[0]) + EncodeItems(items[1..])
  }

  function EncodeEntries(entries: seq<Entry>): seq<byte>
    requires forall i :: 0 <= i < |entries| ==> Encodable(entries[i].key) && Encodable(entries[i].value)
    decreases entries, 1
  {
    if entries == [] then [] else EncodeEntry(entries[0]) + EncodeEntries(entries[1..])
  }

  function EncodeEntry(e: Entry): seq<byte>
    requires Encodable(e.key) && Encodable(e.value)
    decreases e, 1
  {
    Encode(e.key) + Encode(e.value)
  }

  function Decode(s: seq<byte>): (r: Option<(Value, seq<byte>)>)
    ensures r.Some? ==> |r.value.1| < |s|
    decreases |s|, 0
  {
    match ReadHead(s)
    case None => None
    case Some(HeadRead(m, n, rest)) =>
      if m == 0 then Some((Integer(n), rest))
      else if m == 1 then Some((Integer(-1 - n), rest))
      else if m == 2 then if n <= |rest| then Some((Blob(rest[..n]), rest[n..])) else None
      else if m == 3 then if n <= |rest| then Some((Text(rest[..n]), rest[n..])) else None
      else if m == 4 then
        (match DecodeItems(n, rest) case Some((items, after)) => Some((Array(items), after)) case None => None)
      else if m == 5 then
        (match DecodeEntries(n, rest) case Some((entries, after)) => Some((Map(entries), after)) case None => None)
      else if m == 7 && |rest| + 1 == |s| && FALSE <= n <= NULL then
        Some((if n == NULL then Null else Bool(n == TRUE), rest))
      else None
  }

  function DecodeItems(n: nat, s: seq<byte>): (r: Option<(seq<Value>, seq<byte>)>)
    ensures r.Some? ==> |r.value.1| <= |s|
    decreases |s|, 1
  {
    if n == 0 then Some(([], s))
    else
      match Decode(s)
      case None => None
      case Some((v, rest)) =>
        match DecodeItems(n - 1, rest)
        case None => None
        case Some((vs, after)) => Some(([v] + vs, after))
  }

  function DecodeEntries(n: nat, s: seq<byte>): (r: Option<(seq<Entry>, seq<byte>)>)
    ensures r.Some? ==> |r.value.1| <= |s|
    decreases |s|, 1
  {
    if n == 0 then Some(([], s))
    else
      match Decode(s)
      case None => None
      case Some((k, afterKey)) =>
        match Decode(afterKey)
        case None => None
        case Some((v, rest)) =>
          match DecodeEntries(n - 1, rest)
          case None => None
          case Some((es, after)) => Some(([Entry(k, v)] + es, after))
  }

  lemma Regroup(a: seq<byte>, b: seq<byte>, c: seq<byte>)
    ensures (a + b) + c == a + (b + c)
  {
  }

  lemma DecodeEncodedString(m: major, bytes: seq<byte>, rest: seq<byte>)
    requires |bytes| < U64_LIMIT && (m == 2 || m == 3)
    ensures Decode(Head(m, |bytes|) + bytes + rest) == Some((if m == 2 then Blob(bytes) else Text(bytes), rest))
  {
    Regroup(Head(m, |bytes|), bytes, rest);
    ReadWrittenHead(m, |bytes|, bytes + rest);
    assert (bytes + rest)[..|bytes|] == bytes && (bytes + rest)[|bytes|..] == rest;
  }

  lemma ReadArray(n: u64, body: seq<byte>, items: seq<Value>, rest: seq<byte>)
    requires DecodeItems(n, body) == Some((items, rest))
    ensures Decode(Head(4, n) + body) == Some((Array(items), rest))
  {
    ReadWrittenHead(4, n, body);
  }

  lemma ReadMap(n: u64, body: seq<byte>, entries: seq<Entry>, rest: seq<byte>)
    requires DecodeEntries(n, body) == Some((entries, rest))
    ensures Decode(Head(5, n) + body) == Some((Map(entries), rest))
  {
    ReadWrittenHead(5, n, body);
  }

  lemma OneItem(n: nat, s: seq<byte>, v: Value, rest: seq<byte>, vs: seq<Value>, after: seq<byte>)
    requires Decode(s) == Some((v, rest)) && DecodeItems(n, rest) == Some((vs, after))
    ensures DecodeItems(n + 1, s) == Some(([v] + vs, after))
  {
  }

  lemma OneEntry(n: nat, s: seq<byte>, e: Entry, middle: seq<byte>, rest: seq<byte>, es: seq<Entry>, after: seq<byte>)
    requires Decode(s) == Some((e.key, middle)) && Decode(middle) == Some((e.value, rest))
    requires DecodeEntries(n, rest) == Some((es, after))
    ensures DecodeEntries(n + 1, s) == Some(([e] + es, after))
  {
  }

  /** What is written is read back, at any depth, and nothing after it is touched. */
  lemma {:induction false} DecodeEncode(v: Value, rest: seq<byte>)
    requires Encodable(v)
    ensures Decode(Encode(v) + rest) == Some((v, rest))
    decreases v, 0
  {
    match v
    case Integer(n) => ReadWrittenHead(if n >= 0 then 0 else 1, if n >= 0 then n else -1 - n, rest);
    case Blob(bytes) => DecodeEncodedString(2, bytes, rest);
    case Text(utf8) => DecodeEncodedString(3, utf8, rest);
    case Bool(flag) => ReadWrittenHead(7, if flag then TRUE else FALSE, rest);
    case Null => ReadWrittenHead(7, NULL, rest);
    case Array(items) =>
      Regroup(Head(4, |items|), EncodeItems(items), rest);
      DecodeEncodeItems(items, rest);
      ReadArray(|items|, EncodeItems(items) + rest, items, rest);
    case Map(entries) =>
      Regroup(Head(5, |entries|), EncodeEntries(entries), rest);
      DecodeEncodeEntries(entries, rest);
      ReadMap(|entries|, EncodeEntries(entries) + rest, entries, rest);
  }

  lemma {:induction false} DecodeEncodeItems(items: seq<Value>, rest: seq<byte>)
    requires forall i :: 0 <= i < |items| ==> Encodable(items[i])
    ensures DecodeItems(|items|, EncodeItems(items) + rest) == Some((items, rest))
    decreases items, 1
  {
    if items == [] {
      assert EncodeItems(items) + rest == rest;
    } else {
      var v, vs := items[0], items[1..];
      var later := EncodeItems(vs) + rest;
      assert items == [v] + vs;
      Regroup(Encode(v), EncodeItems(vs), rest);
      DecodeEncode(v, later);
      DecodeEncodeItems(vs, rest);
      OneItem(|vs|, Encode(v) + later, v, later, vs, rest);
    }
  }

  lemma {:induction false} DecodeEncodeEntries(entries: seq<Entry>, rest: seq<byte>)
    requires forall i :: 0 <= i < |entries| ==> Encodable(entries[i].key) && Encodable(entries[i].value)
    ensures DecodeEntries(|entries|, EncodeEntries(entries) + rest) == Some((entries, rest))
    decreases entries, 1
  {
    if entries == [] {
      assert EncodeEntries(entries) + rest == rest;
    } else {
      var e, es := entries[0], entries[1..];
      var later := EncodeEntries(es) + rest;
      assert entries == [e] + es;
      Regroup(EncodeEntry(e), EncodeEntries(es), rest);
      DecodeEncodeEntry(e, later);
      DecodeEncodeEntries(es, rest);
      OneEntry(|es|, EncodeEntry(e) + later, e, Encode(e.value) + later, later, es, rest);
    }
  }

  lemma {:induction false} DecodeEncodeEntry(e: Entry, later: seq<byte>)
    requires Encodable(e.key) && Encodable(e.value)
    ensures Decode(EncodeEntry(e) + later) == Some((e.key, Encode(e.value) + later))
    ensures Decode(Encode(e.value) + later) == Some((e.value, later))
    decreases e, 1
  {
    Regroup(Encode(e.key), Encode(e.value), later);
    DecodeEncode(e.key, Encode(e.value) + later);
    DecodeEncode(e.value, later);
  }
}
