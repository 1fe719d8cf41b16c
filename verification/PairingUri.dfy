/** The text behind the QR code: what the daemon prints and what the phone reads in it, and the
    six digits shown on both screens. */
module PairingUri {
  import opened Wrappers
  import opened Bytes
  import opened Text
  import Json
  import Base64

  // ---- The confirmation code -------------------------------------------------------------

  const WRAP: nat := 0x1_0000_0000

  /** The first four bytes of a token as digits in base 31, without wrapping. */
  function Horner(token: seq<byte>, n: nat): nat
    requires n <= |token|
  {
    if n == 0 then 0 else 31 * Horner(token, n - 1) + token[n - 1]
  }

  function Prefix(token: seq<byte>): nat {
    if |token| < 4 then |token| else 4
  }

  /** `{:06}`, and `padStart(6, '0')` on the phone. */
  function SixDigits(n: nat): string {
    var d := Json.Decimal(n);
    if |d| < 6 then seq(6 - |d|, i => '0') + d else d
  }

  function Code(token: seq<byte>): string {
    SixDigits(Horner(token, Prefix(token)) % 1_000_000)
  }

  /** The fold on the phone, in 32-bit unsigned arithmetic. */
  function Fold(token: seq<byte>, accumulator: nat): nat {
    if token == [] then accumulator else Fold(token[1..], (accumulator * 31 + token[0]) % WRAP)
  }

  function ConfirmationCode(token: seq<byte>): string {
    SixDigits(Fold(token[..Prefix(token)], 0) % 1_000_000)
  }

  lemma HornerBound(token: seq<byte>)
    ensures Horner(token, Prefix(token)) <= 7849920
  {
    if |token| > 0 { assert Horner(token, 1) <= 255; }
    if |token| > 1 { assert Horner(token, 2) <= 31 * 255 + 255; }
    if |token| > 2 { assert Horner(token, 3) <= 31 * (31 * 255 + 255) + 255; }
    if |token| > 3 { assert Horner(token, 4) <= 31 * (31 * (31 * 255 + 255) + 255) + 255; }
  }

  lemma {:induction false} HornerMonotone(token: seq<byte>, n: nat, m: nat)
    requires n <= m <= |token|
    ensures Horner(token, n) <= Horner(token, m)
    decreases m - n
  {
    if n < m {
      HornerMonotone(token, n, m - 1);
    }
  }

  /** `short_code`: the wrapping arithmetic never wraps. */
  method ShortCode(token: seq<byte>) returns (code: string)
    ensures code == Code(token)
  {
    var value := 0;
    var i := 0;
    HornerBound(token);
    while i < Prefix(token)
      invariant 0 <= i <= Prefix(token)
      invariant value == Horner(token, i)
    {
      HornerMonotone(token, i + 1, Prefix(token));
      value := (value * 31 % WRAP + token[i]) % WRAP;
      i := i + 1;
    }
    code := SixDigits(value % 1_000_000);
  }

  lemma {:induction false} FoldIsHorner(token: seq<byte>, n: nat)
    requires n <= Prefix(token)
    ensures Fold(token[..Prefix(token)], 0) == Fold(token[n..Prefix(token)], Horner(token, n))
  {
    if n > 0 {
      FoldIsHorner(token, n - 1);
      var tail := token[n - 1..Prefix(token)];
      assert tail[1..] == token[n..Prefix(token)] && tail[0] == token[n - 1];
      HornerStep(token, n);
    }
  }

  lemma HornerStep(token: seq<byte>, n: nat)
    requires 0 < n <= Prefix(token)
    ensures (Horner(token, n - 1) * 31 + token[n - 1]) % WRAP == Horner(token, n)
  {
    HornerBound(token);
    HornerMonotone(token, n, Prefix(token));
  }

  /** Both screens show the same six digits, for any token. */
  lemma CodesAgree(token: seq<byte>)
    ensures ConfirmationCode(token) == Code(token) && |Code(token)| == 6
    ensures forall i :: 0 <= i < 6 ==> Json.IsDigit(Code(token)[i])
  {
    FoldIsHorner(token, Prefix(token));
    var n := Horner(token, Prefix(token)) % 1_000_000;
    Json.DecimalShape(n);
    SixAtMost(n);
  }

  /** Of which number they are the digits: the first four bytes, read in base 31. */
  lemma CodeOf(token: seq<byte>)
    requires |token| >= 4
    ensures var a, b, c, d := token[0] as int, token[1] as int, token[2] as int, token[3] as int;
      Json.Digits(Code(token), 0) == ((29791 * a + 961 * b + 31 * c + d) % 1_000_000, "")
  {
    assert Horner(token, 4) == 31 * Horner(token, 3) + token[3] && Horner(token, 3) == 31 * Horner(token, 2) + token[2];
    assert Horner(token, 2) == 31 * Horner(token, 1) + token[1] && Horner(token, 1) == token[0];
    SixDigitsRead(Horner(token, 4) % 1_000_000);
  }

  lemma SixDigitsRead(n: nat)
    requires n < 1_000_000
    ensures Json.Digits(SixDigits(n), 0) == (n, "")
  {
    var d := Json.Decimal(n);
    Json.DigitsAppend(n, "");
    assert d + "" == d;
    if |d| < 6 {
      ZerosRead(6 - |d|, d);
    }
  }

  lemma {:induction false} ZerosRead(n: nat, d: string)
    ensures Json.Digits(seq(n, i => '0') + d, 0) == Json.Digits(d, 0)
  {
    var s := seq(n, i => '0') + d;
    if n == 0 {
      assert s == d;
    } else {
      assert s[1..] == seq(n - 1, i => '0') + d;
      ZerosRead(n - 1, d);
    }
  }

  lemma SixAtMost(n: nat)
    requires n < 1_000_000
    ensures |Json.Decimal(n)| <= 6
  {
    assert |Json.Decimal(n / 100000)| == 1;
    assert n >= 10 ==> |Json.Decimal(n)| == |Json.Decimal(n / 10)| + 1;
    assert n >= 100 ==> |Json.Decimal(n / 10)| == |Json.Decimal(n / 100)| + 1;
    assert n >= 1000 ==> |Json.Decimal(n / 100)| == |Json.Decimal(n / 1000)| + 1;
    assert n >= 10000 ==> |Json.Decimal(n / 1000)| == |Json.Decimal(n / 10000)| + 1;
    assert n >= 100000 ==> |Json.Decimal(n / 10000)| == |Json.Decimal(n / 100000)| + 1;
  }

  // ---- The URI ---------------------------------------------------------------------------

  const DEFAULT_PORT: nat := 34719

  function PairingUri(host: string, token: seq<byte>, address: string): string {
    "kpk://pair?v=1&h=" + host + "&t=" + Base64.Encode(Base64.UrlSafe, token)
    + "&a=" + address + ":" + Json.Decimal(DEFAULT_PORT)
  }

  datatype Invite = Invite(hostName: string, token: string, address: string, port: int, confirmationCode: string)

  const REPLACEMENT: char := 0xfffd as char

  /** The platform's UTF-8 decoder, as far as it matters: nothing from nothing, and never more units
      than bytes, with replacement characters for what is malformed. */
  ghost predicate IsDecoder(utf8: seq<byte> -> string) {
    utf8([]) == "" && forall bytes :: |utf8(bytes)| <= |bytes|
  }

  /** Android's decoding of a query: `+` is a space, escaped bytes are `held` until something else
      comes and then decoded together, and a malformed escape leaves a replacement character. */
  function UrlDecode(utf8: seq<byte> -> string, s: string, held: seq<byte>): string
    decreases |s|
  {
    if s == "" then utf8(held)
    else if s[0] == '+' then utf8(held) + [' '] + UrlDecode(utf8, s[1..], [])
    else if s[0] != '%' then utf8(held) + [s[0]] + UrlDecode(utf8, s[1..], [])
    else if |s| == 1 then utf8(held) + [REPLACEMENT]
    else
      match Json.HexValue(s[1])
      case None => utf8(held) + [REPLACEMENT] + UrlDecode(utf8, s[2..], [0])
      case Some(high) =>
        if |s| == 2 then utf8(held) + [REPLACEMENT]
        else
          match Json.HexValue(s[2])
          case None => utf8(held) + [REPLACEMENT] + UrlDecode(utf8, s[3..], [high])
          case Some(low) => UrlDecode(utf8, s[3..], held + [16 * high + low])
  }

  /** `getQueryParameter`: the first component with that key. */
  function Parameter(utf8: seq<byte> -> string, query: string, key: string): Option<string>
    decreases |query|
  {
    var (component, others) := Cut(query, '&');
    var (name, value) := Cut(component, '=');
    if name == key then Some(if value.Some? then UrlDecode(utf8, value.value, []) else "")
    else if others.Some? then Parameter(utf8, others.value, key)
    else None
  }

  function ParameterOrEmpty(utf8: seq<byte> -> string, query: string, key: string): string {
    match Parameter(utf8, query, key) case Some(v) => v case None => ""
  }

  /** Kotlin's `toIntOrNull`, without its optional sign `+`. */
  function ToInt(s: string): Option<int> {
    var negative := s != "" && s[0] == '-';
    var digits := if negative then s[1..] else s;
    var (n, rest) := Json.Digits(digits, 0);
    if digits == "" || rest != "" || n > (if negative then 0x8000_0000 else 0x7fff_ffff) then None
    else Some(if negative then -(n as int) else n)
  }

  /** Scheme, authority and query of a hierarchical URI without user information or port. */
  function SplitUri(text: string): Option<(string, string, string)> {
    var (scheme, rest) := Cut(text, ':');
    if rest.None? || |rest.value| < 2 || rest.value[..2] != "//" then None
    else
      var (path, query) := Cut(Cut(rest.value[2..], '#').0, '?');
      Some((scheme, Cut(path, '/').0, if query.Some? then query.value else ""))
  }

  function ReadQuery(utf8: seq<byte> -> string, query: string): Option<Invite> {
    var token := ParameterOrEmpty(utf8, query, "t");
    match Base64.Decode(Base64.UrlSafe, Base64.Java, token)
    case None => None
    case Some(bytes) =>
      if |bytes| < 4 then None
      else
        match CutLast(ParameterOrEmpty(utf8, query, "a"), ':')
        case None => None
        case Some((address, port)) =>
          if address == "" || ToInt(port).None? then None
          else
            var host := ParameterOrEmpty(utf8, query, "h");
            Some(Invite(if host == "" then "desktop" else host,
                        token, address, ToInt(port).value, ConfirmationCode(bytes)))
  }

  function ParsePairingUri(utf8: seq<byte> -> string, text: string): Option<Invite> {
    match SplitUri(text)
    case None => None
    case Some((scheme, authority, query)) =>
      if scheme != "kpk" || authority != "pair" then None else ReadQuery(utf8, query)
  }

  // ---- Round trip ------------------------------------------------------------------------

  /** Free of the characters a query gives a meaning to. */
  predicate Bare(s: string) {
    '&' !in s && '#' !in s && '+' !in s && '%' !in s
  }

  lemma {:induction false} DecodeBare(utf8: seq<byte> -> string, s: string)
    requires Bare(s) && utf8([]) == ""
    ensures UrlDecode(utf8, s, []) == s
  {
    if s != "" {
      assert s == [s[0]] + s[1..];
      DecodeBare(utf8, s[1..]);
    }
  }

  /** One `key=value` at the head of a query. */
  lemma HeadComponent(key: string, value: string, others: Option<string>, query: string)
    requires Bare(key) && '=' !in key && Bare(value)
    requires query == key + "=" + value + (if others.Some? then "&" + others.value else "")
    ensures Cut(query, '&') == (key + "=" + value, others) && Cut(key + "=" + value, '=') == (key, Some(value))
  {
    var component := key + "=" + value;
    assert '&' !in component;
    CutAt(key, '=', value);
    match others
    case Some(rest) =>
      assert query == component + ['&'] + rest;
      CutAt(component, '&', rest);
    case None =>
      assert query == component;
      CutNone(component, '&');
  }

  lemma ParameterHere(utf8: seq<byte> -> string, key: string, value: string, others: Option<string>, query: string)
    requires Bare(key) && '=' !in key && Bare(value)
    requires query == key + "=" + value + (if others.Some? then "&" + others.value else "") && utf8([]) == ""
    ensures Parameter(utf8, query, key) == Some(value)
  {
    HeadComponent(key, value, others, query);
    DecodeBare(utf8, value);
  }

  lemma ParameterLater(utf8: seq<byte> -> string, key: string, value: string, others: string, query: string,
      wanted: string)
    requires Bare(key) && '=' !in key && Bare(value) && key != wanted
    requires query == key + "=" + value + ("&" + others)
    ensures Parameter(utf8, query, wanted) == Parameter(utf8, others, wanted)
  {
    HeadComponent(key, value, Some(others), query);
  }

  lemma BareAppend(a: string, b: string)
    requires Bare(a) && Bare(b)
    ensures Bare(a + b)
  {
  }

  lemma {:induction false} EncodedIsBare(token: seq<byte>)
    ensures Bare(Base64.Encode(Base64.UrlSafe, token))
  {
    if |token| >= 3 {
      EncodedIsBare(token[3..]);
    }
  }

  function Query(host: string, encoded: string, endpoint: string): string {
    "v" + "=" + "1" + ("&" + ("h" + "=" + host + ("&" + ("t" + "=" + encoded + ("&" + ("a" + "=" + endpoint + ""))))))
  }

  lemma QueryParameters(utf8: seq<byte> -> string, host: string, encoded: string, endpoint: string)
    requires utf8([]) == "" && Bare(host) && Bare(encoded) && Bare(endpoint)
    ensures var q := Query(host, encoded, endpoint);
      && Parameter(utf8, q, "h") == Some(host)
      && Parameter(utf8, q, "t") == Some(encoded)
      && Parameter(utf8, q, "a") == Some(endpoint)
  {
    var qa := "a" + "=" + endpoint + "";
    var qt := "t" + "=" + encoded + ("&" + qa);
    var qh := "h" + "=" + host + ("&" + qt);
    var q := "v" + "=" + "1" + ("&" + qh);
    ParameterHere(utf8, "a", endpoint, None, qa);
    ParameterHere(utf8, "t", encoded, Some(qa), qt);
    ParameterLater(utf8, "t", encoded, qa, qt, "a");
    ParameterHere(utf8, "h", host, Some(qt), qh);
    ParameterLater(utf8, "h", host, qt, qh, "t");
    ParameterLater(utf8, "h", host, qt, qh, "a");
    ParameterLater(utf8, "v", "1", qh, q, "h");
    ParameterLater(utf8, "v", "1", qh, q, "t");
    ParameterLater(utf8, "v", "1", qh, q, "a");
  }

  lemma LiteralPieces()
    ensures "kpk://pair?v=1&h=" == "kpk" + [':'] + ("//" + ("pair" + ['?'] + ("v" + "=" + "1" + ("&" + ("h" + "=")))))
    ensures "&t=" == "&" + ("t" + "=") && "&a=" == "&" + ("a" + "=")
  {
  }

  /** The address at the end, the token before it, and the host name before that. */
  lemma GlueEnd(encoded: string, endpoint: string)
    ensures "&t=" + encoded + "&a=" + endpoint == "&" + ("t" + "=" + encoded + ("&" + ("a" + "=" + endpoint + "")))
  {
    LiteralPieces();
    assert "a" + "=" + endpoint + "" == ("a" + "=") + endpoint;
  }

  lemma GlueMiddle(a: string, b: string, c: string, d: string, e: string, host: string, end: string)
    ensures a + (b + (c + (d + e))) + host + end == a + (b + (c + (d + (e + host + end))))
  {
  }

  lemma UriPieces(host: string, encoded: string, endpoint: string)
    ensures "kpk://pair?v=1&h=" + host + "&t=" + encoded + "&a=" + endpoint
         == "kpk" + [':'] + ("//" + ("pair" + ['?'] + Query(host, encoded, endpoint)))
  {
    var end := "&t=" + encoded + "&a=" + endpoint;
    LiteralPieces();
    GlueEnd(encoded, endpoint);
    GlueMiddle("kpk" + [':'], "//", "pair" + ['?'], "v" + "=" + "1", "&" + ("h" + "="), host, end);
    PieceByPiece("kpk://pair?v=1&h=" + host, "&t=", encoded, "&a=", endpoint);
    PieceByPiece("&", "h" + "=", host, end, "");
  }

  lemma PieceByPiece(a: string, b: string, c: string, d: string, e: string)
    ensures a + (b + c + d + e) == a + b + c + d + e
  {
  }

  lemma SplitPrinted(query: string)
    requires '#' !in query
    ensures SplitUri("kpk" + [':'] + ("//" + ("pair" + ['?'] + query))) == Some(("kpk", "pair", query))
  {
    var body := "pair" + ['?'] + query;
    CutAt("kpk", ':', "//" + body);
    assert ("//" + body)[..2] == "//" && ("//" + body)[2..] == body;
    CutNone(body, '#');
    CutAt("pair", '?', query);
    CutNone("pair", '/');
  }

  lemma PortReads()
    ensures ToInt(Json.Decimal(DEFAULT_PORT)) == Some(DEFAULT_PORT) && Bare(Json.Decimal(DEFAULT_PORT))
    ensures ':' !in Json.Decimal(DEFAULT_PORT)
  {
    Json.DigitsAppend(DEFAULT_PORT, "");
    Json.DecimalShape(DEFAULT_PORT);
    assert Json.Decimal(DEFAULT_PORT) + "" == Json.Decimal(DEFAULT_PORT);
  }

  lemma PrintedSplits(host: string, token: seq<byte>, address: string, endpoint: string)
    requires Bare(host) && Bare(endpoint) && endpoint == address + [':'] + Json.Decimal(DEFAULT_PORT)
    ensures SplitUri(PairingUri(host, token, address))
         == Some(("kpk", "pair", Query(host, Base64.Encode(Base64.UrlSafe, token), endpoint)))
  {
    var encoded := Base64.Encode(Base64.UrlSafe, token);
    EncodedIsBare(token);
    UriText(host, token, address, endpoint);
    UriPieces(host, encoded, endpoint);
    QueryIsBare(host, encoded, endpoint);
    SplitPrinted(Query(host, encoded, endpoint));
  }

  /** What the phone is meant to find in a code. */
  function Offered(host: string, token: seq<byte>, address: string): Option<Invite> {
    if |token| < 4 || address == "" then None
    else
      Some(Invite(if host == "" then "desktop" else host, Base64.Encode(Base64.UrlSafe, token), address,
        DEFAULT_PORT, Code(token)))
  }

  lemma PrintedReads(utf8: seq<byte> -> string, host: string, token: seq<byte>, address: string, endpoint: string)
    requires utf8([]) == "" && Bare(host) && Bare(endpoint) && endpoint == address + [':'] + Json.Decimal(DEFAULT_PORT)
    ensures ReadQuery(utf8, Query(host, Base64.Encode(Base64.UrlSafe, token), endpoint))
        == Offered(host, token, address)
  {
    EncodedIsBare(token);
    QueryParameters(utf8, host, Base64.Encode(Base64.UrlSafe, token), endpoint);
    PortReads();
    CutLastAt(address, ':', Json.Decimal(DEFAULT_PORT));
    Base64.DecodeEncode(Base64.UrlSafe, Base64.Java, token);
    CodesAgree(token);
  }

  /** Scanning the code recovers what the daemon put in it, and shows the daemon's six digits;
      it is refused only for a token of less than four bytes or for want of an address. */
  lemma UriRoundTrip(utf8: seq<byte> -> string, host: string, token: seq<byte>, address: string)
    requires utf8([]) == "" && Bare(host) && Bare(address)
    ensures ParsePairingUri(utf8, PairingUri(host, token, address)) == Offered(host, token, address)
    ensures Base64.Decode(Base64.UrlSafe, Base64.Rust, Base64.Encode(Base64.UrlSafe, token)) == Some(token)
  {
    var endpoint := address + [':'] + Json.Decimal(DEFAULT_PORT);
    PortReads();
    BareAppend(address, [':']);
    BareAppend(address + [':'], Json.Decimal(DEFAULT_PORT));
    PrintedSplits(host, token, address, endpoint);
    PrintedReads(utf8, host, token, address, endpoint);
    Base64.DecodeEncode(Base64.UrlSafe, Base64.Rust, token);
  }

  lemma UriText(host: string, token: seq<byte>, address: string, endpoint: string)
    requires endpoint == address + [':'] + Json.Decimal(DEFAULT_PORT)
    ensures PairingUri(host, token, address)
         == "kpk://pair?v=1&h=" + host + "&t=" + Base64.Encode(Base64.UrlSafe, token) + "&a=" + endpoint
  {
  }

  lemma QueryIsBare(host: string, encoded: string, endpoint: string)
    requires Bare(host) && Bare(encoded) && Bare(endpoint)
    ensures '#' !in Query(host, encoded, endpoint)
  {
  }

  // ---- Which host names survive ------------------------------------------------------------

  lemma {:induction false} DecodeShrinks(utf8: seq<byte> -> string, s: string, held: seq<byte>)
    requires IsDecoder(utf8)
    ensures |UrlDecode(utf8, s, held)| <= |s| + |held|
    decreases |s|
  {
    assert |utf8(held)| <= |held|;
    if s != "" {
      if s[0] != '%' {
        DecodeShrinks(utf8, s[1..], []);
      } else if |s| > 1 && Json.HexValue(s[1]).None? {
        DecodeShrinks(utf8, s[2..], [0]);
      } else if |s| > 2 {
        var high := Json.HexValue(s[1]).value;
        match Json.HexValue(s[2])
        case None => DecodeShrinks(utf8, s[3..], [high]);
        case Some(low) => DecodeShrinks(utf8, s[3..], held + [16 * high + low]);
      }
    }
  }

  /** An escape shortens the text or leaves a replacement character, so no text with one decodes to
      itself. */
  lemma {:induction false} DecodeChanges(utf8: seq<byte> -> string, s: string)
    requires IsDecoder(utf8) && ('%' in s || '+' in s)
    ensures UrlDecode(utf8, s, []) != s
  {
    if s[0] == '%' {
      DecodeEscape(utf8, s);
    } else if s[0] != '+' {
      assert s == [s[0]] + s[1..];
      DecodeChanges(utf8, s[1..]);
    } else {
      assert UrlDecode(utf8, s, [])[0] == ' ';
    }
  }

  lemma DecodeEscape(utf8: seq<byte> -> string, s: string)
    requires IsDecoder(utf8) && s != "" && s[0] == '%'
    ensures UrlDecode(utf8, s, []) != s
  {
    if |s| > 2 && Json.HexValue(s[1]).Some? && Json.HexValue(s[2]).Some? {
      var escaped: byte := 16 * Json.HexValue(s[1]).value + Json.HexValue(s[2]).value;
      DecodeShrinks(utf8, s[3..], [escaped]);
      assert [] + [escaped] == [escaped];
    } else {
      assert UrlDecode(utf8, s, [])[0] == REPLACEMENT;
    }
  }

  lemma {:induction false} CutSkips(a: string, c: char, b: string)
    requires c !in a
    ensures Cut(a + b, c).0 == a + Cut(b, c).0
  {
    if a == "" {
      assert a + b == b;
    } else {
      assert (a + b)[1..] == a[1..] + b;
      CutSkips(a[1..], c, b);
    }
  }

  /** What a query leaves of a host name that is followed by another parameter. */
  function Kept(host: string, rest: string): string {
    Cut(Cut(host + rest, '#').0, '&').0
  }

  lemma {:induction false} KeptIsPrefix(host: string, rest: string)
    requires rest != "" && rest[0] == '&'
    ensures Kept(host, rest) <= host
    ensures Kept(host, rest) == host <==> '&' !in host && '#' !in host
  {
    var s := host + rest;
    if host == "" {
      assert s == rest;
    } else {
      assert s[0] == host[0] && s[1..] == host[1..] + rest;
      KeptIsPrefix(host[1..], rest);
      if host[0] != '#' {
        assert Cut(s, '#').0 == [host[0]] + Cut(s[1..], '#').0;
      }
      assert host == [host[0]] + host[1..];
    }
  }

  lemma HostParameter(utf8: seq<byte> -> string, host: string, rest: string)
    requires rest != "" && rest[0] == '&'
    ensures var query := "v=1&h=" + Cut(host + rest, '#').0;
      Parameter(utf8, query, "h") == Some(UrlDecode(utf8, Kept(host, rest), []))
  {
    var tail := Cut(host + rest, '#').0;
    var first, key := "v=1", "h";
    var second := key + ['='] + tail;
    assert "v=1&h=" + tail == first + ['&'] + second;
    CutAt(first, '&', second);
    CutAt("v", '=', "1");
    assert "v" + ['='] + "1" == first;
    CutSkips(key + ['='], '&', tail);
    CutAt(key, '=', Kept(host, rest));
  }

  lemma HostInUri(host: string, rest: string)
    ensures SplitUri("kpk://pair?v=1&h=" + host + rest) == Some(("kpk", "pair", "v=1&h=" + Cut(host + rest, '#').0))
  {
    UriHead();
    HeadSplits("kpk", "//", "pair", "v=1&h=", host, rest);
    CutNone("pair", '/');
  }

  lemma UriHead()
    ensures "kpk://pair?v=1&h=" == "kpk" + [':'] + "//" + ("pair" + ['?'] + "v=1&h=")
    ensures ':' !in "kpk" && '#' !in "pair" + ['?'] + "v=1&h=" && '?' !in "pair" && '/' !in "pair"
  {
  }

  lemma HeadText(scheme: string, slashes: string, head: string, host: string, rest: string)
    requires |slashes| == 2
    ensures scheme + [':'] + slashes + head + host + rest == scheme + [':'] + (slashes + (head + (host + rest)))
    ensures (slashes + (head + (host + rest)))[..2] == slashes
    ensures (slashes + (head + (host + rest)))[2..] == head + (host + rest)
  {
  }

  lemma Regroup(a: string, b: string, c: string)
    ensures a + b + c == a + (b + c)
  {
  }

  lemma QuerySplits(authority: string, start: string, text: string)
    requires '#' !in authority + ['?'] + start && '?' !in authority
    ensures Cut(Cut(authority + ['?'] + start + text, '#').0, '?') == (authority, Some(start + Cut(text, '#').0))
  {
    var tail := Cut(text, '#').0;
    CutSkips(authority + ['?'] + start, '#', text);
    Regroup(authority + ['?'], start, tail);
    CutAt(authority, '?', start + tail);
  }

  lemma HeadSplits(scheme: string, slashes: string, authority: string, start: string, host: string, rest: string)
    requires ':' !in scheme && |slashes| == 2 && '#' !in authority + ['?'] + start && '?' !in authority
    ensures var text := scheme + [':'] + slashes + (authority + ['?'] + start) + host + rest;
      var afterScheme := slashes + (authority + ['?'] + start + (host + rest));
      var query := start + Cut(host + rest, '#').0;
      && Cut(text, ':') == (scheme, Some(afterScheme)) && afterScheme[..2] == slashes
      && Cut(Cut(afterScheme[2..], '#').0, '?') == (authority, Some(query))
  {
    var head := authority + ['?'] + start;
    HeadText(scheme, slashes, head, host, rest);
    CutAt(scheme, ':', slashes + (head + (host + rest)));
    QuerySplits(authority, start, host + rest);
  }

  lemma GlueRest(head: string, a: string, b: string, c: string, d: string, e: string, f: string)
    ensures head + a + b + c + d + e + f == head + (a + b + c + d + e + f)
  {
  }

  /** Whatever the host name is, the phone shows what decoding leaves of it. */
  lemma HostShown(utf8: seq<byte> -> string, host: string, token: seq<byte>, address: string, rest: string)
    requires rest == "&t=" + Base64.Encode(Base64.UrlSafe, token) + "&a=" + address + ":" + Json.Decimal(DEFAULT_PORT)
    ensures var invite := ParsePairingUri(utf8, PairingUri(host, token, address));
      var shown := UrlDecode(utf8, Kept(host, rest), []);
      invite.Some? ==> invite.value.hostName == if shown == "" then "desktop" else shown
  {
    GlueRest("kpk://pair?v=1&h=" + host, "&t=", Base64.Encode(Base64.UrlSafe, token), "&a=", address, ":",
             Json.Decimal(DEFAULT_PORT));
    HostInUri(host, rest);
    HostParameter(utf8, host, rest);
  }

  lemma ShownAsIs(utf8: seq<byte> -> string, host: string, rest: string)
    requires IsDecoder(utf8) && rest != "" && rest[0] == '&'
    ensures UrlDecode(utf8, Kept(host, rest), []) == host ==> Bare(host)
  {
    KeptIsPrefix(host, rest);
    DecodeShrinks(utf8, Kept(host, rest), []);
    if '%' in host || '+' in host {
      DecodeChanges(utf8, host);
    }
  }

  /** The daemon puts its host name into the code as it is: the phone shows that very name if and
      only if it is not empty and holds none of the characters a query gives a meaning to. */
  lemma HostSurvives(utf8: seq<byte> -> string, host: string, token: seq<byte>, address: string)
    requires IsDecoder(utf8) && Bare(address)
    ensures (var invite := ParsePairingUri(utf8, PairingUri(host, token, address));
             invite.Some? && invite.value.hostName == host)
      <==> Bare(host) && host != "" && |token| >= 4 && address != ""
  {
    var rest := "&t=" + Base64.Encode(Base64.UrlSafe, token) + "&a=" + address + ":" + Json.Decimal(DEFAULT_PORT);
    if Bare(host) {
      UriRoundTrip(utf8, host, token, address);
      assert |"desktop"| == 7;
    } else {
      HostShown(utf8, host, token, address, rest);
      ShownAsIs(utf8, host, rest);
      assert Bare("desktop");
    }
  }
}
