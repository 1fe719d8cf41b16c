/** The JSON both ends of the project exchange: one object a line (RFC 8259). Members that are
    strings, natural numbers or booleans are kept; any other value is read over, and its member
    reads like a missing one.

    A text is a `string` whose units may be read as UTF-8 bytes or as code points: every escaper
    and every parser here copies units from 0x80 on as they are, so the results hold for both. */
module Json {
  import opened Wrappers
  import opened Numbers

  const QUOTE: char := '\"'
  const BACKSLASH: char := '\\'
  const BACKSPACE: char := 8 as char
  const FORM_FEED: char := 12 as char

  datatype Scalar = Flag(flag: bool) | Number(number: nat) | Text(text: string)

  type Object = map<string, Scalar>

  predicate IsControl(c: char) {
    c < ' '
  }

  predicate ControlFree(s: string) {
    forall i :: 0 <= i < |s| ==> !IsControl(s[i])
  }

  predicate IsSpace(c: char) {
    c == ' ' || c == '\n' || c == '\r' || c == '\t'
  }

  predicate AllSpace(s: string) {
    forall i :: 0 <= i < |s| ==> IsSpace(s[i])
  }

  // ---- Escaping -------------------------------------------------------------------------

  /** The three escapers of the project: `serde_json` in the daemon, `org.json` on the phone and
      the hand-written one in the PAM module. */
  datatype Escaper = Serde | Phone | Pam

  function HexDigit(n: nat): char
    requires n < 16
  {
    "0123456789abcdef"[n]
  }

  function HexValue(c: char): (r: Option<nat>)
    ensures r.Some? ==> r.value < 16
  {
    if '0' <= c <= '9' then Some(c as int - '0' as int)
    else if 'a' <= c <= 'f' then Some(c as int - 'a' as int + 10)
    else if 'A' <= c <= 'F' then Some(c as int - 'A' as int + 10)
    else None
  }

  /** The letter after the backslash, for the units that have a two-character escape. */
  function ShortEscape(c: char): Option<char> {
    if c == QUOTE || c == BACKSLASH then Some(c)
    else if c == BACKSPACE then Some('b')
    else if c == '\t' then Some('t')
    else if c == '\n' then Some('n')
    else if c == FORM_FEED then Some('f')
    else if c == '\r' then Some('r')
    else None
  }

  function Unshorten(c: char): Option<char> {
    if c == QUOTE || c == BACKSLASH || c == '/' then Some(c)
    else if c == 'b' then Some(BACKSPACE)
    else if c == 't' then Some('\t')
    else if c == 'n' then Some('\n')
    else if c == 'f' then Some(FORM_FEED)
    else if c == 'r' then Some('\r')
    else None
  }

  function EscapeUnit(e: Escaper, c: char): string {
    if e == Pam && IsControl(c) then ""
    else if e == Phone && c == '/' then "\\/"
    else if ShortEscape(c).Some? then [BACKSLASH, ShortEscape(c).value]
    else if IsControl(c) then ['\\', 'u', '0', '0', HexDigit(c as int / 16), HexDigit(c as int % 16)]
    else [c]
  }

  function Escape(e: Escaper, s: string): string {
    if s == "" then "" else EscapeUnit(e, s[0]) + Escape(e, s[1..])
  }

  /** What the reader of an escaped text gets back: the PAM module drops control characters. */
  function Kept(e: Escaper, s: string): string {
    if s == "" then ""
    else if e == Pam && IsControl(s[0]) then Kept(e, s[1..])
    else [s[0]] + Kept(e, s[1..])
  }

  // ---- Parsing --------------------------------------------------------------------------

  /** The number that four hex digits stand for. */
  function Hex4(s: string): Option<nat>
    requires |s| == 4
  {
    match (HexValue(s[0]), HexValue(s[1]), HexValue(s[2]), HexValue(s[3]))
    case (Some(a), Some(b), Some(c), Some(d)) => Some(0x1000 * a + 0x100 * b + 0x10 * c + d)
    case _ => None
  }

  /** What follows `\u`: a code point and the length of its escape, which is a pair for those beyond
      16 bits; half a pair is an error. */
  function CodePoint(s: string): (r: Option<(char, nat)>)
    ensures r.Some? ==> 4 <= r.value.1 <= |s|
  {
    if |s| < 4 || Hex4(s[..4]).None? then None
    else
      var high := Hex4(s[..4]).value;
      if high < 0xd800 || 0xe000 <= high < 0x10000 then Some((high as char, 4))
      else if |s| < 10 || s[4] != BACKSLASH || s[5] != 'u' || Hex4(s[6..10]).None? then None
      else
        var low := Hex4(s[6..10]).value;
        if high < 0xdc00 && 0xdc00 <= low < 0xe000 then
          Some(((0x10000 + 0x400 * (high - 0xd800) + (low - 0xdc00)) as char, 10))
        else None
  }

  /** The string whose opening quote has been read, and what follows its closing quote. */
  function Unescape(s: string): (r: Option<(string, string)>)
    ensures r.Some? ==> |r.value.1| < |s|
  {
    if s == "" || IsControl(s[0]) then None
    else if s[0] == QUOTE then Some(("", s[1..]))
    else if s[0] != BACKSLASH then Prepend(s[0], Unescape(s[1..]))
    else if |s| == 1 then None
    else if s[1] == 'u' then
      match CodePoint(s[2..])
      case None => None
      case Some((c, length)) => Prepend(c, Unescape(s[2 + length..]))
    else if Unshorten(s[1]).None? then None
    else Prepend(Unshorten(s[1]).value, Unescape(s[2..]))
  }

  function Prepend(c: char, r: Option<(string, string)>): (p: Option<(string, string)>)
    ensures p.Some? == r.Some?
    ensures p.Some? ==> p.value.1 == r.value.1
  {
    match r
    case None => None
    case Some((s, rest)) => Some(([c] + s, rest))
  }

  function SkipSpace(s: string): (r: string)
    ensures |r| <= |s|
  {
    if s != "" && IsSpace(s[0]) then SkipSpace(s[1..]) else s
  }

  predicate IsDigit(c: char) {
    '0' <= c <= '9'
  }

  /** The digits at the head of `s`, appended to the decimal number `n`. */
  function Digits(s: string, n: nat): (r: (nat, string))
    ensures |r.1| <= |s|
  {
    if s != "" && IsDigit(s[0]) then Digits(s[1..], 10 * n + (s[0] as int - '0' as int)) else (n, s)
  }

  predicate Heads(prefix: string, s: string) {
    |prefix| <= |s| && s[..|prefix|] == prefix
  }

  function ParseScalar(s: string): (r: Option<(Scalar, string)>)
    ensures r.Some? ==> |r.value.1| < |s|
  {
    if s == "" then None
    else if s[0] == QUOTE then
      match Unescape(s[1..])
      case None => None
      case Some((text, rest)) => Some((Text(text), rest))
    else if s[0] == 't' then if Heads("true", s) then Some((Flag(true), s[4..])) else None
    else if s[0] == 'f' then if Heads("false", s) then Some((Flag(false), s[5..])) else None
    else if s[0] == '0' then Some((Number(0), s[1..]))
    else if IsDigit(s[0]) then var (n, rest) := Digits(s[1..], s[0] as int - '0' as int); Some((Number(n), rest))
    else None
  }

  // ---- Values of other kinds ------------------------------------------------------------

  /** One digit at least, and all that follow. */
  function SkipDigits(s: string): (r: Option<string>)
    ensures r.Some? ==> |r.value| < |s|
  {
    if s == "" || !IsDigit(s[0]) then None else Some(Digits(s[1..], 0).1)
  }

  function SkipFraction(s: string): (r: Option<string>)
    ensures r.Some? ==> |r.value| <= |s|
  {
    if s == "" || s[0] != '.' then Some(s) else SkipDigits(s[1..])
  }

  function SkipExponent(s: string): (r: Option<string>)
    ensures r.Some? ==> |r.value| <= |s|
  {
    if s == "" || (s[0] != 'e' && s[0] != 'E') then Some(s)
    else if |s| > 1 && (s[1] == '+' || s[1] == '-') then SkipDigits(s[2..])
    else SkipDigits(s[1..])
  }

  /** What may follow the integer part of a number. */
  function SkipNumberTail(s: string): (r: Option<string>)
    ensures r.Some? ==> |r.value| <= |s|
  {
    match SkipFraction(s) case None => None case Some(rest) => SkipExponent(rest)
  }

  function SkipNumber(s: string): (r: Option<string>)
    ensures r.Some? ==> |r.value| < |s|
  {
    var digits := if s != "" && s[0] == '-' then s[1..] else s;
    if digits == "" || !IsDigit(digits[0]) then None
    else SkipNumberTail(if digits[0] == '0' then digits[1..] else Digits(digits[1..], 0).1)
  }

  /** Any value, nested to any depth. */
  function SkipValue(s: string): (r: Option<string>)
    ensures r.Some? ==> |r.value| < |s|
    decreases |s|, 0
  {
    if s == "" then None
    else if s[0] == QUOTE then match Unescape(s[1..]) case None => None case Some((_, rest)) => Some(rest)
    else if s[0] == 't' then if Heads("true", s) then Some(s[4..]) else None
    else if s[0] == 'f' then if Heads("false", s) then Some(s[5..]) else None
    else if s[0] == 'n' then if Heads("null", s) then Some(s[4..]) else None
    else if s[0] == '[' then
      var t := SkipSpace(s[1..]);
      if t != "" && t[0] == ']' then Some(t[1..]) else SkipItems(t)
    else if s[0] == '{' then
      var t := SkipSpace(s[1..]);
      if t != "" && t[0] == '}' then Some(t[1..]) else SkipFields(t)
    else SkipNumber(s)
  }

  /** The items of an array and its closing bracket. */
  function SkipItems(s: string): (r: Option<string>)
    ensures r.Some? ==> |r.value| < |s|
    decreases |s|, 1
  {
    match SkipValue(s)
    case None => None
    case Some(after) =>
      var t := SkipSpace(after);
      if t == "" then None
      else if t[0] == ',' then SkipItems(SkipSpace(t[1..]))
      else if t[0] == ']' then Some(t[1..])
      else None
  }

  /** The members of an object and its closing brace. */
  function SkipFields(s: string): (r: Option<string>)
    ensures r.Some? ==> |r.value| < |s|
    decreases |s|, 1
  {
    match ParseKey(s)
    case None => None
    case Some((_, afterKey)) =>
      var colon := SkipSpace(afterKey);
      if colon == "" || colon[0] != ':' then None
      else
        match SkipValue(SkipSpace(colon[1..]))
        case None => None
        case Some(after) =>
          var t := SkipSpace(after);
          if t == "" then None
          else if t[0] == ',' then SkipFields(t[1..])
          else if t[0] == '}' then Some(t[1..])
          else None
  }

  /** A value of a kind that matters here, or some other: null, a number that is no natural one, an
      array or an object. */
  datatype Field = Known(value: Scalar) | Other

  function ParseField(s: string): (r: Option<(Field, string)>)
    ensures r.Some? ==> |r.value.1| < |s|
  {
    match ParseScalar(s)
    case None => (match SkipValue(s) case None => None case Some(rest) => Some((Other, rest)))
    case Some((Number(n), rest)) =>
      (match SkipNumberTail(rest)
       case None => None
       case Some(after) => Some((if after == rest then Known(Number(n)) else Other, after)))
    case Some((value, rest)) => Some((Known(value), rest))
  }

  // ---- Objects --------------------------------------------------------------------------

  function ParseKey(s: string): (r: Option<(string, string)>)
    ensures r.Some? ==> |r.value.1| < |s|
  {
    var t := SkipSpace(s);
    if t == "" || t[0] != QUOTE then None else Unescape(t[1..])
  }

  function ParseValue(s: string): (r: Option<(Field, string)>)
    ensures r.Some? ==> |r.value.1| < |s|
  {
    var t := SkipSpace(s);
    if t == "" || t[0] != ':' then None else ParseField(SkipSpace(t[1..]))
  }

  /** One `"key":value`, with space allowed around each token. */
  function ParseMember(s: string): (r: Option<(string, Field, string)>)
    ensures r.Some? ==> |r.value.2| < |s|
  {
    match ParseKey(s)
    case None => None
    case Some((key, afterKey)) =>
      match ParseValue(afterKey)
      case None => None
      case Some((value, rest)) => Some((key, value, SkipSpace(rest)))
  }

  /** Of equal keys the last one counts; one with a value of another kind reads like one that is
      missing. */
  function Put(seen: Object, key: string, value: Field): Object {
    match value case Known(v) => seen[key := v] case Other => seen - {key}
  }

  /** The members up to the closing brace, added to `seen`. */
  function ParseMembers(s: string, seen: Object): Option<(Object, string)>
    decreases |s|
  {
    match ParseMember(s)
    case None => None
    case Some((key, value, rest)) =>
      if rest == "" then None
      else if rest[0] == ',' then ParseMembers(rest[1..], Put(seen, key, value))
      else if rest[0] == '}' then Some((Put(seen, key, value), rest[1..]))
      else None
  }

  function ParseObject(s: string): Option<Object> {
    var t := SkipSpace(s);
    if t == "" || t[0] != '{' then None
    else if SkipSpace(t[1..]) == "" then None
    else if SkipSpace(t[1..])[0] == '}' then
      if SkipSpace(SkipSpace(t[1..])[1..]) == "" then Some(map[]) else None
    else
      match ParseMembers(t[1..], map[])
      case Some((found, rest)) => if SkipSpace(rest) == "" then Some(found) else None
      case None => None
  }

  // ---- Typed access (serde_json's `as_str` and `as_u64`) --------------------------------

  function AsText(o: Object, key: string): Option<string> {
    if key in o && o[key].Text? then Some(o[key].text) else None
  }

  /** An integer from 2^64 on is read as a float, which `as_u64` refuses. */
  function AsU64(o: Object, key: string): (r: Option<nat>)
    ensures r.Some? ==> r.value < U64_LIMIT
  {
    if key in o && o[key].Number? && o[key].number < U64_LIMIT then Some(o[key].number) else None
  }

  function AsFlag(o: Object, key: string): Option<bool> {
    if key in o && o[key].Flag? then Some(o[key].flag) else None
  }

  function TextOr(o: Object, key: string, fallback: string): string {
    match AsText(o, key) case Some(s) => s case None => fallback
  }

  // ---- Printing -------------------------------------------------------------------------

  function Decimal(n: nat): (s: string)
    ensures |s| > 0
  {
    if n < 10 then [('0' as int + n) as char] else Decimal(n / 10) + Decimal(n % 10)
  }

  function Quoted(e: Escaper, s: string): string {
    [QUOTE] + Escape(e, s) + [QUOTE]
  }

  function PrintScalar(e: Escaper, v: Scalar): string {
    match v
    case Flag(flag) => if flag then "true" else "false"
    case Number(n) => Decimal(n)
    case Text(s) => Quoted(e, s)
  }

  /** Where a printer puts white space: before each member, after each colon, before the brace. */
  datatype Style = Style(before: string, colon: string, close: string)

  const COMPACT := Style("", "", "")
  const PRETTY := Style("\n  ", " ", "\n")

  predicate SpaceOnly(style: Style) {
    AllSpace(style.before) && AllSpace(style.colon) && AllSpace(style.close)
  }

  function PrintMember(e: Escaper, style: Style, m: (string, Scalar)): string {
    style.before + Quoted(e, m.0) + [':'] + style.colon + PrintScalar(e, m.1)
  }

  function PrintMembers(e: Escaper, style: Style, ms: seq<(string, Scalar)>): string
    requires ms != []
  {
    if |ms| == 1 then PrintMember(e, style, ms[0]) + style.close + ['}']
    else PrintMember(e, style, ms[0]) + [','] + PrintMembers(e, style, ms[1..])
  }

  function PrintObject(e: Escaper, style: Style, ms: seq<(string, Scalar)>): string
    requires ms != []
  {
    ['{'] + PrintMembers(e, style, ms)
  }

  // ---- Round trip -----------------------------------------------------------------------

  function KeptScalar(e: Escaper, v: Scalar): Scalar {
    if v.Text? then Text(Kept(e, v.text)) else v
  }

  /** The object a reader gets back: members added to `seen` from left to right. */
  function Collect(e: Escaper, ms: seq<(string, Scalar)>, seen: Object): Object {
    if ms == [] then seen
    else Collect(e, ms[1..], seen[Kept(e, ms[0].0) := KeptScalar(e, ms[0].1)])
  }

  lemma SplitHead(s: string, t: string)
    requires s != ""
    ensures (s + t)[0] == s[0] && (s + t)[1..] == s[1..] + t
  {
  }

  lemma UnescapePlain(c: char, t: string)
    requires !IsControl(c) && c != QUOTE && c != BACKSLASH
    ensures Unescape([c] + t) == Prepend(c, Unescape(t))
  {
    SplitHead([c], t);
    assert [c][1..] + t == t;
  }

  lemma UnescapeShort(x: char, t: string)
    requires Unshorten(x).Some?
    ensures Unescape([BACKSLASH, x] + t) == Prepend(Unshorten(x).value, Unescape(t))
  {
    var s := [BACKSLASH, x] + t;
    assert s[0] == BACKSLASH && s[1] == x && s[2..] == t;
  }

  lemma HexUnitOfControl(c: char)
    requires IsControl(c)
    ensures Hex4(['0', '0', HexDigit(c as int / 16), HexDigit(c as int % 16)]) == Some(c as int)
  {
  }

  lemma UnescapeLong(c: char, t: string)
    requires IsControl(c)
    ensures Unescape(['\\', 'u', '0', '0', HexDigit(c as int / 16), HexDigit(c as int % 16)] + t)
        == Prepend(c, Unescape(t))
  {
    var hex := ['0', '0', HexDigit(c as int / 16), HexDigit(c as int % 16)];
    var s := ['\\', 'u'] + hex + t;
    HexUnitOfControl(c);
    assert ['\\', 'u', '0', '0', HexDigit(c as int / 16), HexDigit(c as int % 16)] + t == s;
    assert s[0] == BACKSLASH && s[1] == 'u' && s[2..][..4] == hex && s[2 + 4..] == t;
    assert CodePoint(s[2..]) == Some((c, 4));
  }

  lemma UnescapeUnit(e: Escaper, c: char, t: string)
    requires e != Pam || !IsControl(c)
    ensures Unescape(EscapeUnit(e, c) + t) == Prepend(c, Unescape(t))
  {
    if e == Phone && c == '/' {
      UnescapeShort('/', t);
    } else if ShortEscape(c).Some? {
      UnescapeShort(ShortEscape(c).value, t);
    } else if IsControl(c) {
      UnescapeLong(c, t);
    } else {
      UnescapePlain(c, t);
    }
  }

  /** Every escaper is undone by the one reader. */
  lemma {:induction false} UnescapeEscape(e: Escaper, s: string, rest: string)
    ensures Unescape(Escape(e, s) + [QUOTE] + rest) == Some((Kept(e, s), rest))
  {
    if s == "" {
      assert Escape(e, s) + [QUOTE] + rest == [QUOTE] + rest;
      assert ([QUOTE] + rest)[1..] == rest;
    } else {
      var tail := Escape(e, s[1..]) + [QUOTE] + rest;
      assert Escape(e, s) + [QUOTE] + rest == EscapeUnit(e, s[0]) + tail;
      UnescapeEscape(e, s[1..], rest);
      if e == Pam && IsControl(s[0]) {
        assert EscapeUnit(e, s[0]) + tail == tail;
      } else {
        UnescapeUnit(e, s[0], tail);
      }
    }
  }

  lemma {:induction false} KeptAll(e: Escaper, s: string)
    requires e != Pam || ControlFree(s)
    ensures Kept(e, s) == s
  {
    if s != "" {
      KeptAll(e, s[1..]);
    }
  }

  lemma {:induction false} DigitsAppend(n: nat, t: string)
    ensures Digits(Decimal(n) + t, 0) == Digits(t, n)
    decreases n
  {
    if n < 10 {
      assert (Decimal(n) + t)[1..] == t;
    } else {
      var last := Decimal(n % 10);
      DigitsAppend(n / 10, last + t);
      assert (last + t)[1..] == t;
      assert Decimal(n) + t == Decimal(n / 10) + (last + t);
    }
  }

  lemma {:induction false} DecimalShape(n: nat)
    ensures forall i :: 0 <= i < |Decimal(n)| ==> IsDigit(Decimal(n)[i])
    ensures Decimal(n)[0] == '0' <==> n == 0
    decreases n
  {
    if n >= 10 {
      DecimalShape(n / 10);
      DecimalShape(n % 10);
    }
  }

  lemma {:induction false} SkipSpaces(s: string, t: string)
    requires AllSpace(s)
    ensures SkipSpace(s + t) == SkipSpace(t)
  {
    if s == "" {
      assert s + t == t;
    } else {
      SplitHead(s, t);
      SkipSpaces(s[1..], t);
    }
  }

  /** What may follow a value in a printed object. */
  predicate Ends(t: string) {
    t != "" && (t[0] == ',' || t[0] == '}' || IsSpace(t[0]))
  }

  lemma ParsePrintedNumber(n: nat, t: string)
    requires Ends(t)
    ensures ParseScalar(Decimal(n) + t) == Some((Number(n), t))
  {
    var s := Decimal(n) + t;
    DecimalShape(n);
    DigitsAppend(n, t);
    assert s[0] == Decimal(n)[0];
    if n == 0 {
      assert s[1..] == t;
    }
  }

  lemma ParsePrintedText(e: Escaper, text: string, t: string)
    ensures ParseScalar(Quoted(e, text) + t) == Some((Text(Kept(e, text)), t))
  {
    var s := Quoted(e, text) + t;
    var tail := Escape(e, text) + [QUOTE] + t;
    assert s[0] == QUOTE && s[1..] == tail;
    UnescapeEscape(e, text, t);
  }

  lemma ParsePrintedFlag(flag: bool, t: string)
    ensures ParseScalar((if flag then "true" else "false") + t) == Some((Flag(flag), t))
  {
    var word := if flag then "true" else "false";
    var s := word + t;
    assert s[0] == word[0] && s[..|word|] == word && s[|word|..] == t;
  }

  lemma ParsePrintedScalar(e: Escaper, v: Scalar, t: string)
    requires Ends(t)
    ensures ParseScalar(PrintScalar(e, v) + t) == Some((KeptScalar(e, v), t))
    ensures !IsSpace((PrintScalar(e, v) + t)[0])
  {
    match v
    case Flag(flag) => ParsePrintedFlag(flag, t);
    case Number(n) => ParsePrintedNumber(n, t); DecimalShape(n);
    case Text(text) => ParsePrintedText(e, text, t);
  }

  lemma ParsePrintedKey(e: Escaper, space: string, key: string, t: string)
    requires AllSpace(space)
    ensures ParseKey(space + (Quoted(e, key) + t)) == Some((Kept(e, key), t))
  {
    var quoted := Quoted(e, key) + t;
    SkipSpaces(space, quoted);
    assert quoted[0] == QUOTE && quoted[1..] == Escape(e, key) + [QUOTE] + t;
    UnescapeEscape(e, key, t);
  }

  lemma ParsePrintedValue(e: Escaper, space: string, v: Scalar, t: string)
    requires AllSpace(space) && Ends(t)
    ensures ParseValue([':'] + (space + (PrintScalar(e, v) + t))) == Some((Known(KeptScalar(e, v)), t))
  {
    var value := PrintScalar(e, v) + t;
    assert ([':'] + (space + value))[1..] == space + value;
    SkipSpaces(space, value);
    ParsePrintedScalar(e, v, t);
    assert SkipNumberTail(t) == Some(t);
  }

  lemma Regroup(a: string, b: string, c: string, d: string, e: string, t: string)
    ensures a + b + c + d + e + t == a + (b + (c + (d + (e + t))))
  {
  }

  lemma ParsePrintedMember(e: Escaper, style: Style, m: (string, Scalar), t: string)
    requires SpaceOnly(style) && Ends(t)
    ensures ParseMember(PrintMember(e, style, m) + t) == Some((Kept(e, m.0), Known(KeptScalar(e, m.1)), SkipSpace(t)))
  {
    var value := [':'] + (style.colon + (PrintScalar(e, m.1) + t));
    Regroup(style.before, Quoted(e, m.0), [':'], style.colon, PrintScalar(e, m.1), t);
    ParsePrintedKey(e, style.before, m.0, value);
    ParsePrintedValue(e, style.colon, m.1, t);
  }

  lemma ParseLastMember(e: Escaper, style: Style, m: (string, Scalar), seen: Object, t: string)
    requires SpaceOnly(style)
    ensures ParseMembers(PrintMember(e, style, m) + (style.close + (['}'] + t)), seen)
         == Some((seen[Kept(e, m.0) := KeptScalar(e, m.1)], t))
  {
    var brace := ['}'] + t;
    ParsePrintedMember(e, style, m, style.close + brace);
    SkipSpaces(style.close, brace);
    assert brace[1..] == t;
  }

  lemma ParseNextMember(e: Escaper, style: Style, m: (string, Scalar), seen: Object, others: string)
    requires SpaceOnly(style)
    ensures ParseMembers(PrintMember(e, style, m) + ([','] + others), seen)
         == ParseMembers(others, seen[Kept(e, m.0) := KeptScalar(e, m.1)])
  {
    var comma := [','] + others;
    ParsePrintedMember(e, style, m, comma);
    assert comma[1..] == others;
  }

  lemma Regroup3(a: string, b: string, c: string, t: string)
    ensures a + b + c + t == a + (b + (c + t))
  {
  }

  lemma {:induction false} ParsePrintedMembers(e: Escaper, style: Style, ms: seq<(string, Scalar)>, seen: Object,
      t: string)
    requires SpaceOnly(style) && ms != []
    ensures ParseMembers(PrintMembers(e, style, ms) + t, seen) == Some((Collect(e, ms, seen), t))
    decreases |ms|
  {
    var first := PrintMember(e, style, ms[0]);
    if |ms| == 1 {
      Regroup3(first, style.close, ['}'], t);
      ParseLastMember(e, style, ms[0], seen, t);
      assert ms[1..] == [];
    } else {
      var others := PrintMembers(e, style, ms[1..]);
      Regroup3(first, [','], others, t);
      ParseNextMember(e, style, ms[0], seen, others + t);
      ParsePrintedMembers(e, style, ms[1..], seen[Kept(e, ms[0].0) := KeptScalar(e, ms[0].1)], t);
    }
  }

  /** `s` begins with `before` and then a quote. */
  predicate OpensQuoted(s: string, before: string) {
    |before| < |s| && s[..|before|] == before && s[|before|] == QUOTE
  }

  lemma OpensQuotedExtends(s: string, t: string, before: string)
    requires OpensQuoted(s, before)
    ensures OpensQuoted(s + t, before)
  {
    assert (s + t)[..|before|] == s[..|before|];
  }

  lemma MembersOpenQuoted(e: Escaper, style: Style, ms: seq<(string, Scalar)>)
    requires ms != []
    ensures OpensQuoted(PrintMembers(e, style, ms), style.before)
  {
    var m := ms[0];
    var key := style.before + Quoted(e, m.0);
    assert OpensQuoted(key, style.before);
    OpensQuotedExtends(key, [':'], style.before);
    OpensQuotedExtends(key + [':'], style.colon, style.before);
    OpensQuotedExtends(key + [':'] + style.colon, PrintScalar(e, m.1), style.before);
    var first := PrintMember(e, style, m);
    if |ms| == 1 {
      OpensQuotedExtends(first, style.close, style.before);
      OpensQuotedExtends(first + style.close, ['}'], style.before);
    } else {
      OpensQuotedExtends(first, [','], style.before);
      OpensQuotedExtends(first + [','], PrintMembers(e, style, ms[1..]), style.before);
    }
  }

  lemma MembersStart(e: Escaper, style: Style, ms: seq<(string, Scalar)>, t: string)
    requires SpaceOnly(style) && ms != []
    ensures var s := SkipSpace(PrintMembers(e, style, ms) + t); s != "" && s[0] == QUOTE
  {
    var s := PrintMembers(e, style, ms) + t;
    MembersOpenQuoted(e, style, ms);
    OpensQuotedExtends(PrintMembers(e, style, ms), t, style.before);
    var n := |style.before|;
    assert s == style.before + s[n..];
    SkipSpaces(style.before, s[n..]);
  }

  lemma ObjectOfMembers(s: string, found: Object, rest: string)
    requires s != "" && s[0] == '{'
    ensures var t := SkipSpace(s[1..]);
      t != "" && t[0] == QUOTE && ParseMembers(s[1..], map[]) == Some((found, rest)) && SkipSpace(rest) == "" ==>
        ParseObject(s) == Some(found)
  {
  }

  lemma AfterBrace(e: Escaper, style: Style, ms: seq<(string, Scalar)>, t: string)
    requires ms != []
    ensures var s := PrintObject(e, style, ms) + t;
      s != "" && s[0] == '{' && s[1..] == PrintMembers(e, style, ms) + t
  {
  }

  lemma SpaceSkipped(t: string)
    requires AllSpace(t)
    ensures SkipSpace(t) == ""
  {
    SkipSpaces(t, "");
    assert t + "" == t;
  }

  /** Printing then parsing gives back the members, whatever the escaper and the white space. */
  lemma ParsePrinted(e: Escaper, style: Style, ms: seq<(string, Scalar)>, t: string)
    requires SpaceOnly(style) && ms != [] && AllSpace(t)
    ensures ParseObject(PrintObject(e, style, ms) + t) == Some(Collect(e, ms, map[]))
  {
    AfterBrace(e, style, ms, t);
    ParsePrintedMembers(e, style, ms, map[], t);
    MembersStart(e, style, ms, t);
    SpaceSkipped(t);
    ObjectOfMembers(PrintObject(e, style, ms) + t, Collect(e, ms, map[]), t);
  }

  lemma NullRead(t: string)
    requires t != "" && t[0] == ','
    ensures ParseValue(":null" + t) == Some((Other, t))
  {
    var value := "null" + t;
    assert (":null" + t)[1..] == value;
    assert Heads("null", value) && value[4..] == t;
  }

  lemma NullMember(e: Escaper, key: string, others: string)
    ensures ParseMembers(Quoted(e, key) + (":null" + ([','] + others)), map[]) == ParseMembers(others, map[])
  {
    var comma := [','] + others;
    var body := Quoted(e, key) + (":null" + comma);
    assert comma[1..] == others && "" + body == body;
    NullRead(comma);
    ParsePrintedKey(e, "", key, ":null" + comma);
    var none: Object := map[];
    assert Put(none, Kept(e, key), Other) == none;
  }

  /** A member that is null changes nothing in what is read. */
  lemma NullChangesNothing(e: Escaper, key: string, ms: seq<(string, Scalar)>, t: string)
    requires ms != [] && AllSpace(t)
    ensures ParseObject("{" + (Quoted(e, key) + (":null" + ([','] + (PrintMembers(e, COMPACT, ms) + t)))))
         == ParseObject(PrintObject(e, COMPACT, ms) + t)
  {
    var others := PrintMembers(e, COMPACT, ms) + t;
    var body := Quoted(e, key) + (":null" + ([','] + others));
    assert ("{" + body)[1..] == body && body[0] == QUOTE;
    NullMember(e, key, others);
    ParsePrintedMembers(e, COMPACT, ms, map[], t);
    SpaceSkipped(t);
    ObjectOfMembers("{" + body, Collect(e, ms, map[]), t);
    ParsePrinted(e, COMPACT, ms, t);
  }

  // ---- Reading members back -------------------------------------------------------------

  lemma {:induction false} CollectKeeps(e: Escaper, ms: seq<(string, Scalar)>, seen: Object, key: string)
    requires forall j :: 0 <= j < |ms| ==> ControlFree(ms[j].0) && ms[j].0 != key
    ensures key in Collect(e, ms, seen) <==> key in seen
    ensures key in seen ==> Collect(e, ms, seen)[key] == seen[key]
    decreases |ms|
  {
    if ms != [] {
      KeptAll(e, ms[0].0);
      CollectKeeps(e, ms[1..], seen[Kept(e, ms[0].0) := KeptScalar(e, ms[0].1)], key);
    }
  }

  /** The last member with a key is the one that is read back. */
  lemma {:induction false} CollectFinds(e: Escaper, ms: seq<(string, Scalar)>, seen: Object, i: nat)
    requires i < |ms|
    requires forall j :: 0 <= j < |ms| ==> ControlFree(ms[j].0)
    requires forall j :: i < j < |ms| ==> ms[j].0 != ms[i].0
    ensures ms[i].0 in Collect(e, ms, seen) && Collect(e, ms, seen)[ms[i].0] == KeptScalar(e, ms[i].1)
    decreases |ms|
  {
    var grown := seen[Kept(e, ms[0].0) := KeptScalar(e, ms[0].1)];
    KeptAll(e, ms[0].0);
    if i == 0 {
      CollectKeeps(e, ms[1..], grown, ms[0].0);
    } else {
      CollectFinds(e, ms[1..], grown, i - 1);
    }
  }

  lemma {:induction false} CollectKeys(e: Escaper, ms: seq<(string, Scalar)>, seen: Object)
    requires forall j :: 0 <= j < |ms| ==> ControlFree(ms[j].0)
    ensures Collect(e, ms, seen).Keys == seen.Keys + set j | 0 <= j < |ms| :: ms[j].0
    decreases |ms|
  {
    if ms != [] {
      KeptAll(e, ms[0].0);
      CollectKeys(e, ms[1..], seen[Kept(e, ms[0].0) := KeptScalar(e, ms[0].1)]);
      var keys := set j | 0 <= j < |ms| :: ms[j].0;
      var others := set j | 0 <= j < |ms[1..]| :: ms[1..][j].0;
      forall k | k in keys ensures k in {ms[0].0} + others {
        var j :| 0 <= j < |ms| && ms[j].0 == k;
        if j > 0 { assert ms[1..][j - 1].0 == k; }
      }
      forall k | k in {ms[0].0} + others ensures k in keys {
        if k in others {
          var j :| 0 <= j < |ms[1..]| && ms[1..][j].0 == k;
          assert ms[j + 1].0 == k;
        }
      }
    }
  }

  lemma DistinctFields(e: Escaper, ms: seq<(string, Scalar)>)
    requires e != Pam
    requires forall i :: 0 <= i < |ms| ==> ControlFree(ms[i].0)
    requires forall i, j :: 0 <= i < j < |ms| ==> ms[i].0 != ms[j].0
    ensures var o := Collect(e, ms, map[]);
      forall i :: 0 <= i < |ms| ==> ms[i].0 in o && o[ms[i].0] == ms[i].1
  {
    forall i | 0 <= i < |ms|
      ensures ms[i].0 in Collect(e, ms, map[]) && Collect(e, ms, map[])[ms[i].0] == ms[i].1
    {
      CollectFinds(e, ms, map[], i);
      if ms[i].1.Text? { KeptAll(e, ms[i].1.text); }
    }
  }

  // ---- No control characters, so newline framing is safe ---------------------------------

  lemma {:induction false} EscapeControlFree(e: Escaper, s: string)
    ensures ControlFree(Escape(e, s))
  {
    if s != "" {
      EscapeControlFree(e, s[1..]);
    }
  }

  lemma ControlFreeAppend(a: string, b: string)
    requires ControlFree(a) && ControlFree(b)
    ensures ControlFree(a + b)
  {
  }

  lemma QuotedControlFree(e: Escaper, s: string)
    ensures ControlFree(Quoted(e, s))
  {
    EscapeControlFree(e, s);
    ControlFreeAppend([QUOTE], Escape(e, s));
  }

  lemma PrintMemberControlFree(e: Escaper, m: (string, Scalar))
    ensures ControlFree(PrintMember(e, COMPACT, m))
  {
    QuotedControlFree(e, m.0);
    match m.1 {
      case Flag(_) =>
      case Number(n) => DecimalShape(n);
      case Text(s) => QuotedControlFree(e, s);
    }
    CompactMember(e, m);
    ControlFreeAppend(Quoted(e, m.0), [':']);
    ControlFreeAppend(Quoted(e, m.0) + [':'], PrintScalar(e, m.1));
  }

  lemma CompactMember(e: Escaper, m: (string, Scalar))
    ensures PrintMember(e, COMPACT, m) == Quoted(e, m.0) + [':'] + PrintScalar(e, m.1)
  {
  }

  lemma {:induction false} PrintMembersControlFree(e: Escaper, ms: seq<(string, Scalar)>)
    requires ms != []
    ensures ControlFree(PrintMembers(e, COMPACT, ms))
    decreases |ms|
  {
    var first := PrintMember(e, COMPACT, ms[0]);
    PrintMemberControlFree(e, ms[0]);
    if |ms| == 1 {
      assert PrintMembers(e, COMPACT, ms) == first + ['}'];
    } else {
      PrintMembersControlFree(e, ms[1..]);
      ControlFreeAppend(first, [',']);
      ControlFreeAppend(first + [','], PrintMembers(e, COMPACT, ms[1..]));
    }
  }

  lemma PrintControlFree(e: Escaper, ms: seq<(string, Scalar)>)
    requires ms != []
    ensures ControlFree(PrintObject(e, COMPACT, ms))
  {
    PrintMembersControlFree(e, ms);
    ControlFreeAppend(['{'], PrintMembers(e, COMPACT, ms));
  }
}
