/** The text of one device record, and the names of the files that hold them. */
module Records {
  import opened Wrappers
  import opened Numbers
  import opened Bytes
  import opened Json
  import opened Text

  datatype Device = Device(
    id: string, name: string, model: string, owner: string, securityLevel: string, verifiedBoot: string,
    pairedAt: nat, publicKeyPem: string)

  // ---- The record ------------------------------------------------------------------------

  /** `to_json`, in the order of `serde_json`'s sorted map. */
  function DeviceMembers(d: Device): seq<(string, Scalar)> {
    [("id", Scalar.Text(d.id)),
     ("model", Scalar.Text(d.model)),
     ("name", Scalar.Text(d.name)),
     ("owner", Scalar.Text(d.owner)),
     ("pairedAt", Number(d.pairedAt)),
     ("publicKeyPem", Scalar.Text(d.publicKeyPem)),
     ("securityLevel", Scalar.Text(d.securityLevel)),
     ("verifiedBoot", Scalar.Text(d.verifiedBoot))]
  }

  /** `to_string_pretty`. */
  function RecordText(d: Device): string {
    PrintObject(Serde, PRETTY, DeviceMembers(d))
  }

  /** `from_json`: missing texts are empty, but an empty id is refused. */
  function FromObject(o: Object): Option<Device> {
    var id := TextOr(o, "id", "");
    if id == "" then None
    else
      var at := AsU64(o, "pairedAt");
      Some(Device(id, TextOr(o, "name", ""), TextOr(o, "model", ""), TextOr(o, "owner", ""),
                  TextOr(o, "securityLevel", ""), TextOr(o, "verifiedBoot", ""),
                  if at.Some? then at.value else 0, TextOr(o, "publicKeyPem", "")))
  }

  function ReadRecord(text: string): Option<Device> {
    match ParseObject(text)
    case None => None
    case Some(o) => FromObject(o)
  }

  /** A device the daemon can have made: `paired_at` is a `u64`. */
  predicate Storable(d: Device) {
    d.id != "" && d.pairedAt < U64_LIMIT
  }

  lemma DeviceKeysDiffer(ms: seq<(string, Scalar)>, d: Device)
    requires ms == DeviceMembers(d)
    ensures forall i, j :: 0 <= i < j < 8 ==> ms[i].0 != ms[j].0
    ensures forall i :: 0 <= i < 8 ==> ControlFree(ms[i].0)
  {
    assert |ms[0].0| == 2 && |ms[1].0| == 5 && |ms[2].0| == 4 && |ms[3].0| == 5;
    assert |ms[4].0| == 8 && |ms[5].0| == 12 && |ms[6].0| == 13 && |ms[7].0| == 12;
    assert ms[1].0[0] == 'm' && ms[3].0[0] == 'o' && ms[5].0[0] == 'p' && ms[7].0[0] == 'v';
    assert forall i, j :: 0 <= i < j < 8 ==> |ms[i].0| != |ms[j].0| || ms[i].0[0] != ms[j].0[0];
  }

  lemma DeviceObject(ms: seq<(string, Scalar)>, d: Device, o: Object)
    requires ms == DeviceMembers(d) && o == Collect(Serde, ms, map[])
    ensures forall i :: 0 <= i < 8 ==> ms[i].0 in o && o[ms[i].0] == ms[i].1
  {
    DeviceKeysDiffer(ms, d);
    DistinctFields(Serde, ms);
  }

  lemma ReadFields(d: Device, o: Object)
    requires Storable(d)
    requires forall i :: 0 <= i < 8 ==> DeviceMembers(d)[i].0 in o && o[DeviceMembers(d)[i].0] == DeviceMembers(d)[i].1
    ensures FromObject(o) == Some(d)
  {
    var ms := DeviceMembers(d);
    assert ms[0].0 == "id" && ms[1].0 == "model" && ms[2].0 == "name" && ms[3].0 == "owner";
    assert ms[4].0 == "pairedAt" && ms[5].0 == "publicKeyPem" && ms[6].0 == "securityLevel"
      && ms[7].0 == "verifiedBoot";
  }

  /** Every record the daemon writes is read back field by field. */
  lemma RecordRoundTrip(d: Device)
    requires Storable(d)
    ensures ReadRecord(RecordText(d)) == Some(d)
  {
    var o := Collect(Serde, DeviceMembers(d), map[]);
    ParsePrinted(Serde, PRETTY, DeviceMembers(d), "");
    assert RecordText(d) + "" == RecordText(d);
    DeviceObject(DeviceMembers(d), d, o);
    ReadFields(d, o);
  }

  // ---- File names ------------------------------------------------------------------------

  predicate IsSafe(c: char) {
    '0' <= c <= '9' || 'a' <= c <= 'z' || 'A' <= c <= 'Z' || c == '-'
  }

  predicate SafeId(id: string) {
    id != "" && forall i :: 0 <= i < |id| ==> IsSafe(id[i])
  }

  function Filter(id: string): (s: string)
    ensures forall i :: 0 <= i < |s| ==> IsSafe(s[i])
  {
    if id == "" then "" else (if IsSafe(id[0]) then [id[0]] else "") + Filter(id[1..])
  }

  /** `path_for`, relative to the device directory. */
  function FileName(id: string): string {
    Filter(id) + ['.'] + "json"
  }

  /** `Path::extension`: what follows the last dot, unless that dot comes first. */
  function Extension(name: string): Option<string> {
    match CutLast(name, '.')
    case None => None
    case Some((stem, extension)) => if stem == "" then None else Some(extension)
  }

  /** `Path::with_extension`. */
  function WithExtension(name: string, extension: string): string {
    match CutLast(name, '.')
    case Some((stem, _)) => (if stem == "" then name else stem) + ['.'] + extension
    case None => name + ['.'] + extension
  }

  function TempName(id: string): string {
    WithExtension(FileName(id), "json.tmp")
  }

  predicate IsRecordName(name: string) {
    Extension(name) == Some("json")
  }

  lemma {:induction false} FilterSafe(id: string)
    requires forall i :: 0 <= i < |id| ==> IsSafe(id[i])
    ensures Filter(id) == id
  {
    if id != "" {
      FilterSafe(id[1..]);
    }
  }

  /** The names a record can have: one for the record, one that `list` does not look at. */
  lemma NamesOf(id: string)
    requires Filter(id) != ""
    ensures IsRecordName(FileName(id)) && FileName(id) == Filter(id) + ".json"
    ensures TempName(id) == Filter(id) + ".json" + ".tmp" && !IsRecordName(TempName(id))
  {
    CutLastAt(Filter(id), '.', "json");
    CutLastAt(Filter(id) + ".json", '.', "tmp");
    assert TempName(id) == Filter(id) + ".json" + ['.'] + "tmp";
    assert |"tmp"| == 3 && |"json"| == 4;
  }

  /** No id, however crafted, names anything outside the directory. */
  lemma NameStaysInside(id: string)
    ensures '/' !in FileName(id)
  {
  }

  lemma {:induction false} FilterShortens(id: string)
    ensures |Filter(id)| <= |id|
    ensures |Filter(id)| == |id| <==> forall i :: 0 <= i < |id| ==> IsSafe(id[i])
  {
    if id != "" {
      FilterShortens(id[1..]);
      var rest := id[1..];
      assert (forall i :: 0 <= i < |id| ==> IsSafe(id[i]))
        <==> IsSafe(id[0]) && forall i :: 0 <= i < |rest| ==> IsSafe(rest[i]);
    }
  }

  /** Other characters are dropped, not refused: a record is kept under its own id exactly when
      the id has none. */
  lemma OwnNameExactly(id: string)
    ensures FileName(id) == id + ".json" <==> forall i :: 0 <= i < |id| ==> IsSafe(id[i])
  {
    FilterShortens(id);
    if forall i :: 0 <= i < |id| ==> IsSafe(id[i]) {
      FilterSafe(id);
    }
    assert |FileName(id)| == |Filter(id)| + 5 && |id + ".json"| == |id| + 5;
  }

  /** So two ids that are not hexadecimal can share one record, and two that are cannot. */
  lemma UnsafeIdsCollide()
    ensures "a/b" != "ab" && FileName("a/b") == FileName("ab")
  {
    assert "a/b"[1..] == "/b" && "/b"[1..] == "b" && "ab"[1..] == "b" && "b"[1..] == "";
    assert Filter("/b") == Filter("b");
    assert |"a/b"| == 3 && |"ab"| == 2;
  }

  lemma SafeIdsApart(a: string, b: string)
    requires SafeId(a) && SafeId(b)
    ensures FileName(a) == FileName(b) <==> a == b
  {
    FilterSafe(a);
    FilterSafe(b);
    assert FileName(a)[..|a|] == a && FileName(b)[..|b|] == b;
    assert |FileName(a)| == |a| + 5 && |FileName(b)| == |b| + 5;
  }

  // ---- Ids -------------------------------------------------------------------------------

  /** Lower-case hexadecimal, two digits a byte. */
  function Hex(bytes: seq<byte>): string {
    if bytes == [] then "" else [HexDigit(bytes[0] / 16), HexDigit(bytes[0] % 16)] + Hex(bytes[1..])
  }

  /** The ids of `key_id` are safe, and tell digests apart. */
  lemma {:induction false} HexIsSafe(bytes: seq<byte>)
    ensures |Hex(bytes)| == 2 * |bytes|
    ensures forall i :: 0 <= i < |Hex(bytes)| ==> IsSafe(Hex(bytes)[i])
  {
    if bytes != [] {
      DigitIsSafe(bytes[0] / 16);
      DigitIsSafe(bytes[0] % 16);
      HexIsSafe(bytes[1..]);
    }
  }

  lemma DigitIsSafe(n: nat)
    requires n < 16
    ensures IsSafe(HexDigit(n))
  {
  }

  /** The digits of each byte stand where they are read from: the high one first. */
  lemma {:induction false} HexReadsBack(bytes: seq<byte>, i: nat)
    requires i < |bytes|
    ensures |Hex(bytes)| == 2 * |bytes|
    ensures var high, low := HexValue(Hex(bytes)[2 * i]), HexValue(Hex(bytes)[2 * i + 1]);
      high.Some? && low.Some? && 16 * high.value + low.value == bytes[i]
  {
    HexIsSafe(bytes);
    if i == 0 {
      DigitRead(bytes[0] / 16);
      DigitRead(bytes[0] % 16);
    } else {
      HexReadsBack(bytes[1..], i - 1);
      assert Hex(bytes)[2..] == Hex(bytes[1..]);
    }
  }

  lemma DigitRead(n: nat)
    requires n < 16
    ensures HexValue(HexDigit(n)) == Some(n)
  {
  }

  lemma HexInjective(a: seq<byte>, b: seq<byte>)
    requires Hex(a) == Hex(b)
    ensures a == b
  {
    HexIsSafe(a);
    HexIsSafe(b);
    forall i | 0 <= i < |a| ensures a[i] == b[i] {
      HexReadsBack(a, i);
      HexReadsBack(b, i);
    }
  }
}
