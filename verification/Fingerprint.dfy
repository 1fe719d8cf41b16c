/** The device fingerprint compared by eye: the desktop groups bytes, the phone groups digits. */
module Fingerprint {
  import opened Numbers
  import opened Wrappers
  import opened Bytes
  import Json

  /** `{:02X}`, and `%02X` on the phone. */
  function Digit(n: nat): char
    requires n < 16
  {
    "0123456789ABCDEF"[n]
  }

  function Hex(bytes: seq<byte>): (s: string)
    ensures |s| == 2 * |bytes|
  {
    if bytes == [] then "" else [Digit(bytes[0] / 16), Digit(bytes[0] % 16)] + Hex(bytes[1..])
  }

  lemma DigitRead(n: nat)
    requires n < 16
    ensures Json.HexValue(Digit(n)) == Some(n)
  {
  }

  /** The digits of each byte stand where they are read from: the high one first. */
  lemma {:induction false} HexReadsBack(bytes: seq<byte>, i: nat)
    requires i < |bytes|
    ensures var high, low := Json.HexValue(Hex(bytes)[2 * i]), Json.HexValue(Hex(bytes)[2 * i + 1]);
      high.Some? && low.Some? && 16 * high.value + low.value == bytes[i]
  {
    if i == 0 {
      DigitRead(bytes[0] / 16);
      DigitRead(bytes[0] % 16);
    } else {
      HexReadsBack(bytes[1..], i - 1);
      assert Hex(bytes)[2..] == Hex(bytes[1..]);
    }
  }

  function Join(groups: seq<string>): string {
    if groups == [] then "" else if |groups| == 1 then groups[0] else groups[0] + " " + Join(groups[1..])
  }

  /** `key_fingerprint`: two bytes a group, each printed on its own. */
  function ByteGroups(bytes: seq<byte>): seq<string> {
    if bytes == [] then [] else [Hex(bytes[..Min(2, |bytes|)])] + ByteGroups(bytes[Min(2, |bytes|)..])
  }

  /** `chunked(4)` over all the digits. */
  function DigitGroups(digits: string): seq<string> {
    if digits == "" then [] else [digits[..Min(4, |digits|)]] + DigitGroups(digits[Min(4, |digits|)..])
  }

  function OnDesktop(digest: seq<byte>): string {
    Join(ByteGroups(digest[..Min(6, |digest|)]))
  }

  function OnPhone(digest: seq<byte>): string {
    Join(DigitGroups(Hex(digest[..Min(6, |digest|)])))
  }

  lemma {:induction false} HexSplit(bytes: seq<byte>, n: nat)
    requires n <= |bytes|
    ensures Hex(bytes[..n]) == Hex(bytes)[..2 * n] && Hex(bytes[n..]) == Hex(bytes)[2 * n..]
  {
    if n > 0 {
      HexSplit(bytes[1..], n - 1);
      assert bytes[..n][1..] == bytes[1..][..n - 1] && bytes[n..] == bytes[1..][n - 1..];
    } else {
      assert bytes[0..] == bytes;
    }
  }

  lemma {:induction false} GroupsAgree(bytes: seq<byte>)
    ensures DigitGroups(Hex(bytes)) == ByteGroups(bytes)
    decreases |bytes|
  {
    if bytes != [] {
      var n := Min(2, |bytes|);
      HexSplit(bytes, n);
      GroupsAgree(bytes[n..]);
      assert Min(4, |Hex(bytes)|) == 2 * n;
    }
  }

  /** It is the first six bytes of a digest, two at a time. */
  lemma FingerprintOf(digest: seq<byte>)
    requires |digest| >= 6
    ensures OnDesktop(digest) == Hex(digest[..2]) + " " + (Hex(digest[2..4]) + " " + Hex(digest[4..6]))
  {
    var d := digest[..6];
    assert d[..2] == digest[..2] && d[2..][..2] == digest[2..4] && d[2..][2..] == digest[4..6];
    assert d[2..][2..][..2] == digest[4..6] && d[2..][2..][2..] == [];
    assert ByteGroups(d[2..][2..]) == [Hex(digest[4..6])];
    assert ByteGroups(d[2..]) == [Hex(digest[2..4])] + ByteGroups(d[2..][2..]);
    JoinThree(ByteGroups(d), Hex(digest[..2]), Hex(digest[2..4]), Hex(digest[4..6]));
  }

  lemma JoinThree(groups: seq<string>, a: string, b: string, c: string)
    requires groups == [a] + ([b] + [c])
    ensures Join(groups) == a + " " + (b + " " + c)
  {
    assert groups[1..] == [b] + [c] && groups[1..][1..] == [c];
    assert Join([b] + [c]) == b + " " + Join([c]);
  }

  /** Both screens show the same fingerprint of the same digest. */
  lemma FingerprintsAgree(digest: seq<byte>)
    ensures OnPhone(digest) == OnDesktop(digest)
  {
    GroupsAgree(digest[..Min(6, |digest|)]);
  }
}
