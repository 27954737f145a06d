/** The advertising payloads built by the boot handler (main.cpp,
    `my_ble_evt_system_boot`): the fixed advertising data `adv_data` and the
    scan response `sr_data`, whose device name ends in three bytes of the
    device address written as hex digits.

    Both payloads are sequences of AD structures as laid down in the Bluetooth
    Core Specification (v4.x), Volume 3, Part C, Section 11: a length octet,
    then that many octets holding a one-octet AD type and the AD data. */
module Advertising {
  import opened Types

  /** AD type "Flags" (Bluetooth assigned number 0x01). */
  const AdTypeFlags: byte := 0x01
  /** AD type "Complete List of 128-bit Service Class UUIDs" (0x07). */
  const AdTypeServices128All: byte := 0x07
  /** AD type "Complete Local Name" (0x09). */
  const AdTypeLocalNameComplete: byte := 0x09

  /** Largest advertising or scan-response payload the controller accepts. */
  const MaxAdvPayload: nat := 31

  /** The length the firmware passes with both payloads to the set-adv-data command. */
  const PayloadLength: byte := 0x15

  /** One AD structure: its type and its data. */
  datatype AdStructure = AdStructure(adType: byte, data: seq<byte>)

  /** A structure whose length octet (type plus data) fits in a byte. */
  predicate Encodable(e: AdStructure)
  {
    |e.data| < 0xFF
  }

  predicate AllEncodable(es: seq<AdStructure>)
  {
    forall i | 0 <= i < |es| :: Encodable(es[i])
  }

  /** Serialises AD structures: each is its length octet, its type and its data. */
  function EncodeAd(es: seq<AdStructure>): (r: seq<byte>)
    requires AllEncodable(es)
    ensures |r| == (if es == [] then 0 else 2 + |es[0].data| + |EncodeAd(es[1..])|)
  {
    if es == [] then []
    else [|es[0].data| + 1, es[0].adType] + es[0].data + EncodeAd(es[1..])
  }

  /** Splits a payload into its AD structures. A zero length octet ends the
      significant part, after which only zero octets may follow; a length
      octet that runs past the end of the payload makes it malformed. */
  function ParseAd(s: seq<byte>): Option<seq<AdStructure>>
    decreases |s|
  {
    if |s| == 0 then Some([])
    else if s[0] == 0 then
      (if forall i | 0 <= i < |s| :: s[i] == 0 then Some([]) else None)
    else if |s| <= s[0] as int then None
    else
      match ParseAd(s[s[0] + 1..])
      case None => None
      case Some(rest) => Some([AdStructure(s[1], s[2..s[0] + 1])] + rest)
  }

  /** Parsing a serialised list of AD structures gives the list back: every
      length octet counts exactly the octets of its own structure. */
  lemma {:induction false} ParseEncodeAd(es: seq<AdStructure>)
    requires AllEncodable(es)
    ensures ParseAd(EncodeAd(es)) == Some(es)
    decreases |es|
  {
    if es != [] {
      var e := es[0];
      var s := EncodeAd(es);
      var tail := EncodeAd(es[1..]);
      assert s == [|e.data| + 1, e.adType] + e.data + tail;
      assert s[0] == |e.data| + 1;
      assert s[s[0] + 1..] == tail;
      assert s[1] == e.adType;
      assert s[2..s[0] + 1] == e.data;
      ParseEncodeAd(es[1..]);
      assert [e] + es[1..] == es;
    }
  }

  /** The 128-bit service UUID advertised by the device, in over-the-air
      (least significant octet first) order. */
  const ServiceUuid: seq<byte> :=
    [0xe4, 0xba, 0x94, 0xc3, 0xc9, 0xb7, 0xcd, 0xb0, 0x9b, 0x48, 0x7a, 0x43, 0x8a, 0xe5, 0x5a, 0x19]

  /** The advertising flags 0x06: LE General Discoverable Mode (bit 1) and
      BR/EDR Not Supported (bit 2). */
  const DiscoverableLeOnly: byte := 0x06

  /** `adv_data`, exactly as the firmware lays it out. */
  const AdvData: seq<byte> :=
    [0x02, AdTypeFlags, DiscoverableLeOnly, 0x11, AdTypeServices128All] + ServiceUuid

  /** The advertising data is a flags structure followed by the service UUID
      structure, 21 octets long, within the 31-octet limit. */
  lemma AdvDataLayout()
    ensures |AdvData| == PayloadLength <= MaxAdvPayload
    ensures ParseAd(AdvData) ==
              Some([AdStructure(AdTypeFlags, [DiscoverableLeOnly]),
                    AdStructure(AdTypeServices128All, ServiceUuid)])
  {
    var es := [AdStructure(AdTypeFlags, [DiscoverableLeOnly]),
               AdStructure(AdTypeServices128All, ServiceUuid)];
    assert AdvData == EncodeAd(es);
    ParseEncodeAd(es);
  }

  /** The hex-digit arithmetic of the boot handler: `n + 48 + (n/10)*7`.
      Digits below ten land on '0'..'9'; the extra 7 skips the seven ASCII
      characters between '9' and 'A', so 10..15 land on 'A'..'F'. */
  function HexDigit(n: nibble): (c: byte)
    ensures n < 10 ==> c == '0' as int + n
    ensures 10 <= n ==> c == 'A' as int + (n - 10)
  {
    n + 48 + (n / 10) * 7
  }

  /** Upper-case hexadecimal digits, indexed by value. */
  const HexChars: string := "0123456789ABCDEF"

  /** The table read as ASCII codes: '0'..'9' are 48..57, 'A'..'F' are 65..70. */
  lemma HexCharsCodes(n: nibble)
    ensures HexChars[n] as int == (if n < 10 then 48 + n else 55 + n)
  {
  }

  /** The formula agrees with the upper-case hex table on every nibble. */
  lemma HexDigitIsUpperHex(n: nibble)
    ensures HexDigit(n) == HexChars[n] as int
  {
    HexCharsCodes(n);
  }

  /** Reads one upper-case hex digit back. */
  function HexValue(c: byte): Option<nibble>
  {
    if '0' as int <= c <= '9' as int then Some(c - '0' as int)
    else if 'A' as int <= c <= 'F' as int then Some(c - 'A' as int + 10)
    else None
  }

  /** Every digit the formula produces reads back as the nibble it came from,
      so distinct nibbles give distinct digits. */
  lemma HexDigitRoundTrip(n: nibble, m: nibble)
    ensures HexValue(HexDigit(n)) == Some(n)
    ensures HexDigit(n) == HexDigit(m) ==> n == m
  {
  }

  /** One address byte as two hex digits, high nibble (`b / 0x10`) first, then
      low nibble (`b & 0xF`). */
  function HexPair(b: byte): (d: seq<byte>)
    ensures |d| == 2
  {
    LowNibble(b);
    [HexDigit(b / 0x10), HexDigit(BitAnd(b, 0x0F))]
  }

  /** Reads two hex digits back into a byte. */
  function ParseHexPair(d: seq<byte>): Option<byte>
    requires |d| == 2
  {
    match (HexValue(d[0]), HexValue(d[1]))
    case (Some(hi), Some(lo)) => Some((hi as int) * 0x10 + (lo as int))
    case _ => None
  }

  /** The two digits of a byte are upper-case hex digits and read back as
      that byte. */
  lemma HexPairRoundTrip(b: byte)
    ensures HexPair(b) == [HexChars[b / 0x10] as int, HexChars[b % 0x10] as int]
    ensures ParseHexPair(HexPair(b)) == Some(b)
  {
    LowNibble(b);
    HexDigitIsUpperHex(b / 0x10);
    HexDigitIsUpperHex(b % 0x10);
  }

  const Colon: byte := ':' as int

  /** `sr_data` before the address is filled in: a complete-local-name
      structure of 20 octets holding "ICS IoTEgg 00:00:00". */
  const ScanTemplate: seq<byte> :=
    [0x14, AdTypeLocalNameComplete] + NamePrefix + AsciiBytes("00:00:00")

  /** The fixed part of the device name. */
  const NamePrefix: seq<byte> := AsciiBytes("ICS IoTEgg ")

  /** `s` with the two octets at `i` and `i + 1` replaced by `pair`. */
  function Overwrite(s: seq<byte>, i: nat, pair: seq<byte>): (r: seq<byte>)
    requires i + 1 < |s| && |pair| == 2
    ensures |r| == |s|
    ensures r[i..i + 2] == pair
    ensures forall j | 0 <= j < |s| && j != i && j != i + 1 :: r[j] == s[j]
  {
    s[i := pair[0]][i + 1 := pair[1]]
  }

  /** The template with its three digit pairs replaced, in the order the
      boot handler writes them. */
  function Fill(p13: seq<byte>, p16: seq<byte>, p19: seq<byte>): (r: seq<byte>)
    requires |p13| == 2 && |p16| == 2 && |p19| == 2
    ensures |r| == |ScanTemplate| == PayloadLength
    ensures r[13..15] == p13 && r[16..18] == p16 && r[19..21] == p19
    ensures forall i | 0 <= i < |ScanTemplate| && i !in {13, 14, 16, 17, 19, 20} :: r[i] == ScanTemplate[i]
  {
    var s13 := Overwrite(ScanTemplate, 13, p13);
    var s16 := Overwrite(s13, 16, p16);
    var r := Overwrite(s16, 19, p19);
    assert r[13..15] == s16[13..15] == s13[13..15];
    assert r[16..18] == s16[16..18];
    r
  }

  /** `sr_data` after the boot handler overwrites the three `00` pairs with
      `addr[2]`, `addr[1]` and `addr[0]` in that order. */
  function ScanResponse(addr: Address): seq<byte>
  {
    Fill(HexPair(addr[2]), HexPair(addr[1]), HexPair(addr[0]))
  }

  /** The device name: "ICS IoTEgg " then the three address bytes in hex,
      most significant of the three first, separated by colons. */
  function DeviceName(addr: Address): seq<byte>
  {
    NamePrefix + HexPair(addr[2]) + [Colon] + HexPair(addr[1]) + [Colon] + HexPair(addr[0])
  }

  /** Positions 13-14, 16-17 and 19-20 hold `addr[2]`, `addr[1]`, `addr[0]`,
      each high nibble first. */
  lemma ScanResponseDigits(addr: Address)
    ensures |ScanResponse(addr)| == PayloadLength
    ensures ScanResponse(addr)[13..15] == HexPair(addr[2])
    ensures ScanResponse(addr)[16..18] == HexPair(addr[1])
    ensures ScanResponse(addr)[19..21] == HexPair(addr[0])
  {
  }

  /** Every octet outside the three digit pairs is the template's: the
      length octet 0x14, the local-name type, "ICS IoTEgg " and both colons. */
  lemma ScanResponseKeepsTemplate(addr: Address)
    ensures |ScanResponse(addr)| == |ScanTemplate|
    ensures forall i | 0 <= i < |ScanTemplate| && i !in {13, 14, 16, 17, 19, 20} ::
              ScanResponse(addr)[i] == ScanTemplate[i]
    ensures ScanResponse(addr)[..13] == [0x14, AdTypeLocalNameComplete] + NamePrefix
    ensures ScanResponse(addr)[15] == Colon && ScanResponse(addr)[18] == Colon
  {
    var sr := ScanResponse(addr);
    assert sr[..13] == ScanTemplate[..13];
  }

  lemma TemplateShape()
    ensures |ScanTemplate| == 21
    ensures ScanTemplate[..13] == [0x14, AdTypeLocalNameComplete] + NamePrefix
    ensures ScanTemplate[15] == Colon && ScanTemplate[18] == Colon
  {
  }

  lemma SplitName(sr: seq<byte>)
    requires |sr| == 21
    ensures sr == sr[..13] + sr[13..15] + [sr[15]] + sr[16..18] + [sr[18]] + sr[19..21]
  {
  }

  /** Whatever three digit pairs fill the template, the result is one
      complete-local-name structure whose length octet counts the name. */
  lemma FillIsLocalName(p13: seq<byte>, p16: seq<byte>, p19: seq<byte>)
    requires |p13| == 2 && |p16| == 2 && |p19| == 2
    ensures Fill(p13, p16, p19) ==
              EncodeAd([AdStructure(AdTypeLocalNameComplete, NamePrefix + p13 + [Colon] + p16 + [Colon] + p19)])
  {
    var sr := Fill(p13, p16, p19);
    var name := NamePrefix + p13 + [Colon] + p16 + [Colon] + p19;
    TemplateShape();
    assert sr[..13] == ScanTemplate[..13] by {
      forall i | 0 <= i < 13 ensures sr[i] == ScanTemplate[i] { }
    }
    SplitName(sr);
    assert EncodeAd([AdStructure(AdTypeLocalNameComplete, name)])
        == [0x14, AdTypeLocalNameComplete] + name + EncodeAd([]);
  }

  /** The scan response is one complete-local-name structure carrying the
      device name, 21 octets in all, within the 31-octet limit. */
  lemma ScanResponseIsLocalName(addr: Address)
    ensures |ScanResponse(addr)| <= MaxAdvPayload
    ensures ScanResponse(addr) == EncodeAd([AdStructure(AdTypeLocalNameComplete, DeviceName(addr))])
    ensures ParseAd(ScanResponse(addr)) == Some([AdStructure(AdTypeLocalNameComplete, DeviceName(addr))])
  {
    FillIsLocalName(HexPair(addr[2]), HexPair(addr[1]), HexPair(addr[0]));
    ParseEncodeAd([AdStructure(AdTypeLocalNameComplete, DeviceName(addr))]);
  }

  /** Reads the three address bytes back out of a scan response's name. */
  function NameAddress(sr: seq<byte>): Option<seq<byte>>
    requires |sr| == 21
  {
    match (ParseHexPair(sr[19..21]), ParseHexPair(sr[16..18]), ParseHexPair(sr[13..15]))
    case (Some(a0), Some(a1), Some(a2)) => Some([a0, a1, a2])
    case _ => None
  }

  /** The name suffix determines the low three address bytes: reading it back
      gives `addr[0..3]`, so devices differing there advertise different names. */
  lemma NameAddressRoundTrip(addr: Address)
    ensures |ScanResponse(addr)| == 21
    ensures NameAddress(ScanResponse(addr)) == Some(addr[..3])
  {
    var p19, p16, p13 := HexPair(addr[0]), HexPair(addr[1]), HexPair(addr[2]);
    assert ParseHexPair(p19) == Some(addr[0]) by { HexPairRoundTrip(addr[0]); }
    assert ParseHexPair(p16) == Some(addr[1]) by { HexPairRoundTrip(addr[1]); }
    assert ParseHexPair(p13) == Some(addr[2]) by { HexPairRoundTrip(addr[2]); }
    var sr := Fill(p13, p16, p19);
    assert sr == ScanResponse(addr);
    assert NameAddress(sr) == Some([addr[0], addr[1], addr[2]]);
    assert addr[..3] == [addr[0], addr[1], addr[2]];
  }

  /** The digits of the example address bytes: 0x2A exercises the +7 offset
      that turns nibble 10 into 'A'. */
  lemma HexPairExamples()
    ensures HexPair(0x2A) == AsciiBytes("2A")
    ensures HexPair(0x1B) == AsciiBytes("1B")
    ensures HexPair(0x05) == AsciiBytes("05")
  {
    LowNibble(0x2A); LowNibble(0x1B); LowNibble(0x05);
  }

  /** A worked example: address bytes 0, 1, 2 of 0x05, 0x1B, 0x2A give the
      name "ICS IoTEgg 2A:1B:05". */
  lemma ScanResponseExample(addr: Address)
    requires addr[0] == 0x05 && addr[1] == 0x1B && addr[2] == 0x2A
    ensures DeviceName(addr) == NamePrefix + AsciiBytes("2A:1B:05")
  {
    HexPairExamples();
    assert AsciiBytes("2A:1B:05") == AsciiBytes("2A") + [Colon] + AsciiBytes("1B") + [Colon] + AsciiBytes("05");
  }
}
