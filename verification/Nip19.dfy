/**
 NIP-19 entities in bech32 (BIP-173): the decoder turns `npub`, `note`, `nprofile` and `nevent`
 strings into hex. Strings are ASCII. The checksum is skipped, not verified, as in the program.
 */
module Nip19 {
  import opened Prelude
  import opened Words64
  import opened BitGroups

  const CHARSET: string := "qpzry9x8gf2tvdw0s3jn54khce6mua7l"
  const HEX: string := "0123456789abcdef"

  predicate IsSpace(c: char) { c == ' ' || '\t' <= c <= '\r' }

  function Lower(c: char): char { if 'A' <= c <= 'Z' then c + 32 as char else c }

  function LowerAll(s: string): (r: string)
    ensures |r| == |s| && forall i :: 0 <= i < |s| ==> r[i] == Lower(s[i])
  {
    seq(|s|, i requires 0 <= i < |s| => Lower(s[i]))
  }

  function Trim(s: string): string {
    if s != [] && IsSpace(s[0]) then Trim(s[1..])
    else if s != [] && IsSpace(s[|s| - 1]) then Trim(s[..|s| - 1])
    else s
  }

  /** The first place of `c` in `s`. */
  function Position(s: string, c: char): (r: Option<nat>)
    ensures r.Some? ==> r.value < |s| && s[r.value] == c
    ensures r.None? <==> c !in s
  {
    if s == [] then None
    else if s[0] == c then Some(0)
    else match Position(s[1..], c) case None => None case Some(i) => Some(i + 1)
  }

  /** The last `1`, which separates prefix and data. */
  function LastOne(s: string): (r: Option<nat>)
    ensures r.Some? ==> r.value < |s| && s[r.value] == '1' && '1' !in s[r.value + 1..]
    ensures r.None? <==> '1' !in s
  {
    if s == [] then None
    else if s[|s| - 1] == '1' then Some(|s| - 1)
    else
      assert s == s[..|s| - 1] + [s[|s| - 1]];
      LastOne(s[..|s| - 1])
  }

  /** The values of a payload, if every character is in the alphabet. */
  function Values(alphabet: string, payload: string): Option<seq<nat>> {
    if payload == [] then Some([])
    else match (Position(alphabet, Lower(payload[0])), Values(alphabet, payload[1..]))
      case (Some(v), Some(rest)) => Some([v] + rest)
      case _ => None
  }

  function Hex(b: seq<nat>): string {
    if b == [] then [] else [HEX[b[0] / 16 % 16], HEX[b[0] % 16]] + Hex(b[1..])
  }

  /** First TLV record of type 0 with a 32-byte value. */
  function TlvSpecial(b: seq<nat>): Option<seq<nat>>
    decreases |b|
  {
    if |b| < 2 || |b| - 2 < b[1] then None
    else if b[0] == 0 && b[1] == 32 then Some(b[2..2 + b[1]])
    else TlvSpecial(b[2 + b[1]..])
  }

  function Finish(hrp: string, bytes: seq<nat>): Option<string> {
    if hrp == "npub" || hrp == "note" then
      if |bytes| == 32 then Some(Hex(bytes)) else None
    else if hrp == "nprofile" || hrp == "nevent" then
      match TlvSpecial(bytes) case None => None case Some(v) => Some(Hex(v))
    else None
  }

  /** The data part after its separator: payload and six checksum characters. */
  function DecodeData(alphabet: string, hrp: string, data: string, allowed: set<string>): Option<string> {
    if hrp !in allowed || |data| < 6 then None
    else match Values(alphabet, data[..|data| - 6])
      case None => None
      case Some(values) => Finish(hrp, To8(values))
  }

  /** What `decode_hex` returns, over any alphabet. */
  function Decode(alphabet: string, text: string, allowed: set<string>): Option<string> {
    var s := Trim(text);
    match LastOne(s)
    case None => None
    case Some(sep) => DecodeData(alphabet, LowerAll(s[..sep]), s[sep + 1..], allowed)
  }

  // ----- The program ----------------------------------------------------------------------------------------

  /** Five bits of a value, pushed from the highest down. */
  method PushBits(bits: seq<bit>, v: nat) returns (r: seq<bit>)
    ensures r == bits + ToBits(v, 5)
  {
    r := bits;
    var i := 5;
    while i > 0
      invariant 0 <= i <= 5
      invariant r == bits + ToBits(Shr(v, i), 5 - i)
      decreases i
    {
      i := i - 1;
      ShrTwice(v, i, 1);
      assert Shr(Shr(v, i), 1) == Shr(Shr(v, i) / 2, 0);
      r := r + [Shr(v, i) % 2];
    }
  }

  lemma {:induction false} SpreadAppend(values: seq<nat>, v: nat, w: nat)
    ensures Spread(values + [v], w) == Spread(values, w) + ToBits(v, w)
    decreases |values|
  {
    if values == [] {
      assert values + [v] == [v];
    } else {
      SpreadAppend(values[1..], v, w);
      assert (values + [v])[1..] == values[1..] + [v];
    }
  }

  lemma {:induction false} ValuesAppend(alphabet: string, payload: string, c: char)
    ensures Values(alphabet, payload + [c]) ==
      match (Values(alphabet, payload), Position(alphabet, Lower(c)))
      case (Some(values), Some(v)) => Some(values + [v])
      case _ => None
    decreases |payload|
  {
    if payload == [] {
      assert payload + [c] == [c] && [c][1..] == [];
      if Position(alphabet, Lower(c)).Some? {
        var v := Position(alphabet, Lower(c)).value;
        var none: seq<nat> := [];
        assert [v] + none == none + [v];
      }
    } else {
      ValuesAppend(alphabet, payload[1..], c);
      assert (payload + [c])[1..] == payload[1..] + [c];
      if Values(alphabet, payload).Some? && Position(alphabet, Lower(c)).Some? {
        var v, rest, w := Position(alphabet, Lower(payload[0])).value, Values(alphabet, payload[1..]).value, Position(alphabet, Lower(c)).value;
        assert [v] + (rest + [w]) == [v] + rest + [w];
      }
    }
  }

  /** A character outside the alphabet spoils every longer payload. */
  lemma {:induction false} BadPrefix(alphabet: string, payload: string, i: nat)
    requires i <= |payload| && Values(alphabet, payload[..i]).None?
    ensures Values(alphabet, payload).None?
    decreases |payload|
  {
    if i > 0 {
      var first := payload[..i];
      assert first[1..] == payload[1..][..i - 1];
      if Position(alphabet, Lower(payload[0])).Some? {
        BadPrefix(alphabet, payload[1..], i - 1);
      }
    }
  }

  /** The bit loop of `decode_hex`. */
  method PayloadBits(alphabet: string, payload: string) returns (r: Option<seq<bit>>)
    ensures r == match Values(alphabet, payload) case None => None case Some(values) => Some(Spread(values, 5))
  {
    hide Position, Lower, ToBits;
    var bits: seq<bit> := [];
    ghost var values: seq<nat> := [];
    for i := 0 to |payload|
      invariant Values(alphabet, payload[..i]) == Some(values) && bits == Spread(values, 5)
    {
      var v := Position(alphabet, Lower(payload[i]));
      ValuesAppend(alphabet, payload[..i], payload[i]);
      assert payload[..i + 1] == payload[..i] + [payload[i]];
      if v.None? {
        BadPrefix(alphabet, payload, i + 1);
        return None;
      }
      SpreadAppend(values, v.value, 5);
      values := values + [v.value];
      bits := PushBits(bits, v.value);
    }
    assert payload[..|payload|] == payload;
    r := Some(bits);
  }

  /** `tlv_special`. */
  method FindSpecial(bytes: seq<nat>) returns (r: Option<seq<nat>>)
    ensures r == TlvSpecial(bytes)
  {
    var b := bytes;
    while |b| >= 2
      invariant TlvSpecial(b) == TlvSpecial(bytes)
      decreases |b|
    {
      var kind, len := b[0], b[1];
      var rest := b[2..];
      if len > |rest| {
        return None;
      }
      if kind == 0 && len == 32 {
        assert rest[..len] == b[2..2 + len];
        return Some(rest[..len]);
      }
      assert rest[len..] == b[2 + len..];
      b := rest[len..];
    }
    r := None;
  }

  /** `decode_hex`. */
  method DecodeHex(text: string, allowed: set<string>) returns (r: Option<string>)
    ensures r == Decode(CHARSET, text, allowed)
  {
    var s := Trim(text);
    var sep := LastOne(s);
    if sep.None? {
      return None;
    }
    var hrp := LowerAll(s[..sep.value]);
    if hrp !in allowed {
      return None;
    }
    var data := s[sep.value + 1..];
    if |data| < 6 {
      return None;
    }
    var bits := PayloadBits(CHARSET, data[..|data| - 6]);
    if bits.None? {
      return None;
    }
    var bytes := Chunks(bits.value, 8);
    if hrp == "npub" || hrp == "note" {
      return if |bytes| == 32 then Some(Hex(bytes)) else None;
    } else if hrp == "nprofile" || hrp == "nevent" {
      var special := FindSpecial(bytes);
      return if special.Some? then Some(Hex(special.value)) else None;
    }
    r := None;
  }

  // ----- Encoding (BIP-173 and NIP-19) --------------------------------------------------------------------------

  function Letters(alphabet: string, values: seq<nat>): (r: string)
    requires forall i :: 0 <= i < |values| ==> values[i] < |alphabet|
    ensures |r| == |values| && forall i :: 0 <= i < |r| ==> r[i] in alphabet
  {
    if values == [] then [] else [alphabet[values[0]]] + Letters(alphabet, values[1..])
  }

  datatype Record = Record(kind: nat, value: seq<nat>)

  function EncodeTlv(records: seq<Record>): seq<nat> {
    if records == [] then []
    else [records[0].kind, |records[0].value|] + records[0].value + EncodeTlv(records[1..])
  }

  /** The first record of type 0 whose value has 32 bytes. */
  function FirstSpecial(records: seq<Record>): Option<seq<nat>> {
    if records == [] then None
    else if records[0].kind == 0 && |records[0].value| == 32 then Some(records[0].value)
    else FirstSpecial(records[1..])
  }

  lemma {:induction false} TlvRoundTrip(records: seq<Record>)
    ensures TlvSpecial(EncodeTlv(records)) == FirstSpecial(records)
    decreases |records|
  {
    if records != [] {
      var r, b := records[0], EncodeTlv(records);
      var n := |r.value|;
      assert b[0] == r.kind && b[1] == n;
      assert b[2..2 + n] == r.value;
      assert b[2 + n..] == EncodeTlv(records[1..]);
      TlvRoundTrip(records[1..]);
    }
  }

  /** An alphabet that can be decoded: no letter twice, no capitals, no separator, no spaces. */
  ghost predicate Decodable(alphabet: string) {
    && (forall i, j :: 0 <= i < j < |alphabet| ==> alphabet[i] != alphabet[j])
    && (forall c :: c in alphabet ==> Lower(c) == c && c != '1' && !IsSpace(c))
  }

  /** The BIP-173 table, letter by letter. */
  function Code(c: char): nat {
    match c
    case 'q' => 0
    case 'p' => 1
    case 'z' => 2
    case 'r' => 3
    case 'y' => 4
    case '9' => 5
    case 'x' => 6
    case '8' => 7
    case 'g' => 8
    case 'f' => 9
    case '2' => 10
    case 't' => 11
    case 'v' => 12
    case 'd' => 13
    case 'w' => 14
    case '0' => 15
    case 's' => 16
    case '3' => 17
    case 'j' => 18
    case 'n' => 19
    case '5' => 20
    case '4' => 21
    case 'k' => 22
    case 'h' => 23
    case 'c' => 24
    case 'e' => 25
    case '6' => 26
    case 'm' => 27
    case 'u' => 28
    case 'a' => 29
    case '7' => 30
    case 'l' => 31
    case _ => 32
  }

  lemma CharsetCode(i: nat)
    requires i < 32
    ensures |CHARSET| == 32 && Code(CHARSET[i]) == i
  {
  }

  lemma CharsetLetter(i: nat)
    requires i < 32
    ensures |CHARSET| == 32 && Lower(CHARSET[i]) == CHARSET[i] && CHARSET[i] != '1' && !IsSpace(CHARSET[i])
  {
  }

  lemma CharsetIsDecodable()
    ensures |CHARSET| == 32 && Decodable(CHARSET)
  {
    forall i, j | 0 <= i < j < |CHARSET| ensures CHARSET[i] != CHARSET[j] {
      CharsetCode(i);
      CharsetCode(j);
    }
    forall c | c in CHARSET ensures Lower(c) == c && c != '1' && !IsSpace(c) {
      var i :| 0 <= i < |CHARSET| && CHARSET[i] == c;
      CharsetLetter(i);
    }
  }

  lemma {:induction false} PositionOf(alphabet: string, v: nat)
    requires v < |alphabet| && forall i, j :: 0 <= i < j < |alphabet| ==> alphabet[i] != alphabet[j]
    ensures Position(alphabet, alphabet[v]) == Some(v)
    decreases v
  {
    if v > 0 {
      PositionOf(alphabet[1..], v - 1);
    }
  }

  lemma {:induction false} LettersDecode(alphabet: string, values: seq<nat>)
    requires Decodable(alphabet) && forall i :: 0 <= i < |values| ==> values[i] < |alphabet|
    ensures Values(alphabet, Letters(alphabet, values)) == Some(values)
    decreases |values|
  {
    if values != [] {
      LettersDecode(alphabet, values[1..]);
      PositionOf(alphabet, values[0]);
      assert alphabet[values[0]] in alphabet;
      assert Letters(alphabet, values)[1..] == Letters(alphabet, values[1..]);
      assert values == [values[0]] + values[1..];
    }
  }

  /** `hrp`, the separator, the data and a checksum. */
  function Encode(alphabet: string, hrp: string, bytes: seq<nat>, checksum: string): string
    requires |alphabet| == 32 && forall i :: 0 <= i < |bytes| ==> bytes[i] < 256
  {
    RegroupIsIdentity(bytes);
    hrp + ['1'] + (Letters(alphabet, To5(bytes)) + checksum)
  }

  lemma {:induction false} SeparatorIsLast(hrp: string, data: string)
    requires '1' !in data
    ensures LastOne(hrp + ['1'] + data) == Some(|hrp|)
    decreases |data|
  {
    var s := hrp + ['1'] + data;
    if data == [] {
      assert s == hrp + ['1'];
    } else {
      SeparatorIsLast(hrp, data[..|data| - 1]);
      assert s[..|s| - 1] == hrp + ['1'] + data[..|data| - 1];
    }
  }

  lemma NothingToTrim(s: string)
    requires s != [] && !IsSpace(s[0]) && !IsSpace(s[|s| - 1])
    ensures Trim(s) == s
  {
  }

  /** A prefix the decoder knows. */
  predicate Known(hrp: string) { hrp in {"npub", "note", "nprofile", "nevent"} }

  /** Lower case, not empty and not starting with a space. */
  ghost predicate Plain(hrp: string) { hrp != [] && !IsSpace(hrp[0]) && LowerAll(hrp) == hrp }

  lemma LowerLetters(s: string)
    requires s != [] && forall i :: 0 <= i < |s| ==> 'a' <= s[i] <= 'z'
    ensures Plain(s)
  {
    assert LowerAll(s) == s;
  }

  lemma KnownIsPlain(hrp: string)
    requires Known(hrp)
    ensures Plain(hrp)
  {
    LowerLetters(hrp);
  }

  ghost predicate IsChecksum(alphabet: string, checksum: string) {
    |checksum| == 6 && forall c :: c in checksum ==> c in alphabet
  }

  lemma Parts(hrp: string, payload: string, checksum: string)
    requires |checksum| == 6
    ensures var s := hrp + ['1'] + (payload + checksum);
      && s[..|hrp|] == hrp && s[|hrp| + 1..] == payload + checksum && s[|s| - 1] == checksum[5]
      && (payload + checksum)[..|payload|] == payload
  {
  }

  lemma NoSeparatorInData(alphabet: string, payload: string, checksum: string)
    requires Decodable(alphabet) && (forall i :: 0 <= i < |payload| ==> payload[i] in alphabet) && IsChecksum(alphabet, checksum)
    ensures '1' !in payload + checksum && !IsSpace(checksum[5])
  {
    assert checksum[5] in checksum;
  }

  /** The decoder on a string whose parts are known. */
  lemma DecodeParts(alphabet: string, hrp: string, values: seq<nat>, checksum: string, allowed: set<string>)
    requires Decodable(alphabet) && Plain(hrp) && hrp in allowed && IsChecksum(alphabet, checksum)
    requires forall i :: 0 <= i < |values| ==> values[i] < |alphabet|
    ensures Decode(alphabet, hrp + ['1'] + (Letters(alphabet, values) + checksum), allowed) == Finish(hrp, To8(values))
  {
    var payload := Letters(alphabet, values);
    NoSeparatorInData(alphabet, payload, checksum);
    Parts(hrp, payload, checksum);
    NothingToTrim(hrp + ['1'] + (payload + checksum));
    SeparatorIsLast(hrp, payload + checksum);
    LettersDecode(alphabet, values);
  }

  lemma DecodeEncoded(hrp: string, bytes: seq<nat>, checksum: string, allowed: set<string>)
    requires Known(hrp) && hrp in allowed && IsChecksum(CHARSET, checksum)
    requires forall i :: 0 <= i < |bytes| ==> bytes[i] < 256
    ensures |CHARSET| == 32 && Decode(CHARSET, Encode(CHARSET, hrp, bytes, checksum), allowed) == Finish(hrp, bytes)
  {
    CharsetIsDecodable();
    RegroupIsIdentity(bytes);
    KnownIsPlain(hrp);
    DecodeParts(CHARSET, hrp, To5(bytes), checksum, allowed);
  }

  /** The value of a hex digit. */
  function DigitValue(c: char): int {
    if '0' <= c <= '9' then c as int - '0' as int else 10 + c as int - 'a' as int
  }

  lemma HexDigit(v: nat)
    requires v < 16
    ensures |HEX| == 16 && DigitValue(HEX[v]) == v && IsHexDigit(HEX[v])
  {
  }

  predicate IsHexDigit(c: char) { '0' <= c <= '9' || 'a' <= c <= 'f' }

  /** The two digits of a byte, the higher one first. */
  lemma TwoHexDigits(v: nat)
    requires v < 256
    ensures |HEX| == 16
    ensures var hi, lo := HEX[v / 16 % 16], HEX[v % 16];
      IsHexDigit(hi) && IsHexDigit(lo) && 16 * DigitValue(hi) + DigitValue(lo) == v
  {
    hide HEX, DigitValue, IsHexDigit;
    assert v / 16 % 16 == v / 16;
    HexDigit(v / 16);
    HexDigit(v % 16);
  }

  lemma {:induction false} HexLength(b: seq<nat>)
    ensures |Hex(b)| == 2 * |b|
  {
    if b != [] {
      HexLength(b[1..]);
    }
  }

  /** Reading the two lower-case digits of each byte, the higher one first, gives the byte back. */
  lemma {:induction false} HexReadsBack(b: seq<nat>, i: nat)
    requires i < |b| && b[i] < 256
    ensures |Hex(b)| == 2 * |b| && IsHexDigit(Hex(b)[2 * i]) && IsHexDigit(Hex(b)[2 * i + 1])
    ensures 16 * DigitValue(Hex(b)[2 * i]) + DigitValue(Hex(b)[2 * i + 1]) == b[i]
    decreases i
  {
    HexLength(b);
    if i == 0 {
      TwoHexDigits(b[0]);
    } else {
      HexReadsBack(b[1..], i - 1);
      HexTail(b, 2 * i);
      HexTail(b, 2 * i + 1);
    }
  }

  lemma HexTail(b: seq<nat>, k: nat)
    requires b != [] && 2 <= k < |Hex(b)|
    ensures k - 2 < |Hex(b[1..])| && Hex(b)[k] == Hex(b[1..])[k - 2]
  {
    hide HEX;
  }

  /** Decoding the `npub` or `note` of any 32-byte value gives its hex. */
  lemma KeyRoundTrip(hrp: string, key: seq<nat>, checksum: string, allowed: set<string>)
    requires hrp in {"npub", "note"} && hrp in allowed && IsChecksum(CHARSET, checksum)
    requires |key| == 32 && forall i :: 0 <= i < |key| ==> key[i] < 256
    ensures |CHARSET| == 32 && Decode(CHARSET, Encode(CHARSET, hrp, key, checksum), allowed) == Some(Hex(key))
  {
    DecodeEncoded(hrp, key, checksum, allowed);
  }

  ghost predicate WellFormed(records: seq<Record>) {
    forall r :: r in records ==> r.kind < 256 && |r.value| < 256 && forall i :: 0 <= i < |r.value| ==> r.value[i] < 256
  }

  lemma {:induction false} TlvIsBytes(records: seq<Record>)
    requires WellFormed(records)
    ensures forall i :: 0 <= i < |EncodeTlv(records)| ==> EncodeTlv(records)[i] < 256
    decreases |records|
  {
    if records != [] {
      TlvIsBytes(records[1..]);
      assert records[0] in records;
    }
  }

  /** Decoding an `nprofile` or `nevent` gives its first type-0 record of 32 bytes, and nothing if
      there is none. */
  lemma TlvEntityRoundTrip(hrp: string, records: seq<Record>, checksum: string, allowed: set<string>)
    requires hrp in {"nprofile", "nevent"} && hrp in allowed && IsChecksum(CHARSET, checksum) && WellFormed(records)
    ensures |CHARSET| == 32 && forall i :: 0 <= i < |EncodeTlv(records)| ==> EncodeTlv(records)[i] < 256
    ensures Decode(CHARSET, Encode(CHARSET, hrp, EncodeTlv(records), checksum), allowed) ==
      match FirstSpecial(records) case None => None case Some(v) => Some(Hex(v))
  {
    TlvIsBytes(records);
    DecodeEncoded(hrp, EncodeTlv(records), checksum, allowed);
    TlvRoundTrip(records);
  }

  // ----- Case ---------------------------------------------------------------------------------------------------

  lemma LowerSlice(s: string, a: nat, b: nat)
    requires a <= b <= |s|
    ensures LowerAll(s)[a..b] == LowerAll(s[a..b])
  {
  }

  lemma SuffixLower(s: string, from: nat)
    requires from <= |s|
    ensures LowerAll(s)[from..] == LowerAll(s[from..])
  {
  }

  lemma LowerTwice(s: string)
    ensures LowerAll(LowerAll(s)) == LowerAll(s)
  {
  }

  lemma {:induction false} TrimLower(s: string)
    ensures Trim(LowerAll(s)) == LowerAll(Trim(s))
    decreases |s|
  {
    if s != [] {
      SuffixLower(s, 1);
      assert LowerAll(s)[..|s| - 1] == LowerAll(s[..|s| - 1]);
      TrimLower(s[1..]);
      TrimLower(s[..|s| - 1]);
    }
  }

  lemma {:induction false} LastOneLower(s: string)
    ensures LastOne(LowerAll(s)) == LastOne(s)
    decreases |s|
  {
    if s != [] {
      assert LowerAll(s)[..|s| - 1] == LowerAll(s[..|s| - 1]);
      LastOneLower(s[..|s| - 1]);
    }
  }

  lemma {:induction false} ValuesLower(alphabet: string, payload: string)
    ensures Values(alphabet, LowerAll(payload)) == Values(alphabet, payload)
    decreases |payload|
  {
    if payload != [] {
      SuffixLower(payload, 1);
      assert Lower(LowerAll(payload)[0]) == Lower(payload[0]);
      ValuesLower(alphabet, payload[1..]);
    }
  }

  lemma DataLower(alphabet: string, hrp: string, data: string, allowed: set<string>)
    ensures DecodeData(alphabet, hrp, LowerAll(data), allowed) == DecodeData(alphabet, hrp, data, allowed)
  {
    if |data| >= 6 {
      LowerSlice(data, 0, |data| - 6);
      assert LowerAll(data)[..|data| - 6] == LowerAll(data[..|data| - 6]);
      ValuesLower(alphabet, data[..|data| - 6]);
    }
  }

  lemma PrefixLower(s: string, sep: nat)
    requires sep <= |s|
    ensures LowerAll(LowerAll(s)[..sep]) == LowerAll(s[..sep])
  {
    LowerSlice(s, 0, sep);
    assert LowerAll(s)[..sep] == LowerAll(s)[0..sep] && s[..sep] == s[0..sep];
    LowerTwice(s[..sep]);
  }

  lemma DecodeLower(alphabet: string, text: string, allowed: set<string>)
    ensures Decode(alphabet, LowerAll(text), allowed) == Decode(alphabet, text, allowed)
  {
    var s := Trim(text);
    TrimLower(text);
    LastOneLower(s);
    if LastOne(s).Some? {
      var sep := LastOne(s).value;
      PrefixLower(s, sep);
      SuffixLower(s, sep + 1);
      DataLower(alphabet, LowerAll(s[..sep]), s[sep + 1..], allowed);
    }
  }

  /** Entities that differ only in case decode alike. */
  lemma CaseDoesNotMatter(alphabet: string, s: string, t: string, allowed: set<string>)
    requires LowerAll(s) == LowerAll(t)
    ensures Decode(alphabet, s, allowed) == Decode(alphabet, t, allowed)
  {
    DecodeLower(alphabet, s, allowed);
    DecodeLower(alphabet, t, allowed);
  }

  function Upper(c: char): char { if 'a' <= c <= 'z' then c - 32 as char else c }

  function UpperAll(s: string): string {
    seq(|s|, i requires 0 <= i < |s| => Upper(s[i]))
  }

  /** An entity in capitals decodes like the original. */
  lemma CapitalsDecodeAlike(alphabet: string, s: string, allowed: set<string>)
    ensures Decode(alphabet, UpperAll(s), allowed) == Decode(alphabet, s, allowed)
  {
    assert LowerAll(UpperAll(s)) == LowerAll(s);
    CaseDoesNotMatter(alphabet, UpperAll(s), s, allowed);
  }

  /** Nothing is trimmed but spaces at either end, and all of them are. */
  lemma {:induction false} TrimIsExact(s: string) returns (a: nat, b: nat)
    ensures a <= b <= |s| && Trim(s) == s[a..b]
    ensures forall i :: 0 <= i < a || b <= i < |s| ==> s[i] == ' ' || 0x09 <= s[i] as int <= 0x0D
    ensures a < b ==> (s[a] != ' ' && !(0x09 <= s[a] as int <= 0x0D) && s[b - 1] != ' ' && !(0x09 <= s[b - 1] as int <= 0x0D))
    decreases |s|
  {
    if s != [] && IsSpace(s[0]) {
      var x, y := TrimIsExact(s[1..]);
      a, b := x + 1, y + 1;
      assert s[1..][x..y] == s[a..b];
      forall i | 0 <= i < a || b <= i < |s| ensures s[i] == ' ' || 0x09 <= s[i] as int <= 0x0D {
        if i > 0 {
          assert s[1..][i - 1] == s[i];
        }
      }
    } else if s != [] && IsSpace(s[|s| - 1]) {
      a, b := TrimIsExact(s[..|s| - 1]);
      assert s[..|s| - 1][a..b] == s[a..b];
      forall i | 0 <= i < a || b <= i < |s| ensures s[i] == ' ' || 0x09 <= s[i] as int <= 0x0D {
        if i < |s| - 1 {
          assert s[..|s| - 1][i] == s[i];
        }
      }
    } else {
      a, b := 0, |s|;
    }
  }
}
