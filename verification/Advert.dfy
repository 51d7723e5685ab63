/** The advert payload: building it, with the name cut on a code-point boundary, and parsing it back. */
module Advert {
  import opened Words
  import opened Wrappers

  const MAX_ADVERT_DATA_SIZE := 32
  const ADV_LATLON_MASK := 0x10
  const ADV_FEAT1_MASK := 0x20
  const ADV_FEAT2_MASK := 0x40
  const ADV_NAME_MASK := 0x80

  // ---- UTF-8, section 4 of RFC 3629 ------------------------------------------

  predicate Tail(b: u8) { 0x80 <= b <= 0xBF }

  /** One UTF8-char of the grammar. */
  predicate Utf8Char(s: seq<u8>) {
    match |s|
    case 1 => s[0] <= 0x7F
    case 2 => 0xC2 <= s[0] <= 0xDF && Tail(s[1])
    case 3 => Utf8Pair3(s[0], s[1]) && Tail(s[2])
    case 4 => Utf8Pair4(s[0], s[1]) && Tail(s[2]) && Tail(s[3])
    case _ => false
  }

  /** The first two bytes of a three-byte UTF8-char. */
  predicate Utf8Pair3(first: u8, second: u8) {
    || (first == 0xE0 && 0xA0 <= second <= 0xBF)
    || (0xE1 <= first <= 0xEC && Tail(second))
    || (first == 0xED && 0x80 <= second <= 0x9F)
    || (0xEE <= first <= 0xEF && Tail(second))
  }

  /** The first two bytes of a four-byte UTF8-char. */
  predicate Utf8Pair4(first: u8, second: u8) {
    || (first == 0xF0 && 0x90 <= second <= 0xBF)
    || (0xF1 <= first <= 0xF3 && Tail(second))
    || (first == 0xF4 && 0x80 <= second <= 0x8F)
  }

  /** UTF8-octets: any number of UTF8-chars. */
  ghost predicate WellFormed(s: seq<u8>)
    decreases |s|
  {
    s == [] || exists k :: 1 <= k <= |s| && Utf8Char(s[..k]) && WellFormed(s[k..])
  }

  lemma {:induction false} CharIsUnique(s: seq<u8>, j: nat, k: nat)
    requires j <= |s| && k <= |s| && Utf8Char(s[..j]) && Utf8Char(s[..k])
    ensures j == k
  {
    assert s[..j][0] == s[0] && s[..k][0] == s[0];
  }

  /** After a first character the rest of a well-formed text is well-formed. */
  lemma {:induction false} RestIsWellFormed(s: seq<u8>, j: nat)
    requires 1 <= j <= |s| && Utf8Char(s[..j]) && WellFormed(s)
    ensures WellFormed(s[j..])
  {
    var k :| 1 <= k <= |s| && Utf8Char(s[..k]) && WellFormed(s[k..]);
    CharIsUnique(s, j, k);
  }

  lemma {:induction false} AppendChar(s: seq<u8>, c: seq<u8>)
    requires WellFormed(s) && Utf8Char(c)
    ensures WellFormed(s + c)
    decreases |s|
  {
    hide Utf8Char;
    if s == [] {
      assert s + c == c && c[..|c|] == c && c[|c|..] == [];
    } else {
      var k :| 1 <= k <= |s| && Utf8Char(s[..k]) && WellFormed(s[k..]);
      AppendChar(s[k..], c);
      assert (s + c)[..k] == s[..k] && (s + c)[k..] == s[k..] + c;
    }
  }

  /** The length the first byte announces; 0 for a continuation byte or an overlong lead. */
  function SequenceLength(first: u8): nat {
    if first <= 0x7F then 1
    else if 0xC2 <= first <= 0xDF then 2
    else if 0xE0 <= first <= 0xEF then 3
    else if 0xF0 <= first <= 0xF4 then 4
    else 0
  }

  /** A C string's byte: its terminator stands behind the last one. */
  function CharAt(text: seq<u8>, k: nat): u8 {
    if k < |text| then text[k] else 0
  }

  ghost predicate WellFormedTo(text: seq<u8>, k: nat) {
    k <= |text| && WellFormed(text[..k])
  }

  /**
   * The longest prefix of a C string that is well-formed UTF-8 and no longer
   * than maxBytes.
   */
  method ValidUtf8PrefixLength(text: seq<u8>, maxBytes: nat) returns (offset: nat)
    requires 0 !in text
    ensures offset <= maxBytes && WellFormedTo(text, offset)
    ensures forall k: nat :: WellFormedTo(text, k) && k <= maxBytes ==> k <= offset
  {
    hide Utf8Char, Overlong, SequenceComplete, SequenceLength;
    offset := 0;
    assert text[..0] == [];
    while CharAt(text, offset) != 0
      invariant offset <= |text| && offset <= maxBytes && WellFormed(text[..offset])
      invariant forall k: nat :: offset <= k && WellFormedTo(text, k) ==> WellFormed(text[offset..k])
      decreases |text| - offset
    {
      var n := SequenceLength(text[offset]);
      if n == 0 || offset + n > maxBytes || !SequenceComplete(text, offset, n) || Overlong(text[offset], CharAt(text, offset + 1), n) {
        StopsHere(text, offset, maxBytes);
        return;
      }
      StepsOver(text, offset, n);
      offset := offset + n;
    }
  }

  predicate SequenceComplete(text: seq<u8>, offset: nat, n: nat) {
    forall k :: offset < k < offset + n ==> Tail(CharAt(text, k))
  }

  /** Overlong three- and four-byte forms, surrogates and code points above U+10FFFF. */
  predicate Overlong(first: u8, second: u8, n: nat) {
    || (n == 3 && ((first == 0xE0 && second < 0xA0) || (first == 0xED && second > 0x9F)))
    || (n == 4 && ((first == 0xF0 && second < 0x90) || (first == 0xF4 && second > 0x8F)))
  }

  /** Nothing longer fits once the next sequence is malformed or too long. */
  lemma {:induction false} StopsHere(text: seq<u8>, offset: nat, maxBytes: nat)
    requires offset < |text|
    requires forall k: nat :: offset <= k && WellFormedTo(text, k) ==> WellFormed(text[offset..k])
    requires var n := SequenceLength(text[offset]);
             n == 0 || offset + n > maxBytes || !SequenceComplete(text, offset, n) || Overlong(text[offset], CharAt(text, offset + 1), n)
    ensures forall k: nat :: WellFormedTo(text, k) && offset < k ==> maxBytes < k
  {
    hide Utf8Char, Overlong, SequenceComplete;
    forall k: nat | WellFormedTo(text, k) && offset < k ensures maxBytes < k {
      var s := text[offset..k];
      var j :| 1 <= j <= |s| && Utf8Char(s[..j]) && WellFormed(s[j..]);
      assert s[..j] == text[offset..offset + j];
      CharIsComplete(text, offset, j);
    }
  }

  /** A complete sequence extends the prefix, and every longer well-formed prefix goes on after it. */
  lemma {:induction false} StepsOver(text: seq<u8>, offset: nat, n: nat)
    requires offset < |text| && 1 <= n == SequenceLength(text[offset])
    requires SequenceComplete(text, offset, n) && !Overlong(text[offset], CharAt(text, offset + 1), n)
    requires WellFormed(text[..offset])
    requires forall k: nat :: offset <= k && WellFormedTo(text, k) ==> WellFormed(text[offset..k])
    ensures offset + n <= |text| && WellFormed(text[..offset + n])
    ensures forall k: nat :: offset + n <= k && WellFormedTo(text, k) ==> WellFormed(text[offset + n..k])
  {
    hide Utf8Char, Overlong, SequenceComplete, SequenceLength, WellFormed;
    CompleteIsChar(text, offset, n);
    var c := text[offset..offset + n];
    AppendChar(text[..offset], c);
    assert text[..offset] + c == text[..offset + n];
    forall k: nat | offset + n <= k && WellFormedTo(text, k) ensures WellFormed(text[offset + n..k]) {
      assert text[offset..k][..n] == c && text[offset..k][n..] == text[offset + n..k];
      RestIsWellFormed(text[offset..k], n);
    }
  }

  lemma {:induction false} CompleteIsChar(text: seq<u8>, offset: nat, n: nat)
    requires offset < |text| && 1 <= n == SequenceLength(text[offset])
    requires SequenceComplete(text, offset, n) && !Overlong(text[offset], CharAt(text, offset + 1), n)
    ensures offset + n <= |text| && Utf8Char(text[offset..offset + n])
  {
    assert 1 < n ==> Tail(CharAt(text, offset + 1));
    assert 2 < n ==> Tail(CharAt(text, offset + 2));
    assert 3 < n ==> Tail(CharAt(text, offset + 3));
  }

  lemma {:induction false} CharIsComplete(text: seq<u8>, offset: nat, j: nat)
    requires offset + j <= |text| && 1 <= j && Utf8Char(text[offset..offset + j])
    ensures j == SequenceLength(text[offset]) && SequenceComplete(text, offset, j)
    ensures !Overlong(text[offset], CharAt(text, offset + 1), j)
  {
    var c := text[offset..offset + j];
    assert forall i :: 0 <= i < j ==> c[i] == CharAt(text, offset + i);
  }

  // ---- The payload -------------------------------------------------------------

  type i32 = x: int | -0x8000_0000 <= x < 0x8000_0000

  /** `flags |= mask` and `flags & mask` for a single-bit mask. */
  function Set(flags: u8, mask: u8): u8
    requires mask in {0x10, 0x20, 0x40, 0x80}
  {
    if Has(flags, mask) then flags else flags + mask
  }

  predicate Has(flags: u8, mask: u8)
    requires mask in {0x10, 0x20, 0x40, 0x80}
  {
    flags / mask % 2 == 1
  }

  /** memcpy of a little-endian word. */
  function Word16(x: u16): (b: seq<u8>)
    ensures |b| == 2
  {
    [x % 0x100, x / 0x100]
  }

  function Word32(x: i32): (b: seq<u8>)
    ensures |b| == 4
  {
    var u := if x < 0 then x + U32_RANGE else x;
    Word16(u % 0x1_0000) + Word16(u / 0x1_0000)
  }

  function Read16(b: seq<u8>, i: nat): u16
    requires i + 2 <= |b|
  {
    var low: int, high: int := b[i], b[i + 1];
    low + 0x100 * high
  }

  function Read32(b: seq<u8>, i: nat): i32
    requires i + 4 <= |b|
  {
    var low: int, high: int := Read16(b, i), Read16(b, i + 2);
    var u := low + 0x1_0000 * high;
    if u < 0x8000_0000 then u else u - U32_RANGE
  }

  lemma {:induction false} Word16RoundTrip(x: u16, b: seq<u8>, i: nat)
    requires i + 2 <= |b| && b[i..i + 2] == Word16(x)
    ensures Read16(b, i) == x
  {
    var w := Word16(x);
    assert b[i] == w[0] && b[i + 1] == w[1];
  }

  lemma {:induction false} Word32RoundTrip(x: i32, b: seq<u8>, i: nat)
    requires i + 4 <= |b| && b[i..i + 4] == Word32(x)
    ensures Read32(b, i) == x
  {
    var u := if x < 0 then x + U32_RANGE else x;
    assert b[i..i + 2] == b[i..i + 4][..2] && b[i + 2..i + 4] == b[i..i + 4][2..];
    Word16RoundTrip(u % 0x1_0000, b, i);
    Word16RoundTrip(u / 0x1_0000, b, i + 2);
  }

  datatype Location = NoLocation | Location(lat: i32, lon: i32)

  // What an advert says. The name is a C string: no NUL inside.
  datatype Advert = Advert(kind: u8, location: Location, feat1: u16, feat2: u16, name: seq<u8>)

  /** Everything before the name. */
  function Fields(a: Advert): (b: seq<u8>)
    ensures |b| <= 12
  {
    (if a.location.Location? then Word32(a.location.lat) + Word32(a.location.lon) else [])
    + (if a.feat1 != 0 then Word16(a.feat1) else [])
    + (if a.feat2 != 0 then Word16(a.feat2) else [])
  }

  function Flags(a: Advert, named: bool): u8 {
    var f0 := a.kind;
    var f1 := if a.location.Location? then Set(f0, ADV_LATLON_MASK) else f0;
    var f2 := if a.feat1 != 0 then Set(f1, ADV_FEAT1_MASK) else f1;
    var f3 := if a.feat2 != 0 then Set(f2, ADV_FEAT2_MASK) else f2;
    if named then Set(f3, ADV_NAME_MASK) else f3
  }

  /** The name as sent: its longest whole-code-point prefix in the room that is left. */
  ghost predicate IsSentName(a: Advert, sent: seq<u8>) {
    var room := MAX_ADVERT_DATA_SIZE - 1 - |Fields(a)|;
    && sent <= a.name && |sent| <= room && WellFormed(sent)
    && forall k: nat :: WellFormedTo(a.name, k) && k <= room ==> k <= |sent|
  }

  function Encoded(a: Advert, sent: seq<u8>): seq<u8> {
    [Flags(a, sent != [])] + Fields(a) + sent
  }

  method EncodeTo(a: Advert, appData: array<u8>) returns (i: nat, ghost sent: seq<u8>)
    requires 0 !in a.name && appData.Length == MAX_ADVERT_DATA_SIZE
    modifies appData
    ensures IsSentName(a, sent) && 1 <= i <= MAX_ADVERT_DATA_SIZE && appData[..i] == Encoded(a, sent)
  {
    i := EncodeFields(a, appData);
    var n := ValidUtf8PrefixLength(a.name, MAX_ADVERT_DATA_SIZE - i);
    sent := a.name[..n];
    if n > 0 {
      appData[0] := Set(appData[0], ADV_NAME_MASK);
      assert appData[..i] == [Flags(a, true)] + Fields(a);
      Put(appData, i, a.name[..n]);
      i := i + n;
    }
  }

  method EncodeFields(a: Advert, appData: array<u8>) returns (i: nat)
    requires appData.Length == MAX_ADVERT_DATA_SIZE
    modifies appData
    ensures 1 <= i <= MAX_ADVERT_DATA_SIZE && appData[..i] == [Flags(a, false)] + Fields(a)
  {
    hide Set, Word16, Word32;
    appData[0] := a.kind;
    i := 1;
    ghost var flags, body := a.kind, [];
    assert appData[..i] == [flags] + body;
    if a.location.Location? {
      PutPart(appData, i, ADV_LATLON_MASK, Word32(a.location.lat) + Word32(a.location.lon), flags, body);
      flags, body := Set(flags, ADV_LATLON_MASK), Word32(a.location.lat) + Word32(a.location.lon);
      i := i + 8;
    }
    ghost var located := body;
    if a.feat1 != 0 {
      PutPart(appData, i, ADV_FEAT1_MASK, Word16(a.feat1), flags, body);
      flags, body := Set(flags, ADV_FEAT1_MASK), body + Word16(a.feat1);
      i := i + 2;
    }
    if a.feat2 != 0 {
      PutPart(appData, i, ADV_FEAT2_MASK, Word16(a.feat2), flags, body);
      flags, body := Set(flags, ADV_FEAT2_MASK), body + Word16(a.feat2);
      i := i + 2;
    }
    assert body == Fields(a);
  }

  /** One optional part: its flag, and its bytes behind what is already there. */
  method PutPart(dest: array<u8>, at: nat, mask: u8, bytes: seq<u8>, ghost flags: u8, ghost body: seq<u8>)
    requires mask in {0x10, 0x20, 0x40, 0x80}
    requires 1 <= at && at + |bytes| <= dest.Length && dest[..at] == [flags] + body
    modifies dest
    ensures dest[..at + |bytes|] == [Set(flags, mask)] + (body + bytes)
  {
    hide Set;
    assert dest[..at][0] == flags;
    dest[0] := Set(dest[0], mask);
    assert dest[..at] == [Set(flags, mask)] + body;
    Put(dest, at, bytes);
  }

  /** memcpy behind the first `at` bytes. */
  method Put(dest: array<u8>, at: nat, bytes: seq<u8>)
    requires at + |bytes| <= dest.Length
    modifies dest
    ensures dest[..at + |bytes|] == old(dest[..at]) + bytes
  {
    for k := 0 to |bytes|
      invariant dest[..at] == old(dest[..at]) && dest[at..at + k] == bytes[..k]
    {
      dest[at + k] := bytes[k];
      assert dest[at..at + k + 1] == dest[at..at + k] + [bytes[k]];
    }
    assert dest[..at + |bytes|] == dest[..at] + dest[at..at + |bytes|];
  }

  // What the parser's fields hold afterwards.
  datatype Parsed = Parsed(flags: u8, valid: bool, name: seq<u8>, lat: i32, lon: i32, feat1: u16, feat2: u16)

  function Kind(p: Parsed): u8 { p.flags % 0x10 }

  const NOTHING := Parsed(0, false, [], 0, 0, 0, 0)

  /** The parser: each part is read if its flag is set, and a short payload stops it unparsed. */
  function Parse(data: seq<u8>): Parsed {
    if |data| < 1 then NOTHING else ParseLocation(data, NOTHING.(flags := data[0]))
  }

  function ParseLocation(data: seq<u8>, p: Parsed): Parsed {
    if !Has(p.flags, ADV_LATLON_MASK) then ParseFeat1(data, p, 1)
    else if |data| < 9 then p
    else ParseFeat1(data, p.(lat := Read32(data, 1), lon := Read32(data, 5)), 9)
  }

  function ParseFeat1(data: seq<u8>, p: Parsed, i: nat): Parsed {
    if !Has(p.flags, ADV_FEAT1_MASK) then ParseFeat2(data, p, i)
    else if |data| < i + 2 then p
    else ParseFeat2(data, p.(feat1 := Read16(data, i)), i + 2)
  }

  function ParseFeat2(data: seq<u8>, p: Parsed, i: nat): Parsed {
    if !Has(p.flags, ADV_FEAT2_MASK) then ParseName(data, p, i)
    else if |data| < i + 2 then p
    else ParseName(data, p.(feat2 := Read16(data, i)), i + 2)
  }

  function ParseName(data: seq<u8>, p: Parsed, i: nat): Parsed {
    if !Has(p.flags, ADV_NAME_MASK) || |data| <= i then p.(valid := true)
    else
      var n := if |data| - i > MAX_ADVERT_DATA_SIZE - 1 then MAX_ADVERT_DATA_SIZE - 1 else |data| - i;
      p.(valid := true, name := CStr(data[i..i + n], 0))
  }

  class AdvertDataParser {
    var flags: u8
    var valid: bool
    var name: seq<u8>
    var lat: i32
    var lon: i32
    var feat1: u16
    var feat2: u16

    ghost function State(): Parsed
      reads this
    {
      Parsed(flags, valid, name, lat, lon, feat1, feat2)
    }

    constructor (data: seq<u8>)
      requires |data| < 0x100
      ensures State() == Parse(data)
    {
      flags, valid, name := 0, false, [];
      lat, lon, feat1, feat2 := 0, 0, 0, 0;
      new;
      if |data| < 1 { return; }
      flags := data[0];
      ReadParts(data);
    }

    method ReadParts(data: seq<u8>)
      requires data != [] && State() == NOTHING.(flags := data[0])
      modifies this
      ensures State() == ParseLocation(data, old(State()))
    {
      hide Read16, Read32, CStr, Has;
      var i := 1;
      if Has(flags, ADV_LATLON_MASK) {
        if |data| < i + 8 { return; }
        lat := Read32(data, i);
        lon := Read32(data, i + 4);
        i := i + 8;
      }
      if Has(flags, ADV_FEAT1_MASK) {
        if |data| < i + 2 { return; }
        feat1 := Read16(data, i);
        i := i + 2;
      }
      if Has(flags, ADV_FEAT2_MASK) {
        if |data| < i + 2 { return; }
        feat2 := Read16(data, i);
        i := i + 2;
      }
      ReadName(data, i);
    }

    method ReadName(data: seq<u8>, i: nat)
      requires i <= |data|
      modifies this`name, this`valid
      ensures State() == ParseName(data, old(State()), i)
    {
      if Has(flags, ADV_NAME_MASK) {
        var n := |data| - i;
        if n > MAX_ADVERT_DATA_SIZE - 1 { n := MAX_ADVERT_DATA_SIZE - 1; }
        if n > 0 { name := CStr(data[i..i + n], 0); }
      }
      valid := true;
    }
  }

  lemma {:induction false} FlagsSayWhatIsThere(a: Advert, named: bool)
    requires a.kind < 0x10
    ensures var f := Flags(a, named);
            && f % 0x10 == a.kind
            && Has(f, ADV_LATLON_MASK) == a.location.Location?
            && Has(f, ADV_FEAT1_MASK) == (a.feat1 != 0)
            && Has(f, ADV_FEAT2_MASK) == (a.feat2 != 0)
            && Has(f, ADV_NAME_MASK) == named
  {
    var l, e1, e2, n := if a.location.Location? then 1 else 0, if a.feat1 != 0 then 1 else 0,
                        if a.feat2 != 0 then 1 else 0, if named then 1 else 0;
    FlagSum(a, named);
    var f := Flags(a, named);
    assert f / 0x10 == l + 2 * e1 + 4 * e2 + 8 * n;
    assert f / 0x20 == e1 + 2 * e2 + 4 * n;
    assert f / 0x40 == e2 + 2 * n;
  }

  lemma {:induction false} FlagSum(a: Advert, named: bool)
    requires a.kind < 0x10
    ensures Flags(a, named) == a.kind + (if a.location.Location? then 0x10 else 0) + (if a.feat1 != 0 then 0x20 else 0)
                               + (if a.feat2 != 0 then 0x40 else 0) + (if named then 0x80 else 0)
  {
    SetUnset(a.kind, ADV_LATLON_MASK);
    var f1 := if a.location.Location? then a.kind + 0x10 else a.kind;
    SetUnset(f1, ADV_FEAT1_MASK);
    var f2 := if a.feat1 != 0 then f1 + 0x20 else f1;
    SetUnset(f2, ADV_FEAT2_MASK);
    SetUnset(if a.feat2 != 0 then f2 + 0x40 else f2, ADV_NAME_MASK);
    hide Set;
  }

  lemma {:induction false} SetUnset(f: u8, mask: u8)
    requires mask in {0x10, 0x20, 0x40, 0x80} && f < mask
    ensures Set(f, mask) == f + mask
  {
  }

  /**
   * Round trip: the parser gives back type, position, feature words and the
   * name that was sent.
   */
  lemma {:induction false} ParseOfEncoded(a: Advert, sent: seq<u8>)
    requires a.kind < 0x10 && 0 !in a.name && IsSentName(a, sent)
    ensures var p := Parse(Encoded(a, sent));
            && p.valid && Kind(p) == a.kind
            && p.name == sent && p.feat1 == a.feat1 && p.feat2 == a.feat2
            && (a.location.Location? ==> p.lat == a.location.lat && p.lon == a.location.lon)
            && (a.location.NoLocation? ==> p.lat == 0 && p.lon == 0)
            && Has(p.flags, ADV_LATLON_MASK) == a.location.Location?
  {
    FlagsSayWhatIsThere(a, sent != []);
    hide Flags, Has, Word16, Word32, Read16, Read32, WellFormed, WellFormedTo;
    var data := Encoded(a, sent);
    var i := 1;
    if a.location.Location? {
      assert data[1..5] == Word32(a.location.lat) && data[5..9] == Word32(a.location.lon);
      Word32RoundTrip(a.location.lat, data, 1);
      Word32RoundTrip(a.location.lon, data, 5);
      i := 9;
    }
    var p := NOTHING.(flags := Flags(a, sent != []));
    if a.location.Location? {
      p := p.(lat := a.location.lat, lon := a.location.lon);
    }
    assert Parse(data) == ParseFeat1(data, p, i);
    FeatsParse(a, sent, p, i);
  }

  lemma {:induction false} EncodedSplits(a: Advert, sent: seq<u8>)
    ensures var front := [Flags(a, sent != [])] + if a.location.Location? then Word32(a.location.lat) + Word32(a.location.lon) else [];
            var w1, w2 := if a.feat1 != 0 then Word16(a.feat1) else [], if a.feat2 != 0 then Word16(a.feat2) else [];
            Encoded(a, sent) == front + w1 + w2 + sent
            && Encoded(a, sent) == front + w1 + (w2 + sent) && |front| == if a.location.Location? then 9 else 1
  {
    hide Flags, Word16, Word32;
  }

  lemma {:induction false} FeatsParse(a: Advert, sent: seq<u8>, p: Parsed, i: nat)
    requires 0 !in a.name && IsSentName(a, sent) && p.flags == Flags(a, sent != [])
    requires Has(p.flags, ADV_FEAT1_MASK) == (a.feat1 != 0) && Has(p.flags, ADV_FEAT2_MASK) == (a.feat2 != 0)
    requires Has(p.flags, ADV_NAME_MASK) == (sent != [])
    requires p.feat1 == p.feat2 == 0 && p.name == [] && i == if a.location.Location? then 9 else 1
    ensures ParseFeat1(Encoded(a, sent), p, i)
         == p.(feat1 := a.feat1, feat2 := a.feat2, valid := true, name := sent)
  {
    hide Flags, Has, Word16, Word32, Read16, Read32, WellFormed, WellFormedTo, ParseFeat1, ParseFeat2, ParseName, Encoded;
    var front := [p.flags] + if a.location.Location? then Word32(a.location.lat) + Word32(a.location.lon) else [];
    var w1, w2 := if a.feat1 != 0 then Word16(a.feat1) else [], if a.feat2 != 0 then Word16(a.feat2) else [];
    var data := Encoded(a, sent);
    EncodedSplits(a, sent);
    Feat1Parses(data, p, front, a.feat1, w2 + sent);
    Feat2Parses(data, p.(feat1 := a.feat1), front + w1, a.feat2, sent);
    NameParses(data, p.(feat1 := a.feat1, feat2 := a.feat2), front + w1 + w2, sent);
    assert 0 !in sent;
  }

  lemma {:induction false} Feat1Parses(data: seq<u8>, p: Parsed, front: seq<u8>, feat: u16, rest: seq<u8>)
    requires data == front + (if feat != 0 then Word16(feat) else []) + rest
    requires Has(p.flags, ADV_FEAT1_MASK) == (feat != 0) && p.feat1 == 0
    ensures ParseFeat1(data, p, |front|)
         == ParseFeat2(data, p.(feat1 := feat), |front| + if feat != 0 then 2 else 0)
  {
    hide Word16, Read16, Has, ParseFeat2;
    if feat != 0 {
      assert data[|front|..|front| + 2] == Word16(feat);
      Word16RoundTrip(feat, data, |front|);
    }
  }

  lemma {:induction false} Feat2Parses(data: seq<u8>, p: Parsed, front: seq<u8>, feat: u16, rest: seq<u8>)
    requires data == front + (if feat != 0 then Word16(feat) else []) + rest
    requires Has(p.flags, ADV_FEAT2_MASK) == (feat != 0) && p.feat2 == 0
    ensures ParseFeat2(data, p, |front|)
         == ParseName(data, p.(feat2 := feat), |front| + if feat != 0 then 2 else 0)
  {
    hide Word16, Read16, Has, ParseName;
    if feat != 0 {
      assert data[|front|..|front| + 2] == Word16(feat);
      Word16RoundTrip(feat, data, |front|);
    }
  }

  lemma {:induction false} NameParses(data: seq<u8>, p: Parsed, front: seq<u8>, sent: seq<u8>)
    requires data == front + sent && 0 !in sent && |sent| < MAX_ADVERT_DATA_SIZE
    requires Has(p.flags, ADV_NAME_MASK) == (sent != []) && p.name == []
    ensures ParseName(data, p, |front|) == p.(valid := true, name := sent)
  {
    assert data[|front|..|front| + |sent|] == sent;
  }

  /** The type comes back exactly when it fits the low four bits; the sent name is the longest that could. */
  lemma {:induction false} TypeExactlyWhen(a: Advert, sent: seq<u8>)
    requires 0 !in a.name && IsSentName(a, sent)
    ensures Kind(Parse(Encoded(a, sent))) == a.kind <==> a.kind < 0x10
  {
    if a.kind < 0x10 {
      ParseOfEncoded(a, sent);
    }
  }

  /** The sent name is unique, so a decoder that gets it has all that whole code points allow. */
  lemma {:induction false} SentNameIsUnique(a: Advert, x: seq<u8>, y: seq<u8>)
    requires IsSentName(a, x) && IsSentName(a, y)
    ensures x == y
  {
    assert a.name[..|x|] == x && a.name[..|y|] == y;
    assert WellFormedTo(a.name, |x|) && WellFormedTo(a.name, |y|);
  }

  // ---- Any payload -------------------------------------------------------------

  /** How long a payload with this flags byte must be. */
  function HeaderLength(flags: u8): nat {
    1 + (if flags / 0x10 % 2 == 1 then 8 else 0) + (if flags / 0x20 % 2 == 1 then 2 else 0) + (if flags / 0x40 % 2 == 1 then 2 else 0)
  }

  lemma {:induction false} HasIsBit(flags: u8)
    ensures Has(flags, ADV_LATLON_MASK) <==> flags / 0x10 % 2 == 1
    ensures Has(flags, ADV_FEAT1_MASK) <==> flags / 0x20 % 2 == 1
    ensures Has(flags, ADV_FEAT2_MASK) <==> flags / 0x40 % 2 == 1
    ensures Has(flags, ADV_NAME_MASK) <==> flags / 0x80 % 2 == 1
  {
  }

  lemma {:induction false} Word16Back(b: seq<u8>, i: nat)
    requires i + 2 <= |b|
    ensures Word16(Read16(b, i)) == b[i..i + 2]
  {
  }

  lemma {:induction false} Word32Back(b: seq<u8>, i: nat)
    requires i + 4 <= |b|
    ensures Word32(Read32(b, i)) == b[i..i + 4]
  {
    hide Word16, Read16;
    Word16Back(b, i);
    Word16Back(b, i + 2);
    assert b[i..i + 2] + b[i + 2..i + 4] == b[i..i + 4];
    Halves(Read16(b, i), Read16(b, i + 2));
  }

  lemma {:induction false} Halves(low: u16, high: u16)
    ensures var l: int, h: int := low, high;
            var u := l + 0x1_0000 * h;
            u < U32_RANGE && u % 0x1_0000 == l && u / 0x1_0000 == h
  {
  }

  /**
   * Any payload is valid exactly when it has all the fields that its flags announce; the fields
   * then say what its bytes do, what is not announced is zero, and the rest is the name up to a NUL.
   */
  lemma {:induction false} ValidExactlyWhen(data: seq<u8>)
    ensures var p := Parse(data);
            p.valid <==> data != [] && HeaderLength(data[0]) <= |data|
    ensures var p := Parse(data);
            p.valid ==>
              var h, l, e1, e2, n := HeaderLength(p.flags), p.flags / 0x10 % 2 == 1, p.flags / 0x20 % 2 == 1, p.flags / 0x40 % 2 == 1,
                                     p.flags / 0x80 % 2 == 1;
              && p.flags == data[0]
              && data[1..h] == (if l then Word32(p.lat) + Word32(p.lon) else []) + (if e1 then Word16(p.feat1) else [])
                               + (if e2 then Word16(p.feat2) else [])
              && (!l ==> p.lat == p.lon == 0) && (!e1 ==> p.feat1 == 0) && (!e2 ==> p.feat2 == 0)
              && p.name == if n then CStr(data[h..Min(|data|, h + MAX_ADVERT_DATA_SIZE - 1)], 0) else []
  {
    hide Has, Read16, Read32, Word16, Word32, CStr, ParseFeat1, HeaderLength, NameAt, Word;
    if data != [] {
      HasIsBit(data[0]);
      HeaderIs(data[0]);
      var p := NOTHING.(flags := data[0]);
      if !Has(p.flags, ADV_LATLON_MASK) {
        FeatsAreThere(data, p, 1);
      } else if 9 <= |data| {
        Word32Back(data, 1);
        Word32Back(data, 5);
        assert data[1..5] + data[5..9] == data[1..9];
        FeatsAreThere(data, p.(lat := Read32(data, 1), lon := Read32(data, 5)), 9);
      }
      FieldsAre(Parse(data), data);
    }
  }

  lemma {:induction false} FieldsAre(p: Parsed, data: seq<u8>)
    ensures Word(Has(p.flags, ADV_FEAT1_MASK), p.feat1) == if Has(p.flags, ADV_FEAT1_MASK) then Word16(p.feat1) else []
    ensures Word(Has(p.flags, ADV_FEAT2_MASK), p.feat2) == if Has(p.flags, ADV_FEAT2_MASK) then Word16(p.feat2) else []
    ensures forall i: nat :: i <= |data| ==>
              NameAt(data, p.flags, i)
              == if Has(p.flags, ADV_NAME_MASK) then CStr(data[i..Min(|data|, i + MAX_ADVERT_DATA_SIZE - 1)], 0) else []
  {
    hide Has, Word16, CStr;
  }

  lemma {:induction false} FeatsAreThere(data: seq<u8>, p: Parsed, i: nat)
    requires 1 <= i <= |data| && p.name == [] && p.feat1 == p.feat2 == 0 && !p.valid
    ensures var r, e1, e2 := ParseFeat1(data, p, i), Has(p.flags, ADV_FEAT1_MASK), Has(p.flags, ADV_FEAT2_MASK);
            var k := i + (if e1 then 2 else 0) + if e2 then 2 else 0;
            && r.flags == p.flags && (r.valid <==> k <= |data|)
            && (r.valid ==>
                  && data[1..k] == data[1..i] + Word(e1, r.feat1) + Word(e2, r.feat2) && (e1 || r.feat1 == 0) && (e2 || r.feat2 == 0)
                  && r == p.(valid := true, feat1 := r.feat1, feat2 := r.feat2, name := NameAt(data, p.flags, k)))
  {
    hide Has, ParseFeat1, NameAt, Word;
    Feat1Stage(data, p, i);
    PutsTogether(data, i, ParseFeat1(data, p, i));
  }

  lemma {:induction false} HeaderIs(flags: u8)
    ensures HeaderLength(flags) == (if Has(flags, ADV_LATLON_MASK) then 9 else 1) + (if Has(flags, ADV_FEAT1_MASK) then 2 else 0)
                                   + (if Has(flags, ADV_FEAT2_MASK) then 2 else 0)
  {
    HasIsBit(flags);
  }

  function Word(there: bool, x: u16): seq<u8> {
    if there then Word16(x) else []
  }

  lemma {:induction false} PutsTogether(data: seq<u8>, i: nat, r: Parsed)
    requires i <= |data|
    ensures var e1, e2 := Has(r.flags, ADV_FEAT1_MASK), Has(r.flags, ADV_FEAT2_MASK);
            var j := i + if e1 then 2 else 0;
            var k := j + if e2 then 2 else 0;
            k <= |data| && data[i..j] == Word(e1, r.feat1) && data[j..k] == Word(e2, r.feat2)
            ==> 1 <= i ==> data[1..k] == data[1..i] + Word(e1, r.feat1) + Word(e2, r.feat2)
  {
    hide Has, Word16;
    var e1, e2 := Has(r.flags, ADV_FEAT1_MASK), Has(r.flags, ADV_FEAT2_MASK);
    var j := i + if e1 then 2 else 0;
    var k := j + if e2 then 2 else 0;
    if k <= |data| && 1 <= i {
      ThreeSlices(data, 1, i, j, k);
    }
  }

  lemma {:induction false} ThreeSlices(data: seq<u8>, h: nat, i: nat, j: nat, k: nat)
    requires h <= i <= j <= k <= |data|
    ensures data[h..k] == data[h..i] + data[i..j] + data[j..k]
  {
  }

  function NameAt(data: seq<u8>, flags: u8, i: nat): seq<u8>
    requires i <= |data|
  {
    if Has(flags, ADV_NAME_MASK) then CStr(data[i..Min(|data|, i + MAX_ADVERT_DATA_SIZE - 1)], 0) else []
  }

  lemma {:induction false} NameStage(data: seq<u8>, p: Parsed, i: nat)
    requires i <= |data| && p.name == []
    ensures ParseName(data, p, i) == p.(valid := true, name := NameAt(data, p.flags, i))
  {
    hide Has;
    assert |data| == i ==> data[i..i] == [];
  }

  lemma {:induction false} Feat2Stage(data: seq<u8>, p: Parsed, i: nat)
    requires i <= |data| && p.name == [] && p.feat2 == 0 && !p.valid
    ensures var r, e := ParseFeat2(data, p, i), Has(p.flags, ADV_FEAT2_MASK);
            var j := i + if e then 2 else 0;
            && r.flags == p.flags && (r.valid <==> j <= |data|)
            && (r.valid ==> data[i..j] == Word(e, r.feat2) && (e || r.feat2 == 0)
                            && r == p.(valid := true, feat2 := r.feat2, name := NameAt(data, p.flags, j)))
  {
    hide Has, Read16, Word16, NameAt, ParseName;
    if Has(p.flags, ADV_FEAT2_MASK) {
      if i + 2 <= |data| {
        Word16Back(data, i);
        NameStage(data, p.(feat2 := Read16(data, i)), i + 2);
      }
    } else {
      NameStage(data, p, i);
    }
  }

  lemma {:induction false} Feat1Stage(data: seq<u8>, p: Parsed, i: nat)
    requires i <= |data| && p.name == [] && p.feat1 == p.feat2 == 0 && !p.valid
    ensures var r, e1, e2 := ParseFeat1(data, p, i), Has(p.flags, ADV_FEAT1_MASK), Has(p.flags, ADV_FEAT2_MASK);
            var j := i + if e1 then 2 else 0;
            var k := j + if e2 then 2 else 0;
            && r.flags == p.flags && (r.valid <==> k <= |data|)
            && (r.valid ==>
                  && data[i..j] == Word(e1, r.feat1) && data[j..k] == Word(e2, r.feat2) && (e1 || r.feat1 == 0) && (e2 || r.feat2 == 0)
                  && r == p.(valid := true, feat1 := r.feat1, feat2 := r.feat2, name := NameAt(data, p.flags, k)))
  {
    hide Has, Read16, Word16, NameAt, ParseFeat2;
    if Has(p.flags, ADV_FEAT1_MASK) {
      if i + 2 <= |data| {
        Word16Back(data, i);
        Feat2Stage(data, p.(feat1 := Read16(data, i)), i + 2);
      }
    } else {
      Feat2Stage(data, p, i);
    }
  }
}
