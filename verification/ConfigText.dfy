/**
 * The text configuration format: one nested schema that prints itself and, run
 * again in read mode for every parsed value, loads itself back. A char stands
 * for one byte of the stream.
 */
module ConfigText {
  import opened Words

  const MAX_DEPTH := 8
  const MAX_KEYLEN := 16
  const MAX_TOKEN_LEN := 128

  // ---- Schemas: a tree of named items, with their present values -----------

  datatype IntKind = I8 | I16 | I32 | U8 | U16 | U32

  datatype Item =
    | Text(value: string, maxLen: nat)
    | Blob(bytes: seq<u8>)
    | Int(kind: IntKind, num: int)
    | Flag(on: bool)
    | Sub(fields: seq<Field>)

  datatype Field = Field(key: string, item: Item)

  function MinOf(k: IntKind): int {
    match k
    case I8 => -0x80
    case I16 => -0x8000
    case I32 => -0x8000_0000
    case _ => 0
  }

  function MaxOf(k: IntKind): int {
    match k
    case I8 => 0x7F
    case I16 => 0x7FFF
    case I32 => 0x7FFF_FFFF
    case U8 => 0xFF
    case U16 => 0xFFFF
    case U32 => 0xFFFF_FFFF
  }

  /** C's conversion of a long to the field's type: keep the low bits. */
  function Narrow(k: IntKind, v: int): (r: int)
    ensures MinOf(k) <= r <= MaxOf(k)
    ensures MinOf(k) <= v <= MaxOf(k) ==> r == v
  {
    MinOf(k) + (v - MinOf(k)) % (MaxOf(k) - MinOf(k) + 1)
  }

  // ---- Decimal numbers: printf("%ld") and atol -----------------------------

  predicate IsDigit(c: char) { '0' <= c <= '9' }

  function DigitChar(d: nat): (c: char)
    requires d < 10
    ensures IsDigit(c) && DigitOf(c) == d
  {
    '0' + d as char
  }

  function DigitOf(c: char): nat
    requires IsDigit(c)
  {
    c as nat - '0' as nat
  }

  function Digits(n: nat): (s: string)
    ensures s != "" && forall i :: 0 <= i < |s| ==> IsDigit(s[i])
  {
    if n < 10 then [DigitChar(n)] else Digits(n / 10) + [DigitChar(n % 10)]
  }

  function Decimal(n: int): string {
    if n < 0 then "-" + Digits(-n) else Digits(n)
  }

  function ValueOf(s: string): nat
    requires forall i :: 0 <= i < |s| ==> IsDigit(s[i])
  {
    if s == "" then 0 else ValueOf(s[..|s| - 1]) * 10 + DigitOf(s[|s| - 1])
  }

  function LeadingDigits(s: string): (d: string)
    ensures forall i :: 0 <= i < |d| ==> IsDigit(d[i])
  {
    if s == "" || !IsDigit(s[0]) then "" else [s[0]] + LeadingDigits(s[1..])
  }

  predicate IsWhitespace(c: char) { c == ' ' || c == '\t' || c == '\r' || c == '\n' }

  function SkipSpace(s: string): string {
    if s != "" && IsWhitespace(s[0]) then SkipSpace(s[1..]) else s
  }

  /** atol on a target whose long tops out at longMax; strtol saturates there. */
  function Atol(s: string, longMax: int): int {
    var t := SkipSpace(s);
    if t != "" && t[0] == '-' then Max(0 - ValueOf(LeadingDigits(t[1..])), -longMax - 1)
    else
      var u := if t != "" && t[0] == '+' then t[1..] else t;
      Min(ValueOf(LeadingDigits(u)), longMax)
  }

  lemma {:induction false} DigitsValue(n: nat)
    ensures ValueOf(Digits(n)) == n
  {
    if n < 10 {
      assert Digits(n)[..0] == "";
    } else {
      DigitsValue(n / 10);
      assert Digits(n)[..|Digits(n)| - 1] == Digits(n / 10);
    }
  }

  lemma {:induction false} AllLeading(s: string)
    requires forall i :: 0 <= i < |s| ==> IsDigit(s[i])
    ensures LeadingDigits(s) == s
  {
    if s != "" {
      AllLeading(s[1..]);
    }
  }

  lemma {:induction false} AtolOfDecimal(n: int, longMax: int)
    ensures Atol(Decimal(n), longMax) == if n < 0 then Max(n, -longMax - 1) else Min(n, longMax)
  {
    hide Digits, ValueOf, LeadingDigits, Min, Max;
    var d := Digits(if n < 0 then -n else n);
    DigitsValue(if n < 0 then -n else n);
    AllLeading(d);
    assert IsDigit(d[0]);
    if n < 0 {
      assert ("-" + d)[1..] == d;
    }
  }

  // ---- Hex blobs -----------------------------------------------------------

  predicate IsUpperHex(c: char) { '0' <= c <= '9' || 'A' <= c <= 'F' }

  function HexChar(d: nat): (c: char)
    requires d < 16
    ensures IsUpperHex(c) && HexVal(c) == d
  {
    if d < 10 then '0' + d as char else 'A' + (d - 10) as char
  }

  function HexVal(c: char): (v: nat)
    ensures v < 16
  {
    if 'A' <= c <= 'F' then c as nat - 'A' as nat + 10
    else if 'a' <= c <= 'f' then c as nat - 'a' as nat + 10
    else if '0' <= c <= '9' then c as nat - '0' as nat
    else 0
  }

  function Hex(bytes: seq<u8>): (s: string)
    ensures |s| == 2 * |bytes|
  {
    if bytes == [] then ""
    else
      var b := bytes[|bytes| - 1];
      Hex(bytes[..|bytes| - 1]) + [HexChar(b / 16), HexChar(b % 16)]
  }

  function UnHex(s: string): seq<u8>
    requires |s| % 2 == 0
  {
    if s == "" then []
    else UnHex(s[..|s| - 2]) + [HexVal(s[|s| - 2]) * 16 + HexVal(s[|s| - 1])]
  }

  lemma {:induction false} HexRoundTrip(bytes: seq<u8>)
    ensures UnHex(Hex(bytes)) == bytes
  {
    if bytes != [] {
      var front, b := bytes[..|bytes| - 1], bytes[|bytes| - 1];
      HexRoundTrip(front);
      var s := Hex(bytes);
      assert s[|s| - 2] == HexChar(b / 16) && s[|s| - 1] == HexChar(b % 16);
      assert s[..|s| - 2] == Hex(front);
    }
  }

  lemma {:induction false} HexChars(bytes: seq<u8>)
    ensures forall i :: 0 <= i < |Hex(bytes)| ==> IsUpperHex(Hex(bytes)[i])
  {
    if bytes != [] {
      HexChars(bytes[..|bytes| - 1]);
    }
  }

  // ---- Printing ------------------------------------------------------------

  function Escape(c: char): string {
    if c == '"' then "\\\""
    else if c == '\\' then "\\\\"
    else if c == '\n' then "\\n"
    else if c == '\r' then "\\r"
    else [c]
  }

  function Escaped(s: string): string {
    if s == "" then "" else Escaped(s[..|s| - 1]) + Escape(s[|s| - 1])
  }

  function ItemText(item: Item): string {
    match item
    case Text(value, _) => "\"" + Escaped(value) + "\""
    case Blob(bytes) => "\"" + Hex(bytes) + "\""
    case Int(_, num) => Decimal(num)
    case Flag(on) => if on then "true" else "false"
    case Sub(fields) => "{" + FieldsText(fields) + "}"
  }

  function FieldText(f: Field): string {
    f.key + ":" + ItemText(f.item)
  }

  function FieldsText(fields: seq<Field>): string {
    if fields == [] then ""
    else if |fields| == 1 then FieldText(fields[0])
    else FieldsText(fields[..|fields| - 1]) + "," + FieldText(fields[|fields| - 1])
  }

  function SavedText(root: seq<Field>): string {
    "{" + FieldsText(root) + "}"
  }

  lemma {:induction false} Regroup(a: string, b: string, c: string, d: string)
    ensures a + b + c + d == a + (b + c + d)
  {
  }

  /** The stream in write mode. */
  class Writer {
    var out: string

    constructor ()
      ensures out == ""
    {
      out := "";
    }

    method Print(s: string)
      modifies this
      ensures out == old(out) + s
    {
      out := out + s;
    }

    /** structure() in write mode: each def writes a comma unless it is the first, then itself. */
    method WriteFields(fields: seq<Field>)
      modifies this
      ensures out == old(out) + FieldsText(fields)
      decreases fields, 1
    {
      var first := true;
      ghost var start := out;
      for i := 0 to |fields|
        invariant first == (i == 0)
        invariant out == start + FieldsText(fields[..i])
      {
        assert fields[..i + 1][..i] == fields[..i];
        ghost var before := FieldsText(fields[..i]);
        if first {
          first := false;
        } else {
          Print(",");
          Regroup(start, before, ",", FieldText(fields[i]));
        }
        WriteField(fields[i]);
      }
      assert fields[..|fields|] == fields;
    }

    method WriteField(f: Field)
      modifies this
      ensures out == old(out) + FieldText(f)
      decreases f
    {
      Regroup(out, f.key, ":", ItemText(f.item));
      Print(f.key);
      Print(":");
      WriteItem(f.item);
    }

    method WriteItem(item: Item)
      modifies this
      ensures out == old(out) + ItemText(item)
      decreases item
    {
      ghost var start := out;
      match item
      case Text(value, _) =>
        Regroup(start, "\"", Escaped(value), "\"");
        Print("\"");
        WriteEscaped(value);
        Print("\"");
      case Blob(bytes) =>
        Regroup(start, "\"", Hex(bytes), "\"");
        Print("\"");
        PrintHex(bytes);
        Print("\"");
      case Int(_, num) =>
        Print(Decimal(num));
      case Flag(on) =>
        Print(if on then "true" else "false");
      case Sub(fields) =>
        Regroup(start, "{", FieldsText(fields), "}");
        Print("{");
        WriteFields(fields);
        Print("}");
    }

    method WriteEscaped(value: string)
      modifies this
      ensures out == old(out) + Escaped(value)
    {
      for k := 0 to |value|
        invariant out == old(out) + Escaped(value[..k])
      {
        assert value[..k + 1][..k] == value[..k];
        Print(Escape(value[k]));
      }
      assert value[..|value|] == value;
    }

    method PrintHex(bytes: seq<u8>)
      modifies this
      ensures out == old(out) + Hex(bytes)
    {
      for k := 0 to |bytes|
        invariant out == old(out) + Hex(bytes[..k])
      {
        assert bytes[..k + 1][..k] == bytes[..k];
        Print([HexChar(bytes[k] / 16)]);
        Print([HexChar(bytes[k] % 16)]);
      }
      assert bytes[..|bytes|] == bytes;
    }

    method SaveSerial(root: seq<Field>)
      modifies this
      ensures out == old(out) + SavedText(root)
    {
      Regroup(out, "{", FieldsText(root), "}");
      Print("{");
      WriteFields(root);
      Print("}");
    }
  }
}
