/** Printing a schema and loading the text into another instance of it. */
module ConfigRoundTrip {
  import opened Words
  import opened Wrappers
  import opened ConfigText
  import opened ConfigLoad

  // ---- What the text must respect ------------------------------------------

  predicate KeyOk(key: string) {
    1 <= |key| < MAX_KEYLEN && forall i :: 0 <= i < |key| ==> IsKeyChar(key[i])
  }

  ghost predicate DistinctKeys(fields: seq<Field>) {
    forall i, j :: 0 <= i < j < |fields| ==> fields[i].key != fields[j].key
  }

  /** Keys distinct per level and short enough, tokens within the buffer, numbers in their type. */
  ghost predicate Printable(fields: seq<Field>)
    decreases fields
  {
    DistinctKeys(fields)
    && forall i :: 0 <= i < |fields| ==> KeyOk(fields[i].key) && ItemPrintable(fields[i].item)
  }

  ghost predicate ItemPrintable(item: Item)
    decreases item
  {
    match item
    case Text(value, maxLen) => |value| < maxLen && |value| < MAX_TOKEN_LEN && '\0' !in value
    case Blob(bytes) => 2 * |bytes| < MAX_TOKEN_LEN
    case Int(kind, num) => MinOf(kind) <= num <= MaxOf(kind)
    case Flag(_) => true
    case Sub(fields) => Printable(fields)
  }

  /** Levels of nesting, the root included. */
  ghost function Height(fields: seq<Field>): nat
    decreases fields, 1
  {
    if fields == [] then 1
    else Max(Height(fields[..|fields| - 1]), ItemHeight(fields[|fields| - 1].item))
  }

  ghost function ItemHeight(item: Item): nat
    decreases item
  {
    if item.Sub? then 1 + Height(item.fields) else 1
  }

  /** Two instances of one schema: the same keys and types, any values. */
  ghost predicate SameShape(a: seq<Field>, b: seq<Field>)
    decreases a
  {
    |a| == |b| && forall i :: 0 <= i < |a| ==> a[i].key == b[i].key && SameItemShape(a[i].item, b[i].item)
  }

  ghost predicate SameItemShape(a: Item, b: Item)
    decreases a
  {
    match a
    case Text(_, maxLen) => b.Text? && b.maxLen == maxLen
    case Blob(bytes) => b.Blob? && |b.bytes| == |bytes|
    case Int(kind, _) => b.Int? && b.kind == kind
    case Flag(_) => b.Flag?
    case Sub(fields) => b.Sub? && SameShape(fields, b.fields)
  }

  /** What comes back: every value, with unsigned numbers above the target's long clipped to it. */
  ghost function Reloaded(fields: seq<Field>, longMax: nat): (r: seq<Field>)
    ensures |r| == |fields|
    ensures forall i :: 0 <= i < |r| ==> r[i].key == fields[i].key
    decreases fields, 1
  {
    if fields == [] then []
    else
      var f := fields[|fields| - 1];
      Reloaded(fields[..|fields| - 1], longMax) + [Field(f.key, ReloadedItem(f.item, longMax))]
  }

  ghost function ReloadedItem(item: Item, longMax: nat): Item
    decreases item
  {
    match item
    case Int(kind, num) => Int(kind, Min(num, longMax))
    case Sub(fields) => Sub(Reloaded(fields, longMax))
    case _ => item
  }

  // ---- Runs of characters inside one token -----------------------------------

  lemma {:induction false} ReadsKey(l: Loader, key: string, rest: string, longMax: nat)
    requires l.Ok() && l.mode == ExpectKey && l.held == None && |l.buf| + |key| < MAX_KEYLEN
    requires forall i :: 0 <= i < |key| ==> IsKeyChar(key[i])
    ensures Run(l, key + rest, longMax) == Run(l.(buf := l.buf + key), rest, longMax)
    decreases key
  {
    hide Run;
    if key == "" {
      assert key + rest == rest && l.buf + key == l.buf;
    } else {
      assert (key + rest)[0] == key[0] && (key + rest)[1..] == key[1..] + rest;
      ReadsKeyChar(l, key + rest, longMax);
      ReadsKey(l.(buf := l.buf + [key[0]]), key[1..], rest, longMax);
      assert l.buf + [key[0]] + key[1..] == l.buf + key;
    }
  }

  lemma {:induction false} ReadsKeyChar(l: Loader, input: string, longMax: nat)
    requires l.Ok() && l.mode == ExpectKey && l.held == None && |l.buf| + 1 < MAX_KEYLEN
    requires input != "" && IsKeyChar(input[0])
    ensures Run(l, input, longMax) == Run(l.(buf := l.buf + [input[0]]), input[1..], longMax)
  {
  }

  lemma {:induction false} ReadsValueChar(l: Loader, input: string, longMax: nat)
    requires l.Ok() && l.mode == ValOrObj && l.held == None && |l.buf| + 1 < MAX_TOKEN_LEN
    requires input != "" && IsValueChar(input[0])
    ensures Run(l, input, longMax) == Run(l.(buf := l.buf + [input[0]]), input[1..], longMax)
  {
  }

  lemma {:induction false} ReadsBareValue(l: Loader, text: string, rest: string, longMax: nat)
    requires l.Ok() && l.mode == ValOrObj && l.held == None && |l.buf| + |text| < MAX_TOKEN_LEN
    requires forall i :: 0 <= i < |text| ==> IsValueChar(text[i])
    ensures Run(l, text + rest, longMax) == Run(l.(buf := l.buf + text), rest, longMax)
    decreases text
  {
    hide Run;
    if text == "" {
      assert text + rest == rest && l.buf + text == l.buf;
    } else {
      assert (text + rest)[0] == text[0] && (text + rest)[1..] == text[1..] + rest;
      ReadsValueChar(l, text + rest, longMax);
      ReadsBareValue(l.(buf := l.buf + [text[0]]), text[1..], rest, longMax);
      assert l.buf + [text[0]] + text[1..] == l.buf + text;
    }
  }

  lemma {:induction false} ReadsEscaped(l: Loader, value: string, rest: string, longMax: nat)
    requires l.Ok() && l.mode == StringVal && l.held == None && |l.buf| + |value| < MAX_TOKEN_LEN
    ensures Run(l, Escaped(value) + rest, longMax) == Run(l.(buf := l.buf + value), rest, longMax)
    decreases value
  {
    hide Run, Escape;
    if value == "" {
      assert Escaped(value) + rest == rest && l.buf + value == l.buf;
    } else {
      var front, c := value[..|value| - 1], value[|value| - 1];
      var tail := Escape(c) + rest;
      assert Escaped(value) + rest == Escaped(front) + tail;
      ReadsEscaped(l, front, tail, longMax);
      ReadsEscape(l.(buf := l.buf + front), c, rest, longMax);
      assert l.buf + front + [c] == l.buf + value;
    }
  }

  lemma {:induction false} ReadsEscape(l: Loader, c: char, rest: string, longMax: nat)
    requires l.Ok() && l.mode == StringVal && l.held == None && |l.buf| < MAX_TOKEN_LEN - 1
    ensures Run(l, Escape(c) + rest, longMax) == Run(l.(buf := l.buf + [c]), rest, longMax)
  {
    hide Run;
    var e := Escape(c);
    if |e| == 2 {
      assert e + rest == ['\\'] + ([e[1]] + rest);
      ReadsOne(l, '\\', [e[1]] + rest, longMax);
      ReadsOne(l.(mode := StringEscape), e[1], rest, longMax);
    } else {
      ReadsOne(l, c, rest, longMax);
    }
  }

  // ---- One whole value and the character after it ------------------------------

  predicate Delimiter(l: Loader, c: char) {
    c == ',' || (c == '}' && 0 < l.sp)
  }

  /** After a value and its delimiter: at the next key, or out of the object. */
  function After(l: Loader, c: char): Loader
    requires Delimiter(l, c)
  {
    if c == ',' then l.(mode := ExpectKey, buf := "", held := None)
    else l.(mode := CommaOrKeyOrClose, buf := "", held := None, sp := l.sp - 1)
  }

  lemma {:induction false} Delimits(l: Loader, c: char, rest: string, longMax: nat)
    requires l.Ok() && Delimiter(l, c) && l.buf == "" && l.held == None
    requires l.mode == CommaOrClose || l.mode == CommaOrKeyOrClose
    ensures Run(l, [c] + rest, longMax) == Run(After(l, c), rest, longMax)
  {
    assert ([c] + rest)[1..] == rest;
  }

  lemma {:induction false} DelimitsHeld(l: Loader, c: char, rest: string, longMax: nat)
    requires l.Ok() && Delimiter(l, c) && l.buf == "" && l.held == Some(c) && l.mode == CommaOrClose
    ensures Run(l, rest, longMax) == Run(After(l, c), rest, longMax)
  {
  }

  function TokenOf(item: Item): string
    requires !item.Sub?
  {
    match item
    case Text(value, _) => value
    case Blob(bytes) => Hex(bytes)
    case Int(_, num) => Decimal(num)
    case Flag(on) => if on then "true" else "false"
  }

  predicate AtValue(l: Loader) {
    l.Ok() && l.mode == ValOrObj && l.buf == "" && l.held == None
  }

  function Taken(l: Loader, tok: string, longMax: nat): Loader {
    l.(root := Apply(l.root, 1, l.keys, tok, longMax), mode := CommaOrClose)
  }

  lemma {:induction false} ReadsBareLeaf(l: Loader, text: string, c: char, rest: string, longMax: nat)
    requires AtValue(l) && Delimiter(l, c) && 0 < |text| < MAX_TOKEN_LEN
    requires forall i :: 0 <= i < |text| ==> IsValueChar(text[i])
    ensures Run(l, text + ([c] + rest), longMax) == Run(After(Taken(l, text, longMax), c), rest, longMax)
  {
    ReadsBareValue(l, text, [c] + rest, longMax);
    assert "" + text == text;
    EndsBareValue(l.(buf := text), c, rest, longMax);
  }

  /** The delimiter ends a bare value and is pushed back, to be read again as what it is. */
  lemma {:induction false} EndsBareValue(l: Loader, c: char, rest: string, longMax: nat)
    requires l.Ok() && l.mode == ValOrObj && l.held == None && l.buf != "" && Delimiter(l, c)
    requires forall i :: 0 <= i < |l.buf| ==> IsValueChar(l.buf[i])
    ensures Run(l, [c] + rest, longMax) == Run(After(Taken(l.(buf := ""), l.buf, longMax), c), rest, longMax)
  {
    hide Run, Apply;
    assert '\0' !in l.buf;
    assert ([c] + rest)[1..] == rest;
    RunUnfolds(l, [c] + rest, longMax);
    DelimitsHeld(Taken(l.(buf := ""), l.buf, longMax).(held := Some(c)), c, rest, longMax);
  }

  lemma {:induction false} ClosesQuote(l: Loader, tok: string, c: char, rest: string, longMax: nat)
    requires l.Ok() && l.mode == StringVal && l.held == None && l.buf == tok && '\0' !in tok && Delimiter(l, c)
    ensures Run(l, "\"" + ([c] + rest), longMax) == Run(After(Taken(l.(buf := ""), tok, longMax), c), rest, longMax)
  {
    var tail := "\"" + ([c] + rest);
    assert tail[0] == '"' && tail[1..] == [c] + rest;
    RunUnfolds(l, tail, longMax);
    Delimits(Taken(l.(buf := ""), tok, longMax), c, rest, longMax);
  }

  lemma {:induction false} OpensQuote(l: Loader, rest: string, longMax: nat)
    requires AtValue(l)
    ensures Run(l, "\"" + rest, longMax) == Run(l.(mode := StringVal), rest, longMax)
  {
    assert ("\"" + rest)[0] == '"' && ("\"" + rest)[1..] == rest;
    RunUnfolds(l, "\"" + rest, longMax);
  }

  lemma {:induction false} HexIsPlain(s: string)
    requires forall i :: 0 <= i < |s| ==> IsUpperHex(s[i])
    ensures Escaped(s) == s
    ensures '\0' !in s
  {
    hide IsUpperHex, Escape;
    if s != "" {
      var front, c := s[..|s| - 1], s[|s| - 1];
      HexIsPlain(front);
      HexCharIsPlain(c);
      assert Escaped(s) == Escaped(front) + Escape(c);
      assert s == front + [c];
    }
  }

  lemma {:induction false} HexCharIsPlain(c: char)
    requires IsUpperHex(c)
    ensures Escape(c) == [c] && c != '\0'
  {
  }

  lemma {:induction false} DecimalIsBare(n: int)
    requires -0x8000_0000 <= n <= 0xFFFF_FFFF
    ensures 0 < |Decimal(n)| <= 11
    ensures forall i :: 0 <= i < |Decimal(n)| ==> IsValueChar(Decimal(n)[i])
  {
    DigitsLength(if n < 0 then -n else n, 10, 10_000_000_000);
  }

  lemma {:induction false} DigitsLength(n: nat, k: nat, p: nat)
    requires 1 <= k && n < p && (k == 1 ==> p <= 10) && p == Power10(k)
    ensures |Digits(n)| <= k
  {
    if 10 <= n {
      DigitsLength(n / 10, k - 1, p / 10);
    }
  }

  function Power10(k: nat): nat {
    if k == 0 then 1 else 10 * Power10(k - 1)
  }

  lemma {:induction false} ReadsLeaf(l: Loader, item: Item, c: char, rest: string, longMax: nat)
    requires AtValue(l) && Delimiter(l, c) && !item.Sub? && ItemPrintable(item)
    ensures Run(l, ItemText(item) + ([c] + rest), longMax)
         == Run(After(Taken(l, TokenOf(item), longMax), c), rest, longMax)
  {
    match item
    case Text(value, _) => ReadsQuoted(l, value, c, rest, longMax);
    case Blob(bytes) =>
      HexChars(bytes);
      HexIsPlain(Hex(bytes));
      ReadsQuoted(l, Hex(bytes), c, rest, longMax);
    case Int(_, num) =>
      DecimalIsBare(num);
      ReadsBareLeaf(l, Decimal(num), c, rest, longMax);
    case Flag(on) =>
      ReadsBareLeaf(l, if on then "true" else "false", c, rest, longMax);
  }

  lemma {:induction false} ReadsQuoted(l: Loader, value: string, c: char, rest: string, longMax: nat)
    requires AtValue(l) && Delimiter(l, c) && |value| < MAX_TOKEN_LEN && '\0' !in value
    ensures Run(l, "\"" + Escaped(value) + "\"" + ([c] + rest), longMax)
         == Run(After(Taken(l, value, longMax), c), rest, longMax)
  {
    hide Run, Escaped;
    var tail := "\"" + ([c] + rest);
    Regroup("\"", Escaped(value), "\"", [c] + rest);
    assert "\"" + Escaped(value) + "\"" + ([c] + rest) == "\"" + (Escaped(value) + tail);
    OpensQuote(l, Escaped(value) + tail, longMax);
    var open := l.(mode := StringVal);
    ReadsEscaped(open, value, tail, longMax);
    assert "" + value == value;
    ClosesQuote(open.(buf := value), value, c, rest, longMax);
  }

  // ---- Where in the tree a value lands -------------------------------------------

  // One open object: the fields around the one being loaded.
  datatype Frame = Frame(before: seq<Field>, key: string, after: seq<Field>)

  /** The whole tree, with fs as the innermost open object. */
  function Plug(ctx: seq<Frame>, fs: seq<Field>): seq<Field>
    decreases |ctx|
  {
    if ctx == [] then fs
    else
      var f := ctx[|ctx| - 1];
      Plug(ctx[..|ctx| - 1], f.before + [Field(f.key, Sub(fs))] + f.after)
  }

  ghost predicate NoKey(fields: seq<Field>, key: string) {
    forall i :: 0 <= i < |fields| ==> fields[i].key != key
  }

  /** The key stack spells the path to the innermost open object, and the path is unambiguous. */
  ghost predicate OnPath(ctx: seq<Frame>, keys: seq<string>) {
    && |keys| == MAX_DEPTH && |ctx| < MAX_DEPTH - 1
    && forall k :: 0 <= k < |ctx| ==>
         keys[k + 1] == ctx[k].key && NoKey(ctx[k].before, ctx[k].key) && NoKey(ctx[k].after, ctx[k].key)
  }

  lemma {:induction false} ApplySkips(fields: seq<Field>, depth: nat, keys: seq<string>, tok: string, longMax: nat)
    requires depth < |keys| && NoKey(fields, keys[depth])
    ensures Apply(fields, depth, keys, tok, longMax) == fields
  {
    if fields != [] {
      ApplySkips(fields[..|fields| - 1], depth, keys, tok, longMax);
    }
  }

  lemma {:induction false} ApplySplits(a: seq<Field>, b: seq<Field>, depth: nat, keys: seq<string>, tok: string, longMax: nat)
    ensures Apply(a + b, depth, keys, tok, longMax)
         == Apply(a, depth, keys, tok, longMax) + Apply(b, depth, keys, tok, longMax)
  {
    if b == [] {
      assert a + b == a;
    } else {
      ApplySplits(a, b[..|b| - 1], depth, keys, tok, longMax);
      assert (a + b)[..|a + b| - 1] == a + b[..|b| - 1];
    }
  }

  /** A value changes only the field its key names. */
  lemma {:induction false} ApplyHits(before: seq<Field>, f: Field, after: seq<Field>, depth: nat, keys: seq<string>, tok: string, longMax: nat)
    requires depth < |keys| && keys[depth] == f.key && NoKey(before, f.key) && NoKey(after, f.key)
    ensures Apply(before + [f] + after, depth, keys, tok, longMax)
         == before + [ApplyField(f, depth, keys, tok, longMax)] + after
  {
    ApplySplits(before + [f], after, depth, keys, tok, longMax);
    ApplySplits(before, [f], depth, keys, tok, longMax);
    ApplySkips(before, depth, keys, tok, longMax);
    ApplySkips(after, depth, keys, tok, longMax);
    assert [f][..0] == [];
  }

  /** Running the schema from the root reaches exactly the innermost open object. */
  lemma {:induction false} ApplyPlug(ctx: seq<Frame>, fs: seq<Field>, keys: seq<string>, tok: string, longMax: nat)
    requires OnPath(ctx, keys)
    ensures Apply(Plug(ctx, fs), 1, keys, tok, longMax) == Plug(ctx, Apply(fs, 1 + |ctx|, keys, tok, longMax))
    decreases |ctx|
  {
    if ctx != [] {
      var n := |ctx| - 1;
      var f := ctx[n];
      assert keys[n + 1] == f.key && NoKey(f.before, f.key) && NoKey(f.after, f.key);
      ApplyPlug(ctx[..n], f.before + [Field(f.key, Sub(fs))] + f.after, keys, tok, longMax);
      ApplyHits(f.before, Field(f.key, Sub(fs)), f.after, n + 1, keys, tok, longMax);
    }
  }

  lemma {:induction false} LeafReloads(a: Item, b: Item, longMax: nat)
    requires !a.Sub? && SameItemShape(a, b) && ItemPrintable(a) && 0x7FFF_FFFF <= longMax
    ensures !b.Sub? && Assigned(b, TokenOf(a), longMax) == ReloadedItem(a, longMax)
  {
    match a
    case Text(_, _) =>
    case Blob(bytes) => HexRoundTrip(bytes);
    case Int(_, num) => AtolOfDecimal(num, longMax);
    case Flag(on) =>
      if !on {
        assert SkipSpace("false") == "false" && LeadingDigits("false") == "";
      }
  }

  // ---- Whole objects ---------------------------------------------------------------

  /** At a key of the innermost open object, whose fields are fs. */
  ghost predicate AtKey(l: Loader, ctx: seq<Frame>, fs: seq<Field>) {
    && l.Ok() && l.mode == ExpectKey && l.buf == "" && l.held == None
    && l.sp == 1 + |ctx| && OnPath(ctx, l.keys)
    && l.root == Plug(ctx, fs)
  }

  /** Past a field and its delimiter, with fs loaded into the innermost open object. */
  ghost predicate Past(l: Loader, ctx: seq<Frame>, fs: seq<Field>, c: char) {
    && l.Ok() && l.buf == "" && l.held == None && OnPath(ctx, l.keys)
    && l.root == Plug(ctx, fs)
    && (if c == ',' then l.mode == ExpectKey && l.sp == 1 + |ctx| else l.mode == CommaOrKeyOrClose && l.sp == |ctx|)
  }

  lemma {:induction false} ReadsFieldKey(l: Loader, ctx: seq<Frame>, fs: seq<Field>, key: string, rest: string, longMax: nat) returns (r: Loader)
    requires AtKey(l, ctx, fs) && KeyOk(key)
    ensures r == l.(mode := ValOrObj, keys := l.keys[l.sp := key])
    ensures AtValue(r) && OnPath(ctx, r.keys)
    ensures Run(l, key + ":" + rest, longMax) == Run(r, rest, longMax)
  {
    hide Run, Plug, Apply;
    r := l.(mode := ValOrObj, keys := l.keys[l.sp := key]);
    assert key + ":" + rest == key + (":" + rest) && "" + key == key && '\0' !in key;
    ReadsKey(l, key, ":" + rest, longMax);
    ReadsOne(l.(buf := key), ':', rest, longMax);
  }

  lemma {:induction false} FieldRun(l: Loader, ctx: seq<Frame>, before: seq<Field>, a: Field, b: Field, after: seq<Field>,
                 c: char, rest: string, longMax: nat) returns (r: Loader)
    requires AtKey(l, ctx, before + [b] + after)
    requires c == ',' || c == '}'
    requires a.key == b.key && SameItemShape(a.item, b.item)
    requires NoKey(before, a.key) && NoKey(after, a.key) && KeyOk(a.key) && ItemPrintable(a.item)
    requires |ctx| + ItemHeight(a.item) < MAX_DEPTH && 0x7FFF_FFFF <= longMax
    ensures Past(r, ctx, before + [Field(a.key, ReloadedItem(a.item, longMax))] + after, c)
    ensures Run(l, FieldText(a) + ([c] + rest), longMax) == Run(r, rest, longMax)
    decreases a, 1
  {
    var tail := ItemText(a.item) + ([c] + rest);
    assert FieldText(a) + ([c] + rest) == a.key + ":" + tail;
    var v := ReadsFieldKey(l, ctx, before + [b] + after, a.key, tail, longMax);
    if a.item.Sub? {
      r := SubRun(v, ctx, before, a, b, after, c, rest, longMax);
    } else {
      var tok := TokenOf(a.item);
      ReadsLeaf(v, a.item, c, rest, longMax);
      LeafReloads(a.item, b.item, longMax);
      ApplyPlug(ctx, before + [b] + after, v.keys, tok, longMax);
      ApplyHits(before, b, after, 1 + |ctx|, v.keys, tok, longMax);
      r := After(Taken(v, tok, longMax), c);
    }
  }

  lemma {:induction false} SubRun(v: Loader, ctx: seq<Frame>, before: seq<Field>, a: Field, b: Field, after: seq<Field>,
               c: char, rest: string, longMax: nat) returns (r: Loader)
    requires AtValue(v) && v.sp == 1 + |ctx| && OnPath(ctx, v.keys) && v.keys[v.sp] == a.key
    requires v.root == Plug(ctx, before + [b] + after)
    requires c == ',' || c == '}'
    requires a.item.Sub? && a.key == b.key && SameItemShape(a.item, b.item)
    requires NoKey(before, a.key) && NoKey(after, a.key) && ItemPrintable(a.item)
    requires |ctx| + ItemHeight(a.item) < MAX_DEPTH && 0x7FFF_FFFF <= longMax
    ensures Past(r, ctx, before + [Field(a.key, ReloadedItem(a.item, longMax))] + after, c)
    ensures Run(v, ItemText(a.item) + ([c] + rest), longMax) == Run(r, rest, longMax)
    decreases a, 0
  {
    hide Run;
    var fa, fb := a.item.fields, b.item.fields;
    var ctx' := ctx + [Frame(before, a.key, after)];
    HeightIsPositive(fa);
    var inner := OpensObject(v, ctx, before, b, after, FieldsText(fa) + ("}" + ([c] + rest)), longMax);
    assert ItemText(a.item) + ([c] + rest) == "{" + (FieldsText(fa) + ("}" + ([c] + rest)));
    var closed := ObjectRun(inner, ctx', fa, fb, [c] + rest, longMax);
    PlugInner(ctx, before, a.key, after, Reloaded(fa, longMax));
    PathShrinks(ctx, Frame(before, a.key, after), closed.keys);
    Delimits(closed, c, rest, longMax);
    r := After(closed, c);
  }

  lemma {:induction false} PlugInner(ctx: seq<Frame>, before: seq<Field>, key: string, after: seq<Field>, fs: seq<Field>)
    ensures Plug(ctx + [Frame(before, key, after)], fs) == Plug(ctx, before + [Field(key, Sub(fs))] + after)
  {
    assert (ctx + [Frame(before, key, after)])[..|ctx|] == ctx;
  }

  lemma {:induction false} PathShrinks(ctx: seq<Frame>, f: Frame, keys: seq<string>)
    requires OnPath(ctx + [f], keys)
    ensures OnPath(ctx, keys)
  {
    assert forall k :: 0 <= k < |ctx| ==> (ctx + [f])[k] == ctx[k];
  }

  lemma {:induction false} OpensObject(v: Loader, ctx: seq<Frame>, before: seq<Field>, b: Field, after: seq<Field>,
                    rest: string, longMax: nat) returns (r: Loader)
    requires AtValue(v) && v.sp == 1 + |ctx| && OnPath(ctx, v.keys) && v.keys[v.sp] == b.key
    requires b.item.Sub? && v.root == Plug(ctx, before + [b] + after)
    requires NoKey(before, b.key) && NoKey(after, b.key) && |ctx| + 2 < MAX_DEPTH
    ensures AtKey(r, ctx + [Frame(before, b.key, after)], b.item.fields)
    ensures Run(v, "{" + rest, longMax) == Run(r, rest, longMax)
  {
    assert ("{" + rest)[0] == '{' && ("{" + rest)[1..] == rest;
    RunUnfolds(v, "{" + rest, longMax);
    r := v.(mode := ExpectKey, sp := v.sp + 1);
    PlugInner(ctx, before, b.key, after, b.item.fields);
    assert b == Field(b.key, Sub(b.item.fields));
  }

  lemma {:induction false} HeightIsPositive(fields: seq<Field>)
    ensures 1 <= Height(fields)
  {
    if fields != [] {
      HeightIsPositive(fields[..|fields| - 1]);
    }
  }

  /** The fields of one object and its closing brace. */
  lemma {:induction false} ObjectRun(l: Loader, ctx: seq<Frame>, a: seq<Field>, b: seq<Field>, rest: string, longMax: nat) returns (r: Loader)
    requires AtKey(l, ctx, b) && SameShape(a, b) && Printable(a)
    requires |ctx| + Height(a) < MAX_DEPTH && 0x7FFF_FFFF <= longMax
    ensures Past(r, ctx, Reloaded(a, longMax), '}')
    ensures Run(l, FieldsText(a) + ("}" + rest), longMax) == Run(r, rest, longMax)
    decreases a, 2
  {
    hide Run, FieldText, Printable;
    if a == [] {
      assert FieldsText(a) + ("}" + rest) == "}" + rest;
      assert ("}" + rest)[0] == '}' && ("}" + rest)[1..] == rest;
      RunUnfolds(l, "}" + rest, longMax);
      r := l.(mode := CommaOrKeyOrClose, sp := l.sp - 1);
    } else {
      assert b + [] == b;
      r := FieldsRun(l, ctx, a, b, [], '}', rest, longMax);
      assert Reloaded(a, longMax) + [] == Reloaded(a, longMax);
    }
  }

  lemma {:induction false} FieldsRun(l: Loader, ctx: seq<Frame>, a: seq<Field>, b: seq<Field>, after: seq<Field>,
                  c: char, rest: string, longMax: nat) returns (r: Loader)
    requires a != [] && AtKey(l, ctx, b + after) && c in {',', '}'}
    requires SameShape(a, b) && Printable(a) && forall i :: 0 <= i < |a| ==> NoKey(after, a[i].key)
    requires |ctx| + Height(a) < MAX_DEPTH && 0x7FFF_FFFF <= longMax
    ensures Past(r, ctx, Reloaded(a, longMax) + after, c)
    ensures Run(l, FieldsText(a) + ([c] + rest), longMax) == Run(r, rest, longMax)
    decreases a, 1
  {
    hide Run, FieldText;
    var n := |a| - 1;
    var front := a[..n];
    LastApart(b, after);
    if n == 0 {
      assert front == [] && b[..n] == [];
      r := FieldRun(l, ctx, [], a[n], b[n], after, c, rest, longMax);
    } else {
      var tail := FieldText(a[n]) + ([c] + rest);
      TextApart(a, [c] + rest);
      assert forall i :: 0 <= i < n ==> front[i].key != a[n].key;
      var here := FieldsRun(l, ctx, front, b[..n], [b[n]] + after, ',', tail, longMax);
      var loaded := Reloaded(front, longMax);
      assert loaded + ([b[n]] + after) == loaded + [b[n]] + after;
      assert forall i :: 0 <= i < n ==> loaded[i].key == a[i].key;
      r := FieldRun(here, ctx, loaded, a[n], b[n], after, c, rest, longMax);
    }
  }

  lemma {:induction false} TextApart(a: seq<Field>, rest: string)
    requires |a| > 1
    ensures var n := |a| - 1;
            FieldsText(a) + rest == FieldsText(a[..n]) + ([','] + (FieldText(a[n]) + rest))
  {
    Regroup(FieldsText(a[..|a| - 1]), ",", FieldText(a[|a| - 1]), rest);
    Regroup("", ",", FieldText(a[|a| - 1]), rest);
  }

  lemma {:induction false} LastApart(b: seq<Field>, after: seq<Field>)
    requires b != []
    ensures var n := |b| - 1;
            b + after == b[..n] + ([b[n]] + after) && b + after == b[..n] + [b[n]] + after
  {
  }

  /**
   * Saving one instance and loading the text into another of the same shape
   * succeeds and restores every value, except that an unsigned number beyond
   * the target's long comes back as its maximum.
   */
  lemma {:induction false} SaveThenLoad(a: seq<Field>, b: seq<Field>, stack: seq<string>, longMax: nat)
    requires SameShape(a, b) && Printable(a) && Height(a) < MAX_DEPTH
    requires |stack| == MAX_DEPTH && 0x7FFF_FFFF <= longMax
    ensures Run(Loader(OpenBrace, "", None, stack, 0, b), SavedText(a), longMax) == Outcome(true, Reloaded(a, longMax))
  {
    hide Run;
    var l := Loader(OpenBrace, "", None, stack, 0, b);
    var body := FieldsText(a) + ("}" + "");
    assert SavedText(a) == "{" + body;
    assert ("{" + body)[0] == '{' && ("{" + body)[1..] == body;
    RunUnfolds(l, "{" + body, longMax);
    var r := ObjectRun(l.(mode := ExpectKey, sp := 1), [], a, b, "", longMax);
    RunUnfolds(r, "", longMax);
  }

  /** No unsigned number exceeds the target's long. */
  ghost predicate FitsLong(fields: seq<Field>, longMax: nat)
    decreases fields, 1
  {
    forall i :: 0 <= i < |fields| ==> ItemFits(fields[i].item, longMax)
  }

  ghost predicate ItemFits(item: Item, longMax: nat)
    decreases item
  {
    match item
    case Int(_, num) => num <= longMax
    case Sub(inner) => FitsLong(inner, longMax)
    case _ => true
  }

  lemma {:induction false} ReloadsWhatFits(fields: seq<Field>, longMax: nat)
    ensures Reloaded(fields, longMax) == fields <==> FitsLong(fields, longMax)
    decreases fields, 1
  {
    hide Reloaded, FitsLong, ReloadedItem, ItemFits;
    if fields == [] {
      NothingToFit(longMax);
    } else {
      var front, last := fields[..|fields| - 1], fields[|fields| - 1];
      ReloadsWhatFits(front, longMax);
      ItemReloads(last.item, longMax);
      assert fields == front + [last];
      ReloadsOneMore(front, last, longMax);
      SameEnds(Reloaded(front, longMax), Field(last.key, ReloadedItem(last.item, longMax)), front, last);
    }
  }

  lemma {:induction false} ItemReloads(item: Item, longMax: nat)
    ensures ReloadedItem(item, longMax) == item <==> ItemFits(item, longMax)
    decreases item, 0
  {
    if item.Sub? { ReloadsWhatFits(item.fields, longMax); }
  }

  lemma {:induction false} NothingToFit(longMax: nat)
    ensures Reloaded([], longMax) == [] && FitsLong([], longMax)
  {
  }

  lemma {:induction false} ReloadsOneMore(front: seq<Field>, last: Field, longMax: nat)
    ensures FitsLong(front + [last], longMax) <==> FitsLong(front, longMax) && ItemFits(last.item, longMax)
    ensures Reloaded(front + [last], longMax) == Reloaded(front, longMax) + [Field(last.key, ReloadedItem(last.item, longMax))]
  {
    hide ReloadedItem, ItemFits;
    assert (front + [last])[..|front|] == front;
    assert forall i :: 0 <= i < |front| ==> (front + [last])[i] == front[i];
    assert (front + [last])[|front|] == last;
  }

  lemma {:induction false} SameEnds<T>(a: seq<T>, x: T, b: seq<T>, y: T)
    requires |a| == |b|
    ensures a + [x] == b + [y] <==> a == b && x == y
  {
    if a + [x] == b + [y] {
      assert a == (a + [x])[..|a|] && b == (b + [y])[..|b|];
      assert x == (a + [x])[|a|] && y == (b + [y])[|b|];
    }
  }

  /** The round trip restores the whole schema exactly when every number fits the target's long. */
  lemma {:induction false} RoundTripExactlyWhen(a: seq<Field>, b: seq<Field>, stack: seq<string>, longMax: nat)
    requires SameShape(a, b) && Printable(a) && Height(a) < MAX_DEPTH
    requires |stack| == MAX_DEPTH && 0x7FFF_FFFF <= longMax
    ensures Run(Loader(OpenBrace, "", None, stack, 0, b), SavedText(a), longMax) == Outcome(true, a)
            <==> FitsLong(a, longMax)
  {
    SaveThenLoad(a, b, stack, longMax);
    ReloadsWhatFits(a, longMax);
  }

  /** On a 32-bit long the top half of uint32_t does not survive: 2^31 comes back as 2^31 - 1. */
  lemma {:induction false} BigUnsignedIsClipped(stack: seq<string>)
    requires |stack| == MAX_DEPTH
    ensures var a := [Field("pin", Int(U32, 0x8000_0000))];
            Run(Loader(OpenBrace, "", None, stack, 0, a), SavedText(a), 0x7FFF_FFFF)
            == Outcome(true, [Field("pin", Int(U32, 0x7FFF_FFFF))])
  {
    var a := [Field("pin", Int(U32, 0x8000_0000))];
    assert a[..0] == [];
    SaveThenLoad(a, a, stack, 0x7FFF_FFFF);
    assert Reloaded(a, 0x7FFF_FFFF) == [Field("pin", Int(U32, 0x7FFF_FFFF))];
  }

  // ---- Any token -------------------------------------------------------------------

  /** A text takes what fits; a blob takes hex of its length and is cleared by anything else. */
  lemma {:induction false} TextTakesWhatFits(value: string, maxLen: nat, bytes: seq<u8>, tok: string, longMax: nat)
    requires 0 < maxLen
    ensures Assigned(Text(value, maxLen), tok, longMax) == Text(tok[..Min(|tok|, maxLen - 1)], maxLen)
    ensures |tok| != 2 * |bytes| ==> Assigned(Blob(bytes), tok, longMax) == Blob(seq(|bytes|, _ => 0))
    ensures Assigned(Blob(bytes), Hex(bytes), longMax) == Blob(bytes)
  {
    assert |tok| <= maxLen - 1 ==> tok[..|tok|] == tok;
    ZerosAreZero(|bytes|);
    HexRoundTrip(bytes);
  }

  lemma {:induction false} ZerosAreZero(n: nat)
    ensures Zeros(n) == seq(n, _ => 0)
  {
    if n > 0 { ZerosAreZero(n - 1); }
  }

  /** A flag takes any number, on if it is not 0; a number takes what its type can hold of one. */
  lemma {:induction false} NumbersAreTaken(on: bool, kind: IntKind, num: int, n: int, longMax: nat)
    requires -0x8000_0000 <= n <= 0x7FFF_FFFF <= longMax
    ensures Assigned(Flag(on), Decimal(n), longMax) == Flag(n != 0)
    ensures MinOf(kind) <= n <= MaxOf(kind) ==> Assigned(Int(kind, num), Decimal(n), longMax) == Int(kind, n)
  {
    AtolOfDecimal(n, longMax);
    DecimalIsNoWord(n);
  }

  lemma {:induction false} DecimalIsNoWord(n: int)
    ensures Decimal(n) != "true"
  {
    var d := Digits(if n < 0 then -n else n);
    assert IsDigit(d[0]) && !IsDigit('t');
    assert Decimal(n)[0] == if n < 0 then '-' else d[0];
  }
}
