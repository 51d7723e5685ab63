/** The configuration parser: a character machine with a one-character pushback, and the load loop around it. */
module ConfigLoad {
  import opened Words
  import opened Wrappers
  import opened ConfigText

  datatype Mode =
    | OpenBrace | ExpectKey | ValOrObj | StringVal | StringEscape
    | CommaOrClose | CommaOrKey | CommaOrKeyOrClose

  datatype Tok = Error | Eof | KeyTok(name: string) | ValueTok(text: string) | StartObj | EndObj | White

  // What one character does: the new mode, the token buffer, a character pushed back, and the token.
  datatype Advance = Advance(mode: Mode, buf: string, held: Option<char>, tok: Tok)

  predicate IsKeyChar(c: char) {
    'A' <= c <= 'Z' || 'a' <= c <= 'z' || '0' <= c <= '9' || c == '_'
  }

  predicate IsValueChar(c: char) {
    '0' <= c <= '9' || 'a' <= c <= 'z' || c == '-' || c == '.'
  }

  function KeyStep(mode: Mode, buf: string, c: char): Advance {
    if buf == "" && c == '}' then Advance(CommaOrKeyOrClose, buf, None, EndObj)
    else if buf != "" && c == ':' then Advance(ValOrObj, "", None, KeyTok(CStr(buf, '\0')))
    else if buf == "" && IsWhitespace(c) then Advance(mode, buf, None, White)
    else if |buf| < MAX_KEYLEN - 1 && IsKeyChar(c) then Advance(mode, buf + [c], None, White)
    else Advance(mode, buf, None, Error)
  }

  function Step(mode: Mode, buf: string, c: char): Advance {
    match mode
    case OpenBrace =>
      if c == '{' then Advance(ExpectKey, buf, None, StartObj)
      else if IsWhitespace(c) then Advance(mode, buf, None, White)
      else Advance(mode, buf, None, Error)
    case CommaOrKeyOrClose =>
      if c == '}' then Advance(CommaOrKeyOrClose, buf, None, EndObj)
      else if c == ',' then Advance(ExpectKey, buf, None, White)
      else KeyStep(mode, buf, c)
    case CommaOrKey =>
      if c == ',' then Advance(ExpectKey, buf, None, White) else KeyStep(mode, buf, c)
    case ExpectKey => KeyStep(mode, buf, c)
    case ValOrObj =>
      if buf == "" && IsWhitespace(c) then Advance(mode, buf, None, White)
      else if buf == "" && c == '"' then Advance(StringVal, buf, None, White)
      else if buf == "" && c == '{' then Advance(ExpectKey, buf, None, StartObj)
      else if IsValueChar(c) && |buf| < MAX_TOKEN_LEN - 1 then Advance(mode, buf + [c], None, White)
      else if buf != "" && (c == ',' || c == '}' || IsWhitespace(c)) then
        Advance(CommaOrClose, "", Some(c), ValueTok(CStr(buf, '\0')))
      else Advance(mode, buf, None, Error)
    case StringEscape =>
      if |buf| < MAX_TOKEN_LEN - 1 && c == 'n' then Advance(StringVal, buf + ['\n'], None, White)
      else if |buf| < MAX_TOKEN_LEN - 1 && c == 'r' then Advance(StringVal, buf + ['\r'], None, White)
      else if |buf| < MAX_TOKEN_LEN - 1 && (c == '"' || c == '\\' || c == '/') then
        Advance(StringVal, buf + [c], None, White)
      else Advance(mode, buf, None, Error)
    case StringVal =>
      if c == '"' then Advance(CommaOrClose, "", None, ValueTok(CStr(buf, '\0')))
      else if c == '\\' then Advance(StringEscape, buf, None, White)
      else if |buf| < MAX_TOKEN_LEN - 1 then Advance(mode, buf + [c], None, White)
      else Advance(mode, buf, None, Error)
    case CommaOrClose =>
      if c == ',' then Advance(ExpectKey, buf, None, White)
      else if c == '}' then Advance(CommaOrKeyOrClose, buf, None, EndObj)
      else if IsWhitespace(c) then Advance(mode, buf, None, White)
      else Advance(mode, buf, None, Error)
  }

  // ---- structure() in read mode --------------------------------------------

  /** Runs the schema for one value: every item whose key path matches the key stack takes the token. */
  function Apply(fields: seq<Field>, depth: nat, keys: seq<string>, tok: string, longMax: nat): (r: seq<Field>)
    ensures |r| == |fields|
    decreases fields, 1
  {
    if fields == [] then []
    else
      Apply(fields[..|fields| - 1], depth, keys, tok, longMax)
      + [ApplyField(fields[|fields| - 1], depth, keys, tok, longMax)]
  }

  function ApplyField(f: Field, depth: nat, keys: seq<string>, tok: string, longMax: nat): (r: Field)
    ensures r.key == f.key
    decreases f
  {
    if depth < |keys| && keys[depth] == f.key then
      Field(f.key, if f.item.Sub? then Sub(Apply(f.item.fields, depth + 1, keys, tok, longMax))
                   else Assigned(f.item, tok, longMax))
    else f
  }

  function Zeros(n: nat): (s: seq<u8>)
    ensures |s| == n
  {
    if n == 0 then [] else Zeros(n - 1) + [0]
  }

  /** One leaf taking a token: strncpy, fromHex over zeroed bytes, atol or atoi. */
  function Assigned(item: Item, tok: string, longMax: nat): Item
    requires !item.Sub?
  {
    match item
    case Text(_, maxLen) => Text(if |tok| < maxLen then tok else tok[..Max(maxLen - 1, 0)], maxLen)
    case Blob(bytes) => Blob(if |tok| == 2 * |bytes| then UnHex(tok) else Zeros(|bytes|))
    case Int(kind, _) => Int(kind, Narrow(kind, Atol(tok, longMax)))
    case Flag(_) => Flag(tok == "true" || Narrow(I32, Atol(tok, longMax)) != 0)
  }

  // ---- The load loop ---------------------------------------------------------

  datatype Loader = Loader(
    mode: Mode,
    buf: string,
    held: Option<char>,
    keys: seq<string>,
    sp: nat,
    root: seq<Field>)
  {
    predicate Ok() {
      |keys| == MAX_DEPTH && sp < MAX_DEPTH && BufferFits(mode, buf)
    }
  }

  /** Outside a value the buffer holds at most a key. */
  predicate BufferFits(mode: Mode, buf: string) {
    if mode == ValOrObj || mode == StringVal || mode == StringEscape then |buf| < MAX_TOKEN_LEN
    else |buf| < MAX_KEYLEN
  }

  datatype Outcome = Outcome(success: bool, root: seq<Field>)

  datatype Reaction = Stop(result: Outcome) | Continue(next: Loader)

  /** What the load loop does with one token. */
  function React(l: Loader, o: Advance, longMax: nat): (r: Reaction)
    requires l.Ok() && BufferFits(o.mode, o.buf)
    ensures r.Continue? ==> r.next.Ok() && r.next.mode == o.mode && r.next.buf == o.buf && r.next.held == o.held
  {
    var l := l.(mode := o.mode, buf := o.buf, held := o.held);
    match o.tok
    case Error => Stop(Outcome(false, l.root))
    case Eof => Stop(Outcome(l.sp == 0, l.root))
    case White => Continue(l)
    case KeyTok(name) => Continue(l.(keys := l.keys[l.sp := name]))
    case ValueTok(text) => Continue(l.(root := Apply(l.root, 1, l.keys, text, longMax)))
    case StartObj =>
      if l.sp < MAX_DEPTH - 1 then Continue(l.(sp := l.sp + 1)) else Stop(Outcome(false, l.root))
    case EndObj =>
      if l.sp > 0 then Continue(l.(sp := l.sp - 1)) else Stop(Outcome(false, l.root))
  }

  lemma {:induction false} StepFits(mode: Mode, buf: string, c: char)
    requires BufferFits(mode, buf)
    ensures var o := Step(mode, buf, c);
            && BufferFits(o.mode, o.buf)
            && (o.held.Some? ==> mode == ValOrObj && o.mode == CommaOrClose && o.held.value == c)
            && (o.tok.KeyTok? ==> |o.tok.name| < MAX_KEYLEN)
            && (o.tok.ValueTok? ==> |o.tok.text| < MAX_TOKEN_LEN)
  {
  }

  function Run(l: Loader, input: string, longMax: nat): Outcome
    requires l.Ok()
    decreases |input|, l.held.Some?, l.mode == ValOrObj
  {
    if l.held.None? && input == "" then Outcome(l.sp == 0, l.root)
    else
      var c := if l.held.Some? then l.held.value else input[0];
      var rest := if l.held.Some? then input else input[1..];
      StepFits(l.mode, l.buf, c);
      match React(l, Step(l.mode, l.buf, c), longMax)
      case Stop(result) => result
      case Continue(next) => Run(next, rest, longMax)
  }

  /** The parser context. rdBuf keeps the last token; the first rdLen characters are the one being read. */
  class Context {
    const rdBuf: array<char>
    var keys: seq<string>
    var rdLen: nat
    var mode: Mode
    var pending: char
    var input: string

    ghost predicate Valid()
      reads this, rdBuf
    {
      && rdBuf.Length == MAX_TOKEN_LEN && |keys| == MAX_DEPTH && rdLen < MAX_TOKEN_LEN
      && BufferFits(mode, rdBuf[..rdLen])
    }

    ghost function Held(): Option<char>
      reads this
    {
      if pending == '\0' then None else Some(pending)
    }

    constructor (text: string, stack: seq<string>)
      requires |stack| == MAX_DEPTH
      ensures Valid() && fresh(rdBuf)
      ensures keys == stack
      ensures rdLen == 0 && mode == OpenBrace && pending == '\0' && input == text
    {
      rdBuf := new char[MAX_TOKEN_LEN](_ => '\0');
      keys := stack;
      rdLen, mode, pending, input := 0, OpenBrace, '\0', text;
    }

    method ReadNext() returns (tok: Tok)
      requires Valid()
      modifies this, rdBuf
      ensures Valid()
      ensures keys == old(keys)
      ensures old(Held().None? && input == "") ==> tok == Eof && input == "" && unchanged(this)
      ensures !old(Held().None? && input == "") ==>
                var c := if old(Held().Some?) then old(pending) else old(input)[0];
                && input == (if old(Held().Some?) then old(input) else old(input)[1..])
                && Advance(mode, rdBuf[..rdLen], Held(), tok) == Step(old(mode), old(rdBuf[..rdLen]), c)
    {
      var c: char;
      if pending != '\0' {
        c := pending;
        pending := '\0';
      } else {
        if |input| == 0 { return Eof; }
        c := input[0];
        input := input[1..];
      }
      tok := Consume(c);
    }

    /** The switch over the parser's eight modes. */
    method Consume(c: char) returns (tok: Tok)
      requires Valid() && pending == '\0'
      modifies this, rdBuf
      ensures Valid() && input == old(input) && keys == old(keys)
      ensures Advance(mode, rdBuf[..rdLen], Held(), tok) == Step(old(mode), old(rdBuf[..rdLen]), c)
    {
      match mode
      case OpenBrace =>
        if c == '{' { mode := ExpectKey; return StartObj; }
        return if IsWhitespace(c) then White else Error;
      case CommaOrKeyOrClose =>
        if c == '}' { return EndObj; }
        if c == ',' { mode := ExpectKey; return White; }
        tok := ConsumeKey(c);
      case CommaOrKey =>
        if c == ',' { mode := ExpectKey; return White; }
        tok := ConsumeKey(c);
      case ExpectKey =>
        tok := ConsumeKey(c);
      case ValOrObj =>
        if rdLen == 0 && IsWhitespace(c) { return White; }
        if rdLen == 0 && c == '"' { mode := StringVal; return White; }
        if rdLen == 0 && c == '{' { mode := ExpectKey; return StartObj; }
        if IsValueChar(c) && rdLen < MAX_TOKEN_LEN - 1 { Append(c); return White; }
        if rdLen > 0 && (c == ',' || c == '}' || IsWhitespace(c)) {
          pending := c;
          mode := CommaOrClose;
          var text := Finish();
          tok := ValueTok(text);
          return;
        }
        return Error;
      case StringEscape =>
        if rdLen < MAX_TOKEN_LEN - 1 {
          if c == 'n' { Append('\n'); mode := StringVal; return White; }
          if c == 'r' { Append('\r'); mode := StringVal; return White; }
          if c == '"' || c == '\\' || c == '/' { Append(c); mode := StringVal; return White; }
        }
        return Error;
      case StringVal =>
        if c == '"' {
          mode := CommaOrClose;
          var text := Finish();
          tok := ValueTok(text);
          return;
        }
        if c == '\\' { mode := StringEscape; return White; }
        if rdLen < MAX_TOKEN_LEN - 1 { Append(c); return White; }
        return Error;
      case CommaOrClose =>
        if c == ',' { mode := ExpectKey; return White; }
        if c == '}' { mode := CommaOrKeyOrClose; return EndObj; }
        return if IsWhitespace(c) then White else Error;
    }

    method ConsumeKey(c: char) returns (tok: Tok)
      requires Valid() && pending == '\0'
      requires mode == ExpectKey || mode == CommaOrKey || mode == CommaOrKeyOrClose
      modifies this, rdBuf
      ensures Valid() && input == old(input) && keys == old(keys)
      ensures Advance(mode, rdBuf[..rdLen], Held(), tok) == KeyStep(old(mode), old(rdBuf[..rdLen]), c)
    {
      if rdLen == 0 && c == '}' { mode := CommaOrKeyOrClose; return EndObj; }
      if rdLen > 0 && c == ':' {
        mode := ValOrObj;
        var name := Finish();
        tok := KeyTok(name);
        return;
      }
      if rdLen == 0 && IsWhitespace(c) { return White; }
      if rdLen < MAX_KEYLEN - 1 && IsKeyChar(c) { Append(c); return White; }
      return Error;
    }

    method SetKey(depth: nat, key: string)
      requires Valid() && depth < MAX_DEPTH
      modifies this`keys
      ensures Valid() && keys == old(keys)[depth := key]
    {
      keys := keys[depth := key];
    }

    method Append(c: char)
      requires rdBuf.Length == MAX_TOKEN_LEN && rdLen < MAX_TOKEN_LEN - 1
      modifies this`rdLen, rdBuf
      ensures rdLen == old(rdLen) + 1 && rdBuf[..rdLen] == old(rdBuf[..rdLen]) + [c]
    {
      rdBuf[rdLen] := c;
      rdLen := rdLen + 1;
    }

    /** Terminates the token and empties the buffer; what getToken then reads. */
    method Finish() returns (token: string)
      requires rdBuf.Length == MAX_TOKEN_LEN && rdLen < MAX_TOKEN_LEN
      modifies this`rdLen, rdBuf
      ensures rdLen == 0
      ensures token == CStr(old(rdBuf[..rdLen]), '\0')
    {
      ghost var buf := rdBuf[..rdLen];
      rdBuf[rdLen] := '\0';
      CStrStops(rdBuf[..], rdLen);
      assert rdBuf[..][..rdLen] == buf;
      rdLen := 0;
      token := CStr(rdBuf[..], '\0');
    }
  }

  lemma {:induction false} CStrStops(s: string, n: nat)
    requires n < |s| && s[n] == '\0'
    ensures CStr(s, '\0') == CStr(s[..n], '\0')
  {
    if n > 0 && s[0] != '\0' {
      CStrStops(s[1..], n - 1);
      assert s[1..][..n - 1] == s[..n][1..];
    }
  }

  /** The load loop over one stream; stack is whatever the uninitialised key stack holds. */
  method LoadSerial(text: string, root: seq<Field>, longMax: nat, stack: seq<string>)
    returns (success: bool, loaded: seq<Field>)
    requires |stack| == MAX_DEPTH
    ensures Outcome(success, loaded) == Run(Loader(OpenBrace, "", None, stack, 0, root), text, longMax)
  {
    var context := new Context(text, stack);
    var sp := 0;
    loaded := root;
    success := true;
    ghost var l := Loader(OpenBrace, "", None, stack, 0, root);
    ghost var result := Run(l, text, longMax);
    while true
      invariant context.Valid() && fresh(context) && fresh(context.rdBuf)
      invariant l == Loader(context.mode, context.rdBuf[..context.rdLen], context.Held(), context.keys, sp, loaded)
      invariant l.Ok() && result == Run(l, context.input, longMax)
      decreases |context.input|, l.held.Some?, l.mode == ValOrObj
    {
      RunUnfolds(l, context.input, longMax);
      ghost var o := Advance(l.mode, l.buf, l.held, Eof);
      if l.held.Some? || context.input != "" {
        o := Step(l.mode, l.buf, if l.held.Some? then l.held.value else context.input[0]);
      }
      var tok := context.ReadNext();
      var done;
      done, success, sp, loaded := Dispatch(context, tok, sp, loaded, longMax, l, o);
      if done { return; }
      l := l.(mode := o.mode, buf := o.buf, held := o.held, keys := context.keys, sp := sp, root := loaded);
    }
  }

  /** What the loop does with one token. */
  method Dispatch(context: Context, tok: Tok, sp: nat, root: seq<Field>, longMax: nat, ghost l: Loader, ghost o: Advance)
    returns (done: bool, success: bool, sp': nat, root': seq<Field>)
    requires context.Valid() && l.Ok() && BufferFits(o.mode, o.buf)
    requires o.tok == tok && l.keys == context.keys && l.sp == sp && l.root == root
    modifies context`keys
    ensures context.Valid()
    ensures match React(l, o, longMax)
            case Stop(r) => done && r == Outcome(success, root')
            case Continue(next) => !done && next == l.(mode := o.mode, buf := o.buf, held := o.held,
                                                       keys := context.keys, sp := sp', root := root')
  {
    done, success, sp', root' := false, true, sp, root;
    match tok {
      case Error => return true, false, sp, root;
      case Eof => return true, sp == 0, sp, root;
      case White =>
      case KeyTok(name) => context.SetKey(sp, name);
      case ValueTok(value) => root' := Apply(root, 1, context.keys, value, longMax);
      case StartObj =>
        if sp == MAX_DEPTH - 1 { return true, false, sp, root; }
        sp' := sp + 1;
      case EndObj =>
        if sp == 0 { return true, false, sp, root; }
        sp' := sp - 1;
    }
  }

  /** One turn of the loop: end of input, or the reaction to the next character. */
  lemma {:induction false} RunUnfolds(l: Loader, input: string, longMax: nat)
    requires l.Ok()
    ensures l.held == None && input == "" ==> Run(l, input, longMax) == Outcome(l.sp == 0, l.root)
    ensures l.held != None || input != "" ==>
              var c := if l.held.Some? then l.held.value else input[0];
              var rest := if l.held.Some? then input else input[1..];
              var o := Step(l.mode, l.buf, c);
              && BufferFits(o.mode, o.buf)
              && (l.held.Some? && o.held.Some? ==> l.mode == ValOrObj && o.mode == CommaOrClose)
              && match React(l, o, longMax)
                 case Stop(r) => Run(l, input, longMax) == r
                 case Continue(next) => Run(l, input, longMax) == Run(next, rest, longMax)
  {
    if l.held != None || input != "" {
      StepFits(l.mode, l.buf, if l.held.Some? then l.held.value else input[0]);
    }
  }

  /** A character that is neither pushed back nor refused moves the loop on. */
  lemma {:induction false} ReadsOne(l: Loader, c: char, rest: string, longMax: nat)
    requires l.Ok() && l.held == None
    ensures BufferFits(Step(l.mode, l.buf, c).mode, Step(l.mode, l.buf, c).buf)
    ensures var r := React(l, Step(l.mode, l.buf, c), longMax);
            Run(l, [c] + rest, longMax) == if r.Stop? then r.result else Run(r.next, rest, longMax)
  {
    hide Run, React, Step;
    assert ([c] + rest)[0] == c && ([c] + rest)[1..] == rest;
    RunUnfolds(l, [c] + rest, longMax);
  }
}
