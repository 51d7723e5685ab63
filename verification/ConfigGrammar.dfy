/**
 * Which texts load, and what they load: a grammar of lexemes that knows nothing of the parser's
 * modes, and the proof that the load loop accepts its documents and no others.
 */
module ConfigGrammar {
  import opened Words
  import opened Wrappers
  import opened ConfigText
  import opened ConfigLoad
  import opened ConfigRoundTrip

  // ---- Lexemes ---------------------------------------------------------------

  datatype Piece = Plain(c: char) | Escape(c: char)

  // A key is written letter by letter and ends with its colon.
  datatype Lexeme =
    | Space(c: char)
    | Letter(c: char)
    | Colon
    | Comma
    | Open
    | Close
    | Quoted(pieces: seq<Piece>)
    | Bare(text: string)

  // What the text breaks off in.
  datatype Part = NoPart | InQuote(pieces: seq<Piece>, escape: bool) | InBare(text: string)

  predicate PieceOk(p: Piece) {
    if p.Plain? then p.c != '"' && p.c != '\\' else p.c in {'n', 'r', '"', '\\', '/'}
  }

  predicate PiecesOk(ps: seq<Piece>) {
    |ps| <= 127 && forall i :: 0 <= i < |ps| ==> PieceOk(ps[i])
  }

  predicate BareOk(text: string) {
    1 <= |text| <= 127 && forall i :: 0 <= i < |text| ==> IsValueChar(text[i])
  }

  function PiecesText(ps: seq<Piece>): string {
    if ps == [] then ""
    else
      var p := ps[|ps| - 1];
      PiecesText(ps[..|ps| - 1]) + if p.Plain? then [p.c] else ['\\', p.c]
  }

  function PieceChar(p: Piece): char {
    if p == Escape('n') then '\n' else if p == Escape('r') then '\r' else p.c
  }

  /** The string that is quoted. */
  function Unquoted(ps: seq<Piece>): (s: string)
    ensures |s| == |ps|
  {
    if ps == [] then "" else Unquoted(ps[..|ps| - 1]) + [PieceChar(ps[|ps| - 1])]
  }

  function TextOf(x: Lexeme): string {
    match x
    case Space(c) => [c]
    case Letter(c) => [c]
    case Colon => ":"
    case Comma => ","
    case Open => "{"
    case Close => "}"
    case Quoted(ps) => "\"" + PiecesText(ps) + "\""
    case Bare(text) => text
  }

  function Text(ls: seq<Lexeme>): string {
    if ls == [] then "" else Text(ls[..|ls| - 1]) + TextOf(ls[|ls| - 1])
  }

  function PartText(part: Part): string {
    match part
    case NoPart => ""
    case InQuote(ps, escape) => "\"" + PiecesText(ps) + if escape then "\\" else ""
    case InBare(text) => text
  }

  // ---- The grammar -------------------------------------------------------------

  /** Open braces. */
  function Level(ls: seq<Lexeme>): int {
    if ls == [] then 0
    else
      var x := ls[|ls| - 1];
      Level(ls[..|ls| - 1]) + if x.Open? then 1 else if x.Close? then -1 else 0
  }

  /** The letters since the last colon. */
  function Name(ls: seq<Lexeme>): string {
    if ls == [] || ls[|ls| - 1].Colon? then ""
    else
      var x := ls[|ls| - 1];
      Name(ls[..|ls| - 1]) + if x.Letter? then [x.c] else ""
  }

  /** The last lexeme that is no space or letter. */
  function Mark(ls: seq<Lexeme>): Option<Lexeme> {
    if ls == [] then None
    else if ls[|ls| - 1].Space? || ls[|ls| - 1].Letter? then Mark(ls[..|ls| - 1])
    else Some(ls[|ls| - 1])
  }

  predicate IsValue(m: Option<Lexeme>) {
    m.Some? && (m.value.Quoted? || m.value.Bare?)
  }

  /**
   * What may come next: a brace that opens the text or a value, up to seven deep; a key of up to 15 letters
   * after a brace or a comma; a value after a colon; a comma after a value or an object; a closing
   * brace there too, or with no key begun; space anywhere but inside a key.
   */
  predicate MayFollow(ls: seq<Lexeme>, x: Lexeme) {
    var m, name := Mark(ls), Name(ls);
    match x
    case Space(c) => IsWhitespace(c) && name == ""
    case Open => (m == None || m == Some(Colon)) && Level(ls) < 7
    case Letter(c) => IsKeyChar(c) && |name| < 15 && (m == Some(Open) || m == Some(Comma) || m == Some(Close))
    case Colon => name != ""
    case Quoted(ps) => m == Some(Colon) && PiecesOk(ps)
    case Bare(text) => m == Some(Colon) && BareOk(text)
    case Comma => m == Some(Close) || IsValue(m)
    case Close =>
      0 < Level(ls) && (m == Some(Close) || IsValue(m) || ((m == Some(Open) || m == Some(Comma)) && name == ""))
  }

  predicate Grammatical(ls: seq<Lexeme>) {
    ls == [] || (Grammatical(ls[..|ls| - 1]) && MayFollow(ls[..|ls| - 1], ls[|ls| - 1]))
  }

  predicate PartOk(ls: seq<Lexeme>, part: Part) {
    match part
    case NoPart => true
    case InQuote(ps, _) => Mark(ls) == Some(Colon) && PiecesOk(ps)
    case InBare(text) => Mark(ls) == Some(Colon) && BareOk(text)
  }

  /** A text in lexemes with every brace closed; it may break off in a value then. */
  predicate Document(ls: seq<Lexeme>, part: Part, text: string) {
    && Grammatical(ls) && PartOk(ls, part) && Level(ls) == 0
    && (ls != [] ==> !ls[|ls| - 1].Bare?)
    && text == Text(ls) + PartText(part)
  }

  // ---- What it means -------------------------------------------------------------

  datatype Meaning = Meaning(keys: seq<string>, root: seq<Field>)

  /** A colon names the key at its level; a value is taken by every field that the names lead to. */
  function MeaningOf(ls: seq<Lexeme>, stack: seq<string>, root: seq<Field>, longMax: nat): (r: Meaning)
    ensures |r.keys| == |stack|
  {
    if ls == [] then Meaning(stack, root)
    else
      var front, x := ls[..|ls| - 1], ls[|ls| - 1];
      var r := MeaningOf(front, stack, root, longMax);
      match x
      case Colon => if 0 <= Level(front) < |stack| then r.(keys := r.keys[Level(front) := Name(front)]) else r
      case Quoted(ps) => r.(root := Apply(r.root, 1, r.keys, CStr(Unquoted(ps), '\0'), longMax))
      case Bare(text) => r.(root := Apply(r.root, 1, r.keys, text, longMax))
      case _ => r
  }

  // ---- The parser after a prefix -----------------------------------------------------

  function ModeAfter(m: Option<Lexeme>): Mode {
    if m == None then OpenBrace
    else if m.value.Close? then CommaOrKeyOrClose
    else if m.value.Colon? then ValOrObj
    else if IsValue(m) then CommaOrClose
    else ExpectKey
  }

  function StateAfter(ls: seq<Lexeme>, stack: seq<string>, root: seq<Field>, longMax: nat): Loader {
    var r := MeaningOf(ls, stack, root, longMax);
    Loader(ModeAfter(Mark(ls)), Name(ls), None, r.keys, Max(Level(ls), 0), r.root)
  }

  /** Grammatical text stays within the parser's limits. */
  lemma {:induction false} Fits(ls: seq<Lexeme>)
    requires Grammatical(ls)
    ensures 0 <= Level(ls) <= 7 && |Name(ls)| <= 15
    ensures Name(ls) != "" ==> Mark(ls) == Some(Open) || Mark(ls) == Some(Comma) || Mark(ls) == Some(Close)
    ensures forall i :: 0 <= i < |Name(ls)| ==> IsKeyChar(Name(ls)[i])
  {
    if ls != [] {
      Fits(ls[..|ls| - 1]);
    }
  }

  lemma {:induction false} StateIsOk(ls: seq<Lexeme>, stack: seq<string>, root: seq<Field>, longMax: nat)
    requires Grammatical(ls) && |stack| == MAX_DEPTH
    ensures StateAfter(ls, stack, root, longMax).Ok() && StateAfter(ls, stack, root, longMax).sp == Level(ls)
  {
    Fits(ls);
  }

  lemma {:induction false} Unfolds(ls: seq<Lexeme>, x: Lexeme, stack: seq<string>, root: seq<Field>, longMax: nat)
    ensures (ls + [x])[..|ls| + 1 - 1] == ls && (ls + [x])[|ls|] == x && Text(ls + [x]) == Text(ls) + TextOf(x)
    ensures Grammatical(ls + [x]) <==> Grammatical(ls) && MayFollow(ls, x)
    ensures Mark(ls + [x]) == if x.Space? || x.Letter? then Mark(ls) else Some(x)
    ensures Name(ls + [x]) == if x.Colon? then "" else Name(ls) + if x.Letter? then [x.c] else ""
    ensures Level(ls + [x]) == Level(ls) + if x.Open? then 1 else if x.Close? then -1 else 0
    ensures var r := MeaningOf(ls, stack, root, longMax);
            MeaningOf(ls + [x], stack, root, longMax) ==
            match x
            case Colon => if 0 <= Level(ls) < |stack| then r.(keys := r.keys[Level(ls) := Name(ls)]) else r
            case Quoted(ps) => r.(root := Apply(r.root, 1, r.keys, CStr(Unquoted(ps), '\0'), longMax))
            case Bare(text) => r.(root := Apply(r.root, 1, r.keys, text, longMax))
            case _ => r
  {
    hide MayFollow, TextOf, Apply, Unquoted;
    assert (ls + [x])[..|ls|] == ls;
  }

  lemma {:induction false} NamesHaveNoNul(s: string)
    requires forall i :: 0 <= i < |s| ==> IsKeyChar(s[i]) || IsValueChar(s[i])
    ensures '\0' !in s && CStr(s, '\0') == s
  {
  }

  /** What one character does to the loop, short of a value's. */
  lemma {:induction false} SignSteps(m: Option<Lexeme>, l: Loader, x: Lexeme, longMax: nat)
    requires l.Ok() && l.held == None && l.mode == ModeAfter(m) && !x.Quoted? && !x.Bare? && '\0' !in l.buf
    requires l.buf != "" ==> m == Some(Open) || m == Some(Comma) || m == Some(Close)
    requires match x
             case Space(c) => IsWhitespace(c) && l.buf == ""
             case Open => (m == None || m == Some(Colon)) && l.sp < 7
             case Letter(c) => IsKeyChar(c) && |l.buf| < 15 && (m == Some(Open) || m == Some(Comma) || m == Some(Close))
             case Colon => l.buf != ""
             case Comma => m == Some(Close) || IsValue(m)
             case Close => 0 < l.sp && (m == Some(Close) || IsValue(m) || ((m == Some(Open) || m == Some(Comma)) && l.buf == ""))
    ensures BufferFits(Step(l.mode, l.buf, TextOf(x)[0]).mode, Step(l.mode, l.buf, TextOf(x)[0]).buf)
    ensures React(l, Step(l.mode, l.buf, TextOf(x)[0]), longMax) == Continue(
              match x
              case Space(_) => l
              case Letter(c) => l.(buf := l.buf + [c])
              case Open => l.(mode := ExpectKey, sp := l.sp + 1)
              case Close => l.(mode := CommaOrKeyOrClose, sp := l.sp - 1)
              case Comma => l.(mode := ExpectKey)
              case Colon => l.(mode := ValOrObj, buf := "", keys := l.keys[l.sp := l.buf]))
  {
    hide Apply;
  }

  /** Any single character that may follow leads the loop to the state after it. */
  lemma {:induction false} ReadsSign(ls: seq<Lexeme>, x: Lexeme, rest: string, stack: seq<string>, root: seq<Field>, longMax: nat)
    requires Grammatical(ls) && MayFollow(ls, x) && |stack| == MAX_DEPTH && !x.Quoted? && !x.Bare?
    ensures Grammatical(ls + [x]) && StateAfter(ls, stack, root, longMax).Ok() && StateAfter(ls + [x], stack, root, longMax).Ok()
    ensures Run(StateAfter(ls, stack, root, longMax), TextOf(x) + rest, longMax)
         == Run(StateAfter(ls + [x], stack, root, longMax), rest, longMax)
  {
    hide Run, Grammatical, MeaningOf, Name, Mark, Level, Apply, Step, React;
    var l := StateAfter(ls, stack, root, longMax);
    Fits(ls);
    Unfolds(ls, x, stack, root, longMax);
    StateIsOk(ls, stack, root, longMax);
    StateIsOk(ls + [x], stack, root, longMax);
    NamesHaveNoNul(Name(ls));
    assert TextOf(x) == [TextOf(x)[0]] && Name(ls) + "" == Name(ls);
    SignSteps(Mark(ls), l, x, longMax);
    ReadsOne(l, TextOf(x)[0], rest, longMax);
  }

  lemma {:induction false} ReadsPiece(l: Loader, p: Piece, rest: string, longMax: nat)
    requires l.Ok() && l.mode == StringVal && l.held == None && |l.buf| < 127 && PieceOk(p)
    ensures Run(l, PiecesText([p]) + rest, longMax) == Run(l.(buf := l.buf + [PieceChar(p)]), rest, longMax)
  {
    hide Run;
    assert [p][..0] == [];
    if p.Plain? {
      assert PiecesText([p]) == [p.c];
      ReadsOne(l, p.c, rest, longMax);
    } else {
      assert PiecesText([p]) + rest == ['\\'] + ([p.c] + rest);
      ReadsOne(l, '\\', [p.c] + rest, longMax);
      ReadsOne(l.(mode := StringEscape), p.c, rest, longMax);
    }
  }

  lemma {:induction false} PiecesAppend(ps: seq<Piece>, p: Piece)
    ensures PiecesText(ps + [p]) == PiecesText(ps) + PiecesText([p])
    ensures Unquoted(ps + [p]) == Unquoted(ps) + [PieceChar(p)]
  {
    assert (ps + [p])[..|ps|] == ps && [p][..0] == [];
  }

  lemma {:induction false} ReadsPieces(l: Loader, ps: seq<Piece>, rest: string, longMax: nat)
    requires l.Ok() && l.mode == StringVal && l.held == None && |l.buf| + |ps| <= 127
    requires forall i :: 0 <= i < |ps| ==> PieceOk(ps[i])
    ensures Run(l, PiecesText(ps) + rest, longMax) == Run(l.(buf := l.buf + Unquoted(ps)), rest, longMax)
  {
    hide Run, PieceOk, PieceChar;
    if ps == [] {
      assert PiecesText(ps) + rest == rest && l.buf + Unquoted(ps) == l.buf;
    } else {
      hide PiecesText, Unquoted;
      var front, p := ps[..|ps| - 1], ps[|ps| - 1];
      assert front + [p] == ps;
      PiecesAppend(front, p);
      Regrouped(PiecesText(front), PiecesText([p]), rest);
      ReadsPieces(l, front, PiecesText([p]) + rest, longMax);
      ReadsPiece(l.(buf := l.buf + Unquoted(front)), p, rest, longMax);
      Regrouped(l.buf, Unquoted(front), [PieceChar(p)]);
    }
  }

  lemma {:induction false} Regrouped(a: string, b: string, c: string)
    ensures a + b + c == a + (b + c)
  {
  }

  /** After a colon: a quoted string, to where the text breaks off. */
  lemma {:induction false} ReadsOpenQuote(l: Loader, ps: seq<Piece>, rest: string, longMax: nat)
    requires AtValue(l) && PiecesOk(ps)
    ensures l.(mode := StringVal, buf := Unquoted(ps)).Ok()
    ensures Run(l, "\"" + PiecesText(ps) + rest, longMax) == Run(l.(mode := StringVal, buf := Unquoted(ps)), rest, longMax)
  {
    hide Run, PiecesText, Unquoted, PieceOk, Apply;
    assert "" + Unquoted(ps) == Unquoted(ps);
    Regrouped("\"", PiecesText(ps), rest);
    ReadsOne(l, '"', PiecesText(ps) + rest, longMax);
    ReadsPieces(l.(mode := StringVal), ps, rest, longMax);
  }

  /** ... or to its end. */
  lemma {:induction false} ReadsQuote(l: Loader, ps: seq<Piece>, rest: string, longMax: nat)
    requires AtValue(l) && PiecesOk(ps)
    ensures Taken(l, CStr(Unquoted(ps), '\0'), longMax).Ok()
    ensures Run(l, "\"" + PiecesText(ps) + "\"" + rest, longMax) == Run(Taken(l, CStr(Unquoted(ps), '\0'), longMax), rest, longMax)
  {
    hide Run, PiecesText, PiecesOk, Apply;
    Regrouped("\"" + PiecesText(ps), "\"", rest);
    ReadsOpenQuote(l, ps, "\"" + rest, longMax);
    EndsQuote(l, Unquoted(ps), rest, longMax);
  }

  lemma {:induction false} EndsQuote(l: Loader, text: string, rest: string, longMax: nat)
    requires AtValue(l) && l.(mode := StringVal, buf := text).Ok()
    ensures Taken(l, CStr(text, '\0'), longMax).Ok()
    ensures Run(l.(mode := StringVal, buf := text), "\"" + rest, longMax) == Run(Taken(l, CStr(text, '\0'), longMax), rest, longMax)
  {
    hide Run, Apply, CStr;
    ReadsOne(l.(mode := StringVal, buf := text), '"', rest, longMax);
  }

  predicate EndsBare(rest: string) {
    rest != "" && (rest[0] == ',' || rest[0] == '}' || IsWhitespace(rest[0]))
  }

  /** A character pushed back is read next. */
  lemma {:induction false} HeldIsNext(l: Loader, c: char, rest: string, longMax: nat)
    requires l.Ok() && l.held == None && l.mode == CommaOrClose
    ensures l.(held := Some(c)).Ok() && Run(l.(held := Some(c)), rest, longMax) == Run(l, [c] + rest, longMax)
  {
    hide Run, Apply;
    ReadsOne(l, c, rest, longMax);
    RunUnfolds(l.(held := Some(c)), rest, longMax);
  }

  /** After a colon: a bare value and what ends it. */
  lemma {:induction false} ReadsBare(l: Loader, text: string, rest: string, longMax: nat)
    requires AtValue(l) && BareOk(text) && EndsBare(rest)
    ensures Taken(l, text, longMax).Ok()
    ensures Run(l, text + rest, longMax) == Run(Taken(l, text, longMax), rest, longMax)
  {
    hide Run, Apply;
    ReadsBareValue(l, text, rest, longMax);
    assert "" + text == text && [rest[0]] + rest[1..] == rest;
    NamesHaveNoNul(text);
    ReadsDelimiter(l.(buf := text), rest[0], rest[1..], longMax);
    HeldIsNext(Taken(l, text, longMax), rest[0], rest[1..], longMax);
  }

  lemma {:induction false} ReadsDelimiter(l: Loader, c: char, rest: string, longMax: nat)
    requires l.Ok() && l.mode == ValOrObj && l.held == None && l.buf != "" && CStr(l.buf, '\0') == l.buf
    requires EndsBare([c])
    ensures Taken(l.(buf := ""), l.buf, longMax).(held := Some(c)).Ok()
    ensures Run(l, [c] + rest, longMax) == Run(Taken(l.(buf := ""), l.buf, longMax).(held := Some(c)), rest, longMax)
  {
    hide Run, Apply;
    ReadsOne(l, c, rest, longMax);
  }

  lemma {:induction false} ReadsLexeme(ls: seq<Lexeme>, x: Lexeme, rest: string, stack: seq<string>, root: seq<Field>, longMax: nat)
    requires Grammatical(ls) && MayFollow(ls, x) && |stack| == MAX_DEPTH && (x.Bare? ==> EndsBare(rest))
    ensures Grammatical(ls + [x]) && StateAfter(ls, stack, root, longMax).Ok() && StateAfter(ls + [x], stack, root, longMax).Ok()
    ensures Run(StateAfter(ls, stack, root, longMax), TextOf(x) + rest, longMax)
         == Run(StateAfter(ls + [x], stack, root, longMax), rest, longMax)
  {
    hide Run, Grammatical, MeaningOf, Name, Mark, Level, Apply, BareOk, PiecesOk, EndsBare, Unquoted, PiecesText, CStr;
    if !x.Quoted? && !x.Bare? {
      ReadsSign(ls, x, rest, stack, root, longMax);
    } else {
      var l := StateAfter(ls, stack, root, longMax);
      Fits(ls);
      Unfolds(ls, x, stack, root, longMax);
      StateIsOk(ls, stack, root, longMax);
      StateIsOk(ls + [x], stack, root, longMax);
      if x.Quoted? {
        ReadsQuote(l, x.pieces, rest, longMax);
      } else {
        ReadsBare(l, x.text, rest, longMax);
      }
    }
  }

  /** What may follow a bare value ends it. */
  lemma {:induction false} FollowsBare(ls: seq<Lexeme>, x: Lexeme, rest: string)
    requires ls != [] && ls[|ls| - 1].Bare? && MayFollow(ls, x) && Grammatical(ls)
    ensures EndsBare(TextOf(x) + rest)
  {
    Fits(ls);
    assert Mark(ls) == Some(ls[|ls| - 1]);
  }

  /** Grammatical text, whatever comes after it, leads the loop to the state after it. */
  lemma {:induction false} ReadsAll(ls: seq<Lexeme>, rest: string, stack: seq<string>, root: seq<Field>, longMax: nat)
    requires Grammatical(ls) && |stack| == MAX_DEPTH && (ls != [] && ls[|ls| - 1].Bare? ==> EndsBare(rest))
    ensures StateAfter(ls, stack, root, longMax).Ok()
    ensures Run(Loader(OpenBrace, "", None, stack, 0, root), Text(ls) + rest, longMax)
         == Run(StateAfter(ls, stack, root, longMax), rest, longMax)
  {
    hide Run, MayFollow, EndsBare, TextOf, StateAfter;
    if ls == [] {
      assert Text(ls) + rest == rest;
      StartsOpen(stack, root, longMax);
    } else {
      var front, x := ls[..|ls| - 1], ls[|ls| - 1];
      assert front + [x] == ls;
      if front != [] && front[|front| - 1].Bare? { FollowsBare(front, x, rest); }
      Regrouped(Text(front), TextOf(x), rest);
      ReadsAll(front, TextOf(x) + rest, stack, root, longMax);
      ReadsLexeme(front, x, rest, stack, root, longMax);
    }
  }

  lemma {:induction false} StartsOpen(stack: seq<string>, root: seq<Field>, longMax: nat)
    ensures StateAfter([], stack, root, longMax) == Loader(OpenBrace, "", None, stack, 0, root)
  {
  }

  // ---- Texts that break off ------------------------------------------------------------

  function PartState(ls: seq<Lexeme>, part: Part, stack: seq<string>, root: seq<Field>, longMax: nat): Loader {
    var l := StateAfter(ls, stack, root, longMax);
    match part
    case NoPart => l
    case InQuote(ps, escape) => l.(mode := if escape then StringEscape else StringVal, buf := Unquoted(ps))
    case InBare(text) => l.(buf := text)
  }

  lemma {:induction false} AfterColon(ls: seq<Lexeme>, part: Part, stack: seq<string>, root: seq<Field>, longMax: nat)
    requires Grammatical(ls) && PartOk(ls, part) && |stack| == MAX_DEPTH
    ensures StateAfter(ls, stack, root, longMax).Ok() && PartState(ls, part, stack, root, longMax).Ok()
    ensures part != NoPart ==> AtValue(StateAfter(ls, stack, root, longMax)) && Name(ls) == ""
  {
    Fits(ls);
    StateIsOk(ls, stack, root, longMax);
  }

  lemma {:induction false} ReadsPart(ls: seq<Lexeme>, part: Part, rest: string, stack: seq<string>, root: seq<Field>, longMax: nat)
    requires Grammatical(ls) && PartOk(ls, part) && |stack| == MAX_DEPTH
    ensures StateAfter(ls, stack, root, longMax).Ok() && PartState(ls, part, stack, root, longMax).Ok()
    ensures Run(StateAfter(ls, stack, root, longMax), PartText(part) + rest, longMax)
         == Run(PartState(ls, part, stack, root, longMax), rest, longMax)
  {
    hide Run, Grammatical, Unquoted, PiecesText, StateAfter, PieceOk, Apply;
    AfterColon(ls, part, stack, root, longMax);
    var l := StateAfter(ls, stack, root, longMax);
    match part
    case NoPart =>
      assert PartText(part) + rest == rest;
    case InQuote(ps, escape) =>
      if escape {
        Regrouped("\"" + PiecesText(ps), "\\", rest);
        ReadsOpenQuote(l, ps, "\\" + rest, longMax);
        ReadsOne(l.(mode := StringVal, buf := Unquoted(ps)), '\\', rest, longMax);
      } else {
        assert "\"" + PiecesText(ps) + "" == "\"" + PiecesText(ps);
        ReadsOpenQuote(l, ps, rest, longMax);
      }
    case InBare(text) =>
      assert "" + text == text;
      ReadsBareValue(l, text, rest, longMax);
  }

  /** A document loads, and what it loads is what it means. */
  lemma {:induction false} DocumentLoads(ls: seq<Lexeme>, part: Part, text: string, stack: seq<string>, root: seq<Field>, longMax: nat)
    requires Document(ls, part, text) && |stack| == MAX_DEPTH
    ensures Run(Loader(OpenBrace, "", None, stack, 0, root), text, longMax)
         == Outcome(true, MeaningOf(ls, stack, root, longMax).root)
  {
    hide Run, Grammatical, PartOk, MeaningOf, PartText, Text;
    ReadsAll(ls, PartText(part), stack, root, longMax);
    ReadsPart(ls, part, "", stack, root, longMax);
    assert PartText(part) + "" == PartText(part);
    RunUnfolds(PartState(ls, part, stack, root, longMax), "", longMax);
  }

  // ---- Nothing else loads ------------------------------------------------------------------

  /** The lexeme that a character is, outside values. */
  function SignOf(c: char): Lexeme {
    if c == '{' then Open
    else if c == '}' then Close
    else if c == ',' then Comma
    else if c == ':' then Colon
    else if IsWhitespace(c) then Space(c)
    else Letter(c)
  }

  lemma {:induction false} RefusedSign(m: Option<Lexeme>, l: Loader, c: char, longMax: nat)
    requires l.Ok() && l.held == None && l.mode == ModeAfter(m) && m != Some(Colon) && (m.Some? ==> !m.value.Space? && !m.value.Letter?)
    requires l.buf != "" ==> m == Some(Open) || m == Some(Comma) || m == Some(Close)
    requires match SignOf(c)
             case Space(_) => l.buf != ""
             case Open => !(m == None && l.sp < 7)
             case Letter(_) => !(IsKeyChar(c) && |l.buf| < 15 && (m == Some(Open) || m == Some(Comma) || m == Some(Close)))
             case Colon => l.buf == ""
             case Comma => !(m == Some(Close) || IsValue(m))
             case Close => !(0 < l.sp && (m == Some(Close) || IsValue(m) || ((m == Some(Open) || m == Some(Comma)) && l.buf == "")))
    ensures BufferFits(Step(l.mode, l.buf, c).mode, Step(l.mode, l.buf, c).buf)
    ensures React(l, Step(l.mode, l.buf, c), longMax) == Stop(Outcome(false, l.root))
  {
    hide Apply;
  }

  /** Outside values the loop goes on only with what may follow. */
  lemma {:induction false} AcceptsSign(ls: seq<Lexeme>, c: char, rest: string, stack: seq<string>, root: seq<Field>, longMax: nat)
    requires Grammatical(ls) && |stack| == MAX_DEPTH && Mark(ls) != Some(Colon)
    ensures StateAfter(ls, stack, root, longMax).Ok()
    ensures Run(StateAfter(ls, stack, root, longMax), [c] + rest, longMax).success ==> MayFollow(ls, SignOf(c))
  {
    hide Run, Grammatical, MeaningOf, Name, Mark, Level, Apply, Step, React;
    var l := StateAfter(ls, stack, root, longMax);
    Fits(ls);
    MarkIsMark(ls);
    StateIsOk(ls, stack, root, longMax);
    if !MayFollow(ls, SignOf(c)) {
      RefusedSign(Mark(ls), l, c, longMax);
      ReadsOne(l, c, rest, longMax);
    }
  }

  lemma {:induction false} MarkIsMark(ls: seq<Lexeme>)
    ensures Mark(ls).Some? ==> !Mark(ls).value.Space? && !Mark(ls).value.Letter?
  {
    if ls != [] { MarkIsMark(ls[..|ls| - 1]); }
  }

  predicate Parsed(ls: seq<Lexeme>, part: Part) {
    Grammatical(ls) && PartOk(ls, part) && (ls != [] ==> !ls[|ls| - 1].Bare?)
  }

  /** One character on, with the loop's answer unchanged. */
  ghost predicate OneOn(ls: seq<Lexeme>, part: Part, c: char, rest: string, ls': seq<Lexeme>, part': Part,
                        stack: seq<string>, root: seq<Field>, longMax: nat)
  {
    && Parsed(ls', part') && Text(ls') + PartText(part') == Text(ls) + PartText(part) + [c]
    && PartState(ls, part, stack, root, longMax).Ok() && PartState(ls', part', stack, root, longMax).Ok()
    && Run(PartState(ls, part, stack, root, longMax), [c] + rest, longMax) == Run(PartState(ls', part', stack, root, longMax), rest, longMax)
  }

  lemma {:induction false} SignGoesOn(ls: seq<Lexeme>, c: char, rest: string, stack: seq<string>, root: seq<Field>, longMax: nat)
    requires Grammatical(ls) && |stack| == MAX_DEPTH && MayFollow(ls, SignOf(c))
    ensures OneOn(ls, NoPart, c, rest, ls + [SignOf(c)], NoPart, stack, root, longMax)
  {
    hide Run, StateAfter, Text, Grammatical, MayFollow;
    ReadsSign(ls, SignOf(c), rest, stack, root, longMax);
    SignText(ls, c);
    assert TextOf(SignOf(c)) == [c];
  }

  lemma {:induction false} SignText(ls: seq<Lexeme>, c: char)
    ensures Text(ls + [SignOf(c)]) + "" == Text(ls) + "" + [c]
  {
    assert (ls + [SignOf(c)])[..|ls|] == ls;
  }

  /** After a colon. */
  lemma {:induction false} ValueGoesOn(ls: seq<Lexeme>, c: char, rest: string, stack: seq<string>, root: seq<Field>, longMax: nat)
    returns (ls': seq<Lexeme>, part': Part)
    requires Grammatical(ls) && |stack| == MAX_DEPTH && Mark(ls) == Some(Colon)
    requires StateAfter(ls, stack, root, longMax).Ok() && Run(StateAfter(ls, stack, root, longMax), [c] + rest, longMax).success
    ensures OneOn(ls, NoPart, c, rest, ls', part', stack, root, longMax)
  {
    hide Run, Text, Grammatical, Mark, Name, Level, MeaningOf, Apply, Step, React;
    var l := StateAfter(ls, stack, root, longMax);
    Fits(ls);
    ReadsOne(l, c, rest, longMax);
    ValueSteps(l, c, longMax);
    ls', part' := ls, NoPart;
    assert [c] + "" == [c] && Text(ls) + "" == Text(ls) && [c][..0] == "";
    LastIsNotBare(ls);
    if IsWhitespace(c) || c == '{' {
      ls' := ls + [SignOf(c)];
      SignGoesOn(ls, c, rest, stack, root, longMax);
    } else if c == '"' {
      part' := InQuote([], false);
      assert PartText(part') == [c];
    } else {
      part' := InBare([c]);
    }
  }

  lemma {:induction false} LastIsNotBare(ls: seq<Lexeme>)
    requires Mark(ls) == Some(Colon)
    ensures ls != [] && !ls[|ls| - 1].Bare?
  {
  }

  lemma {:induction false} ValueSteps(l: Loader, c: char, longMax: nat)
    requires AtValue(l)
    ensures BufferFits(Step(l.mode, l.buf, c).mode, Step(l.mode, l.buf, c).buf)
    ensures var r := React(l, Step(l.mode, l.buf, c), longMax);
            if IsWhitespace(c) then r == Continue(l)
            else if c == '{' then l.sp < 7 || r == Stop(Outcome(false, l.root))
            else if c == '"' then r == Continue(l.(mode := StringVal))
            else if IsValueChar(c) then r == Continue(l.(buf := [c]))
            else r == Stop(Outcome(false, l.root))
  {
    hide Apply;
  }

  /** Inside quotes. */
  lemma {:induction false} QuoteGoesOn(ls: seq<Lexeme>, part: Part, c: char, rest: string, stack: seq<string>, root: seq<Field>, longMax: nat)
    returns (ls': seq<Lexeme>, part': Part)
    requires Parsed(ls, part) && part.InQuote? && |stack| == MAX_DEPTH && PartState(ls, part, stack, root, longMax).Ok()
    requires Run(PartState(ls, part, stack, root, longMax), [c] + rest, longMax).success
    ensures OneOn(ls, part, c, rest, ls', part', stack, root, longMax)
  {
    hide Run, Text, Grammatical, Mark, StateAfter, Apply, Step, React, Unquoted, PiecesText, PieceOk;
    var l, ps := StateAfter(ls, stack, root, longMax), part.pieces;
    AfterColon(ls, part, stack, root, longMax);
    ReadsOne(PartState(ls, part, stack, root, longMax), c, rest, longMax);
    QuoteSteps(l, Unquoted(ps), part.escape, c, longMax);
    ls', part' := ls, part;
    if !part.escape && c == '"' {
      ls', part' := ls + [Quoted(ps)], NoPart;
      QuotedLexeme(ls, ps, stack, root, longMax);
    } else if !part.escape && c == '\\' {
      part' := InQuote(ps, true);
      QuoteText(ls, ps);
    } else {
      var p := if part.escape then Escape(c) else Plain(c);
      part' := InQuote(ps + [p], false);
      PieceIsOk(ps, p);
      AfterColon(ls, part', stack, root, longMax);
      PieceText(ls, ps, p);
    }
  }

  lemma {:induction false} QuotedLexeme(ls: seq<Lexeme>, ps: seq<Piece>, stack: seq<string>, root: seq<Field>, longMax: nat)
    requires Grammatical(ls) && PartOk(ls, InQuote(ps, false)) && |stack| == MAX_DEPTH
    ensures Parsed(ls + [Quoted(ps)], NoPart) && StateAfter(ls + [Quoted(ps)], stack, root, longMax).Ok()
    ensures StateAfter(ls + [Quoted(ps)], stack, root, longMax) == Taken(StateAfter(ls, stack, root, longMax), CStr(Unquoted(ps), '\0'), longMax)
    ensures Text(ls + [Quoted(ps)]) + "" == Text(ls) + PartText(InQuote(ps, false)) + ['"']
  {
    hide Mark, Name, Level, MeaningOf, Text, Grammatical, Apply, Unquoted, PiecesText, PiecesOk, CStr;
    Fits(ls);
    Unfolds(ls, Quoted(ps), stack, root, longMax);
    StateIsOk(ls + [Quoted(ps)], stack, root, longMax);
    assert Name(ls) + "" == Name(ls);
  }

  lemma {:induction false} QuoteText(ls: seq<Lexeme>, ps: seq<Piece>)
    ensures Text(ls) + PartText(InQuote(ps, true)) == Text(ls) + PartText(InQuote(ps, false)) + ['\\']
  {
    hide Text, PiecesText;
  }

  lemma {:induction false} PieceIsOk(ps: seq<Piece>, p: Piece)
    requires PiecesOk(ps) && PieceOk(p) && |ps| < 127
    ensures PiecesOk(ps + [p])
  {
    hide PieceOk;
  }

  lemma {:induction false} PieceText(ls: seq<Lexeme>, ps: seq<Piece>, p: Piece)
    ensures Text(ls) + PartText(InQuote(ps + [p], false)) == Text(ls) + PartText(InQuote(ps, p.Escape?)) + [p.c]
    ensures Unquoted(ps + [p]) == Unquoted(ps) + [PieceChar(p)]
  {
    hide Text;
    PiecesAppend(ps, p);
    hide PiecesText;
    PieceAlone(p);
  }

  lemma {:induction false} PieceAlone(p: Piece)
    ensures PiecesText([p]) == if p.Plain? then [p.c] else ['\\', p.c]
  {
    assert [p][..0] == [];
  }

  lemma {:induction false} QuoteSteps(l: Loader, text: string, escape: bool, c: char, longMax: nat)
    requires AtValue(l) && |text| <= 127
    ensures var q := l.(mode := if escape then StringEscape else StringVal, buf := text);
            && BufferFits(Step(q.mode, q.buf, c).mode, Step(q.mode, q.buf, c).buf)
            && var r := React(q, Step(q.mode, q.buf, c), longMax);
               var p := if escape then Escape(c) else Plain(c);
               if !escape && c == '"' then r == Continue(Taken(l, CStr(text, '\0'), longMax))
               else if !escape && c == '\\' then r == Continue(l.(mode := StringEscape, buf := text))
               else if PieceOk(p) && |text| < 127 then r == Continue(l.(mode := StringVal, buf := text + [PieceChar(p)]))
               else r == Stop(Outcome(false, l.root))
  {
    hide Apply;
  }

  /** Inside a bare value, or at its end. */
  lemma {:induction false} BareGoesOn(ls: seq<Lexeme>, part: Part, c: char, rest: string, stack: seq<string>, root: seq<Field>, longMax: nat)
    returns (ls': seq<Lexeme>, part': Part)
    requires Parsed(ls, part) && part.InBare? && |stack| == MAX_DEPTH && PartState(ls, part, stack, root, longMax).Ok()
    requires Run(PartState(ls, part, stack, root, longMax), [c] + rest, longMax).success
    ensures OneOn(ls, part, c, rest, ls', part', stack, root, longMax)
  {
    hide Run, Text, Grammatical, Mark, StateAfter, Apply, Step, React;
    var l, text := StateAfter(ls, stack, root, longMax), part.text;
    AfterColon(ls, part, stack, root, longMax);
    NamesHaveNoNul(text);
    if IsValueChar(c) && |text| < 127 {
      ls', part' := ls, InBare(text + [c]);
      ReadsOne(l.(buf := text), c, rest, longMax);
      BareSteps(l, text, c, longMax);
      Regrouped(Text(ls), text, [c]);
    } else {
      if !EndsBare([c]) {
        ReadsOne(l.(buf := text), c, rest, longMax);
        BareSteps(l, text, c, longMax);
      }
      var done := ls + [Bare(text)];
      BareLexeme(ls, text, stack, root, longMax);
      ReadsDelimiter(l.(buf := text), c, rest, longMax);
      HeldIsNext(Taken(l, text, longMax), c, rest, longMax);
      AcceptsSign(done, c, rest, stack, root, longMax);
      SignGoesOn(done, c, rest, stack, root, longMax);
      ls', part' := done + [SignOf(c)], NoPart;
      assert Text(done) + "" == Text(done);
    }
  }

  lemma {:induction false} BareLexeme(ls: seq<Lexeme>, text: string, stack: seq<string>, root: seq<Field>, longMax: nat)
    requires Grammatical(ls) && PartOk(ls, InBare(text)) && |stack| == MAX_DEPTH
    ensures Grammatical(ls + [Bare(text)]) && StateAfter(ls + [Bare(text)], stack, root, longMax).Ok()
    ensures Mark(ls + [Bare(text)]) == Some(Bare(text)) && Text(ls + [Bare(text)]) == Text(ls) + text
    ensures StateAfter(ls + [Bare(text)], stack, root, longMax) == Taken(StateAfter(ls, stack, root, longMax), text, longMax)
  {
    hide Mark, Name, Level, MeaningOf, Text, Grammatical, Apply, BareOk;
    Fits(ls);
    Unfolds(ls, Bare(text), stack, root, longMax);
    StateIsOk(ls + [Bare(text)], stack, root, longMax);
    assert Name(ls) + "" == Name(ls);
  }

  lemma {:induction false} BareSteps(l: Loader, text: string, c: char, longMax: nat)
    requires AtValue(l) && BareOk(text)
    ensures var q := l.(buf := text);
            && BufferFits(Step(q.mode, q.buf, c).mode, Step(q.mode, q.buf, c).buf)
            && var r := React(q, Step(q.mode, q.buf, c), longMax);
               && (IsValueChar(c) && |text| < 127 ==> r == Continue(l.(buf := text + [c])))
               && (!(IsValueChar(c) && |text| < 127) && !EndsBare([c]) ==> r == Stop(Outcome(false, l.root)))
  {
    hide Apply;
  }

  /** What the loop accepts from here on is the rest of a document. */
  lemma {:induction false} Accepts(ls: seq<Lexeme>, part: Part, rest: string, stack: seq<string>, root: seq<Field>, longMax: nat)
    returns (ls': seq<Lexeme>, part': Part)
    requires Parsed(ls, part) && |stack| == MAX_DEPTH && PartState(ls, part, stack, root, longMax).Ok()
    requires Run(PartState(ls, part, stack, root, longMax), rest, longMax).success
    ensures Document(ls', part', Text(ls) + PartText(part) + rest)
    decreases |rest|
  {
    hide Run, Text, PartText, Grammatical, PartOk, Level, Name, Mark, MeaningOf;
    if rest == "" {
      ls', part' := ls, part;
      RunUnfolds(PartState(ls, part, stack, root, longMax), "", longMax);
      StateIsOk(ls, stack, root, longMax);
      assert Text(ls) + PartText(part) + rest == Text(ls) + PartText(part);
    } else {
      var c, tail := rest[0], rest[1..];
      assert [c] + tail == rest;
      var next, nextPart := GoesOn(ls, part, c, tail, stack, root, longMax);
      Regrouped(Text(ls) + PartText(part), [c], tail);
      ls', part' := Accepts(next, nextPart, tail, stack, root, longMax);
    }
  }

  lemma {:induction false} GoesOn(ls: seq<Lexeme>, part: Part, c: char, rest: string, stack: seq<string>, root: seq<Field>, longMax: nat)
    returns (ls': seq<Lexeme>, part': Part)
    requires Parsed(ls, part) && |stack| == MAX_DEPTH && PartState(ls, part, stack, root, longMax).Ok()
    requires Run(PartState(ls, part, stack, root, longMax), [c] + rest, longMax).success
    ensures OneOn(ls, part, c, rest, ls', part', stack, root, longMax)
  {
    hide Run, Text, PartText, Grammatical, PartOk, Level, Name, Mark, StateAfter, OneOn;
    if part.InQuote? {
      ls', part' := QuoteGoesOn(ls, part, c, rest, stack, root, longMax);
    } else if part.InBare? {
      ls', part' := BareGoesOn(ls, part, c, rest, stack, root, longMax);
    } else if Mark(ls) == Some(Colon) {
      ls', part' := ValueGoesOn(ls, c, rest, stack, root, longMax);
    } else {
      AcceptsSign(ls, c, rest, stack, root, longMax);
      SignGoesOn(ls, c, rest, stack, root, longMax);
      ls', part' := ls + [SignOf(c)], NoPart;
    }
  }

  /** A text loads if and only if it is a document. */
  lemma {:induction false} LoadsExactlyWhen(text: string, stack: seq<string>, root: seq<Field>, longMax: nat)
    requires |stack| == MAX_DEPTH
    ensures Run(Loader(OpenBrace, "", None, stack, 0, root), text, longMax).success
            <==> exists ls: seq<Lexeme>, part: Part :: Document(ls, part, text)
  {
    hide Run, Document;
    if Run(Loader(OpenBrace, "", None, stack, 0, root), text, longMax).success {
      StartsOpen(stack, root, longMax);
      assert Text([]) + PartText(NoPart) + text == text;
      var ls, part := Accepts([], NoPart, text, stack, root, longMax);
    }
    if ls: seq<Lexeme>, part: Part :| Document(ls, part, text) {
      DocumentLoads(ls, part, text, stack, root, longMax);
    }
  }

  // ---- What is not refused ----------------------------------------------------------------

  /** No text at all loads, and so does more after the object that a text is. */
  lemma {:induction false} EmptyAndTrailingTextLoad(stack: seq<string>, root: seq<Field>, longMax: nat)
    requires |stack| == MAX_DEPTH
    ensures Run(Loader(OpenBrace, "", None, stack, 0, root), "", longMax) == Outcome(true, root)
    ensures Run(Loader(OpenBrace, "", None, stack, 0, root), "{}x", longMax) == Outcome(true, root)
  {
    hide Run;
    DocumentLoads([], NoPart, "", stack, root, longMax);
    var a := [Open];
    var b := a + [Close];
    var c := b + [Letter('x')];
    assert a == [] + [Open];
    Unfolds([], Open, stack, root, longMax);
    Unfolds(a, Close, stack, root, longMax);
    Unfolds(b, Letter('x'), stack, root, longMax);
    assert Document(c, NoPart, "{}x");
    DocumentLoads(c, NoPart, "{}x", stack, root, longMax);
  }

  /** A key begun after an object and broken off by a comma goes on after it: this text sets bc. */
  lemma {:induction false} AKeyRunsOn(stack: seq<string>, longMax: nat)
    requires |stack| == MAX_DEPTH && 1 <= longMax
    ensures Run(Loader(OpenBrace, "", None, stack, 0, [Field("bc", Int(U8, 0))]), "{a:{}b,c:1}", longMax)
         == Outcome(true, [Field("bc", Int(U8, 1))])
  {
    hide Run, Grammatical, MeaningOf, Mark, Name, Level, Text, Apply;
    var root := [Field("bc", Int(U8, 0))];
    var key := TheKey(stack, root, longMax);
    var value := key + [Bare("1")];
    var all := value + [Close];
    Unfolds(key, Bare("1"), stack, root, longMax);
    Unfolds(value, Close, stack, root, longMax);
    OneIsTaken(MeaningOf(key, stack, root, longMax).keys, longMax);
    TheText(Text(key), Text(all));
    DocumentLoads(all, NoPart, "{a:{}b,c:1}", stack, root, longMax);
  }

  lemma {:induction false} TheText(key: string, all: string)
    requires key == "{a:{}" + "b" + "," + "c" + ":" && all == key + "1" + "}"
    ensures all + "" == "{a:{}b,c:1}"
  {
  }

  lemma {:induction false} TheKey(stack: seq<string>, root: seq<Field>, longMax: nat) returns (ls: seq<Lexeme>)
    requires |stack| == MAX_DEPTH
    ensures Grammatical(ls) && Text(ls) == "{a:{}" + "b" + "," + "c" + ":" && Mark(ls) == Some(Colon) && Name(ls) == "" && Level(ls) == 1
    ensures MeaningOf(ls, stack, root, longMax).root == root && MeaningOf(ls, stack, root, longMax).keys[1] == "bc"
  {
    hide Grammatical, MeaningOf, Mark, Name, Level, Text, Apply;
    var before := AnEmptyObject(stack, root, longMax);
    var b := before + [Letter('b')];
    var bc := b + [Comma];
    var c := bc + [Letter('c')];
    ls := c + [Colon];
    Unfolds(before, Letter('b'), stack, root, longMax);
    Unfolds(b, Comma, stack, root, longMax);
    Unfolds(bc, Letter('c'), stack, root, longMax);
    Unfolds(c, Colon, stack, root, longMax);
    assert "" + ['b'] + "" + ['c'] == "bc";
  }

  lemma {:induction false} AnEmptyObject(stack: seq<string>, root: seq<Field>, longMax: nat) returns (ls: seq<Lexeme>)
    requires |stack| == MAX_DEPTH
    ensures Grammatical(ls) && Text(ls) == "{a:{}" && Mark(ls) == Some(Close) && Name(ls) == "" && Level(ls) == 1
    ensures MeaningOf(ls, stack, root, longMax).root == root
  {
    hide Grammatical, MeaningOf, Mark, Name, Level, Text, Apply;
    var none: seq<Lexeme> := [];
    NothingYet(stack, root, longMax);
    var open := none + [Open];
    var a := open + [Letter('a')];
    var key := a + [Colon];
    var inner := key + [Open];
    ls := inner + [Close];
    Unfolds(none, Open, stack, root, longMax);
    Unfolds(open, Letter('a'), stack, root, longMax);
    Unfolds(a, Colon, stack, root, longMax);
    Unfolds(key, Open, stack, root, longMax);
    Unfolds(inner, Close, stack, root, longMax);
    assert "" + ['a'] == "a";
    assert Text(ls) == "{a:{}";
  }

  lemma {:induction false} NothingYet(stack: seq<string>, root: seq<Field>, longMax: nat)
    ensures Grammatical([]) && Mark([]) == None && Name([]) == "" && Level([]) == 0 && Text([]) == ""
    ensures MeaningOf([], stack, root, longMax) == Meaning(stack, root)
  {
  }

  lemma {:induction false} OneIsTaken(keys: seq<string>, longMax: nat)
    requires |keys| == MAX_DEPTH && keys[1] == "bc" && 1 <= longMax
    ensures Apply([Field("bc", Int(U8, 0))], 1, keys, "1", longMax) == [Field("bc", Int(U8, 1))]
  {
    var fields := [Field("bc", Int(U8, 0))];
    assert fields[..0] == [];
    assert Digits(1) == "1";
    AtolOfDecimal(1, longMax);
  }

  // ---- The characters ------------------------------------------------------------------------

  lemma {:induction false} CharsFrom(chars: string, first: char, c: char)
    requires forall i :: 0 <= i < |chars| ==> chars[i] as int == first as int + i
    ensures c in chars <==> first as int <= c as int < first as int + |chars|
  {
    if first as int <= c as int < first as int + |chars| {
      assert chars[c as int - first as int] == c;
    }
  }

  const CAPITALS := "ABCDEFGHIJKLMNOPQRSTUVWXYZ"
  const SMALL := "abcdefghijklmnopqrstuvwxyz"
  const DIGITS := "0123456789"

  lemma {:induction false} CharsAre(c: char)
    ensures c in CAPITALS <==> 'A' <= c <= 'Z'
    ensures c in SMALL <==> 'a' <= c <= 'z'
    ensures c in DIGITS <==> '0' <= c <= '9'
  {
    CharsFrom(CAPITALS, 'A', c);
    CharsFrom(SMALL, 'a', c);
    CharsFrom(DIGITS, '0', c);
  }

  /** Keys are letters, digits and underscores; bare values small letters, digits, minus signs and points. */
  lemma {:induction false} CharactersExactlyWhen(c: char)
    ensures IsKeyChar(c) <==> c in CAPITALS || c in SMALL || c in DIGITS || c == '_'
    ensures IsValueChar(c) <==> c in SMALL || c in DIGITS || c == '-' || c == '.'
  {
    CharsAre(c);
  }
}
