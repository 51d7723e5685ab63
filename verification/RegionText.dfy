/**
 * The region map as indented text, and the loader that rebuilds a map from such lines.
 */
module RegionText {
  import opened Words
  import opened Wrappers
  import opened RegionMap

  const LOAD_DEPTH := 8

  /** A place in the map being rebuilt; the loader keeps one for every depth. */
  datatype Place = Nowhere | AtRoot | AtEntry(i: nat)

  datatype Loader = Loader(live: Regions, temp: Regions, stack: seq<Place>, active: bool)

  // ---- One line --------------------------------------------------------------------------

  predicate IsBlank(line: string) {
    forall i :: 0 <= i < |line| ==> line[i] == ' ' || line[i] == '\t' || line[i] == '\n' || line[i] == '\r'
  }

  /** The first place from k on that is not a space. */
  function Indent(line: string, k: nat): (i: nat)
    requires k <= |line|
    ensures k <= i <= |line| && (i < |line| ==> line[i] != ' ')
    ensures forall j :: k <= j < i ==> line[j] == ' '
    decreases |line| - k
  {
    if k < |line| && line[k] == ' ' then Indent(line, k + 1) else k
  }

  /** The first place from k on that cannot belong to a name. */
  function NameEnd(line: string, k: nat): (i: nat)
    requires k <= |line|
    ensures k <= i <= |line| && (i < |line| ==> !IsNameChar(line[i]))
    ensures forall j :: k <= j < i ==> IsNameChar(line[j])
    decreases |line| - k
  {
    if k < |line| && IsNameChar(line[k]) then NameEnd(line, k + 1) else k
  }

  predicate FAfter(line: string, k: nat) {
    exists j :: k < j < |line| && line[j] == 'F'
  }

  datatype Parsed = Blank | Command | Row(indent: nat, name: string, flood: bool)

  function ParseLine(line: string): Parsed {
    if IsBlank(line) then Blank
    else
      var indent := Indent(line, 0);
      if indent == 0 && line != [] && IsNameChar(line[0]) then Command
      else
        var end := NameEnd(line, indent);
        Row(indent, line[indent..end], FAfter(line, end))
  }

  lemma {:induction false} NoRowIsTheWildcard(line: string)
    ensures ParseLine(line).Row? ==> ParseLine(line).name != "*"
  {
    assert ParseLine(line).Row? ==> forall c :: c in ParseLine(line).name ==> IsNameChar(c);
    assert "*"[0] in "*" && !IsNameChar('*');
  }

  // ---- The loader --------------------------------------------------------------------------

  function IdAt(temp: Regions, p: Place): u16 {
    if p.AtEntry? && p.i < |temp.entries| then temp.entries[p.i].id else 0
  }

  function KnownId(live: Regions, name: string): u16 {
    var o := IndexOf(live.entries, name, 0);
    if o < |live.entries| then live.entries[o].id else 0
  }

  function KnownFlags(live: Regions, name: string, flood: bool): u8 {
    var o := IndexOf(live.entries, name, 0);
    if o < |live.entries| then live.entries[o].flags else if flood then 0 else REGION_DENY_FLOOD
  }

  function Grafted(l: Loader, indent: nat, name: string, flood: bool, capacity: nat): Loader
    requires |l.stack| == LOAD_DEPTH
  {
    if !(0 < indent < LOAD_DEPTH && name != []) || l.stack[indent - 1] == Nowhere then l
    else
      var (temp, r) := Put(l.temp, name, IdAt(l.temp, l.stack[indent - 1]), KnownId(l.live, name), capacity);
      if r.None? || r.value >= |temp.entries| then l
      else
        var e := temp.entries[r.value].(flags := KnownFlags(l.live, name, flood));
        l.(temp := temp.(entries := temp.entries[r.value := e]), stack := l.stack[indent := AtEntry(r.value)])
  }

  function LoadLine(l: Loader, line: string, capacity: nat): Loader
    requires |l.stack| == LOAD_DEPTH
  {
    match ParseLine(line)
    case Blank => l.(live := l.temp, active := false)
    case Command => l.(active := false)
    case Row(indent, name, flood) => Grafted(l, indent, name, flood, capacity)
  }

  function Started(l: Loader): Loader {
    l.(temp := l.temp.(entries := [], nextId := l.live.nextId),
       stack := seq(LOAD_DEPTH, i => if i == 0 then AtRoot else Nowhere),
       active := true)
  }

  /** Lines fed to a loader until it commits or aborts; what follows is commands again. */
  function LoadAll(l: Loader, lines: seq<string>, capacity: nat): (r: Loader)
    requires |l.stack| == LOAD_DEPTH
    ensures |r.stack| == LOAD_DEPTH
  {
    if lines == [] then l
    else
      var before := LoadAll(l, lines[..|lines| - 1], capacity);
      if before.active then LoadLine(before, lines[|lines| - 1], capacity) else before
  }

  // ---- Shape of the printout -----------------------------------------------------------------

  /** A row is at most one level deeper than the one before it. */
  lemma {:induction false} DepthsStepDown(es: seq<RegionEntry>, p: seq<nat>, i: nat, k: nat)
    requires DistinctIds(es) && Chain(es, p) && i <= |es| && k < |RowsFrom(es, p, i)|
    ensures |p| < |RowsFrom(es, p, i)[k]|
    ensures |RowsFrom(es, p, i)[k]| <= 1 + if k == 0 then |p| else |RowsFrom(es, p, i)[k - 1]|
    decreases |es| - |p|, |es| - i
  {
    assert i < |es|;
    RowsUnfold(es, p, i);
    hide RowsFrom, Chain, DistinctIds;
    if es[i].parent == TopId(es, p) {
      var c := p + [i];
      var n := |RowsFrom(es, c, 0)|;
      if 0 < k <= n {
        DepthsStepDown(es, c, 0, k - 1);
      } else if n < k {
        DepthsStepDown(es, p, i + 1, k - n - 1);
        if k == n + 1 && n > 0 { DepthsStepDown(es, c, 0, n - 1); }
      }
    } else {
      DepthsStepDown(es, p, i + 1, k);
    }
  }

  ghost predicate Rightmost(es: seq<RegionEntry>, q: seq<nat>, from: nat)
    requires DistinctIds(es) && Chain(es, q)
  {
    forall j {:trigger q[j]} :: from <= j < |q| ==> RowsFrom(es, q[..j], q[j] + 1) == []
  }

  /** Nothing is printed beside the way down to the last row. */
  lemma {:induction false} LastRowIsRightmost(es: seq<RegionEntry>, p: seq<nat>, i: nat)
    requires DistinctIds(es) && Chain(es, p) && i <= |es| && RowsFrom(es, p, i) != []
    ensures var q := RowsFrom(es, p, i)[|RowsFrom(es, p, i)| - 1]; Chain(es, q) && Extends(q, p, i) && Rightmost(es, q, |p|)
    decreases |es| - |p|, |es| - i
  {
    var rows := RowsFrom(es, p, i);
    assert i < |es|;
    hide RowsFrom, Chain, DistinctIds, Extends, Rightmost, TopId;
    RowsAreChains(es, p, i, |rows| - 1);
    RowsUnfold(es, p, i);
    if RowsFrom(es, p, i + 1) != [] {
      LastRowIsRightmost(es, p, i + 1);
    } else {
      var c, q := p + [i], rows[|rows| - 1];
      if RowsFrom(es, c, 0) != [] {
        LastRowIsRightmost(es, c, 0);
      } else {
        LeafIsRightmost(es, c);
      }
      RightmostFromBefore(es, q, p, i);
    }
  }

  lemma {:induction false} LeafIsRightmost(es: seq<RegionEntry>, c: seq<nat>)
    requires DistinctIds(es) && Chain(es, c)
    ensures Rightmost(es, c, |c|)
  {
  }

  /** One step further up, where nothing follows. */
  lemma {:induction false} RightmostFromBefore(es: seq<RegionEntry>, q: seq<nat>, p: seq<nat>, i: nat)
    requires DistinctIds(es) && Chain(es, q) && Chain(es, p) && i < |es| && RowsFrom(es, p, i + 1) == []
    requires q == p + [i] || Extends(q, p + [i], 0)
    requires Rightmost(es, q, |p| + 1)
    ensures Rightmost(es, q, |p|)
  {
    hide RowsFrom, DistinctIds;
    assert |p| < |q| && q[|p|] == i && q[..|p|] == p by {
      if q != p + [i] { assert q[..|p| + 1][..|p|] == q[..|p|] && q[..|p| + 1][|p|] == q[|p|]; }
    }
  }

  /** p and i lie on the way to where a row below q, after everything else, is printed. */
  predicate OnTheWay(p: seq<nat>, i: nat, q: seq<nat>) {
    |p| <= |q| && q[..|p|] == p && (|p| < |q| ==> i <= q[|p|])
  }

  /** A new childless entry under a rightmost region is printed last. */
  lemma {:induction false} AppendPrintsLast(es: seq<RegionEntry>, e: RegionEntry, q: seq<nat>, p: seq<nat>, i: nat)
    requires DistinctIds(es) && DistinctIds(es + [e]) && Chain(es, q) && Chain(es, p) && i <= |es|
    requires e.parent == TopId(es, q) && !HasChildren(es + [e], e.id) && Rightmost(es, q, 0)
    ensures Chain(es + [e], p)
    ensures RowsFrom(es + [e], p, i) == RowsFrom(es, p, i) + if OnTheWay(p, i, q) then [q + [|es|]] else []
    decreases |es| - |p|, |es| - i
  {
    hide RowsFrom, Chain, DistinctIds, HasChildren, Rightmost, TopId, OnTheWay;
    var es' := es + [e];
    ChainWidens(es, e, p);
    if i == |es| {
      NewRow(es, e, q, p);
      NoRowsAtTheEnd(es, p);
    } else {
      AppendPrintsLast(es, e, q, p, i + 1);
      WayForks(p, i, q);
      if |p| < |q| && q[..|p|] == p { BesideTheWay(es, q, p); }
      AppendUnfolds(es, e, p, i);
      if es[i].parent == TopId(es, p) {
        AppendPrintsLast(es, e, q, p + [i], 0);
        Regroup([p + [i]], RowsFrom(es, p + [i], 0), RowsFrom(es, p, i + 1), RowsFrom(es', p + [i], 0), RowsFrom(es', p, i + 1),
                [q + [|es|]], OnTheWay(p + [i], 0, q), OnTheWay(p, i + 1, q));
      } else {
        SkipsTheWay(es, p, i, q);
      }
    }
  }

  lemma {:induction false} AppendUnfolds(es: seq<RegionEntry>, e: RegionEntry, p: seq<nat>, i: nat)
    requires DistinctIds(es) && DistinctIds(es + [e]) && Chain(es, p) && Chain(es + [e], p) && i < |es|
    ensures |p| <= |es|
    ensures if es[i].parent == TopId(es, p) then
              && |p| < |es| && Chain(es, p + [i]) && Chain(es + [e], p + [i])
              && RowsFrom(es, p, i) == [p + [i]] + RowsFrom(es, p + [i], 0) + RowsFrom(es, p, i + 1)
              && RowsFrom(es + [e], p, i) == [p + [i]] + RowsFrom(es + [e], p + [i], 0) + RowsFrom(es + [e], p, i + 1)
            else
              && RowsFrom(es, p, i) == RowsFrom(es, p, i + 1)
              && RowsFrom(es + [e], p, i) == RowsFrom(es + [e], p, i + 1)
  {
    hide DistinctIds, Chain;
    ChainWidens(es, e, p);
    RowsUnfold(es, p, i);
    RowsUnfold(es + [e], p, i);
    hide RowsFrom, TopId;
    assert (es + [e])[i] == es[i];
  }

  lemma {:induction false} SkipsTheWay(es: seq<RegionEntry>, p: seq<nat>, i: nat, q: seq<nat>)
    requires DistinctIds(es) && Chain(es, q) && Chain(es, p) && i < |es| && es[i].parent != TopId(es, p)
    ensures OnTheWay(p, i, q) <==> OnTheWay(p, i + 1, q)
  {
    if |p| < |q| { PrefixIsChain(es, q, |p|); }
  }

  /** The row appended in one of the two parts comes last of all. */
  lemma {:induction false} Regroup(c: seq<seq<nat>>, a: seq<seq<nat>>, b: seq<seq<nat>>, a': seq<seq<nat>>, b': seq<seq<nat>>, last: seq<seq<nat>>, ina: bool, inb: bool)
    requires a' == a + if ina then last else []
    requires b' == b + if inb then last else []
    requires ina ==> b == [] && !inb
    ensures c + a' + b' == c + a + b + if ina || inb then last else []
  {
  }

  lemma {:induction false} ChainWidens(es: seq<RegionEntry>, e: RegionEntry, p: seq<nat>)
    requires Chain(es, p)
    ensures Chain(es + [e], p) && TopId(es + [e], p) == TopId(es, p)
  {
  }

  lemma {:induction false} BesideTheWay(es: seq<RegionEntry>, q: seq<nat>, p: seq<nat>)
    requires DistinctIds(es) && Chain(es, q) && Chain(es, p) && Rightmost(es, q, 0) && |p| < |q| && q[..|p|] == p
    ensures q[|p|] < |es| && es[q[|p|]].parent == TopId(es, p)
    ensures RowsFrom(es, p, q[|p|] + 1) == []
  {
  }

  lemma {:induction false} WayForks(p: seq<nat>, i: nat, q: seq<nat>)
    ensures OnTheWay(p, i, q) <==> OnTheWay(p + [i], 0, q) || OnTheWay(p, i + 1, q)
    ensures !(OnTheWay(p + [i], 0, q) && OnTheWay(p, i + 1, q))
    ensures OnTheWay(p + [i], 0, q) ==> |p| < |q| && q[|p|] == i && q[..|p|] == p
  {
    if |p| < |q| { assert q[..|p| + 1] == q[..|p|] + [q[|p|]]; }
  }

  lemma {:induction false} NewRow(es: seq<RegionEntry>, e: RegionEntry, q: seq<nat>, p: seq<nat>)
    requires DistinctIds(es) && DistinctIds(es + [e]) && Chain(es, q) && Chain(es, p) && Chain(es + [e], p)
    requires e.parent == TopId(es, q) && !HasChildren(es + [e], e.id)
    ensures RowsFrom(es + [e], p, |es|) == if p == q then [q + [|es|]] else []
    ensures OnTheWay(p, |es|, q) <==> p == q
  {
    var es', n := es + [e], |es|;
    RowsUnfold(es', p, n);
    NoRowsAtTheEnd(es', p);
    assert TopId(es', p) == TopId(es, p);
    if p != q && TopId(es, p) == TopId(es, q) {
      OneChainEach(es, p, q);
    }
    if p == q {
      ChildlessHasNoRows(es', p + [n], 0);
    }
  }

  lemma {:induction false} ChildlessHasNoRows(es: seq<RegionEntry>, p: seq<nat>, i: nat)
    requires DistinctIds(es) && Chain(es, p) && i <= |es| && !HasChildren(es, TopId(es, p))
    ensures RowsFrom(es, p, i) == []
    decreases |es| - i
  {
    if i < |es| {
      ChildlessHasNoRows(es, p, i + 1);
      RowsUnfold(es, p, i);
      assert es[i].parent != TopId(es, p);
    } else {
      NoRowsAtTheEnd(es, p);
    }
  }

  // ---- A line read back ------------------------------------------------------------------------

  lemma {:induction false} LineParses(indent: nat, e: RegionEntry, homeId: u16)
    requires 0 < indent && e.id != homeId && IsName(e.name) && SkipHash(e.name) != []
    ensures ParseLine(LineOf(indent, e, homeId)) == Row(indent, SkipHash(e.name), !DeniesFlood(e.flags))
  {
    hide Indent, NameEnd, IsBlank, IsNameChar, SkipHash, DeniesFlood;
    var line, name := LineOf(indent, e, homeId), SkipHash(e.name);
    var end := indent + |name|;
    SkippedIsName(e.name);
    assert line[indent..end] == name;
    assert forall i :: indent <= i < end ==> line[i] == name[i - indent];
    assert end < |line| ==> line[end] == ' ' && line[end + 1] == 'F';
    NameStandsBetween(line, indent, end);
  }

  predicate OnlySpace(s: string) {
    forall c :: c in s ==> c in {' ', '\t', '\n', '\r'}
  }

  /**
   * Any line is blank, or starts with a name and is a command, or is its spaces, a name that may be empty, and
   * a rest; the rest allows flooding exactly if an F comes after its first character.
   */
  lemma {:induction false} ParsesExactlyWhen(line: string) returns (spaces: string, name: string, rest: string)
    ensures line == spaces + name + rest && (forall c :: c in spaces ==> c == ' ') && IsName(name)
    ensures (rest != "" ==> !IsNameChar(rest[0])) && (name == "" && rest != "" ==> rest[0] != ' ')
    ensures ParseLine(line) ==
            if OnlySpace(line) then Blank
            else if spaces == "" && name != "" then Command
            else Row(|spaces|, name, rest != "" && 'F' in rest[1..])
  {
    hide IsNameChar, IsName, IsBlank, OnlySpace, Indent, NameEnd, FAfter;
    var i := Indent(line, 0);
    var end := NameEnd(line, i);
    spaces, name, rest := line[..i], line[i..end], line[end..];
    BlankMeans(line);
    ThreeParts(line, i, end);
    if end < |line| {
      FComesAfter(line, end);
    } else {
      NothingComesAfter(line);
    }
  }

  lemma {:induction false} ThreeParts(line: string, i: nat, end: nat)
    requires i <= end <= |line| && (forall j :: 0 <= j < i ==> line[j] == ' ') && (i < |line| ==> line[i] != ' ')
    requires (forall j :: i <= j < end ==> IsNameChar(line[j])) && (end < |line| ==> !IsNameChar(line[end]))
    ensures var spaces, name, rest := line[..i], line[i..end], line[end..];
            && line == spaces + name + rest && (forall c :: c in spaces ==> c == ' ') && IsName(name)
            && (rest != "" ==> !IsNameChar(rest[0])) && (name == "" && rest != "" ==> rest[0] != ' ')
            && (spaces == "" && name != "" <==> i == 0 && line != "" && IsNameChar(line[0]))
  {
    hide IsNameChar;
  }

  lemma {:induction false} BlankMeans(line: string)
    ensures IsBlank(line) <==> OnlySpace(line)
  {
    if OnlySpace(line) {
      forall i | 0 <= i < |line| ensures line[i] == ' ' || line[i] == '\t' || line[i] == '\n' || line[i] == '\r' {
        assert line[i] in line;
      }
    }
  }

  lemma {:induction false} NothingComesAfter(line: string)
    ensures !FAfter(line, |line|)
  {
  }

  lemma {:induction false} FComesAfter(line: string, end: nat)
    requires end < |line|
    ensures 'F' in line[end..][1..] <==> FAfter(line, end)
  {
    if j :| end < j < |line| && line[j] == 'F' {
      assert line[end..][1..][j - end - 1] == 'F';
    }
    if 'F' in line[end..][1..] {
      var j :| 0 <= j < |line| - end - 1 && line[end..][1..][j] == 'F';
      assert line[end + 1 + j] == 'F';
    }
  }

  /** What a row is put under was a row of this load itself, or the root: no line stands under nothing. */
  lemma {:induction false} PlacesAreEarned(l: Loader, lines: seq<string>, capacity: nat, d: nat)
    requires |l.stack| == LOAD_DEPTH && d < LOAD_DEPTH
    ensures var r := LoadAll(Started(l), lines, capacity);
            if d == 0 then r.stack[0] == AtRoot
            else r.stack[d] != Nowhere ==> exists k :: 0 <= k < |lines| && RowAt(lines[k], d)
  {
    hide ParseLine, Put, KnownId, KnownFlags, IdAt;
    if lines != [] {
      var front, line := lines[..|lines| - 1], lines[|lines| - 1];
      PlacesAreEarned(l, front, capacity, d);
      if k :| 0 <= k < |front| && RowAt(front[k], d) {
        assert RowAt(lines[k], d);
      }
    }
  }

  predicate RowAt(line: string, d: nat) {
    ParseLine(line).Row? && ParseLine(line).indent == d && ParseLine(line).name != ""
  }

  /** A line that starts with a name ends the load and changes no map; a blank one puts the new map in place. */
  lemma {:induction false} ACommandAborts(l: Loader, line: string, capacity: nat)
    requires |l.stack| == LOAD_DEPTH && line != ""
    ensures IsNameChar(line[0]) ==> LoadLine(l, line, capacity) == l.(active := false)
    ensures IsBlank(line) ==> LoadLine(l, line, capacity) == l.(live := l.temp, active := false)
  {
  }

  lemma {:induction false} SkippedIsName(name: string)
    requires IsName(name)
    ensures IsName(SkipHash(name))
  {
  }

  lemma {:induction false} NameStandsBetween(line: string, indent: nat, end: nat)
    requires 0 < indent < end <= |line| && forall j :: 0 <= j < indent ==> line[j] == ' '
    requires (forall j :: indent <= j < end ==> IsNameChar(line[j])) && (end < |line| ==> line[end] == ' ')
    ensures !IsBlank(line) && Indent(line, 0) == indent && NameEnd(line, indent) == end
  {
    assert IsNameChar(line[indent]);
  }

  /** The root's line is not a command, and brings nothing into the map. */
  lemma {:induction false} RootLineIsSkipped(m: Regions)
    ensures ParseLine(LineOf(0, Root(m), m.homeId)).Row?
    ensures ParseLine(LineOf(0, Root(m), m.homeId)).indent == 0
  {
    var line := LineOf(0, Root(m), m.homeId);
    assert line[0] == '*';
  }

  // ---- The rows are distinct entries -------------------------------------------------------------

  lemma {:induction false} CountsBoth(rows: seq<seq<nat>>, j: nat, k: nat, r: nat)
    requires j < k < |rows| && EndsIn(rows[j], r) && EndsIn(rows[k], r)
    ensures CountEnding(rows, r) >= 2
  {
    if j == 0 {
      CountsOne(rows[1..], k - 1, r);
    } else {
      CountsBoth(rows[1..], j - 1, k - 1, r);
    }
  }

  lemma {:induction false} CountsOne(rows: seq<seq<nat>>, k: nat, r: nat)
    requires k < |rows| && EndsIn(rows[k], r)
    ensures CountEnding(rows, r) >= 1
  {
    if k > 0 { CountsOne(rows[1..], k - 1, r); }
  }

  function LastOf(q: seq<nat>): nat {
    if q == [] then 0 else q[|q| - 1]
  }

  lemma {:induction false} RowsDiffer(es: seq<RegionEntry>)
    requires DistinctIds(es)
    ensures forall k :: 0 <= k < |Rows(es)| ==> Rows(es)[k] != [] && LastOf(Rows(es)[k]) < |es|
    ensures forall j, k :: 0 <= j < k < |Rows(es)| ==> LastOf(Rows(es)[j]) != LastOf(Rows(es)[k])
    ensures |Rows(es)| <= |es|
  {
    var rows := Rows(es);
    forall k | 0 <= k < |rows| ensures rows[k] != [] && LastOf(rows[k]) < |es| {
      RowsAreChains(es, [], 0, k);
    }
    forall j, k | 0 <= j < k < |rows| ensures LastOf(rows[j]) != LastOf(rows[k]) {
      if LastOf(rows[j]) == LastOf(rows[k]) {
        CountsBoth(rows, j, k, LastOf(rows[j]));
        PrintsExactlyOnce(es, LastOf(rows[j]));
      }
    }
    DistinctFit(seq(|rows|, k requires 0 <= k < |rows| => LastOf(rows[k])), |es|);
  }

  // ---- Loading a printout --------------------------------------------------------------------

  predicate PortableName(name: string) {
    IsName(name) && |name| <= NAME_CHARS && SkipHash(name) != "" && SkipHash(name)[0] != '#'
  }

  /** A map whose printout says all there is to it: home at an open root, no deeper than the loader goes. */
  ghost predicate Portable(m: Regions) {
    && DistinctIds(m.entries) && m.homeId == 0 && !DeniesFlood(m.wildFlags)
    && (forall k :: 0 <= k < |Rows(m.entries)| ==> |Rows(m.entries)[k]| < LOAD_DEPTH)
    && (forall i :: 0 <= i < |m.entries| ==> PortableName(m.entries[i].name))
    && forall i, j :: 0 <= i < j < |m.entries| ==> SkipHash(m.entries[i].name) != SkipHash(m.entries[j].name)
  }

  /** A loader just started, on a live map with room for the ids. */
  ghost predicate ReadyFor(l: Loader, m: Regions, capacity: nat) {
    && l.stack == seq(LOAD_DEPTH, i => if i == 0 then AtRoot else Nowhere) && l.active
    && l.temp.entries == [] && l.temp.nextId == l.live.nextId && l.temp.homeId == 0 && !DeniesFlood(l.temp.wildFlags)
    && DistinctIds(l.live.entries)
    && (forall i :: 0 <= i < |l.live.entries| ==> l.live.entries[i].id < l.live.nextId)
    && 0 < l.live.nextId && l.live.nextId + |m.entries| < 0x1_0000 && |m.entries| <= capacity
  }

  /** The k-th row of the printout. */
  function RowEntry(m: Regions, k: nat): RegionEntry
    requires DistinctIds(m.entries) && k < |Rows(m.entries)|
  {
    EntryAt(m, Rows(m.entries)[k])
  }

  /** The id a loaded region gets: the one it is known by, else a new one. */
  predicate IdOk(live: Regions, e: RegionEntry, nextId: nat) {
    if KnownId(live, e.name) != 0 then e.id == KnownId(live, e.name) else live.nextId <= e.id < nextId
  }

  /** The flags a loaded row gets: those it is known by, else what its line says. */
  function LoadedFlags(live: Regions, e: RegionEntry): u8 {
    KnownFlags(live, SkipHash(e.name), !DeniesFlood(e.flags))
  }

  ghost predicate SameRow(m: Regions, live: Regions, temp: Regions, k: nat)
    requires DistinctIds(m.entries) && DistinctIds(temp.entries)
  {
    && k < |Rows(m.entries)| && k < |Rows(temp.entries)| && k < |temp.entries|
    && |Rows(temp.entries)[k]| == |Rows(m.entries)[k]| && EndsIn(Rows(temp.entries)[k], k)
    && temp.entries[k].name == SkipHash(RowEntry(m, k).name)
    && temp.entries[k].flags == LoadedFlags(live, RowEntry(m, k))
  }

  /** The way to the last row loaded, held in the loader's stack. */
  function WayDown(es: seq<RegionEntry>): seq<nat>
    requires DistinctIds(es)
  {
    if Rows(es) == [] then [] else Rows(es)[|Rows(es)| - 1]
  }

  predicate Follows(stack: seq<Place>, way: seq<nat>) {
    && |stack| == LOAD_DEPTH && |way| < LOAD_DEPTH && stack[0] == AtRoot
    && forall d :: 0 < d <= |way| ==> stack[d] == AtEntry(way[d - 1])
  }

  /** After k rows of m. */
  ghost predicate Loaded(m: Regions, live: Regions, l: Loader, k: nat)
    requires DistinctIds(m.entries)
  {
    && l.live == live && l.active && l.temp.homeId == 0 && !DeniesFlood(l.temp.wildFlags)
    && DistinctIds(l.temp.entries) && ParentsPresent(l.temp.entries)
    && k == |l.temp.entries| == |Rows(l.temp.entries)| && k <= |Rows(m.entries)|
    && (forall j: nat :: j < k ==> SameRow(m, live, l.temp, j))
    && (forall j :: 0 <= j < k ==> IdOk(live, l.temp.entries[j], l.temp.nextId))
    && live.nextId <= l.temp.nextId <= live.nextId + k
    && Follows(l.stack, WayDown(l.temp.entries))
  }

  /** A region not loaded yet gets an id none of the loaded ones has. */
  lemma {:induction false} IdIsFresh(live: Regions, es: seq<RegionEntry>, nextId: u16, name: string)
    requires DistinctIds(live.entries) && forall i :: 0 <= i < |live.entries| ==> live.entries[i].id < live.nextId
    requires 0 < live.nextId <= nextId && forall j :: 0 <= j < |es| ==> IdOk(live, es[j], nextId)
    requires IndexOf(es, name, 0) == |es|
    ensures !HasId(es, if KnownId(live, name) == 0 then nextId else KnownId(live, name))
  {
    forall j | 0 <= j < |es| ensures es[j].id != if KnownId(live, name) == 0 then nextId else KnownId(live, name) {
      assert IdOk(live, es[j], nextId) && SkipHash(es[j].name) != SkipHash(name);
      hide IndexOf, SkipHash;
      NamesHaveOwnIds(live, es[j].name, name);
    }
  }

  /** Two names the live map knows as different regions are known by different ids. */
  lemma {:induction false} NamesHaveOwnIds(live: Regions, a: string, b: string)
    requires DistinctIds(live.entries) && SkipHash(a) != SkipHash(b)
    requires forall i :: 0 <= i < |live.entries| ==> live.entries[i].id < live.nextId
    ensures KnownId(live, a) != 0 ==> KnownId(live, a) != KnownId(live, b)
    ensures KnownId(live, a) == 0 || KnownId(live, a) < live.nextId
    ensures KnownId(live, b) == 0 || KnownId(live, b) < live.nextId
  {
  }

  lemma {:induction false} WayDownIsRightmost(es: seq<RegionEntry>)
    requires DistinctIds(es)
    ensures Chain(es, WayDown(es)) && Rightmost(es, WayDown(es), 0)
  {
    hide RowsFrom;
    if Rows(es) != [] { LastRowIsRightmost(es, [], 0); }
  }

  /** The id under which the row at depth d + 1 hangs is the one at depth d on the way down. */
  lemma {:induction false} ParentIsOnTheWay(temp: Regions, stack: seq<Place>, d: nat)
    requires DistinctIds(temp.entries) && Follows(stack, WayDown(temp.entries)) && d <= |WayDown(temp.entries)|
    ensures var q := WayDown(temp.entries)[..d];
            && Chain(temp.entries, q) && Rightmost(temp.entries, q, 0)
            && stack[d] != Nowhere && IdAt(temp, stack[d]) == TopId(temp.entries, q)
  {
    hide DistinctIds, Rightmost, RowsFrom, Chain;
    var es := temp.entries;
    var way := WayDown(es);
    WayDownIsRightmost(es);
    assert d > 0 ==> stack[d] == AtEntry(way[d - 1]);
    PrefixIsChain(es, way, d);
    RightmostPrefix(es, way, d);
    assert d > 0 ==> way[..d][d - 1] == way[d - 1];
  }

  lemma {:induction false} RightmostPrefix(es: seq<RegionEntry>, q: seq<nat>, d: nat)
    requires DistinctIds(es) && Chain(es, q) && Rightmost(es, q, 0) && d <= |q| && Chain(es, q[..d])
    ensures Rightmost(es, q[..d], 0)
  {
    hide RowsFrom;
    forall j | 0 <= j < d ensures RowsFrom(es, q[..d][..j], q[..d][j] + 1) == [] {
      assert q[..d][..j] == q[..j] && q[..d][j] == q[j];
    }
  }

  /** A new region is put last, and printed last, below the way to its parent. */
  lemma {:induction false} AppendRow(es: seq<RegionEntry>, e: RegionEntry, q: seq<nat>)
    requires DistinctIds(es) && ParentsPresent(es) && e.id != 0 && !HasId(es, e.id)
    requires Chain(es, q) && Rightmost(es, q, 0) && e.parent == TopId(es, q)
    ensures DistinctIds(es + [e]) && ParentsPresent(es + [e])
    ensures Rows(es + [e]) == Rows(es) + [q + [|es|]]
  {
    if q != [] { assert es[q[|q| - 1]].id == e.parent; }
    Appended(es, e);
    assert !HasChildren(es + [e], e.id) by {
      forall i | 0 <= i < |es + [e]| ensures (es + [e])[i].parent != e.id {
        assert i < |es| ==> es[i].parent == 0 || HasId(es, es[i].parent);
      }
    }
    AppendPrintsLast(es, e, q, [], 0);
  }

  function NextAfter(l: Loader, name: string): u16 {
    if KnownId(l.live, name) == 0 then (l.temp.nextId + 1) % 0x1_0000 else l.temp.nextId
  }

  /** What one row line does to the loader. */
  lemma {:induction false} GraftAppends(l: Loader, d: nat, name: string, flood: bool, capacity: nat)
    requires |l.stack| == LOAD_DEPTH && d + 1 < LOAD_DEPTH && l.stack[d] != Nowhere && PortableName(name)
    requires IndexOf(l.temp.entries, name, 0) == |l.temp.entries| < capacity && l.temp.nextId < 0xFFFF
    ensures var id := if KnownId(l.live, name) == 0 then l.temp.nextId else KnownId(l.live, name);
            var e := RegionEntry(id, IdAt(l.temp, l.stack[d]), KnownFlags(l.live, name, flood), name);
            Grafted(l, d + 1, name, flood, capacity) ==
            l.(temp := l.temp.(entries := l.temp.entries + [e], nextId := NextAfter(l, name)),
               stack := l.stack[d + 1 := AtEntry(|l.temp.entries|)])
  {
    hide IndexOf, KnownId, KnownFlags, IdAt, IsName;
    assert Truncated(name) == name && name != [];
  }

  lemma {:induction false} RowFacts(m: Regions, k: nat)
    requires Portable(m) && k < |Rows(m.entries)|
    ensures 0 < |Rows(m.entries)[k]| < LOAD_DEPTH
    ensures LastOf(Rows(m.entries)[k]) < |m.entries| && RowEntry(m, k) == m.entries[LastOf(Rows(m.entries)[k])]
    ensures PortableName(RowEntry(m, k).name) && RowEntry(m, k).id != m.homeId
    ensures PortableName(SkipHash(RowEntry(m, k).name)) && SkipHash(SkipHash(RowEntry(m, k).name)) == SkipHash(RowEntry(m, k).name)
  {
    RowsAreChains(m.entries, [], 0, k);
    assert RowEntry(m, k) == m.entries[LastOf(Rows(m.entries)[k])];
  }

  lemma {:induction false} NotYetLoaded(m: Regions, live: Regions, temp: Regions, k: nat)
    requires Portable(m) && DistinctIds(temp.entries) && k == |temp.entries| && k < |Rows(m.entries)|
    requires forall j: nat :: j < k ==> SameRow(m, live, temp, j)
    ensures IndexOf(temp.entries, SkipHash(RowEntry(m, k).name), 0) == k
  {
    RowsDiffer(m.entries);
    RowFacts(m, k);
    var at := LastOf(Rows(m.entries)[k]);
    forall j: nat | j < k ensures SkipHash(temp.entries[j].name) != SkipHash(SkipHash(RowEntry(m, k).name)) {
      RowFacts(m, j);
      assert SameRow(m, live, temp, j);
      var jat := LastOf(Rows(m.entries)[j]);
      assert jat != at;
      hide Portable, SameRow, Rows;
      NamesDiffer(m, jat, at);
    }
  }

  lemma {:induction false} NamesDiffer(m: Regions, i: nat, j: nat)
    requires Portable(m) && i < |m.entries| && j < |m.entries| && i != j
    ensures SkipHash(m.entries[i].name) != SkipHash(m.entries[j].name)
  {
    var a, b := if i < j then i else j, if i < j then j else i;
    assert SkipHash(m.entries[a].name) != SkipHash(m.entries[b].name);
  }

  lemma {:induction false} LoadedOneMore(m: Regions, live: Regions, l: Loader, l': Loader, k: nat, q: seq<nat>)
    requires DistinctIds(m.entries) && Loaded(m, live, l, k) && k < |Rows(m.entries)| && |q| + 1 < LOAD_DEPTH
    requires |q| <= |WayDown(l.temp.entries)| && q == WayDown(l.temp.entries)[..|q|]
    requires |l'.temp.entries| == k + 1 && l'.temp.entries[..k] == l.temp.entries
    requires l' == l.(temp := l'.temp, stack := l.stack[|q| + 1 := AtEntry(k)]) && l'.temp.homeId == 0 && l'.temp.wildFlags == l.temp.wildFlags
    requires DistinctIds(l'.temp.entries) && ParentsPresent(l'.temp.entries)
    requires Rows(l'.temp.entries) == Rows(l.temp.entries) + [q + [k]]
    requires |Rows(m.entries)[k]| == |q| + 1 && l'.temp.entries[k].name == SkipHash(RowEntry(m, k).name)
    requires l'.temp.entries[k].flags == LoadedFlags(live, RowEntry(m, k))
    requires IdOk(live, l'.temp.entries[k], l'.temp.nextId) && l.temp.nextId <= l'.temp.nextId <= l.temp.nextId + 1
    ensures Loaded(m, live, l', k + 1)
  {
    hide DistinctIds, ParentsPresent, Rows, RowEntry, KnownId;
    var es, es' := l.temp.entries, l'.temp.entries;
    assert forall j :: 0 <= j < k ==> es'[j] == es[j];
    forall j: nat | j < k + 1 ensures SameRow(m, live, l'.temp, j) {
      assert j < k ==> SameRow(m, live, l.temp, j);
    }
    forall j | 0 <= j < k + 1 ensures IdOk(live, es'[j], l'.temp.nextId) {
      assert j < k ==> IdOk(live, es[j], l.temp.nextId);
    }
    assert WayDown(es') == q + [k];
  }

  /** The entry the k-th row becomes, hung below the way q. */
  function AddedRow(m: Regions, l: Loader, k: nat, parent: u16): RegionEntry
    requires DistinctIds(m.entries) && k < |Rows(m.entries)|
  {
    var e := RowEntry(m, k);
    var name := SkipHash(e.name);
    RegionEntry(if KnownId(l.live, name) == 0 then l.temp.nextId else KnownId(l.live, name), parent,
                LoadedFlags(l.live, e), name)
  }

  lemma {:induction false} AddedRowFacts(m: Regions, l0: Loader, l: Loader, k: nat, parent: u16, capacity: nat)
    requires Portable(m) && ReadyFor(l0, m, capacity)
    requires Loaded(m, l0.live, l, k) && k < |Rows(m.entries)|
    ensures var e := AddedRow(m, l, k, parent);
            && e.id != 0 && !HasId(l.temp.entries, e.id)
            && IdOk(l.live, e, NextAfter(l, e.name)) && l.temp.nextId <= NextAfter(l, e.name) <= l.temp.nextId + 1
    ensures k < capacity && l.temp.nextId < 0xFFFF
  {
    assert |Rows(m.entries)| <= |m.entries| by { RowsDiffer(m.entries); }
    hide Portable, HasId, DistinctIds, ParentsPresent, Follows, RowEntry, SkipHash, KnownId, KnownFlags, IdOk, SameRow, Rows;
    NotYetLoaded(m, l0.live, l.temp, k);
    NewIdFacts(l, SkipHash(RowEntry(m, k).name), AddedRow(m, l, k, parent));
  }

  lemma {:induction false} NewIdFacts(l: Loader, name: string, e: RegionEntry)
    requires DistinctIds(l.live.entries) && forall i :: 0 <= i < |l.live.entries| ==> l.live.entries[i].id < l.live.nextId
    requires 0 < l.live.nextId <= l.temp.nextId < 0xFFFF
    requires forall j :: 0 <= j < |l.temp.entries| ==> IdOk(l.live, l.temp.entries[j], l.temp.nextId)
    requires IndexOf(l.temp.entries, name, 0) == |l.temp.entries|
    requires e.name == name && e.id == if KnownId(l.live, name) == 0 then l.temp.nextId else KnownId(l.live, name)
    ensures e.id != 0 && !HasId(l.temp.entries, e.id)
    ensures IdOk(l.live, e, NextAfter(l, name)) && l.temp.nextId <= NextAfter(l, name) <= l.temp.nextId + 1
  {
    hide IndexOf, DistinctIds, HasId, KnownId;
    IdIsFresh(l.live, l.temp.entries, l.temp.nextId, name);
    KnownIdIsOld(l.live, name);
  }

  lemma {:induction false} KnownIdIsOld(live: Regions, name: string)
    requires DistinctIds(live.entries) && 0 < live.nextId
    requires forall i :: 0 <= i < |live.entries| ==> live.entries[i].id < live.nextId
    ensures KnownId(live, name) < live.nextId
  {
  }

  /** How deep the k-th row may lie: one below the row before it. */
  lemma {:induction false} RowHangsOnTheWay(m: Regions, live: Regions, l: Loader, k: nat)
    requires DistinctIds(m.entries) && Loaded(m, live, l, k) && k < |Rows(m.entries)|
    ensures 0 < |Rows(m.entries)[k]| <= |WayDown(l.temp.entries)| + 1
  {
    if k > 0 { assert SameRow(m, live, l.temp, k - 1); }
    DepthsStepDown(m.entries, [], 0, k);
  }

  /** The loader after the k-th row, hung below the way q. */
  function WithRow(m: Regions, l: Loader, k: nat, q: seq<nat>, parent: u16): Loader
    requires DistinctIds(m.entries) && k < |Rows(m.entries)| && |q| + 1 < |l.stack|
  {
    var e := AddedRow(m, l, k, parent);
    l.(temp := l.temp.(entries := l.temp.entries + [e], nextId := NextAfter(l, e.name)),
       stack := l.stack[|q| + 1 := AtEntry(|l.temp.entries|)])
  }

  lemma {:induction false} RowIsGrafted(m: Regions, l0: Loader, l: Loader, k: nat, capacity: nat) returns (q: seq<nat>)
    requires Portable(m) && ReadyFor(l0, m, capacity)
    requires Loaded(m, l0.live, l, k) && k < |Rows(m.entries)|
    ensures |Rows(m.entries)[k]| == |q| + 1 < LOAD_DEPTH == |l.stack|
    ensures |q| <= |WayDown(l.temp.entries)| && q == WayDown(l.temp.entries)[..|q|]
    ensures Chain(l.temp.entries, q) && Rightmost(l.temp.entries, q, 0)
    ensures LoadLine(l, LineOf(|q| + 1, RowEntry(m, k), m.homeId), capacity) == WithRow(m, l, k, q, TopId(l.temp.entries, q))
  {
    var e := RowEntry(m, k);
    var d := |Rows(m.entries)[k]| - 1;
    RowFacts(m, k);
    NotYetLoaded(m, l0.live, l.temp, k);
    RowHangsOnTheWay(m, l0.live, l, k);
    AddedRowFacts(m, l0, l, k, 0, capacity);
    q := WayDown(l.temp.entries)[..d];
    hide Portable, ReadyFor, Rows, SkipHash, IsName, IndexOf, KnownId, KnownFlags, DistinctIds, ParentsPresent, SameRow, WayDown, Follows, Rightmost, RowEntry;
    LineParses(d + 1, e, m.homeId);
    ParentIsOnTheWay(l.temp, l.stack, d);
    GraftAppends(l, d, SkipHash(e.name), !DeniesFlood(e.flags), capacity);
  }

  lemma {:induction false} LoadRow(m: Regions, l0: Loader, l: Loader, k: nat, capacity: nat)
    requires Portable(m) && ReadyFor(l0, m, capacity)
    requires Loaded(m, l0.live, l, k) && k < |Rows(m.entries)|
    ensures |l.stack| == LOAD_DEPTH
    ensures Loaded(m, l0.live, LoadLine(l, LineOf(|Rows(m.entries)[k]|, RowEntry(m, k), m.homeId), capacity), k + 1)
  {
    var q := RowIsGrafted(m, l0, l, k, capacity);
    var parent := TopId(l.temp.entries, q);
    AddedRowFacts(m, l0, l, k, parent, capacity);
    AppendRow(l.temp.entries, AddedRow(m, l, k, parent), q);
    hide Portable, ReadyFor, Rows, SkipHash, IsName, IndexOf, KnownId, KnownFlags, DistinctIds, ParentsPresent, SameRow, WayDown, Rightmost, RowEntry, LineOf, LoadLine;
    LoadedOneMore(m, l0.live, l, LoadLine(l, LineOf(|q| + 1, RowEntry(m, k), m.homeId), capacity), k, q);
  }

  // ---- The round trip ----------------------------------------------------------------------------

  lemma {:induction false} LoadedIsActive(m: Regions, live: Regions, l: Loader, k: nat)
    requires DistinctIds(m.entries) && Loaded(m, live, l, k)
    ensures l.active
  {
  }

  lemma {:induction false} ReadyShape(m: Regions, l0: Loader, capacity: nat)
    requires Portable(m) && ReadyFor(l0, m, capacity)
    ensures |l0.stack| == LOAD_DEPTH && DistinctIds(m.entries) && |Export(m)| == |Rows(m.entries)| + 1
  {
    hide Rows, LineOf;
  }

  lemma {:induction false} LoadRows(m: Regions, l0: Loader, k: nat, capacity: nat)
    requires Portable(m) && ReadyFor(l0, m, capacity) && k <= |Rows(m.entries)|
    ensures Loaded(m, l0.live, LoadAll(l0, Export(m)[..k + 1], capacity), k)
  {
    hide Portable, Loaded, LineOf, LoadLine, LoadAll, Export, ReadyFor, Rows, RowEntry;
    ReadyShape(m, l0, capacity);
    if k == 0 {
      LoadRootLine(m, l0, capacity);
    } else {
      LoadRows(m, l0, k - 1, capacity);
      LoadAllStep(l0, Export(m), k, capacity);
      LoadedIsActive(m, l0.live, LoadAll(l0, Export(m)[..k], capacity), k - 1);
      LineInExport(m, k - 1);
      LoadRow(m, l0, LoadAll(l0, Export(m)[..k], capacity), k - 1, capacity);
    }
  }

  lemma {:induction false} LoadAllStep(l: Loader, lines: seq<string>, k: nat, capacity: nat)
    requires |l.stack| == LOAD_DEPTH && k < |lines|
    ensures var before := LoadAll(l, lines[..k], capacity);
            LoadAll(l, lines[..k + 1], capacity) == if before.active then LoadLine(before, lines[k], capacity) else before
  {
    hide LoadLine;
    assert lines[..k + 1][..k] == lines[..k];
  }

  lemma {:induction false} LineInExport(m: Regions, k: nat)
    requires DistinctIds(m.entries) && k < |Rows(m.entries)|
    ensures Export(m)[k + 1] == LineOf(|Rows(m.entries)[k]|, RowEntry(m, k), m.homeId)
  {
  }

  lemma {:induction false} LoadRootLine(m: Regions, l0: Loader, capacity: nat)
    requires Portable(m) && ReadyFor(l0, m, capacity)
    ensures Loaded(m, l0.live, LoadAll(l0, Export(m)[..1], capacity), 0)
  {
    var line := LineOf(0, Root(m), m.homeId);
    assert Export(m)[..1] == [line] && [line][..0] == [];
    RootLineIsSkipped(m);
    assert LoadAll(l0, [line], capacity) == LoadLine(LoadAll(l0, [], capacity), line, capacity) == l0;
    assert Rows(l0.temp.entries) == [];
  }

  /** Row for row the same depth and name, with the flags the live map knows the region by. */
  ghost predicate Rebuilt(m: Regions, live: Regions, m': Regions) {
    && DistinctIds(m.entries) && DistinctIds(m'.entries) && |Rows(m'.entries)| == |Rows(m.entries)|
    && forall k: nat :: k < |Rows(m.entries)| ==>
      && |Rows(m'.entries)[k]| == |Rows(m.entries)[k]|
      && RowEntry(m', k).name == SkipHash(RowEntry(m, k).name)
      && RowEntry(m', k).flags == LoadedFlags(live, RowEntry(m, k))
  }

  /** The live map does not know the region, or denies it floods just as m does. */
  predicate FloodAgrees(live: Regions, e: RegionEntry) {
    var o := IndexOf(live.entries, SkipHash(e.name), 0);
    o == |live.entries| || DeniesFlood(live.entries[o].flags) == DeniesFlood(e.flags)
  }

  /** Row for row the same flood permission. */
  ghost predicate SameFloods(m: Regions, m': Regions)
    requires DistinctIds(m.entries) && DistinctIds(m'.entries) && |Rows(m'.entries)| == |Rows(m.entries)|
  {
    forall k: nat :: k < |Rows(m.entries)| ==> DeniesFlood(RowEntry(m', k).flags) == DeniesFlood(RowEntry(m, k).flags)
  }

  /**
   * Feeding a printout, line by line and then a blank one, to the loader rebuilds the tree,
   * whatever the live map was: depth, name and order from the text, and flags from the live
   * map where it knows the region.
   */
  lemma {:induction false} ReloadsTheSameTree(m: Regions, l0: Loader, blank: string, capacity: nat)
    requires Portable(m) && ReadyFor(l0, m, capacity) && IsBlank(blank)
    ensures var r := LoadAll(l0, Export(m) + [blank], capacity);
            && !r.active && Rebuilt(m, l0.live, r.live) && ParentsPresent(r.live.entries) && |r.live.entries| == |Rows(m.entries)|
            && r.live.homeId == 0 && !DeniesFlood(r.live.wildFlags)
  {
    var lines, n := Export(m), |Rows(m.entries)|;
    LoadRows(m, l0, n, capacity);
    assert lines[..n + 1] == lines;
    var l := LoadAll(l0, lines, capacity);
    BlankCommits(l0, lines, blank, capacity);
    hide Portable, ReadyFor, Rows, LoadAll, DistinctIds, ParentsPresent;
    LoadedIsRebuilt(m, l0.live, l);
  }

  /**
   * The flood permissions come back, and printing again gives the same text, if and only if
   * the live map disagrees about no printed region it knows.
   */
  lemma {:induction false} SameTextExactlyWhen(m: Regions, l0: Loader, blank: string, capacity: nat)
    requires Portable(m) && ReadyFor(l0, m, capacity) && IsBlank(blank)
    ensures var m' := LoadAll(l0, Export(m) + [blank], capacity).live;
            && Rebuilt(m, l0.live, m')
            && (SameFloods(m, m') <==> forall k: nat :: k < |Rows(m.entries)| ==> FloodAgrees(l0.live, RowEntry(m, k)))
            && (Export(m') == Export(m) <==> forall k: nat :: k < |Rows(m.entries)| ==> FloodAgrees(l0.live, RowEntry(m, k)))
  {
    ReloadsTheSameTree(m, l0, blank, capacity);
    var m' := LoadAll(l0, Export(m) + [blank], capacity).live;
    hide LoadAll, ReadyFor;
    SameFloodsExactlyWhen(m, l0.live, m');
    SameLinesExactlyWhen(m, l0.live, m');
  }

  lemma {:induction false} SameFloodsExactlyWhen(m: Regions, live: Regions, m': Regions)
    requires Rebuilt(m, live, m')
    ensures SameFloods(m, m') <==> forall k: nat :: k < |Rows(m.entries)| ==> FloodAgrees(live, RowEntry(m, k))
  {
    hide Rows, DistinctIds;
    forall k: nat | k < |Rows(m.entries)|
      ensures FloodAgrees(live, RowEntry(m, k)) <==> DeniesFlood(RowEntry(m', k).flags) == DeniesFlood(RowEntry(m, k).flags)
    {
      FlagsTell(live, RowEntry(m, k));
    }
    hide FloodAgrees, RowEntry;
  }

  lemma {:induction false} FlagsTell(live: Regions, e: RegionEntry)
    ensures FloodAgrees(live, e) <==> DeniesFlood(LoadedFlags(live, e)) == DeniesFlood(e.flags)
  {
  }

  lemma {:induction false} RebuiltShape(m: Regions, live: Regions, m': Regions)
    requires Portable(m) && Rebuilt(m, live, m')
    ensures DistinctIds(m.entries) && DistinctIds(m'.entries) && |Rows(m'.entries)| == |Rows(m.entries)|
    ensures |Export(m')| == |Export(m)| == |Rows(m.entries)| + 1 && m.homeId == 0 && !DeniesFlood(m.wildFlags)
  {
    hide Rows, RowEntry, LineOf;
  }

  lemma {:induction false} SameLineExactlyWhen(m: Regions, live: Regions, m': Regions, k: nat)
    requires Portable(m) && Rebuilt(m, live, m') && m'.homeId == 0 && k < |Rows(m.entries)|
    ensures Export(m')[k + 1] == Export(m)[k + 1] <==> DeniesFlood(RowEntry(m', k).flags) == DeniesFlood(RowEntry(m, k).flags)
  {
    hide Portable, Export, Rows, RowEntry, LineOf, DeniesFlood;
    RebuiltShape(m, live, m');
    LineInExport(m, k);
    LineInExport(m', k);
    RowFacts(m, k);
    RowIsEntry(m', k);
    LinesTellFloods(|Rows(m.entries)[k]|, RowEntry(m', k), RowEntry(m, k));
  }

  lemma {:induction false} RowIsEntry(m: Regions, k: nat)
    requires DistinctIds(m.entries) && k < |Rows(m.entries)|
    ensures RowEntry(m, k).id != 0
  {
    RowsAreChains(m.entries, [], 0, k);
    assert RowEntry(m, k) == m.entries[LastOf(Rows(m.entries)[k])];
  }

  lemma {:induction false} SameLinesExactlyWhen(m: Regions, live: Regions, m': Regions)
    requires Portable(m) && Rebuilt(m, live, m') && m'.homeId == 0 && !DeniesFlood(m'.wildFlags)
    ensures Export(m') == Export(m) <==> SameFloods(m, m')
  {
    hide Portable, Rebuilt, Export, Rows, RowEntry, LineOf, DeniesFlood, DistinctIds;
    RebuiltShape(m, live, m');
    var n := |Rows(m.entries)|;
    forall k: nat | k < n
      ensures Export(m')[k + 1] == Export(m)[k + 1] <==> DeniesFlood(RowEntry(m', k).flags) == DeniesFlood(RowEntry(m, k).flags)
    {
      SameLineExactlyWhen(m, live, m', k);
    }
    RootLinesAgree(m, m');
    if SameFloods(m, m') {
      forall i | 0 <= i < n + 1 ensures Export(m')[i] == Export(m)[i] {
        if i > 0 { SameLineExactlyWhen(m, live, m', i - 1); }
      }
    }
  }

  lemma {:induction false} RootLinesAgree(m: Regions, m': Regions)
    requires DistinctIds(m.entries) && DistinctIds(m'.entries)
    requires m.homeId == m'.homeId == 0 && !DeniesFlood(m.wildFlags) && !DeniesFlood(m'.wildFlags)
    ensures Export(m')[0] == Export(m)[0]
  {
  }

  lemma {:induction false} LinesTellFloods(indent: nat, a: RegionEntry, b: RegionEntry)
    requires SkipHash(a.name) == SkipHash(b.name) && a.id != 0 && b.id != 0
    ensures LineOf(indent, a, 0) == LineOf(indent, b, 0) <==> DeniesFlood(a.flags) == DeniesFlood(b.flags)
  {
    assert DeniesFlood(a.flags) != DeniesFlood(b.flags) ==> |LineOf(indent, a, 0)| != |LineOf(indent, b, 0)|;
  }

  /** A live map that allows what the text denies: the text's word does not count. */
  lemma {:induction false} AKnownFlagWins() returns (m: Regions, l0: Loader)
    ensures m == Regions([RegionEntry(1, 0, REGION_DENY_FLOOD, "a")], 2, 0, 0, 0)
    ensures l0.live == Regions([RegionEntry(1, 0, 0, "a")], 2, 0, 0, 0)
    ensures Portable(m) && ReadyFor(l0, m, 1) && Rows(m.entries) == [[0]]
    ensures var m' := LoadAll(l0, Export(m) + [""], 1).live;
            DistinctIds(m'.entries) && |Rows(m'.entries)| == 1 && !DeniesFlood(RowEntry(m', 0).flags) && Export(m') != Export(m)
  {
    m := Regions([RegionEntry(1, 0, REGION_DENY_FLOOD, "a")], 2, 0, 0, 0);
    l0 := Loader(Regions([RegionEntry(1, 0, 0, "a")], 2, 0, 0, 0), Regions([], 2, 0, 0, 0),
                 seq(LOAD_DEPTH, i => if i == 0 then AtRoot else Nowhere), true);
    OneRegionIsPortable(m);
    assert ReadyFor(l0, m, 1) && !FloodAgrees(l0.live, m.entries[0]) && LoadedFlags(l0.live, m.entries[0]) == 0;
    hide Portable, ReadyFor, LoadAll, Export, FloodAgrees, LoadedFlags, Rows, RowEntry, DistinctIds;
    SameTextExactlyWhen(m, l0, "", 1);
    assert !FloodAgrees(l0.live, RowEntry(m, 0));
  }

  lemma {:induction false} OneRegionIsPortable(m: Regions)
    requires m == Regions([RegionEntry(1, 0, REGION_DENY_FLOOD, "a")], 2, 0, 0, 0)
    ensures Portable(m) && Rows(m.entries) == [[0]] && RowEntry(m, 0) == m.entries[0]
  {
    RowsUnfold(m.entries, [], 0);
    RowsUnfold(m.entries, [0], 0);
    NoRowsAtTheEnd(m.entries, []);
    NoRowsAtTheEnd(m.entries, [0]);
    assert [] + [0] == [0];
  }

  lemma {:induction false} BlankCommits(l: Loader, lines: seq<string>, blank: string, capacity: nat)
    requires |l.stack| == LOAD_DEPTH && IsBlank(blank) && LoadAll(l, lines, capacity).active
    ensures LoadAll(l, lines + [blank], capacity) == LoadAll(l, lines, capacity).(live := LoadAll(l, lines, capacity).temp, active := false)
  {
    assert (lines + [blank])[..|lines|] == lines;
  }

  lemma {:induction false} LoadedIsRebuilt(m: Regions, live: Regions, l: Loader)
    requires DistinctIds(m.entries) && Loaded(m, live, l, |Rows(m.entries)|)
    ensures Rebuilt(m, live, l.temp) && ParentsPresent(l.temp.entries) && |l.temp.entries| == |Rows(m.entries)|
    ensures l.temp.homeId == 0 && !DeniesFlood(l.temp.wildFlags)
  {
    hide Rows, DistinctIds, ParentsPresent, Follows, IdOk, SameRow, RowEntry, SkipHash, LoadedFlags;
    forall k: nat | k < |Rows(m.entries)|
      ensures |Rows(l.temp.entries)[k]| == |Rows(m.entries)[k]|
      ensures RowEntry(l.temp, k).name == SkipHash(RowEntry(m, k).name)
      ensures RowEntry(l.temp, k).flags == LoadedFlags(live, RowEntry(m, k))
    {
      assert SameRow(m, live, l.temp, k);
      SameRowEntries(m, live, l.temp, k);
    }
  }

  lemma {:induction false} SameRowEntries(m: Regions, live: Regions, temp: Regions, k: nat)
    requires DistinctIds(m.entries) && DistinctIds(temp.entries) && SameRow(m, live, temp, k)
    ensures k < |Rows(temp.entries)| && k < |Rows(m.entries)| && |Rows(temp.entries)[k]| == |Rows(m.entries)[k]|
    ensures RowEntry(temp, k).name == SkipHash(RowEntry(m, k).name)
    ensures RowEntry(temp, k).flags == LoadedFlags(live, RowEntry(m, k))
  {
  }

  // ---- A printout that commits early -------------------------------------------------------------

  /** A denied region, not the home, with nothing in its name but a '#' or not even that. */
  predicate PrintsBlank(m: Regions, e: RegionEntry) {
    SkipHash(e.name) == "" && e.id != m.homeId && DeniesFlood(e.flags)
  }

  lemma {:induction false} BlankLineExactlyWhen(m: Regions, indent: nat, e: RegionEntry)
    requires 0 < indent && IsName(e.name)
    ensures ParseLine(LineOf(indent, e, m.homeId)).Blank? <==> PrintsBlank(m, e)
    ensures !ParseLine(LineOf(indent, e, m.homeId)).Command?
  {
    var line, name := LineOf(indent, e, m.homeId), SkipHash(e.name);
    assert line[0] == ' ';
    if name != "" {
      assert line[indent] == name[0] && IsNameChar(name[0]);
    } else if e.id == m.homeId {
      assert line[indent] == '^';
    } else if !DeniesFlood(e.flags) {
      assert line[indent + 1] == 'F';
    }
  }

  /** Every map's own printout: the load is still under way after it if and only if no row prints blank. */
  lemma {:induction false} CommitsEarlyExactlyWhen(m: Regions, l: Loader, capacity: nat)
    requires DistinctIds(m.entries) && (forall i :: 0 <= i < |m.entries| ==> IsName(m.entries[i].name))
    requires |l.stack| == LOAD_DEPTH && l.active
    ensures LoadAll(l, Export(m), capacity).active
            <==> forall k: nat :: k < |Rows(m.entries)| ==> !PrintsBlank(m, RowEntry(m, k))
  {
    var lines, n := Export(m), |Rows(m.entries)|;
    ActiveWhileRows(l, lines, capacity);
    RootLineRuns(m);
    forall k: nat | k < n ensures ParseLine(lines[k + 1]).Row? <==> !PrintsBlank(m, RowEntry(m, k)) {
      RowLineBlankExactlyWhen(m, k);
    }
    hide ParseLine, PrintsBlank, LoadAll, RowEntry, Export, DistinctIds;
    if forall k: nat :: k < n ==> !PrintsBlank(m, RowEntry(m, k)) {
      forall i | 0 <= i < |lines| ensures ParseLine(lines[i]).Row? {
        if i > 0 { assert !PrintsBlank(m, RowEntry(m, i - 1)); }
      }
    }
  }

  /** A loader stays active exactly as long as it is fed rows. */
  lemma {:induction false} ActiveWhileRows(l: Loader, lines: seq<string>, capacity: nat)
    requires |l.stack| == LOAD_DEPTH && l.active
    ensures LoadAll(l, lines, capacity).active <==> forall i :: 0 <= i < |lines| ==> ParseLine(lines[i]).Row?
  {
    hide ParseLine, LoadLine;
    if lines != [] {
      var front, last := lines[..|lines| - 1], lines[|lines| - 1];
      ActiveWhileRows(l, front, capacity);
      assert forall i :: 0 <= i < |front| ==> front[i] == lines[i];
      var before := LoadAll(l, front, capacity);
      if before.active { StaysActiveUnless(before, last, capacity); }
    }
  }

  lemma {:induction false} RootLineRuns(m: Regions)
    requires DistinctIds(m.entries)
    ensures ParseLine(Export(m)[0]).Row?
  {
    RootLineIsSkipped(m);
  }

  lemma {:induction false} RowLineBlankExactlyWhen(m: Regions, k: nat)
    requires DistinctIds(m.entries) && (forall i :: 0 <= i < |m.entries| ==> IsName(m.entries[i].name))
    requires k < |Rows(m.entries)|
    ensures |Export(m)| == |Rows(m.entries)| + 1
    ensures ParseLine(Export(m)[k + 1]).Row? <==> !PrintsBlank(m, RowEntry(m, k))
  {
    hide ParseLine, LineOf;
    LineInExport(m, k);
    RowsAreChains(m.entries, [], 0, k);
    assert RowEntry(m, k) == m.entries[LastOf(Rows(m.entries)[k])];
    BlankLineExactlyWhen(m, |Rows(m.entries)[k]|, RowEntry(m, k));
  }

  lemma {:induction false} StaysActiveUnless(l: Loader, line: string, capacity: nat)
    requires |l.stack| == LOAD_DEPTH && l.active
    ensures LoadLine(l, line, capacity).active <==> ParseLine(line).Row?
  {
  }

  /** A region called "#" prints as a blank line, which commits the load early and drops the rest. */
  lemma {:induction false} AHashAloneCommitsEarly(m: Regions, l0: Loader, capacity: nat)
    requires m.entries == [RegionEntry(1, 0, REGION_DENY_FLOOD, "#"), RegionEntry(2, 0, REGION_DENY_FLOOD, "b")]
    requires DistinctIds(m.entries) && m.homeId == 0 && !DeniesFlood(m.wildFlags) && ReadyFor(l0, m, capacity)
    ensures LoadAll(l0, Export(m), capacity).live.entries == [] && !LoadAll(l0, Export(m), capacity).active
  {
    RowsUnfold(m.entries, [], 0);
    assert Export(m)[1] == LineOf(1, m.entries[0], 0) == " ";
    assert IsBlank(" ");
    LoadAllStep(l0, Export(m), 0, capacity);
    LoadAllStep(l0, Export(m), 1, capacity);
    RootLineIsSkipped(m);
    assert LoadAll(l0, Export(m)[..0], capacity) == l0;
    OnceCommitted(l0, Export(m), 2, capacity);
  }

  lemma {:induction false} OnceCommitted(l: Loader, lines: seq<string>, k: nat, capacity: nat)
    requires |l.stack| == LOAD_DEPTH && k <= |lines| && !LoadAll(l, lines[..k], capacity).active
    ensures LoadAll(l, lines, capacity) == LoadAll(l, lines[..k], capacity)
    decreases |lines|
  {
    if k < |lines| {
      assert lines[..|lines| - 1][..k] == lines[..k];
      OnceCommitted(l, lines[..|lines| - 1], k, capacity);
    } else {
      assert lines[..k] == lines;
    }
  }

  // ---- The object ----------------------------------------------------------------------------

  class RegionLoader {
    const live: RegionMap
    const temp: RegionMap
    const stack: array<Place>
    var active: bool

    ghost predicate Valid()
      reads this, live, temp
    {
      && live.Valid() && temp.Valid() && live != temp && live.entries != temp.entries
      && live.entries.Length == temp.entries.Length && stack.Length == LOAD_DEPTH
    }

    ghost function Value(): Loader
      reads this, live, live.entries, temp, temp.entries, stack
      requires Valid()
    {
      Loader(live.Value(), temp.Value(), stack[..], active)
    }

    constructor (capacity: nat)
      ensures Valid() && fresh(live) && fresh(live.entries) && fresh(temp) && fresh(temp.entries) && fresh(stack)
      ensures live.entries.Length == capacity
      ensures Value() == Loader(Regions([], 1, 0, 0, 0), Regions([], 1, 0, 0, 0), seq(LOAD_DEPTH, _ => Nowhere), false)
    {
      live := new RegionMap(capacity);
      temp := new RegionMap(capacity);
      stack := new Place[LOAD_DEPTH](_ => Nowhere);
      active := false;
    }

    method StartRegionsLoad()
      requires Valid()
      modifies this, temp, stack
      ensures Valid() && Value() == Started(old(Value()))
    {
      ClearStack();
      stack[0] := AtRoot;
      temp.ResetFrom(live);
      active := true;
      assert stack[..] == seq(LOAD_DEPTH, i => if i == 0 then AtRoot else Nowhere);
    }

    method ClearStack()
      modifies stack
      ensures forall j :: 0 <= j < stack.Length ==> stack[j] == Nowhere
    {
      for i := 0 to stack.Length
        invariant forall j :: 0 <= j < i ==> stack[j] == Nowhere
      {
        stack[i] := Nowhere;
      }
    }

    /** A row for a region the live map knows takes its slot without a check. */
    method HandleRegionLoadLine(line: string)
      requires Valid()
      requires var p := ParseLine(line);
        p.Row? && KnownId(live.Value(), p.name) != 0 && IndexOf(temp.Value().entries, p.name, 0) == temp.numRegions
        ==> temp.numRegions < temp.entries.Length
      modifies this, live, live.entries, temp, temp.entries, stack
      ensures Valid() && Value() == LoadLine(old(Value()), line, live.entries.Length)
    {
      hide Put, KnownId, IndexOf, ParseLine, Grafted;
      NoRowIsTheWildcard(line);
      var parsed := ParseLine(line);
      match parsed {
        case Blank =>
          Commit();
          active := false;
        case Command =>
          active := false;
        case Row(indent, name, flood) =>
          Graft(indent, name, flood);
      }
    }

    method Commit()
      requires Valid()
      modifies live, live.entries
      ensures Valid() && live.Value() == temp.Value()
    {
      for i := 0 to temp.numRegions
        invariant forall j :: 0 <= j < i ==> live.entries[j] == temp.entries[j]
      {
        live.entries[i] := temp.entries[i];
      }
      live.numRegions, live.nextId, live.homeId, live.defaultId, live.wildFlags :=
        temp.numRegions, temp.nextId, temp.homeId, temp.defaultId, temp.wildFlags;
    }

    method Graft(indent: nat, name: string, flood: bool)
      requires Valid() && name != "*"
      requires KnownId(live.Value(), name) != 0 && IndexOf(temp.Value().entries, name, 0) == temp.numRegions
               ==> temp.numRegions < temp.entries.Length
      modifies temp, temp.entries, stack
      ensures Valid() && Value() == Grafted(old(Value()), indent, name, flood, live.entries.Length)
    {
      hide Put, KnownId, KnownFlags, IndexOf;
      if !(0 < indent < LOAD_DEPTH && name != []) || stack[indent - 1] == Nowhere { return; }
      var parent := stack[indent - 1];
      var parentId := if parent.AtEntry? && parent.i < temp.numRegions then temp.entries[parent.i].id else 0;
      var id, flags := Known(name, flood);
      var region := temp.PutRegion(name, parentId, id);
      if region.Some? {
        ghost var put := temp.Value();
        temp.entries[region.value] := temp.entries[region.value].(flags := flags);
        assert temp.entries[..temp.numRegions] == put.entries[region.value := put.entries[region.value].(flags := flags)];
        stack[indent] := AtEntry(region.value);
      }
    }

    method Known(name: string, flood: bool) returns (id: u16, flags: u8)
      requires Valid() && name != "*"
      ensures id == KnownId(live.Value(), name) && flags == KnownFlags(live.Value(), name, flood)
    {
      var known := live.FindByName(name);
      id := if known.At? then live.entries[known.i].id else 0;
      flags := if known.At? then live.entries[known.i].flags else if flood then 0 else REGION_DENY_FLOOD;
    }
  }
}
