/**
 * The region map: a tree of named regions held as a flat table of entries, each naming
 * its parent's id, under a wildcard root with id 0.
 */
module RegionMap {
  import opened Words
  import opened Wrappers

  const REGION_DENY_FLOOD: u8 := 1
  const NAME_CHARS := 30

  datatype RegionEntry = RegionEntry(id: u16, parent: u16, flags: u8, name: string)

  const NO_ENTRY := RegionEntry(0, 0, 0, "")

  datatype Regions = Regions(entries: seq<RegionEntry>, nextId: u16, homeId: u16, defaultId: u16, wildFlags: u8)

  predicate IsNameChar(c: char) {
    c == '-' || c == '$' || c == '#' || '0' <= c <= '9' || c >= 'A'
  }

  predicate IsName(name: string) {
    forall i :: 0 <= i < |name| ==> IsNameChar(name[i])
  }

  function SkipHash(name: string): string {
    if name != [] && name[0] == '#' then name[1..] else name
  }

  function Truncated(name: string): (r: string)
    ensures |r| <= NAME_CHARS && (|name| <= NAME_CHARS ==> r == name)
  {
    if |name| <= NAME_CHARS then name else name[..NAME_CHARS]
  }

  predicate DeniesFlood(flags: u8) { flags % 2 == 1 }

  /** The first entry from k on with this name, one leading '#' aside, or the number of entries. */
  function IndexOf(es: seq<RegionEntry>, name: string, k: nat): (i: nat)
    requires k <= |es|
    ensures k <= i <= |es|
    ensures i < |es| ==> SkipHash(es[i].name) == SkipHash(name)
    ensures forall j :: k <= j < i ==> SkipHash(es[j].name) != SkipHash(name)
    decreases |es| - k
  {
    if k == |es| || SkipHash(es[k].name) == SkipHash(name) then k else IndexOf(es, name, k + 1)
  }

  predicate HasId(es: seq<RegionEntry>, id: u16) {
    exists i :: 0 <= i < |es| && es[i].id == id
  }

  predicate HasChildren(es: seq<RegionEntry>, id: u16) {
    exists i :: 0 <= i < |es| && es[i].parent == id
  }

  /** What putRegion leaves behind, and the entry it returns. */
  function Put(m: Regions, name: string, parent: u16, id: u16, capacity: nat): (Regions, Option<nat>) {
    var n, i := |m.entries|, IndexOf(m.entries, name, 0);
    if !IsName(name) then (m, None)
    else if i < n then
      if m.entries[i].id == parent then (m, None)
      else (m.(entries := m.entries[i := m.entries[i].(parent := parent)]), Some(i))
    else if id == 0 && n >= capacity then (m, None)
    else
      var e := RegionEntry(if id == 0 then m.nextId else id, parent, REGION_DENY_FLOOD, Truncated(name));
      (m.(entries := m.entries + [e], nextId := if id == 0 then (m.nextId + 1) % 0x1_0000 else m.nextId), Some(n))
  }

  function IndexOfId(es: seq<RegionEntry>, id: u16, k: nat): (i: nat)
    requires k <= |es|
    ensures k <= i <= |es|
    ensures i < |es| ==> es[i].id == id
    ensures forall j :: k <= j < i ==> es[j].id != id
    decreases |es| - k
  {
    if k == |es| || es[k].id == id then k else IndexOfId(es, id, k + 1)
  }

  /** What removeRegion leaves behind: only a childless entry of the table goes. */
  function Removed(m: Regions, id: u16): Regions {
    var i := IndexOfId(m.entries, id, 0);
    if id == 0 || HasChildren(m.entries, id) || i == |m.entries| then m
    else m.(entries := m.entries[..i] + m.entries[i + 1..])
  }

  // ---- The tree ----------------------------------------------------------------------------------

  predicate DistinctIds(es: seq<RegionEntry>) {
    && (forall i :: 0 <= i < |es| ==> es[i].id != 0)
    && forall i, j :: 0 <= i < j < |es| ==> es[i].id != es[j].id
  }

  predicate ParentsPresent(es: seq<RegionEntry>) {
    forall i :: 0 <= i < |es| ==> es[i].parent == 0 || HasId(es, es[i].parent)
  }

  /** What put and remove keep: it allows cycles, but no missing parents and no shared ids. */
  predicate Tidy(m: Regions, capacity: nat) {
    && |m.entries| <= capacity && DistinctIds(m.entries) && ParentsPresent(m.entries)
    && forall i :: 0 <= i < |m.entries| ==>
      m.entries[i].id < m.nextId && IsName(m.entries[i].name) && |m.entries[i].name| <= NAME_CHARS
  }

  lemma {:induction false} TruncatedIsName(name: string)
    requires IsName(name)
    ensures IsName(Truncated(name))
  {
  }

  lemma {:induction false} PutKeepsTidy(m: Regions, name: string, parent: u16, id: u16, capacity: nat)
    requires Tidy(m, capacity) && (parent == 0 || HasId(m.entries, parent))
    requires if id == 0 then 0 < m.nextId < 0xFFFF
             else id < m.nextId && (IndexOf(m.entries, name, 0) == |m.entries| ==> |m.entries| < capacity && !HasId(m.entries, id))
    ensures Tidy(Put(m, name, parent, id, capacity).0, capacity)
  {
    hide IsName, IndexOf, SkipHash, Truncated, DistinctIds, ParentsPresent;
    var es, es', i := m.entries, Put(m, name, parent, id, capacity).0.entries, IndexOf(m.entries, name, 0);
    if es' != es {
      if i < |es| {
        Reparented(es, i, parent);
      } else {
        var e := es'[|es|];
        assert !HasId(es, e.id) && e.id != 0;
        TruncatedIsName(name);
        Appended(es, e);
      }
    }
  }

  lemma {:induction false} Reparented(es: seq<RegionEntry>, i: nat, parent: u16)
    requires DistinctIds(es) && ParentsPresent(es) && i < |es| && (parent == 0 || HasId(es, parent))
    ensures DistinctIds(es[i := es[i].(parent := parent)]) && ParentsPresent(es[i := es[i].(parent := parent)])
  {
    var es' := es[i := es[i].(parent := parent)];
    forall id: u16 | HasId(es, id) ensures HasId(es', id) {
      var j :| 0 <= j < |es| && es[j].id == id;
      assert es'[j].id == id;
    }
  }

  lemma {:induction false} Appended(es: seq<RegionEntry>, e: RegionEntry)
    requires DistinctIds(es) && ParentsPresent(es) && e.id != 0 && !HasId(es, e.id) && (e.parent == 0 || HasId(es, e.parent))
    ensures DistinctIds(es + [e]) && ParentsPresent(es + [e])
  {
    forall id: u16 | HasId(es, id) ensures HasId(es + [e], id) {
      var j :| 0 <= j < |es| && es[j].id == id;
      assert (es + [e])[j].id == id;
    }
  }

  /**
   * A put moves the known region of that name, hash aside, under the parent, or adds a new one there; every
   * other entry stays. It is refused for a bad name, under itself, or for want of room.
   */
  lemma {:induction false} PutExactlyWhen(m: Regions, name: string, parent: u16, id: u16, capacity: nat, i: nat)
    requires i <= |m.entries| && forall j :: 0 <= j < i ==> SkipHash(m.entries[j].name) != SkipHash(name)
    requires i < |m.entries| ==> SkipHash(m.entries[i].name) == SkipHash(name)
    ensures var (m', r) := Put(m, name, parent, id, capacity);
            var n := |m.entries|;
            if !IsName(name) || (if i < n then m.entries[i].id == parent else id == 0 && capacity <= n) then m' == m && r == None
            else
              && r == Some(i) && |m'.entries| == (if i < n then n else n + 1)
              && (forall j :: 0 <= j < n && j != i ==> m'.entries[j] == m.entries[j])
              && (if i < n then m'.entries[i] == m.entries[i].(parent := parent) && m'.nextId == m.nextId
                  else
                    && m'.entries[n] == RegionEntry(if id == 0 then m.nextId else id, parent, REGION_DENY_FLOOD, Truncated(name))
                    && m'.nextId == if id == 0 then (m.nextId + 1) % 0x1_0000 else m.nextId)
              && (m'.homeId, m'.wildFlags) == (m.homeId, m.wildFlags)
  {
    hide SkipHash, IsName, Truncated;
    FirstIsFound(m.entries, name, i, 0);
  }

  lemma {:induction false} FirstIsFound(es: seq<RegionEntry>, name: string, i: nat, k: nat)
    requires k <= i <= |es| && forall j :: k <= j < i ==> SkipHash(es[j].name) != SkipHash(name)
    requires i < |es| ==> SkipHash(es[i].name) == SkipHash(name)
    ensures IndexOf(es, name, k) == i
  {
  }

  /** A removal that takes effect takes that entry, and leaves all others as they stand, in order. */
  lemma {:induction false} RemovesThatOne(m: Regions, i: nat)
    requires i < |m.entries| && DistinctIds(m.entries) && !HasChildren(m.entries, m.entries[i].id)
    ensures Removed(m, m.entries[i].id) == m.(entries := m.entries[..i] + m.entries[i + 1..])
  {
    hide HasChildren;
    assert IndexOfId(m.entries, m.entries[i].id, 0) == i;
  }

  lemma {:induction false} RemoveKeepsTidy(m: Regions, id: u16, capacity: nat)
    requires Tidy(m, capacity)
    ensures Tidy(Removed(m, id), capacity)
    ensures Removed(m, id) != m <==> id != 0 && HasId(m.entries, id) && !HasChildren(m.entries, id)
  {
    hide DistinctIds, ParentsPresent, IsName, HasChildren;
    var es, k := m.entries, IndexOfId(m.entries, id, 0);
    assert k < |es| <==> HasId(es, id);
    assert k < |es| ==> |es[..k] + es[k + 1..]| < |es|;
    if id != 0 && k < |es| && !HasChildren(es, id) {
      assert forall e :: e in es[..k] + es[k + 1..] ==> e in es;
      Deleted(es, k);
    }
  }

  lemma {:induction false} Deleted(es: seq<RegionEntry>, k: nat)
    requires DistinctIds(es) && ParentsPresent(es) && k < |es| && !HasChildren(es, es[k].id)
    ensures DistinctIds(es[..k] + es[k + 1..]) && ParentsPresent(es[..k] + es[k + 1..])
  {
    var es' := es[..k] + es[k + 1..];
    forall id: u16 | HasId(es, id) && id != es[k].id ensures HasId(es', id) {
      var j :| 0 <= j < |es| && es[j].id == id;
      assert es'[if j < k then j else j - 1].id == id;
    }
    hide HasId;
    forall i | 0 <= i < |es'| ensures es'[i].parent == 0 || HasId(es', es'[i].parent) {
      assert es'[i] == es[if i < k then i else i + 1];
    }
  }

  /** A path down the tree from a child of the root, as places in the table. */
  ghost predicate Chain(es: seq<RegionEntry>, p: seq<nat>) {
    && (forall k :: 0 <= k < |p| ==> p[k] < |es|)
    && (p != [] ==> es[p[0]].parent == 0)
    && forall j, k :: 0 <= j < k < |p| && k == j + 1 ==> es[p[k]].parent == es[p[j]].id
  }

  function TopId(es: seq<RegionEntry>, p: seq<nat>): u16
    requires Chain(es, p)
  {
    if p == [] then 0 else es[p[|p| - 1]].id
  }

  lemma {:induction false} ChainNeverRepeats(es: seq<RegionEntry>, p: seq<nat>, j: nat, k: nat)
    requires DistinctIds(es) && Chain(es, p) && j < k < |p|
    ensures p[j] != p[k]
  {
    if p[j] == p[k] {
      assert es[p[k]].parent == es[p[k - 1]].id;
      assert es[p[j]].parent == if j == 0 then 0 else es[p[j - 1]].id;
      if j > 0 {
        ChainNeverRepeats(es, p, j - 1, k - 1);
      }
    }
  }

  lemma {:induction false} DistinctFit(p: seq<nat>, n: nat)
    requires forall k :: 0 <= k < |p| ==> p[k] < n
    requires forall j, k :: 0 <= j < k < |p| ==> p[j] != p[k]
    ensures |p| <= n
  {
    if p != [] {
      assert p[0] < n;
      if exists k :: 0 <= k < |p| && p[k] == n - 1 {
        var k :| 0 <= k < |p| && p[k] == n - 1;
        DistinctFit(p[..k] + p[k + 1..], n - 1);
      } else {
        DistinctFit(p, n - 1);
      }
    }
  }

  lemma {:induction false} ChainIsShort(es: seq<RegionEntry>, p: seq<nat>)
    requires DistinctIds(es) && Chain(es, p)
    ensures |p| <= |es|
  {
    forall j, k | 0 <= j < k < |p| ensures p[j] != p[k] {
      ChainNeverRepeats(es, p, j, k);
    }
    DistinctFit(p, |es|);
  }

  /** The chains printed below p, from the i-th entry on, in printing order. */
  function RowsFrom(es: seq<RegionEntry>, p: seq<nat>, i: nat): seq<seq<nat>>
    requires DistinctIds(es) && Chain(es, p) && i <= |es|
    decreases |es| - |p|, |es| - i
  {
    ChainIsShort(es, p);
    if i == |es| then []
    else if es[i].parent == TopId(es, p) then
      ChainIsShort(es, p + [i]);
      [p + [i]] + RowsFrom(es, p + [i], 0) + RowsFrom(es, p, i + 1)
    else RowsFrom(es, p, i + 1)
  }

  function Rows(es: seq<RegionEntry>): seq<seq<nat>>
    requires DistinctIds(es)
  {
    RowsFrom(es, [], 0)
  }

  lemma {:induction false} NoRowsAtTheEnd(es: seq<RegionEntry>, p: seq<nat>)
    requires DistinctIds(es) && Chain(es, p)
    ensures RowsFrom(es, p, |es|) == []
  {
  }

  predicate Extends(q: seq<nat>, p: seq<nat>, i: nat) {
    |p| < |q| && q[..|p|] == p && i <= q[|p|]
  }

  lemma {:induction false} RowsUnfold(es: seq<RegionEntry>, p: seq<nat>, i: nat)
    requires DistinctIds(es) && Chain(es, p) && i < |es|
    ensures |p| <= |es|
    ensures if es[i].parent == TopId(es, p) then
              && |p| < |es| && Chain(es, p + [i])
              && RowsFrom(es, p, i) == [p + [i]] + RowsFrom(es, p + [i], 0) + RowsFrom(es, p, i + 1)
            else RowsFrom(es, p, i) == RowsFrom(es, p, i + 1)
  {
    hide Chain, DistinctIds;
    ChainIsShort(es, p);
    if es[i].parent == TopId(es, p) {
      ChainGrows(es, p, i);
      ChainIsShort(es, p + [i]);
    }
  }

  lemma {:induction false} ChainGrows(es: seq<RegionEntry>, p: seq<nat>, i: nat)
    requires Chain(es, p) && i < |es| && es[i].parent == TopId(es, p)
    ensures Chain(es, p + [i])
  {
  }

  lemma {:induction false} RowsAreChains(es: seq<RegionEntry>, p: seq<nat>, i: nat, k: nat)
    requires DistinctIds(es) && Chain(es, p) && i <= |es| && k < |RowsFrom(es, p, i)|
    ensures Chain(es, RowsFrom(es, p, i)[k]) && Extends(RowsFrom(es, p, i)[k], p, i)
    decreases |es| - |p|, |es| - i
  {
    hide RowsFrom, Chain, DistinctIds;
    if i == |es| { NoRowsAtTheEnd(es, p); }
    RowsUnfold(es, p, i);
    if es[i].parent == TopId(es, p) {
      var below := RowsFrom(es, p + [i], 0);
      if 0 < k <= |below| {
        RowsAreChains(es, p + [i], 0, k - 1);
        assert below[k - 1][..|p|] == below[k - 1][..|p| + 1][..|p|];
      } else if k > |below| {
        RowsAreChains(es, p, i + 1, k - |below| - 1);
      }
    } else {
      RowsAreChains(es, p, i + 1, k);
    }
  }

  lemma {:induction false} PrefixIsChain(es: seq<RegionEntry>, p: seq<nat>, k: nat)
    requires Chain(es, p) && k <= |p|
    ensures Chain(es, p[..k])
    ensures k < |p| ==> es[p[k]].parent == TopId(es, p[..k])
  {
  }

  /** Each entry has one parent, so at most one chain leads to it. */
  lemma {:induction false} OneChainEach(es: seq<RegionEntry>, p: seq<nat>, q: seq<nat>)
    requires DistinctIds(es) && Chain(es, p) && Chain(es, q) && p != [] && q != []
    requires p[|p| - 1] == q[|q| - 1]
    ensures p == q
  {
    hide Chain, DistinctIds, TopId;
    var p', q' := p[..|p| - 1], q[..|q| - 1];
    PrefixIsChain(es, p, |p| - 1);
    PrefixIsChain(es, q, |q| - 1);
    SameTop(es, p', q');
    if p' != [] {
      OneChainEach(es, p', q');
    }
    assert p == p' + [p[|p| - 1]] && q == q' + [q[|q| - 1]];
  }

  lemma {:induction false} SameTop(es: seq<RegionEntry>, p: seq<nat>, q: seq<nat>)
    requires DistinctIds(es) && Chain(es, p) && Chain(es, q) && TopId(es, p) == TopId(es, q)
    ensures p == [] <==> q == []
    ensures p != [] && q != [] ==> p[|p| - 1] == q[|q| - 1]
  {
  }

  predicate EndsIn(q: seq<nat>, r: nat) { q != [] && q[|q| - 1] == r }

  function CountEnding(rows: seq<seq<nat>>, r: nat): nat {
    if rows == [] then 0 else CountEnding(rows[1..], r) + if EndsIn(rows[0], r) then 1 else 0
  }

  lemma {:induction false} CountAppends(a: seq<seq<nat>>, b: seq<seq<nat>>, r: nat)
    ensures CountEnding(a + b, r) == CountEnding(a, r) + CountEnding(b, r)
  {
    if a == [] {
      assert a + b == b;
    } else {
      assert (a + b)[1..] == a[1..] + b;
      CountAppends(a[1..], b, r);
    }
  }

  lemma {:induction false} CountsItsChain(es: seq<RegionEntry>, p: seq<nat>, i: nat, q: seq<nat>, r: nat)
    requires DistinctIds(es) && Chain(es, p) && i <= |es| && Chain(es, q) && EndsIn(q, r)
    ensures CountEnding(RowsFrom(es, p, i), r) == if Extends(q, p, i) then 1 else 0
    decreases |es| - |p|, |es| - i
  {
    hide Chain, DistinctIds, RowsFrom, CountEnding;
    if i == |es| {
      NothingIsLeft(es, p, q, r);
    } else {
      RowsUnfold(es, p, i);
      CountsItsChain(es, p, i + 1, q, r);
      if |p| < |q| { PrefixIsChain(es, q, |p|); }
      if es[i].parent == TopId(es, p) {
        var c := p + [i];
        CountsItsChain(es, c, 0, q, r);
        CountAppends([c] + RowsFrom(es, c, 0), RowsFrom(es, p, i + 1), r);
        CountAppends([c], RowsFrom(es, c, 0), r);
        if EndsIn(c, r) { OneChainEach(es, c, q); }
        ExtendsSplits(q, p, i);
        CountsOneRow(c, r);
        assert EndsIn(c, r) <==> c == q;
      }
    }
  }

  lemma {:induction false} NothingIsLeft(es: seq<RegionEntry>, p: seq<nat>, q: seq<nat>, r: nat)
    requires DistinctIds(es) && Chain(es, p) && Chain(es, q)
    ensures CountEnding(RowsFrom(es, p, |es|), r) == 0 && !Extends(q, p, |es|)
  {
    hide DistinctIds;
  }

  lemma {:induction false} CountsOneRow(c: seq<nat>, r: nat)
    ensures CountEnding([c], r) == if EndsIn(c, r) then 1 else 0
  {
  }

  /** Below p from i on: the i-th entry itself, what is below it, or what comes after it. */
  lemma {:induction false} ExtendsSplits(q: seq<nat>, p: seq<nat>, i: nat)
    ensures Extends(q, p, i) <==> p + [i] == q || Extends(q, p + [i], 0) || Extends(q, p, i + 1)
    ensures !(p + [i] == q && Extends(q, p + [i], 0)) && !(p + [i] == q && Extends(q, p, i + 1))
    ensures !(Extends(q, p + [i], 0) && Extends(q, p, i + 1))
  {
    if |p| < |q| {
      assert q[..|p| + 1] == q[..|p|] + [q[|p|]];
      if |q| == |p| + 1 { assert q[..|p| + 1] == q; }
    }
  }

  ghost predicate Connected(es: seq<RegionEntry>, r: nat) {
    exists q: seq<nat> :: Chain(es, q) && EndsIn(q, r)
  }

  /** The printout has each region connected to the root once, and no other, whatever cycles there are. */
  lemma {:induction false} PrintsExactlyOnce(es: seq<RegionEntry>, r: nat)
    requires DistinctIds(es)
    ensures CountEnding(Rows(es), r) == if Connected(es, r) then 1 else 0
  {
    if q: seq<nat> :| Chain(es, q) && EndsIn(q, r) {
      CountsItsChain(es, [], 0, q, r);
    } else {
      forall k | 0 <= k < |Rows(es)| ensures !EndsIn(Rows(es)[k], r) {
        RowsAreChains(es, [], 0, k);
      }
      NoneEnding(Rows(es), r);
    }
  }

  lemma {:induction false} NoneEnding(rows: seq<seq<nat>>, r: nat)
    requires forall k :: 0 <= k < |rows| ==> !EndsIn(rows[k], r)
    ensures CountEnding(rows, r) == 0
  {
    if rows != [] {
      forall k | 0 <= k < |rows[1..]| ensures !EndsIn(rows[1..][k], r) {
        assert rows[1..][k] == rows[k + 1];
      }
      NoneEnding(rows[1..], r);
    }
  }

  // ---- The printout --------------------------------------------------------------------------

  function Spaces(n: nat): (s: string)
    ensures |s| == n && forall i :: 0 <= i < n ==> s[i] == ' '
  {
    seq(n, _ => ' ')
  }

  function LineOf(indent: nat, e: RegionEntry, homeId: u16): string {
    Spaces(indent) + SkipHash(e.name) + (if e.id == homeId then "^" else "") + if DeniesFlood(e.flags) then "" else " F"
  }

  function Root(m: Regions): RegionEntry {
    RegionEntry(0, 0, m.wildFlags, "*")
  }

  /** The entry a chain leads to; the empty chain leads to the root. */
  function EntryAt(m: Regions, q: seq<nat>): RegionEntry {
    if q != [] && q[|q| - 1] < |m.entries| then m.entries[q[|q| - 1]] else Root(m)
  }

  function LinesOf(m: Regions, rows: seq<seq<nat>>): seq<string> {
    seq(|rows|, k requires 0 <= k < |rows| => LineOf(|rows[k]|, EntryAt(m, rows[k]), m.homeId))
  }

  lemma {:induction false} LinesOfBranch(m: Regions, done: seq<seq<nat>>, c: seq<nat>, below: seq<seq<nat>>)
    ensures LinesOf(m, []) == []
    ensures LinesOf(m, done + ([c] + below)) == LinesOf(m, done) + ([LineOf(|c|, EntryAt(m, c), m.homeId)] + LinesOf(m, below))
  {
  }

  function Export(m: Regions): seq<string>
    requires DistinctIds(m.entries)
  {
    [LineOf(0, Root(m), m.homeId)] + LinesOf(m, Rows(m.entries))
  }

  // ---- The object ----------------------------------------------------------------------------

  datatype Found = Wildcard | At(i: nat) | Missing

  class RegionMap {
    const entries: array<RegionEntry>
    var numRegions: nat
    var nextId: u16
    var homeId: u16
    var defaultId: u16
    var wildFlags: u8

    ghost predicate Valid()
      reads this
    {
      numRegions <= entries.Length
    }

    ghost function Value(): Regions
      reads this, entries
      requires Valid()
    {
      Regions(entries[..numRegions], nextId, homeId, defaultId, wildFlags)
    }

    constructor (capacity: nat)
      ensures Valid() && fresh(entries) && entries.Length == capacity && Value() == Regions([], 1, 0, 0, 0)
    {
      entries := new RegionEntry[capacity](_ => NO_ENTRY);
      numRegions, nextId, homeId, defaultId, wildFlags := 0, 1, 0, 0, 0;
    }

    method ResetFrom(src: RegionMap)
      requires Valid()
      modifies this
      ensures Valid() && Value() == old(Value()).(entries := [], nextId := old(src.nextId))
    {
      numRegions, nextId := 0, src.nextId;
    }

    method FindByName(name: string) returns (found: Found)
      requires Valid()
      ensures found == if name == "*" then Wildcard
                       else if IndexOf(Value().entries, name, 0) < numRegions then At(IndexOf(Value().entries, name, 0))
                       else Missing
    {
      if name == "*" { return Wildcard; }
      var name' := SkipHash(name);
      for i := 0 to numRegions
        invariant IndexOf(entries[..numRegions], name, 0) == IndexOf(entries[..numRegions], name, i)
      {
        if name' == SkipHash(entries[i].name) { return At(i); }
      }
      return Missing;
    }

    /** The table slot past the last is taken without a check for a caller that brings its own id. */
    method PutRegion(name: string, parentId: u16, id: u16) returns (region: Option<nat>)
      requires Valid()
      requires id != 0 && IndexOf(Value().entries, name, 0) == numRegions ==> numRegions < entries.Length
      modifies this, entries
      ensures Valid() && (Value(), region) == Put(old(Value()), name, parentId, id, entries.Length)
      ensures if region.Some? then region.value < numRegions else Value() == old(Value())
    {
      hide SkipHash, Truncated;
      ghost var was := Value();
      for i := 0 to |name|
        invariant forall j :: 0 <= j < i ==> IsNameChar(name[j])
      {
        if !IsNameChar(name[i]) { return None; }
      }
      assert |name| > 0 ==> IsNameChar(name[0]);
      assert !IsNameChar('*');
      var found := FindByName(name);
      if found.At? {
        if entries[found.i].id == parentId { return None; }
        entries[found.i] := entries[found.i].(parent := parentId);
        assert entries[..numRegions] == was.entries[found.i := entries[found.i]];
        return Some(found.i);
      }
      if id == 0 && numRegions >= entries.Length { return None; }
      entries[numRegions] := RegionEntry(if id == 0 then nextId else id, parentId, REGION_DENY_FLOOD, Truncated(name));
      region := Some(numRegions);
      numRegions := numRegions + 1;
      if id == 0 { nextId := (nextId + 1) % 0x1_0000; }
      assert entries[..numRegions] == was.entries + [entries[numRegions - 1]];
    }

    method RemoveRegion(id: u16) returns (ok: bool)
      requires Valid()
      modifies this`numRegions, entries
      ensures Valid() && Value() == Removed(old(Value()), id)
      ensures ok <==> id != 0 && HasId(old(Value()).entries, id) && !HasChildren(old(Value()).entries, id)
    {
      hide HasId, HasChildren, IndexOfId;
      if id == 0 { return false; }
      var parent := IsParent(id);
      var i := FindSlot(id);
      if parent || i >= numRegions { return false; }
      CloseGap(i);
      numRegions := numRegions - 1;
      ok := true;
    }

    method IsParent(id: u16) returns (found: bool)
      requires Valid()
      ensures found <==> HasChildren(Value().entries, id)
    {
      for i := 0 to numRegions
        invariant forall j :: 0 <= j < i ==> entries[j].parent != id
      {
        if entries[i].parent == id {
          assert Value().entries[i].parent == id;
          return true;
        }
      }
      found := false;
    }

    method FindSlot(id: u16) returns (i: nat)
      requires Valid()
      ensures i == IndexOfId(Value().entries, id, 0)
      ensures i < numRegions <==> HasId(Value().entries, id)
    {
      ghost var es := Value().entries;
      i := 0;
      while i < numRegions
        invariant i <= numRegions && IndexOfId(es, id, 0) == IndexOfId(es, id, i)
      {
        if entries[i].id == id {
          assert es[i].id == id;
          return;
        }
        i := i + 1;
      }
    }

    method CloseGap(k: nat)
      requires Valid() && k < numRegions
      modifies entries
      ensures entries[..numRegions - 1] == old(entries[..k]) + old(entries[k + 1..numRegions])
    {
      ghost var was := entries[..];
      for i := k to numRegions - 1
        invariant forall j :: 0 <= j < k ==> entries[j] == was[j]
        invariant forall j :: k <= j < i ==> entries[j] == was[j + 1]
        invariant forall j :: i <= j < numRegions ==> entries[j] == was[j]
      {
        entries[i] := entries[i + 1];
      }
    }

    /** The line of this region and those of everything below it; path names the way down to it. */
    method PrintChildRegions(indent: nat, parent: RegionEntry, ghost path: seq<nat>) returns (lines: seq<string>)
      requires Valid() && DistinctIds(Value().entries) && Chain(Value().entries, path)
      requires |path| == indent && TopId(Value().entries, path) == parent.id
      ensures lines == [LineOf(indent, parent, homeId)] + LinesOf(Value(), RowsFrom(Value().entries, path, 0))
      decreases numRegions - |path|
    {
      hide LineOf, DistinctIds, Chain, LinesOf, RowsFrom;
      ghost var m := Value();
      ghost var rows: seq<seq<nat>> := RowsFrom(m.entries, path, 0);
      lines := [LineOf(indent, parent, homeId)];
      ghost var done: seq<seq<nat>> := [];
      LinesOfBranch(m, [], path, []);
      for i := 0 to numRegions
        invariant rows == done + RowsFrom(m.entries, path, i)
        invariant lines == [LineOf(indent, parent, homeId)] + LinesOf(m, done)
      {
        RowsUnfold(m.entries, path, i);
        if entries[i].parent == parent.id {
          ghost var c, below := path + [i], RowsFrom(m.entries, path + [i], 0);
          var more := PrintChildRegions(indent + 1, entries[i], c);
          LinesOfBranch(m, done, c, below);
          lines := lines + more;
          done := done + ([c] + below);
        }
      }
      NoRowsAtTheEnd(m.entries, path);
      assert rows == done;
    }

    method ExportTo() returns (lines: seq<string>)
      requires Valid() && DistinctIds(Value().entries)
      ensures lines == Export(Value())
    {
      lines := PrintChildRegions(0, RegionEntry(0, 0, wildFlags, "*"), []);
    }
  }
}
