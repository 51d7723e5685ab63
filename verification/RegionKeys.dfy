/**
 * Transport keys of regions, cached by region id, along runs of everything that edits the
 * region map: a cached key stays the key of the region that has the id.
 *
 * The hash is a parameter throughout.
 */
module RegionKeys {
  import opened Words
  import opened Wrappers
  import opened RegionMap
  import opened RegionText

  const MAX_TKS_ENTRIES := 16

  type Key = seq<u8>
  type Hash = string -> Key

  datatype CachedKey = CachedKey(id: u16, key: Key)

  type Cache = seq<CachedKey>

  // ---- The key store ---------------------------------------------------------------------------

  /** The first cached key from k on for this id, or the number of cached keys. */
  function CacheIndex(cache: Cache, id: u16, k: nat): (i: nat)
    requires k <= |cache|
    ensures k <= i <= |cache| && (i < |cache| ==> cache[i].id == id)
    ensures forall j :: k <= j < i ==> cache[j].id != id
    decreases |cache| - k
  {
    if k == |cache| || cache[k].id == id then k else CacheIndex(cache, id, k + 1)
  }

  function AutoKey(cache: Cache, id: u16, name: string, hash: Hash): (Key, Cache) {
    var i := CacheIndex(cache, id, 0);
    if i < |cache| then (cache[i].key, cache)
    else (hash(name), if |cache| < MAX_TKS_ENTRIES then cache + [CachedKey(id, hash(name))] else cache)
  }

  function CachedKeys(cache: Cache, id: u16, max: nat): seq<Key> {
    if cache == [] then []
    else
      var before := CachedKeys(cache[..|cache| - 1], id, max);
      var c := cache[|cache| - 1];
      if |before| < max && c.id == id then before + [c.key] else before
  }

  predicate IsPrivate(name: string) { name != [] && name[0] == '$' }

  /** What a region's key is the hash of. */
  function TagName(name: string): string {
    if name != [] && name[0] == '#' then name else "#" + name
  }

  function KeysFor(cache: Cache, e: RegionEntry, max: nat, hash: Hash): (seq<Key>, Cache) {
    if IsPrivate(e.name) then (CachedKeys(cache, e.id, max), cache)
    else
      var (key, cache') := AutoKey(cache, e.id, TagName(e.name), hash);
      ([key], cache')
  }

  class TransportKeyStore {
    const cacheIds: array<u16>
    const cacheKeys: array<Key>
    var numCache: nat

    ghost predicate Valid()
      reads this
    {
      numCache <= cacheIds.Length == cacheKeys.Length == MAX_TKS_ENTRIES
    }

    ghost function Value(): Cache
      reads this, cacheIds, cacheKeys
      requires Valid()
    {
      seq(numCache, i requires 0 <= i < numCache reads this, cacheIds, cacheKeys requires Valid() => CachedKey(cacheIds[i], cacheKeys[i]))
    }

    constructor ()
      ensures Valid() && fresh(cacheIds) && fresh(cacheKeys) && Value() == []
    {
      cacheIds := new u16[MAX_TKS_ENTRIES](_ => 0);
      cacheKeys := new Key[MAX_TKS_ENTRIES](_ => []);
      numCache := 0;
    }

    method PutCache(id: u16, key: Key)
      requires Valid()
      modifies this, cacheIds, cacheKeys
      ensures Valid()
      ensures Value() == if |old(Value())| < MAX_TKS_ENTRIES then old(Value()) + [CachedKey(id, key)] else old(Value())
    {
      if numCache < MAX_TKS_ENTRIES {
        cacheIds[numCache] := id;
        cacheKeys[numCache] := key;
        numCache := numCache + 1;
      }
    }

    method GetAutoKeyFor(id: u16, name: string, hash: Hash) returns (dest: Key)
      requires Valid()
      modifies this, cacheIds, cacheKeys
      ensures Valid() && (dest, Value()) == AutoKey(old(Value()), id, name, hash)
    {
      ghost var was := Value();
      for i := 0 to numCache
        invariant Valid() && Value() == was && CacheIndex(was, id, 0) == CacheIndex(was, id, i)
      {
        if cacheIds[i] == id { return cacheKeys[i]; }
      }
      dest := hash(name);
      PutCache(id, dest);
    }

    method LoadKeysFor(id: u16, max: nat) returns (keys: seq<Key>)
      requires Valid()
      ensures keys == CachedKeys(Value(), id, max)
    {
      keys := [];
      ghost var cache := Value();
      var i := 0;
      while i < numCache && |keys| < max
        invariant i <= numCache && keys == CachedKeys(cache[..i], id, max)
      {
        assert cache[..i + 1][..i] == cache[..i];
        if cacheIds[i] == id { keys := keys + [cacheKeys[i]]; }
        i := i + 1;
      }
      FullIsFull(cache, id, max, i);
    }

    method GetTransportKeysFor(src: RegionEntry, max: nat, hash: Hash) returns (dest: seq<Key>)
      requires Valid()
      modifies this, cacheIds, cacheKeys
      ensures Valid() && (dest, Value()) == KeysFor(old(Value()), src, max, hash)
    {
      if src.name != [] && src.name[0] == '$' {
        dest := LoadKeysFor(src.id, max);
      } else {
        var name := if src.name != [] && src.name[0] == '#' then src.name else "#" + src.name;
        var key := GetAutoKeyFor(src.id, name, hash);
        dest := [key];
      }
    }
  }

  lemma {:induction false} FullIsFull(cache: Cache, id: u16, max: nat, i: nat)
    requires i <= |cache| && (i == |cache| || |CachedKeys(cache[..i], id, max)| >= max)
    ensures CachedKeys(cache, id, max) == CachedKeys(cache[..i], id, max)
    decreases |cache|
  {
    if i < |cache| {
      assert cache[..|cache| - 1][..i] == cache[..i];
      FullIsFull(cache[..|cache| - 1], id, max, i);
    } else {
      assert cache[..i] == cache;
    }
  }

  function KeysOf(cache: Cache, id: u16): seq<Key> {
    if cache == [] then []
    else KeysOf(cache[..|cache| - 1], id) + if cache[|cache| - 1].id == id then [cache[|cache| - 1].key] else []
  }

  /** A private region's keys are the first that are cached under its id, as many as asked for. */
  lemma {:induction false} FirstKeysOf(cache: Cache, id: u16, max: nat)
    ensures var all := KeysOf(cache, id);
            CachedKeys(cache, id, max) == if max < |all| then all[..max] else all
  {
    if cache != [] {
      FirstKeysOf(cache[..|cache| - 1], id, max);
    }
  }

  /** A private region's name is never hashed: its keys are the first cached under its id. */
  lemma {:induction false} PrivateKeysAreCached(cache: Cache, e: RegionEntry, max: nat, hash: Hash)
    requires e.name != [] && e.name[0] == '$'
    ensures var all := KeysOf(cache, e.id);
            KeysFor(cache, e, max, hash) == (if max < |all| then all[..max] else all, cache)
  {
    FirstKeysOf(cache, e.id, max);
  }

  /** No more than 16 keys are kept. */
  lemma {:induction false} CacheIsBounded(cache: Cache, e: RegionEntry, max: nat, hash: Hash)
    requires |cache| <= 16
    ensures cache <= KeysFor(cache, e, max, hash).1 && |KeysFor(cache, e, max, hash).1| <= 16
  {
  }

  /** While there is room a key is worked out once: whatever is asked under that id later gets the same. */
  lemma {:induction false} KeysAreKept(cache: Cache, id: u16, name: string, hash: Hash, later: string, laterHash: Hash)
    requires |cache| < MAX_TKS_ENTRIES
    ensures var (key, cache') := AutoKey(cache, id, name, hash);
            AutoKey(cache', id, later, laterHash) == (key, cache')
  {
    var (key, cache') := AutoKey(cache, id, name, hash);
    var i := CacheIndex(cache, id, 0);
    if i == |cache| {
      assert forall j :: 0 <= j < i ==> cache'[j] == cache[j];
      assert cache'[i].id == id;
    }
  }

  // ---- Runs --------------------------------------------------------------------------------------

  datatype Event =
    | PutUnder(name: string, parent: u16)
    | Remove(id: u16)
    | SetFlags(i: nat, flags: u8)
    | StartLoad
    | Line(line: string)
    | Lookup(i: nat, max: nat)

  // names remembers what every id that was ever in the live map stands for.
  datatype World = World(l: Loader, cache: Cache, names: map<u16, string>)

  function Learned(names: map<u16, string>, es: seq<RegionEntry>): map<u16, string> {
    if es == [] then names
    else Learned(names, es[..|es| - 1])[es[|es| - 1].id := SkipHash(es[|es| - 1].name)]
  }

  /** While a load is under way commands are lines of it; look-ups go on. */
  function Step(w: World, e: Event, capacity: nat, hash: Hash): World
    requires |w.l.stack| == LOAD_DEPTH
  {
    var live := w.l.live;
    match e
    case Lookup(i, max) =>
      if i < |live.entries| then w.(cache := KeysFor(w.cache, live.entries[i], max, hash).1) else w
    case Line(line) =>
      if w.l.active then
        var l := LoadLine(w.l, line, capacity);
        w.(l := l, names := if ParseLine(line).Blank? then Learned(w.names, l.live.entries) else w.names)
      else w
    case PutUnder(name, parent) =>
      if w.l.active then w
      else
        var live' := Put(live, name, parent, 0, capacity).0;
        w.(l := w.l.(live := live'), names := Learned(w.names, live'.entries))
    case Remove(id) => if w.l.active then w else w.(l := w.l.(live := Removed(live, id)))
    case SetFlags(i, flags) =>
      if w.l.active || i >= |live.entries| then w
      else w.(l := w.l.(live := live.(entries := live.entries[i := live.entries[i].(flags := flags)])))
    case StartLoad => if w.l.active then w else w.(l := Started(w.l))
  }

  /** A row goes into the map being built: its depth is the loader's, and something stands above it. */
  predicate Lands(l: Loader, indent: nat, name: string) {
    0 < indent < LOAD_DEPTH && name != [] && indent - 1 < |l.stack| && l.stack[indent - 1] != Nowhere
  }

  /** A region the live map knows, not loaded yet: its row brings the known id. */
  predicate BringsId(l: Loader, name: string) {
    KnownId(l.live, name) != 0 && IndexOf(l.temp.entries, name, 0) == |l.temp.entries|
  }

  /** Such a row is not refused when the table is full. */
  predicate Overruns(l: Loader, name: string, capacity: nat) {
    BringsId(l, name) && |l.temp.entries| == capacity
  }

  /** Such a row's name is cut with its '#'. */
  predicate CutsName(l: Loader, name: string) {
    BringsId(l, name) && |name| > NAME_CHARS
  }

  /** Parents are regions there are, ids have not run out, and no known region's row overruns the table or is cut. */
  predicate Sound(w: World, e: Event, capacity: nat) {
    match e
    case PutUnder(_, parent) => (parent == 0 || HasId(w.l.live.entries, parent)) && w.l.live.nextId < 0xFFFF
    case Line(line) =>
      var p := ParseLine(line);
      p.Row? && Lands(w.l, p.indent, p.name) ==>
        w.l.temp.nextId < 0xFFFF && !CutsName(w.l, p.name) && !Overruns(w.l, p.name, capacity)
    case _ => true
  }

  predicate Named(names: map<u16, string>, es: seq<RegionEntry>, below: nat) {
    forall i :: 0 <= i < |es| && es[i].id < below ==> es[i].id in names && names[es[i].id] == SkipHash(es[i].name)
  }

  predicate CacheOk(cache: Cache, names: map<u16, string>, hash: Hash) {
    forall i :: 0 <= i < |cache| ==> cache[i].id in names && cache[i].key == hash("#" + names[cache[i].id])
  }

  /** An old id in the map being built is that of a live region by the same name. */
  predicate Tied(temp: seq<RegionEntry>, live: Regions) {
    forall i :: 0 <= i < |temp| && temp[i].id < live.nextId ==> KnownByName(temp[i], live.entries)
  }

  predicate KnownByName(e: RegionEntry, live: seq<RegionEntry>) {
    exists o :: 0 <= o < |live| && live[o].id == e.id && SkipHash(live[o].name) == SkipHash(e.name)
  }

  predicate StackOk(stack: seq<Place>, n: nat) {
    |stack| == LOAD_DEPTH && forall d :: 0 <= d < |stack| && stack[d].AtEntry? ==> stack[d].i < n
  }

  predicate LoadOk(l: Loader, capacity: nat) {
    && Tidy(l.temp, capacity) && l.live.nextId <= l.temp.nextId
    && Tied(l.temp.entries, l.live) && StackOk(l.stack, |l.temp.entries|)
  }

  ghost predicate Ok(w: World, capacity: nat, hash: Hash) {
    && Tidy(w.l.live, capacity) && 0 < w.l.live.nextId
    && Named(w.names, w.l.live.entries, 0x1_0000)
    && (forall id :: id in w.names ==> id < w.l.live.nextId)
    && CacheOk(w.cache, w.names, hash) && |w.l.stack| == LOAD_DEPTH
    && (w.l.active ==> LoadOk(w.l, capacity))
  }

  /** A plain or hashtag region's key, cached or not, is the hash of '#' and its name without one leading '#'. */
  lemma {:induction false} KeyIsItsHash(w: World, i: nat, max: nat, capacity: nat, hash: Hash)
    requires Ok(w, capacity, hash) && i < |w.l.live.entries| && !IsPrivate(w.l.live.entries[i].name)
    ensures KeysFor(w.cache, w.l.live.entries[i], max, hash).0 == [hash("#" + SkipHash(w.l.live.entries[i].name))]
  {
    var e := w.l.live.entries[i];
    assert TagName(e.name) == "#" + SkipHash(e.name);
  }

  // ---- Every step keeps it -------------------------------------------------------------------

  predicate Agrees(names: map<u16, string>, es: seq<RegionEntry>) {
    forall i :: 0 <= i < |es| && es[i].id in names ==> names[es[i].id] == SkipHash(es[i].name)
  }

  predicate Extended(names: map<u16, string>, names': map<u16, string>) {
    forall id :: id in names ==> id in names' && names'[id] == names[id]
  }

  lemma {:induction false} LastIdIsNew(es: seq<RegionEntry>)
    requires DistinctIds(es) && es != []
    ensures DistinctIds(es[..|es| - 1]) && !HasId(es[..|es| - 1], es[|es| - 1].id)
  {
  }

  lemma {:induction false} LearnedExtends(names: map<u16, string>, es: seq<RegionEntry>)
    requires DistinctIds(es) && Agrees(names, es)
    ensures Extended(names, Learned(names, es)) && Named(Learned(names, es), es, 0x1_0000)
    ensures forall id :: id in Learned(names, es) ==> id in names || HasId(es, id)
  {
    hide SkipHash, DistinctIds, HasId;
    if es != [] {
      var front, e := es[..|es| - 1], es[|es| - 1];
      LastIdIsNew(es);
      assert forall i :: 0 <= i < |front| ==> front[i] == es[i];
      LearnedExtends(names, front);
      assert es == front + [e];
      LearnsOneMore(names, Learned(names, front), front, e);
    }
  }

  lemma {:induction false} LearnsOneMore(names: map<u16, string>, before: map<u16, string>, front: seq<RegionEntry>, e: RegionEntry)
    requires Extended(names, before) && Named(before, front, 0x1_0000) && Agrees(names, front + [e]) && !HasId(front, e.id)
    requires forall id :: id in before ==> id in names || HasId(front, id)
    ensures var after := before[e.id := SkipHash(e.name)];
            && Extended(names, after) && Named(after, front + [e], 0x1_0000)
            && forall id :: id in after ==> id in names || HasId(front + [e], id)
  {
    hide SkipHash;
    var es, after := front + [e], before[e.id := SkipHash(e.name)];
    assert es[|front|] == e;
    assert Named(after, es, 0x1_0000) by {
      forall i | 0 <= i < |es| && es[i].id < 0x1_0000 ensures es[i].id in after && after[es[i].id] == SkipHash(es[i].name) {
        assert i < |front| ==> es[i] == front[i] && HasId(front, es[i].id);
      }
    }
    forall id | id in after ensures id in names || HasId(es, id) {
      if HasId(front, id) {
        var i :| 0 <= i < |front| && front[i].id == id;
        assert es[i].id == id;
      }
    }
  }

  lemma {:induction false} CacheStaysOk(cache: Cache, names: map<u16, string>, names': map<u16, string>, hash: Hash)
    requires CacheOk(cache, names, hash) && Extended(names, names')
    ensures CacheOk(cache, names', hash)
  {
  }

  /** The live map becomes m; every region in it is new or keeps what its id stands for. */
  lemma {:induction false} LearnsLive(w: World, m: Regions, capacity: nat, hash: Hash)
    requires Ok(w, capacity, hash) && Tidy(m, capacity) && w.l.live.nextId <= m.nextId && Agrees(w.names, m.entries)
    ensures Ok(World(w.l.(live := m, active := false), w.cache, Learned(w.names, m.entries)), capacity, hash)
  {
    LearnedExtends(w.names, m.entries);
    CacheStaysOk(w.cache, w.names, Learned(w.names, m.entries), hash);
    forall id | id in Learned(w.names, m.entries) ensures id < m.nextId {
      if id !in w.names { assert HasId(m.entries, id); }
    }
  }

  lemma {:induction false} PutAgrees(w: World, name: string, parent: u16, capacity: nat, hash: Hash)
    requires Ok(w, capacity, hash) && Sound(w, PutUnder(name, parent), capacity)
    ensures Agrees(w.names, Put(w.l.live, name, parent, 0, capacity).0.entries)
    ensures w.l.live.nextId <= Put(w.l.live, name, parent, 0, capacity).0.nextId
  {
    hide Tidy, CacheOk, LoadOk, IsName, IndexOf, Truncated, SkipHash;
    var es, es' := w.l.live.entries, Put(w.l.live, name, parent, 0, capacity).0.entries;
    forall i | 0 <= i < |es'| && es'[i].id in w.names ensures w.names[es'[i].id] == SkipHash(es'[i].name) {
      if i < |es| { assert es'[i].id == es[i].id && es'[i].name == es[i].name; }
    }
  }

  lemma {:induction false} CommitAgrees(w: World, capacity: nat, hash: Hash)
    requires Ok(w, capacity, hash) && w.l.active
    ensures Agrees(w.names, w.l.temp.entries)
  {
    hide SkipHash, Tidy, CacheOk, StackOk;
    var temp, live := w.l.temp.entries, w.l.live.entries;
    forall i | 0 <= i < |temp| && temp[i].id in w.names ensures w.names[temp[i].id] == SkipHash(temp[i].name) {
      assert KnownByName(temp[i], live);
      var o :| 0 <= o < |live| && live[o].id == temp[i].id && SkipHash(live[o].name) == SkipHash(temp[i].name);
      assert w.names[live[o].id] == SkipHash(live[o].name);
    }
  }

  /** The live id brought for a row is not one of a region already loaded under another name. */
  lemma {:induction false} KnownIdIsUnused(l: Loader, name: string, capacity: nat)
    requires Tidy(l.live, capacity) && Tied(l.temp.entries, l.live) && KnownId(l.live, name) != 0
    requires IndexOf(l.temp.entries, name, 0) == |l.temp.entries|
    ensures !HasId(l.temp.entries, KnownId(l.live, name))
  {
    var temp, live, o := l.temp.entries, l.live.entries, IndexOf(l.live.entries, name, 0);
    forall i | 0 <= i < |temp| ensures temp[i].id != live[o].id {
      assert temp[i].id < l.live.nextId ==> KnownByName(temp[i], live);
    }
  }

  lemma {:induction false} GraftKeepsTidy(l: Loader, indent: nat, name: string, flood: bool, capacity: nat)
    requires Tidy(l.live, capacity) && Tidy(l.temp, capacity) && 0 < l.live.nextId <= l.temp.nextId < 0xFFFF
    requires Tied(l.temp.entries, l.live) && StackOk(l.stack, |l.temp.entries|)
    requires !Overruns(l, name, capacity) && Lands(l, indent, name)
    ensures Tidy(Put(l.temp, name, IdAt(l.temp, l.stack[indent - 1]), KnownId(l.live, name), capacity).0, capacity)
  {
    var parent := l.stack[indent - 1];
    var parentId, id := IdAt(l.temp, parent), KnownId(l.live, name);
    assert parentId == 0 || HasId(l.temp.entries, parentId) by {
      if parent.AtEntry? { assert l.temp.entries[parent.i].id == parentId; }
    }
    if id != 0 && IndexOf(l.temp.entries, name, 0) == |l.temp.entries| {
      KnownIdIsUnused(l, name, capacity);
    }
    KnownIdIsOld(l.live, name);
    hide Tied, StackOk, KnownId, IndexOf, HasId;
    PutKeepsTidy(l.temp, name, parentId, id, capacity);
  }

  lemma {:induction false} PutStaysTied(temp: Regions, live: Regions, name: string, parentId: u16, capacity: nat)
    requires Tied(temp.entries, live) && live.nextId <= temp.nextId < 0xFFFF
    requires KnownId(live, name) != 0 && IndexOf(temp.entries, name, 0) == |temp.entries| ==> |name| <= NAME_CHARS
    ensures Tied(Put(temp, name, parentId, KnownId(live, name), capacity).0.entries, live)
  {
    var es, es', o := temp.entries, Put(temp, name, parentId, KnownId(live, name), capacity).0.entries, IndexOf(live.entries, name, 0);
    forall i | 0 <= i < |es'| && es'[i].id < live.nextId ensures KnownByName(es'[i], live.entries) {
      if i < |es| {
        assert es'[i].id == es[i].id && es'[i].name == es[i].name;
        assert KnownByName(es[i], live.entries);
      } else {
        assert live.entries[o].id == es'[i].id;
      }
    }
  }

  lemma {:induction false} NewFlagsKeepTidy(m: Regions, i: nat, flags: u8, capacity: nat)
    requires Tidy(m, capacity) && i < |m.entries|
    ensures Tidy(m.(entries := m.entries[i := m.entries[i].(flags := flags)]), capacity)
  {
    var es' := m.entries[i := m.entries[i].(flags := flags)];
    forall id: u16 | HasId(m.entries, id) ensures HasId(es', id) {
      var j :| 0 <= j < |m.entries| && m.entries[j].id == id;
      assert es'[j].id == id;
    }
    hide IsName, HasId;
  }

  lemma {:induction false} NewFlagsStayTied(es: seq<RegionEntry>, live: Regions, i: nat, flags: u8)
    requires Tied(es, live) && i < |es|
    ensures Tied(es[i := es[i].(flags := flags)], live)
  {
    var es' := es[i := es[i].(flags := flags)];
    forall j | 0 <= j < |es'| && es'[j].id < live.nextId ensures KnownByName(es'[j], live.entries) {
      assert KnownByName(es[j], live.entries);
    }
  }

  lemma {:induction false} PutGrows(m: Regions, name: string, parent: u16, id: u16, capacity: nat)
    requires m.nextId < 0xFFFF
    ensures var m' := Put(m, name, parent, id, capacity).0; m.nextId <= m'.nextId && |m.entries| <= |m'.entries|
  {
  }

  lemma {:induction false} GraftKeepsLoadOk(l: Loader, indent: nat, name: string, flood: bool, capacity: nat)
    requires Tidy(l.live, capacity) && LoadOk(l, capacity) && 0 < l.live.nextId
    requires Lands(l, indent, name) ==> l.temp.nextId < 0xFFFF && !CutsName(l, name) && !Overruns(l, name, capacity)
    ensures Grafted(l, indent, name, flood, capacity).live == l.live && Grafted(l, indent, name, flood, capacity).active == l.active
    ensures LoadOk(Grafted(l, indent, name, flood, capacity), capacity)
  {
    hide Tidy, Tied, KnownId, IndexOf, IdAt, Put, KnownFlags;
    if Lands(l, indent, name) {
      var parentId := IdAt(l.temp, l.stack[indent - 1]);
      var (temp, r) := Put(l.temp, name, parentId, KnownId(l.live, name), capacity);
      PutGrows(l.temp, name, parentId, KnownId(l.live, name), capacity);
      GraftKeepsTidy(l, indent, name, flood, capacity);
      PutStaysTied(l.temp, l.live, name, parentId, capacity);
      if r.Some? && r.value < |temp.entries| {
        NewFlagsKeepTidy(temp, r.value, KnownFlags(l.live, name, flood), capacity);
        NewFlagsStayTied(temp.entries, l.live, r.value, KnownFlags(l.live, name, flood));
      }
    }
  }

  lemma {:induction false} RowKeepsOk(w: World, line: string, capacity: nat, hash: Hash)
    requires Ok(w, capacity, hash) && w.l.active && ParseLine(line).Row? && Sound(w, Line(line), capacity)
    ensures Ok(w.(l := LoadLine(w.l, line, capacity)), capacity, hash)
  {
    hide ParseLine, LoadOk, Tidy, Grafted, CacheOk, Named, Lands, CutsName, Overruns;
    var Row(indent, name, flood) := ParseLine(line);
    GraftKeepsLoadOk(w.l, indent, name, flood, capacity);
    assert |Grafted(w.l, indent, name, flood, capacity).stack| == LOAD_DEPTH by { GraftedStack(w.l, indent, name, flood, capacity); }
  }

  lemma {:induction false} GraftedStack(l: Loader, indent: nat, name: string, flood: bool, capacity: nat)
    requires |l.stack| == LOAD_DEPTH
    ensures |Grafted(l, indent, name, flood, capacity).stack| == LOAD_DEPTH
  {
  }

  lemma {:induction false} LookupKeepsOk(w: World, i: nat, max: nat, capacity: nat, hash: Hash)
    requires Ok(w, capacity, hash)
    ensures Ok(Step(w, Lookup(i, max), capacity, hash), capacity, hash)
  {
    if i < |w.l.live.entries| {
      var e := w.l.live.entries[i];
      assert TagName(e.name) == "#" + SkipHash(e.name);
      assert e.id in w.names && w.names[e.id] == SkipHash(e.name);
    }
  }

  lemma {:induction false} StepKeepsOk(w: World, e: Event, capacity: nat, hash: Hash)
    requires Ok(w, capacity, hash) && Sound(w, e, capacity)
    ensures Ok(Step(w, e, capacity, hash), capacity, hash)
  {
    var live := w.l.live;
    assert Tidy(live, capacity) && LoadOk(Started(w.l), capacity);
    hide Tidy, LoadOk, CacheOk, SkipHash, Put, Removed, Learned;
    match e {
      case Lookup(i, max) => LookupKeepsOk(w, i, max, capacity, hash);
      case Line(line) =>
        if w.l.active {
          LineKeepsOk(w, line, capacity, hash);
        }
      case PutUnder(name, parent) =>
        if !w.l.active {
          PutKeepsTidy(live, name, parent, 0, capacity);
          PutAgrees(w, name, parent, capacity, hash);
          LearnsLive(w, Put(live, name, parent, 0, capacity).0, capacity, hash);
        }
      case Remove(id) =>
        if !w.l.active { RemoveKeepsOk(w, id, capacity, hash); }
      case SetFlags(i, flags) =>
        if !w.l.active && i < |live.entries| {
          NewFlagsKeepTidy(live, i, flags, capacity);
          assert Named(w.names, live.entries[i := live.entries[i].(flags := flags)], 0x1_0000);
        }
      case StartLoad =>
        if !w.l.active { assert LoadOk(Started(w.l), capacity); }
    }
  }

  lemma {:induction false} RemoveKeepsOk(w: World, id: u16, capacity: nat, hash: Hash)
    requires Ok(w, capacity, hash) && !w.l.active
    ensures Ok(w.(l := w.l.(live := Removed(w.l.live, id))), capacity, hash)
  {
    var live := w.l.live;
    RemoveKeepsTidy(live, id, capacity);
    RemoveKeepsNames(w.names, live, id);
    hide Tidy, CacheOk, LoadOk, SkipHash, Named;
  }

  lemma {:induction false} RemoveKeepsNames(names: map<u16, string>, m: Regions, id: u16)
    requires Named(names, m.entries, 0x1_0000)
    ensures Named(names, Removed(m, id).entries, 0x1_0000)
    ensures Removed(m, id).nextId == m.nextId
  {
    hide SkipHash;
    var es', k := Removed(m, id).entries, IndexOfId(m.entries, id, 0);
    if es' != m.entries {
      assert forall i :: 0 <= i < |es'| ==> es'[i] == m.entries[if i < k then i else i + 1];
    }
  }

  lemma {:induction false} LineKeepsOk(w: World, line: string, capacity: nat, hash: Hash)
    requires Ok(w, capacity, hash) && Sound(w, Line(line), capacity) && w.l.active
    ensures Ok(Step(w, Line(line), capacity, hash), capacity, hash)
  {
    if ParseLine(line).Row? {
      RowKeepsOk(w, line, capacity, hash);
    } else if ParseLine(line).Blank? {
      CommitAgrees(w, capacity, hash);
      hide Tied, CacheOk, Tidy, StackOk, Learned;
      LearnsLive(w, w.l.temp, capacity, hash);
    }
  }

  function FirstWorld(): World {
    World(Loader(Regions([], 1, 0, 0, 0), Regions([], 1, 0, 0, 0), seq(LOAD_DEPTH, _ => Nowhere), false), [], map[])
  }

  /** A run from an empty map and an empty cache. */
  predicate IsRun(ws: seq<World>, events: seq<Event>, capacity: nat, hash: Hash) {
    && |ws| == |events| + 1
    && ws[0] == FirstWorld()
    && forall k :: 0 <= k < |events| ==> Goes(ws[k], events[k], ws[k + 1], capacity, hash)
  }

  predicate Goes(w: World, e: Event, w': World, capacity: nat, hash: Hash) {
    |w.l.stack| == LOAD_DEPTH && Sound(w, e, capacity) && w' == Step(w, e, capacity, hash)
  }

  lemma {:induction false} RunsStayOk(ws: seq<World>, events: seq<Event>, k: nat, capacity: nat, hash: Hash)
    requires IsRun(ws, events, capacity, hash) && k < |ws|
    ensures Ok(ws[k], capacity, hash)
  {
    if k > 0 {
      RunsStayOk(ws, events, k - 1, capacity, hash);
      assert Goes(ws[k - 1], events[k - 1], ws[k], capacity, hash);
      StepKeepsOk(ws[k - 1], events[k - 1], capacity, hash);
    }
  }

  /**
   * In every run: no region without its parent, no id shared, each region connected to the
   * root printed once, and every key what it would be with nothing cached.
   */
  lemma {:induction false} RunsKeepTreeAndKeys(ws: seq<World>, events: seq<Event>, k: nat, i: nat, max: nat, capacity: nat, hash: Hash)
    requires IsRun(ws, events, capacity, hash) && k < |ws| && i < |ws[k].l.live.entries|
    ensures var live := ws[k].l.live;
            var e := live.entries[i];
            && DistinctIds(live.entries) && ParentsPresent(live.entries)
            && CountEnding(Rows(live.entries), i) == (if Connected(live.entries, i) then 1 else 0)
            && (IsPrivate(e.name) || KeysFor(ws[k].cache, e, max, hash).0 == KeysFor([], e, max, hash).0 == [hash("#" + SkipHash(e.name))])
  {
    RunsStayOk(ws, events, k, capacity, hash);
    var live := ws[k].l.live;
    PrintsExactlyOnce(live.entries, i);
    if !IsPrivate(live.entries[i].name) {
      KeyIsItsHash(ws[k], i, max, capacity, hash);
      assert TagName(live.entries[i].name) == "#" + SkipHash(live.entries[i].name);
    }
  }

  // ---- The two guards ------------------------------------------------------------------------

  /** A row that lands leaves the table within its bounds if and only if it does not overrun it. */
  lemma {:induction false} FitsExactlyWhen(w: World, line: string, capacity: nat, hash: Hash)
    requires Ok(w, capacity, hash) && w.l.active && ParseLine(line).Row?
    requires Lands(w.l, ParseLine(line).indent, ParseLine(line).name)
    ensures |Step(w, Line(line), capacity, hash).l.temp.entries| <= capacity <==> !Overruns(w.l, ParseLine(line).name, capacity)
    ensures Overruns(w.l, ParseLine(line).name, capacity) ==> |Step(w, Line(line), capacity, hash).l.temp.entries| == capacity + 1
  {
    RowNameIsName(line);
    hide ParseLine, IndexOf, IdAt, KnownFlags, IsName, Tied, CacheOk, Named, StackOk, SkipHash, Truncated;
  }

  lemma {:induction false} RowNameIsName(line: string)
    ensures ParseLine(line).Row? ==> IsName(ParseLine(line).name)
  {
  }

  function RowName(i: nat): string
    requires i < 150
  {
    [('A' as int + i) as char]
  }

  /** The printed line of a denied region under the root. */
  function RowLine(name: string): string {
    LineOf(1, RegionEntry(1, 0, REGION_DENY_FLOOD, name), 0)
  }

  function OneRegion(name: string): Regions {
    Regions([RegionEntry(1, 0, REGION_DENY_FLOOD, name)], 2, 0, 0, 0)
  }

  const KNOWN := OneRegion("0")

  /** A load under way on a live map with one region "0", with k other regions loaded. */
  predicate Filled(w: World, k: nat) {
    && w.l.active && w.l.live == KNOWN && |w.l.stack| == LOAD_DEPTH && w.l.stack[0] == AtRoot
    && |w.l.temp.entries| == k <= 150 && w.l.temp.nextId == 2 + k
    && forall i: nat :: i < k ==> w.l.temp.entries[i].name == RowName(i)
  }

  lemma {:induction false} RunExtends(ws: seq<World>, events: seq<Event>, e: Event, capacity: nat, hash: Hash)
    requires IsRun(ws, events, capacity, hash) && |ws[|events|].l.stack| == LOAD_DEPTH && Sound(ws[|events|], e, capacity)
    ensures IsRun(ws + [Step(ws[|events|], e, capacity, hash)], events + [e], capacity, hash)
  {
    hide Sound, Step;
    var ws', events' := ws + [Step(ws[|events|], e, capacity, hash)], events + [e];
    forall k | 0 <= k < |events'| ensures Goes(ws'[k], events'[k], ws'[k + 1], capacity, hash) {
      if k < |events| { assert Goes(ws[k], events[k], ws[k + 1], capacity, hash); }
    }
  }

  lemma {:induction false} NextRowFills(w: World, k: nat, capacity: nat, hash: Hash)
    requires Filled(w, k) && k < capacity <= 150
    ensures Sound(w, Line(RowLine(RowName(k))), capacity)
    ensures Filled(Step(w, Line(RowLine(RowName(k))), capacity, hash), k + 1)
  {
    hide ParseLine, LineOf, IndexOf, KnownId, IsName, SkipHash, RowName, KnownFlags, IdAt;
    RowIsNew(w, k);
  }

  lemma {:induction false} RowIsNew(w: World, k: nat)
    requires Filled(w, k) && k < 150
    ensures ParseLine(RowLine(RowName(k))) == Row(1, RowName(k), false) && IsName(RowName(k)) && |RowName(k)| == 1
    ensures IndexOf(w.l.temp.entries, RowName(k), 0) == k && KnownId(KNOWN, RowName(k)) == 0
  {
    var name := RowName(k);
    assert IsName(name) && SkipHash(name) == name && |name| == 1;
    assert SkipHash("0") != name && KnownId(KNOWN, name) == 0;
    hide ParseLine, LineOf, KnownId, IndexOf;
    LineParses(1, RegionEntry(1, 0, REGION_DENY_FLOOD, name), 0);
    NotAmong(w.l.temp.entries, name);
  }

  lemma {:induction false} NotAmong(es: seq<RegionEntry>, name: string)
    requires forall i :: 0 <= i < |es| ==> SkipHash(es[i].name) != SkipHash(name)
    ensures IndexOf(es, name, 0) == |es|
  {
  }

  lemma {:induction false} RunFills(k: nat, capacity: nat, hash: Hash) returns (ws: seq<World>, events: seq<Event>)
    requires k <= capacity && 1 <= capacity <= 150
    ensures IsRun(ws, events, capacity, hash) && |events| == k + 2 && Filled(ws[|events|], k)
  {
    hide Filled;
    if k == 0 {
      ws, events := RunStarts(capacity, hash);
    } else {
      ws, events := RunFills(k - 1, capacity, hash);
      var w, e := ws[|events|], Line(RowLine(RowName(k - 1)));
      FilledStack(w, k - 1);
      NextRowFills(w, k - 1, capacity, hash);
      assert |ws| == |events| + 1;
      hide IsRun, Sound, Step;
      RunExtends(ws, events, e, capacity, hash);
      ws, events := ws + [Step(w, e, capacity, hash)], events + [e];
    }
  }

  lemma {:induction false} FilledStack(w: World, k: nat)
    requires Filled(w, k)
    ensures |w.l.stack| == LOAD_DEPTH
  {
  }

  lemma {:induction false} PutsOne(name: string, capacity: nat, hash: Hash)
    requires IsName(name) && |name| <= NAME_CHARS && 0 < capacity
    ensures Sound(FirstWorld(), PutUnder(name, 0), capacity)
    ensures Step(FirstWorld(), PutUnder(name, 0), capacity, hash) == World(FirstWorld().l.(live := OneRegion(name)), [], map[1 := SkipHash(name)])
  {
    hide IsName, SkipHash;
    var es := OneRegion(name).entries;
    assert Put(FirstWorld().l.live, name, 0, 0, capacity).0 == OneRegion(name);
    assert es[..0] == [];
    assert Learned(map[], []) == map[];
    assert Learned(map[], es) == map[1 := SkipHash(name)];
  }

  lemma {:induction false} RunPutsOne(name: string, capacity: nat, hash: Hash) returns (ws: seq<World>, events: seq<Event>)
    requires IsName(name) && |name| <= NAME_CHARS && 0 < capacity
    ensures IsRun(ws, events, capacity, hash) && |ws| == 2 && events == [PutUnder(name, 0)]
    ensures ws[1] == World(FirstWorld().l.(live := OneRegion(name)), [], map[1 := SkipHash(name)])
  {
    hide Step, Sound, IsName;
    ws, events := [FirstWorld()], [];
    PutsOne(name, capacity, hash);
    RunExtends(ws, events, PutUnder(name, 0), capacity, hash);
    ws, events := ws + [Step(FirstWorld(), PutUnder(name, 0), capacity, hash)], events + [PutUnder(name, 0)];
  }

  lemma {:induction false} RunStarts(capacity: nat, hash: Hash) returns (ws: seq<World>, events: seq<Event>)
    requires 1 <= capacity <= 150
    ensures IsRun(ws, events, capacity, hash) && |events| == 2 && Filled(ws[2], 0)
  {
    hide IsRun, Step, Sound;
    ws, events := RunPutsOne("0", capacity, hash);
    var w := ws[1];
    LoadStarts(w, capacity, hash);
    RunExtends(ws, events, StartLoad, capacity, hash);
    ws, events := ws + [Step(w, StartLoad, capacity, hash)], events + [StartLoad];
  }

  lemma {:induction false} LoadStarts(w: World, capacity: nat, hash: Hash)
    requires |w.l.stack| == LOAD_DEPTH && !w.l.active
    ensures Sound(w, StartLoad, capacity) && Step(w, StartLoad, capacity, hash) == w.(l := Started(w.l))
  {
  }

  /** A run that reaches the overrun: fill the table with new regions, then load the known one. */
  lemma {:induction false} AKnownRowOverruns(capacity: nat, hash: Hash) returns (ws: seq<World>, events: seq<Event>)
    requires 1 <= capacity <= 150
    ensures IsRun(ws, events, capacity, hash) && |events| == capacity + 2
    ensures |ws[|events|].l.stack| == LOAD_DEPTH
    ensures |Step(ws[|events|], Line(RowLine("0")), capacity, hash).l.temp.entries| == capacity + 1
  {
    ws, events := RunFills(capacity, capacity, hash);
    var w := ws[|events|];
    RunsStayOk(ws, events, |events|, capacity, hash);
    LineParses(1, RegionEntry(1, 0, REGION_DENY_FLOOD, "0"), 0);
    NotAmong(w.l.temp.entries, "0");
    assert IndexOf(KNOWN.entries, "0", 0) == 0 && KnownId(KNOWN, "0") == 1;
    hide IsRun, Ok, LineOf, ParseLine, IndexOf, KnownId, Step;
    FitsExactlyWhen(w, RowLine("0"), capacity, hash);
  }

  /**
   * After a row and the commit, the key of the row's region is that of another name if and only
   * if the row's name was cut while its region is known and its key is cached.
   */
  lemma {:induction false} KeyIsStaleExactlyWhen(w: World, line: string, blank: string, max: nat, capacity: nat, hash: Hash) returns (e: RegionEntry)
    requires Ok(w, capacity, hash) && w.l.active && ParseLine(line).Row? && IsBlank(blank)
    requires var p := ParseLine(line);
      Lands(w.l, p.indent, p.name) && !(IndexOf(w.l.temp.entries, p.name, 0) == |w.l.temp.entries| == capacity)
    requires forall a, b :: hash(a) == hash(b) ==> a == b
    ensures var p, w1 := ParseLine(line), Step(w, Line(line), capacity, hash);
            && |w1.l.stack| == LOAD_DEPTH
            && var w2, r := Step(w1, Line(blank), capacity, hash), IndexOf(w.l.temp.entries, p.name, 0);
            && r < |w2.l.live.entries| && e == w2.l.live.entries[r]
            && (!IsPrivate(e.name) ==>
                  (KeysFor(w2.cache, e, max, hash).0 != [hash("#" + SkipHash(e.name))]
                   <==> CutsName(w.l, p.name) && CacheIndex(w2.cache, e.id, 0) < |w2.cache|))
  {
    hide ParseLine, Lands, CutsName, IndexOf, Grafted, SkipHash, Learned, IsName, DistinctIds, ParentsPresent;
    var p, w1 := ParseLine(line), Step(w, Line(line), capacity, hash);
    RowNameIsName(line);
    RowIsIn(w.l, p.indent, p.name, p.flood, capacity);
    e := w1.l.temp.entries[IndexOf(w.l.temp.entries, p.name, 0)];
    BlankCommits(w1, blank, capacity, hash);
    CommitAgrees(w, capacity, hash);
    NameIsCutExactlyWhen(w, p.name, e, capacity, hash);
    if !IsPrivate(e.name) { CachedKeyIsOfItsName(w, e, max, hash); }
  }

  /** Where the row's region is afterwards, and what it is called. */
  lemma {:induction false} RowIsIn(l: Loader, indent: nat, name: string, flood: bool, capacity: nat)
    requires |l.stack| == LOAD_DEPTH && Lands(l, indent, name) && IsName(name)
    requires |l.temp.entries| <= capacity && !(IndexOf(l.temp.entries, name, 0) == |l.temp.entries| == capacity)
    ensures var l', r, n := Grafted(l, indent, name, flood, capacity), IndexOf(l.temp.entries, name, 0), |l.temp.entries|;
            && l'.live == l.live && l'.active == l.active && |l'.stack| == LOAD_DEPTH && r < |l'.temp.entries|
            && l'.temp.entries[r].name == (if r < n then l.temp.entries[r].name else Truncated(name))
            && l'.temp.entries[r].id == if r < n then l.temp.entries[r].id else if KnownId(l.live, name) == 0 then l.temp.nextId else KnownId(l.live, name)
  {
    hide IndexOf, KnownId, KnownFlags, IdAt, IsName, Truncated;
  }

  /** The id stands for another name exactly when the row's name was cut. */
  lemma {:induction false} NameIsCutExactlyWhen(w: World, name: string, e: RegionEntry, capacity: nat, hash: Hash)
    requires Ok(w, capacity, hash) && w.l.active && Agrees(w.names, w.l.temp.entries)
    requires var r, n := IndexOf(w.l.temp.entries, name, 0), |w.l.temp.entries|;
      && e.name == (if r < n then w.l.temp.entries[r].name else Truncated(name))
      && e.id == if r < n then w.l.temp.entries[r].id else if KnownId(w.l.live, name) == 0 then w.l.temp.nextId else KnownId(w.l.live, name)
    ensures e.id in w.names && w.names[e.id] != SkipHash(e.name) <==> CutsName(w.l, name)
  {
    var o, n := IndexOf(w.l.live.entries, name, 0), |w.l.live.entries|;
    hide Tied, CacheOk, StackOk;
    if IndexOf(w.l.temp.entries, name, 0) < |w.l.temp.entries| {
      assert !BringsId(w.l, name);
    } else if o == n {
      assert e.id !in w.names;
    } else {
      assert w.names[e.id] == SkipHash(w.l.live.entries[o].name) == SkipHash(name) && |SkipHash(name)| <= NAME_CHARS;
      if |name| > NAME_CHARS {
        assert name[0] == '#' && |name| == NAME_CHARS + 1;
        assert SkipHash(Truncated(name)) == name[1..NAME_CHARS];
      }
    }
  }

  lemma {:induction false} CachedKeyIsOfItsName(w: World, e: RegionEntry, max: nat, hash: Hash)
    requires CacheOk(w.cache, w.names, hash) && !IsPrivate(e.name) && forall a, b :: hash(a) == hash(b) ==> a == b
    ensures KeysFor(w.cache, e, max, hash).0 != [hash("#" + SkipHash(e.name))]
            <==> CacheIndex(w.cache, e.id, 0) < |w.cache| && e.id in w.names && w.names[e.id] != SkipHash(e.name)
  {
    assert TagName(e.name) == "#" + SkipHash(e.name);
    var i := CacheIndex(w.cache, e.id, 0);
    if i < |w.cache| && w.names[e.id] != SkipHash(e.name) {
      assert ("#" + w.names[e.id])[1..] == w.names[e.id] && ("#" + SkipHash(e.name))[1..] == SkipHash(e.name);
    }
  }

  /** The line that loads a region with its '#' and its flood flag. */
  function TagLine(n: string): string {
    " #" + n + " F"
  }

  lemma {:induction false} TagLineParses(n: string)
    requires IsName(n)
    ensures ParseLine(TagLine(n)) == Row(1, "#" + n, true) && IsName("#" + n)
  {
    hide ParseLine, LineOf, IsName, SkipHash, TagLine;
    TagIsName(n);
    TagIsName("#" + n);
    TagLineIsLine(n);
    LineParses(1, RegionEntry(1, 0, 0, "#" + ("#" + n)), 0);
  }

  lemma {:induction false} TagIsName(n: string)
    requires IsName(n)
    ensures IsName("#" + n) && SkipHash("#" + n) == n
  {
  }

  lemma {:induction false} TagLineIsLine(n: string)
    ensures LineOf(1, RegionEntry(1, 0, 0, "#" + ("#" + n)), 0) == TagLine(n)
  {
    hide IsName;
    assert SkipHash("#" + ("#" + n)) == "#" + n;
    assert Spaces(1) == " ";
  }

  lemma {:induction false} CachesTheOne(w: World, n: string, capacity: nat, hash: Hash)
    requires w.l.live == OneRegion(n) && w.cache == [] && |w.l.stack| == LOAD_DEPTH && n != [] && n[0] != '#' && n[0] != '$'
    ensures Sound(w, Lookup(0, 1), capacity)
    ensures Step(w, Lookup(0, 1), capacity, hash) == w.(cache := [CachedKey(1, hash("#" + n))])
  {
    assert w.cache + [CachedKey(1, hash("#" + n))] == [CachedKey(1, hash("#" + n))];
  }

  lemma {:induction false} TagIsKnown(n: string)
    requires n != [] && n[0] != '#'
    ensures KnownId(OneRegion(n), "#" + n) == 1 && KnownFlags(OneRegion(n), "#" + n, true) == REGION_DENY_FLOOD
  {
    assert SkipHash("#" + n) == n == SkipHash(n);
  }

  /** The region's name is cut with its '#', and it keeps its id. */
  lemma {:induction false} TagLineIsCut(w: World, n: string, capacity: nat, hash: Hash)
    requires |n| == NAME_CHARS && IsName(n) && n[0] != '#' && 0 < capacity
    requires w.l == Started(FirstWorld().l.(live := OneRegion(n)))
    ensures var w1 := Step(w, Line(TagLine(n)), capacity, hash);
            && |w1.l.stack| == LOAD_DEPTH && w1.l.active && w1.cache == w.cache
            && w1.l.temp.entries == [RegionEntry(1, 0, REGION_DENY_FLOOD, "#" + n[..29])]
  {
    hide ParseLine, TagLine, IsName, IndexOf, KnownId, KnownFlags, SkipHash, Truncated, Learned;
    TagLineParses(n);
    TagIsKnown(n);
    CutTag(n);
    var cut := RegionEntry(1, 0, REGION_DENY_FLOOD, "#" + n[..29]);
    assert w.l.temp.entries + [cut] == [cut];
  }

  lemma {:induction false} CutTag(n: string)
    requires |n| == NAME_CHARS
    ensures Truncated("#" + n) == "#" + n[..29]
  {
  }

  /**
   * The run: a 30-character name is put and looked up, then loaded back with a '#'. It keeps
   * its id and loses its last character, and its key is still the old name's.
   */
  lemma {:induction false} ACutNameKeepsTheOldKey(n: string, capacity: nat, hash: Hash) returns (ws: seq<World>, events: seq<Event>)
    requires |n| == NAME_CHARS && IsName(n) && n[0] != '#' && n[0] != '$' && 0 < capacity
    ensures IsRun(ws, events, capacity, hash) && events == [PutUnder(n, 0), Lookup(0, 1), StartLoad] && |ws[3].l.stack| == LOAD_DEPTH
    ensures var loaded := Step(ws[3], Line(TagLine(n)), capacity, hash);
            && |loaded.l.stack| == LOAD_DEPTH
            && var done, e := Step(loaded, Line(""), capacity, hash), RegionEntry(1, 0, REGION_DENY_FLOOD, "#" + n[..29]);
            && !done.l.active && done.l.live.entries == [e]
            && KeysFor(done.cache, e, 1, hash).0 == [hash("#" + n)] && TagName(e.name) != "#" + n
  {
    hide IsRun, Step, Sound, KeysFor, TagName, IsName, SkipHash;
    ws, events := RunPutsOne(n, capacity, hash);
    var w1 := ws[1];
    CachesTheOne(w1, n, capacity, hash);
    RunExtends(ws, events, Lookup(0, 1), capacity, hash);
    var w2 := Step(w1, Lookup(0, 1), capacity, hash);
    ws, events := ws + [w2], events + [Lookup(0, 1)];
    LoadStarts(w2, capacity, hash);
    RunExtends(ws, events, StartLoad, capacity, hash);
    var w3 := Step(w2, StartLoad, capacity, hash);
    ws, events := ws + [w3], events + [StartLoad];
    TagLineIsCut(w3, n, capacity, hash);
    var loaded := Step(w3, Line(TagLine(n)), capacity, hash);
    BlankCommits(loaded, "", capacity, hash);
    CutKeyIsOld(n, hash);
  }

  lemma {:induction false} BlankCommits(w: World, blank: string, capacity: nat, hash: Hash)
    requires |w.l.stack| == LOAD_DEPTH && w.l.active && IsBlank(blank)
    ensures var w' := Step(w, Line(blank), capacity, hash); !w'.l.active && w'.l.live == w.l.temp && w'.cache == w.cache
  {
  }

  lemma {:induction false} CutKeyIsOld(n: string, hash: Hash)
    requires |n| == NAME_CHARS
    ensures var e := RegionEntry(1, 0, REGION_DENY_FLOOD, "#" + n[..29]);
            KeysFor([CachedKey(1, hash("#" + n))], e, 1, hash).0 == [hash("#" + n)] && TagName(e.name) != "#" + n
  {
    assert |TagName("#" + n[..29])| != |"#" + n|;
  }
}
