/** The table of cache blocks: a fixed number of slots, a hash table from block addresses to slots, and the slots in
    order of use. The order list is the specification; the class keeps the three structures consistent with it. */
module CacheTable {
  import opened Options

  /** A slot in the order of use, oldest first: its index, the block it caches, and whether it must not be evicted. */
  datatype Slot = Slot(idx: nat, key: Option<nat>, pinned: bool)

  /* ---------------------------------------------------------------- specification */

  /** The first slot that caches key, or the length. */
  function Find(s: seq<Slot>, key: nat): (i: nat)
    ensures i <= |s| && (i < |s| ==> s[i].key == Some(key)) && forall j :: 0 <= j < i ==> s[j].key != Some(key)
  {
    FindFrom(s, key, 0)
  }

  function FindFrom(s: seq<Slot>, key: nat, from: nat): (i: nat)
    requires from <= |s|
    ensures from <= i <= |s| && (i < |s| ==> s[i].key == Some(key)) && forall j :: from <= j < i ==> s[j].key != Some(key)
    decreases |s| - from
  {
    if from == |s| || s[from].key == Some(key) then from else FindFrom(s, key, from + 1)
  }

  predicate Reusable(x: Slot) {
    x.key.None? || !x.pinned
  }

  /** The oldest slot that is free or may be evicted, or the length. */
  function Victim(s: seq<Slot>): (i: nat)
    ensures i <= |s| && (i < |s| ==> Reusable(s[i])) && forall j :: 0 <= j < i ==> !Reusable(s[j])
  {
    VictimFrom(s, 0)
  }

  function VictimFrom(s: seq<Slot>, from: nat): (i: nat)
    requires from <= |s|
    ensures from <= i <= |s| && (i < |s| ==> Reusable(s[i])) && forall j :: from <= j < i ==> !Reusable(s[j])
    decreases |s| - from
  {
    if from == |s| || Reusable(s[from]) then from else VictimFrom(s, from + 1)
  }

  /** The entry at i leaves its place and x becomes the newest. */
  function MoveToBack(s: seq<Slot>, i: nat, x: Slot): (r: seq<Slot>)
    requires i < |s|
    ensures |r| == |s| && forall j :: 0 <= j < |s| ==> r[j] == if j < i then s[j] else if j < |s| - 1 then s[j + 1] else x
  {
    s[..i] + s[i + 1..] + [x]
  }

  /** Caching a block; None stands for the exception of a full cache. */
  function Ensure(s: seq<Slot>, key: nat, updateLru: bool): Option<seq<Slot>> {
    var i, v := Find(s, key), Victim(s);
    if i < |s| then Some(if updateLru then MoveToBack(s, i, s[i]) else s)
    else if v < |s| then
      var x := s[v].(key := Some(key));
      Some(if updateLru then MoveToBack(s, v, x) else s[v := x])
    else None
  }

  /** The blocks in order of their last use, oldest first. */
  function Recent(uses: seq<nat>): seq<nat> {
    if uses == [] then []
    else
      var k, r := uses[|uses| - 1], Recent(uses[..|uses| - 1]);
      Promote(r, k)
  }

  function Position(r: seq<nat>, k: nat, from: nat): (i: nat)
    requires from <= |r|
    ensures from <= i <= |r| && (i < |r| ==> r[i] == k) && forall j :: from <= j < i ==> r[j] != k
    decreases |r| - from
  {
    if from == |r| || r[from] == k then from else Position(r, k, from + 1)
  }

  /** k becomes the newest. */
  function Promote(r: seq<nat>, k: nat): (r': seq<nat>)
    ensures |r'| > 0 && r'[|r'| - 1] == k
  {
    var i := Position(r, k, 0);
    if i < |r| then r[..i] + r[i + 1..] + [k] else r + [k]
  }

  function FreeSlots(n: nat): seq<Slot> {
    seq(n, i requires 0 <= i < n => Slot(i, None, false))
  }

  /** All uses one after the other, from an empty cache; None once the cache was full. */
  function Run(n: nat, uses: seq<nat>): Option<seq<Slot>> {
    if uses == [] then Some(FreeSlots(n))
    else
      var s := Run(n, uses[..|uses| - 1]);
      if s.None? then None else Ensure(s.value, uses[|uses| - 1], true)
  }

  /* ---------------------------------------------------------------- least recently used */

  function Keys(s: seq<Slot>): (r: seq<Option<nat>>)
    ensures |r| == |s| && forall i :: 0 <= i < |s| ==> r[i] == s[i].key
  {
    seq(|s|, i requires 0 <= i < |s| => s[i].key)
  }

  /** Slot i of n is free, or caches the block as far from the end of the list. */
  ghost predicate CachesAt(x: Slot, i: int, n: nat, blocks: seq<nat>)
    requires i < n
  {
    !x.pinned && x.key == if n - i <= |blocks| then Some(blocks[|blocks| - (n - i)]) else None
  }

  /** n unpinned slots of which the newest cache the newest of the given blocks, in order, and the rest are free. */
  ghost predicate Caches(s: seq<Slot>, n: nat, blocks: seq<nat>) {
    |s| == n && forall i :: 0 <= i < n ==> CachesAt(s[i], i, n, blocks)
  }

  predicate Distinct(r: seq<nat>) {
    forall i, j :: 0 <= i < j < |r| ==> r[i] != r[j]
  }

  lemma PromoteIs(r: seq<nat>, k: nat, at: nat, j: nat)
    requires Position(r, k, 0) == at < |r| && j < |r|
    ensures var r' := Promote(r, k);
            |r'| == |r| && r'[j] == if j < at then r[j] else if j < |r| - 1 then r[j + 1] else k
  {
  }

  lemma PositionIs(r: seq<nat>, k: nat, at: nat)
    requires Distinct(r) && at < |r| && r[at] == k
    ensures Position(r, k, 0) == at
  {
  }

  lemma {:induction false} RecentDistinct(uses: seq<nat>)
    ensures Distinct(Recent(uses))
  {
    if uses != [] {
      var k, r := uses[|uses| - 1], Recent(uses[..|uses| - 1]);
      RecentDistinct(uses[..|uses| - 1]);
      var i := Position(r, k, 0);
      if i < |r| {
        forall x, y | 0 <= x < y < |r| ensures Promote(r, k)[x] != Promote(r, k)[y] {
          PromoteIs(r, k, i, x);
          PromoteIs(r, k, i, y);
        }
      }
    }
  }

  /** Using a cached block moves it to the back of both lists. */
  lemma HitIsRecent(s: seq<Slot>, n: nat, r: seq<nat>, k: nat)
    requires Distinct(r) && Caches(s, n, r) && Find(s, k) < n
    ensures Caches(MoveToBack(s, Find(s, k), s[Find(s, k)]), n, Promote(r, k))
  {
    var i := Find(s, k);
    assert CachesAt(s[i], i, n, r);
    var at := |r| - (n - i);
    PositionIs(r, k, at);
    var s', r' := MoveToBack(s, i, s[i]), Promote(r, k);
    forall j | 0 <= j < n ensures CachesAt(s'[j], j, n, r') {
      if 0 <= |r| - (n - j) { PromoteIs(r, k, at, |r| - (n - j)); } else { PromoteIs(r, k, at, at); }
      if j < i { assert CachesAt(s[j], j, n, r); } else if j < n - 1 { assert CachesAt(s[j + 1], j + 1, n, r); }
    }
  }

  lemma PromotedNew(r: seq<nat>, k: nat)
    requires Position(r, k, 0) == |r|
    ensures Promote(r, k) == r + [k]
  {
  }

  /** A block that is not among the n newest is promoted without moving the other n - 1. */
  lemma PromotedTail(r: seq<nat>, k: nat, n: nat, d: nat)
    requires 1 <= d < n && (Position(r, k, 0) < |r| ==> Position(r, k, 0) < |r| - n)
    ensures var r' := Promote(r, k); (d < |r'| <==> d <= |r|) && (d <= |r| ==> r'[|r'| - 1 - d] == r[|r| - d])
  {
    hide Promote, Position;
    var i := Position(r, k, 0);
    if i < |r| {
      PromoteIs(r, k, i, |r| - 1 - d);
    } else {
      PromotedNew(r, k);
    }
  }

  lemma NotAmongNewest(s: seq<Slot>, n: nat, r: seq<nat>, k: nat)
    requires Caches(s, n, r) && Find(s, k) == n
    ensures Position(r, k, 0) < |r| ==> Position(r, k, 0) < |r| - n
  {
    forall at | 0 <= at < |r| && |r| - n <= at ensures r[at] != k {
      assert CachesAt(s[n - (|r| - at)], n - (|r| - at), n, r);
    }
  }

  lemma MissAt(s: seq<Slot>, n: nat, r: seq<nat>, k: nat, j: nat)
    requires j < n && Caches(s, n, r) && Find(s, k) == n
    ensures CachesAt(MoveToBack(s, 0, s[0].(key := Some(k)))[j], j, n, Promote(r, k))
  {
    assert CachesAt(s[0], 0, n, r);
    if j < n - 1 {
      assert CachesAt(s[j + 1], j + 1, n, r);
      NotAmongNewest(s, n, r, k);
      MissShifts(s[j + 1], n, r, k, j);
    }
  }

  lemma MissShifts(x: Slot, n: nat, r: seq<nat>, k: nat, j: nat)
    requires j < n - 1 && CachesAt(x, j + 1, n, r)
    requires Position(r, k, 0) < |r| ==> Position(r, k, 0) < |r| - n
    ensures CachesAt(x, j, n, Promote(r, k))
  {
    PromotedTail(r, k, n, n - j - 1);
  }

  /** Using another block drops the oldest slot. */
  lemma MissIsRecent(s: seq<Slot>, n: nat, r: seq<nat>, k: nat)
    requires n > 0 && Caches(s, n, r) && Find(s, k) == n
    ensures Victim(s) == 0
    ensures Caches(MoveToBack(s, 0, s[0].(key := Some(k))), n, Promote(r, k))
  {
    assert CachesAt(s[0], 0, n, r);
    forall j | 0 <= j < n ensures CachesAt(MoveToBack(s, 0, s[0].(key := Some(k)))[j], j, n, Promote(r, k)) {
      MissAt(s, n, r, k, j);
    }
  }

  /** One more use: the used block becomes the newest, and the oldest is dropped if it was not among the cached ones. */
  lemma EnsureIsRecent(s: seq<Slot>, n: nat, r: seq<nat>, k: nat)
    requires n > 0 && Distinct(r) && Caches(s, n, r)
    ensures var s' := Ensure(s, k, true); s'.Some? && Caches(s'.value, n, Promote(r, k))
  {
    if Find(s, k) < n { HitIsRecent(s, n, r, k); } else { MissIsRecent(s, n, r, k); }
  }

  /** The least-recently-used law: with nothing pinned, the cache never reports that it is full, and after any uses it
      holds exactly the n most recently used blocks, in order of use. */
  lemma {:induction false} LeastRecentlyUsed(n: nat, uses: seq<nat>)
    requires n > 0
    ensures Run(n, uses).Some? && Caches(Run(n, uses).value, n, Recent(uses))
  {
    if uses != [] {
      var before := uses[..|uses| - 1];
      LeastRecentlyUsed(n, before);
      RecentDistinct(before);
      EnsureIsRecent(Run(n, before).value, n, Recent(before), uses[|uses| - 1]);
    }
  }

  /* ---------------------------------------------------------------- full caches and pinned blocks */

  /** The exception is thrown exactly when the block is not cached and every slot holds a pinned one. */
  lemma FullIsExact(s: seq<Slot>, key: nat, updateLru: bool)
    ensures Ensure(s, key, updateLru).None? <==> forall i :: 0 <= i < |s| ==> s[i].key.Some? && s[i].pinned && s[i].key != Some(key)
  {
  }

  /** A pinned block keeps its slot; whatever else happens, the requested block is cached afterwards. */
  lemma PinnedStay(s: seq<Slot>, key: nat, updateLru: bool, i: nat)
    requires i < |s| && !Reusable(s[i]) && Ensure(s, key, updateLru).Some?
    ensures var s' := Ensure(s, key, updateLru).value; s[i] in s' && exists j :: 0 <= j < |s'| && s'[j].key == Some(key)
  {
    var at := if Find(s, key) < |s| then Find(s, key) else Victim(s);
    var s' := Ensure(s, key, updateLru).value;
    var to := if updateLru then |s| - 1 else at;
    assert s'[to].key == Some(key);
    var j := if !updateLru || i < at then i else if i == at then |s| - 1 else i - 1;
    assert s'[j] == s[i];
  }

  /* ---------------------------------------------------------------- the class */

  datatype Entry = Entry(inUse: bool, key: nat, pinned: bool)

  ghost predicate AllPinned(entries: seq<Entry>) {
    forall i :: 0 <= i < |entries| ==> entries[i].pinned
  }

  class CacheSystem {
    const n: nat
    const entries: array<Entry>
    var lru: seq<nat>
    var table: map<nat, nat>

    ghost predicate Valid()
      reads this, entries
    {
      && entries.Length == n == |lru|
      && (forall i :: 0 <= i < n ==> lru[i] < n)
      && Distinct(lru)
      && (forall k :: k in table ==> table[k] < n && entries[table[k]].inUse && entries[table[k]].key == k)
      && (forall i :: 0 <= i < n && entries[i].inUse ==> entries[i].key in table && table[entries[i].key] == i)
      && (forall i :: 0 <= i < n && !entries[i].inUse ==> !entries[i].pinned)
    }

    ghost function SlotOf(idx: nat): Slot
      reads entries
      requires idx < entries.Length
    {
      var e := entries[idx];
      Slot(idx, if e.inUse then Some(e.key) else None, e.pinned)
    }

    /** The slots in order of use. */
    ghost function Slots(): (s: seq<Slot>)
      reads this, entries
      requires Valid()
      ensures |s| == n
    {
      seq(n, i requires 0 <= i < n && Valid() reads this reads entries => SlotOf(lru[i]))
    }

    constructor (nentries: nat)
      ensures Valid() && n == nentries && fresh(entries) && Slots() == FreeSlots(nentries) && table == map[]
      ensures forall i :: 0 <= i < n ==> !entries[i].inUse
    {
      n := nentries;
      entries := new Entry[nentries](i => Entry(false, 0, false));
      lru := seq(nentries, i requires 0 <= i < nentries => i);
      table := map[];
    }

    /** A cached block is found through the table exactly when the order list has it. */
    lemma TableFinds(key: nat)
      requires Valid()
      ensures key in table <==> Find(Slots(), key) < n
      ensures key in table ==> lru[Find(Slots(), key)] == table[key]
    {
      var i := Find(Slots(), key);
      if i < n { assert Slots()[i] == SlotOf(lru[i]); }
      if key in table {
        AllInLru(table[key]);
        var j :| 0 <= j < n && lru[j] == table[key];
        assert Slots()[j] == SlotOf(lru[j]);
      }
    }

    /** The order list has every slot. */
    lemma AllInLru(idx: nat)
      requires Valid() && idx < n
      ensures idx in lru
    {
      Pigeonhole(lru, n, idx);
    }

    /** ensure_cached reports a full cache exactly when the block is absent and every slot is pinned. */
    lemma FullIs(key: nat)
      requires Valid()
      ensures Ensure(Slots(), key, true).None? <==> key !in table && AllPinned(entries[..])
    {
      var s := Slots();
      TableFinds(key);
      FullIsExact(s, key, true);
      if key !in table && AllPinned(entries[..]) {
        forall j | 0 <= j < n ensures s[j].key.Some? && s[j].pinned && s[j].key != Some(key) {
          assert entries[..][lru[j]].pinned;
          assert s[j] == SlotOf(lru[j]);
        }
      }
      if forall j :: 0 <= j < n ==> s[j].key.Some? && s[j].pinned && s[j].key != Some(key) {
        forall i | 0 <= i < n ensures entries[i].pinned {
          AllInLru(i);
          var j :| 0 <= j < n && lru[j] == i;
          assert s[j] == SlotOf(i);
        }
      }
    }

    method Contains(key: nat) returns (r: bool)
      requires Valid()
      ensures r <==> exists i :: 0 <= i < n && Slots()[i].key == Some(key)
    {
      TableFinds(key);
      r := key in table;
      assert r ==> Slots()[Find(Slots(), key)].key == Some(key);
    }

    /** splice: the slot at place at of the order list moves to its end. */
    method MoveToBackLru(idx: nat, ghost at: nat)
      requires Valid() && at < n && lru[at] == idx
      modifies this`lru
      ensures Valid() && lru[n - 1] == idx && Slots() == MoveToBack(old(Slots()), at, old(Slots())[at])
    {
      var i := 0;
      while lru[i] != idx
        invariant 0 <= i <= at
        decreases at - i
      {
        i := i + 1;
      }
      assert i == at;
      lru := lru[..i] + lru[i + 1..] + [idx];
      assert Slots() == MoveToBack(old(Slots()), at, old(Slots())[at]);
    }

    /** The oldest slot that is free or may be evicted; the block it held is no longer cached. */
    method GetEmptySlot() returns (r: Option<nat>, evicted: Option<nat>)
      requires Valid()
      modifies this`table, entries
      ensures Valid() && lru == old(lru)
      ensures var v := Victim(old(Slots()));
              if v == n then r == None && evicted == None && table == old(table) && entries[..] == old(entries[..])
              else
                && r == Some(lru[v]) && evicted == old(Slots())[v].key && !entries[lru[v]].inUse
                && table == old(table) - (if evicted.Some? then {evicted.value} else {})
                && forall j :: 0 <= j < n && j != lru[v] ==> entries[j] == old(entries[j])
    {
      var i := 0;
      while i < n
        invariant 0 <= i <= n
        invariant forall j :: 0 <= j < i ==> !Reusable(Slots()[j])
      {
        var idx := lru[i];
        var e := entries[idx];
        assert Slots()[i] == SlotOf(idx);
        if !e.inUse {
          assert Victim(Slots()) == i;
          return Some(idx), None;
        }
        if !e.pinned {
          assert Victim(Slots()) == i;
          table := table - {e.key};
          entries[idx] := e.(inUse := false);
          return Some(idx), Some(e.key);
        }
        i := i + 1;
      }
      return None, None;
    }

    /** Cache a block. The result is its slot, or None for the exception; evicted is the block that on_evict was called for. */
    method EnsureCached(key: nat, updateLru: bool) returns (r: Option<nat>, evicted: Option<nat>)
      requires Valid()
      modifies this, entries
      ensures Valid()
      ensures match Ensure(old(Slots()), key, updateLru)
              case None => r == None && evicted == None && Slots() == old(Slots()) && table == old(table)
              case Some(s) => r.Some? && Slots() == s && key in table && r.value == table[key]
      ensures evicted.Some? ==> old(evicted.value in table) && evicted.value != key
      ensures r.Some? ==> forall k :: k in old(table) && k != key ==> (k in table <==> evicted != Some(k))
      ensures forall k :: k in table && k != key ==> k in old(table) && table[k] == old(table[k])
      ensures old(key in table) ==> table == old(table)
      ensures match r
              case None => entries[..] == old(entries[..])
              case Some(idx) =>
                var e := old(entries[..])[idx];
                && entries[..] == old(entries[..])[idx := Entry(true, key, e.pinned)]
                && evicted == (if e.inUse && e.key != key then Some(e.key) else None)
                && (e.pinned ==> e.inUse && e.key == key)
    {
      TableFinds(key);
      if key in table {
        var idx := table[key];
        if updateLru { MoveToBackLru(idx, Find(Slots(), key)); }
        return Some(idx), None;
      }
      r, evicted := Insert(key, updateLru);
    }

    /** ensure_cached for an absent block. */
    method Insert(key: nat, updateLru: bool) returns (r: Option<nat>, evicted: Option<nat>)
      requires Valid() && key !in table
      modifies this, entries
      ensures Valid()
      ensures match Ensure(old(Slots()), key, updateLru)
              case None => r == None && evicted == None && Slots() == old(Slots()) && table == old(table)
              case Some(s) => r.Some? && r.value < n && Slots() == s
      ensures r.Some? ==> table == (old(table) - (if evicted.Some? then {evicted.value} else {}))[key := r.value]
      ensures evicted.Some? ==> old(evicted.value in table)
      ensures match r
              case None => entries[..] == old(entries[..])
              case Some(idx) => !old(entries[..])[idx].pinned && entries[..] == old(entries[..])[idx := Entry(true, key, false)]
      ensures r.Some? ==> var e := old(entries[..])[r.value]; evicted == if e.inUse then Some(e.key) else None
    {
      TableFinds(key);
      r, evicted := Allocate(key);
      if r.Some? && updateLru {
        ghost var v := Victim(old(Slots()));
        MoveToBackLru(r.value, v);
        assert Slots() == MoveToBack(old(Slots()), v, old(Slots())[v].(key := Some(key)));
      }
    }

    /** The slot of the oldest block that can go is given to key, which is not cached. */
    method Allocate(key: nat) returns (r: Option<nat>, evicted: Option<nat>)
      requires Valid() && key !in table
      modifies this`table, entries
      ensures Valid() && lru == old(lru)
      ensures match Ensure(old(Slots()), key, false)
              case None => r == None && evicted == None && Slots() == old(Slots()) && table == old(table)
              case Some(s) =>
                && r == Some(lru[Victim(old(Slots()))]) && Slots() == s && evicted == old(Slots())[Victim(old(Slots()))].key
                && table == (old(table) - (if evicted.Some? then {evicted.value} else {}))[key := r.value]
      ensures evicted.Some? ==> old(evicted.value in table)
      ensures match r
              case None => entries[..] == old(entries[..])
              case Some(idx) => !old(entries[..])[idx].pinned && entries[..] == old(entries[..])[idx := Entry(true, key, false)]
      ensures r.Some? ==> var e := old(entries[..])[r.value]; evicted == if e.inUse then Some(e.key) else None
    {
      hide Find, Victim;
      TableFinds(key);
      r, evicted := GetEmptySlot();
      if r.Some? {
        var idx := r.value;
        entries[idx] := Entry(true, key, entries[idx].pinned);
        table := table[key := idx];
        assert entries[..] == old(entries[..])[idx := Entry(true, key, false)];
        assert Slots() == old(Slots())[Victim(old(Slots())) := old(Slots())[Victim(old(Slots()))].(key := Some(key))];
      }
    }

    /** A block that is checked out, dirty or being written back must not be evicted. */
    method SetPinned(idx: nat, pinned: bool)
      requires Valid() && idx < n && entries[idx].inUse
      modifies entries
      ensures Valid() && entries[idx] == old(entries[idx]).(pinned := pinned)
      ensures forall j :: 0 <= j < n && j != idx ==> entries[j] == old(entries[j])
    {
      entries[idx] := entries[idx].(pinned := pinned);
    }

    /** The block is dropped and its slot becomes free, without changing the order. */
    method EnsureEvicted(key: nat) returns (evicted: bool)
      requires Valid() && (key in table ==> !entries[table[key]].pinned)
      modifies this`table, entries
      ensures Valid() && evicted == old(key in table) && table == old(table) - {key}
      ensures entries[..] == if evicted then old(entries[..])[old(table)[key] := Entry(false, 0, false)] else old(entries[..])
      ensures var i := Find(old(Slots()), key);
              Slots() == if i < n then old(Slots())[i := old(Slots())[i].(key := None)] else old(Slots())
    {
      TableFinds(key);
      evicted := key in table;
      if evicted {
        var idx := table[key];
        entries[idx] := Entry(false, 0, false);
        table := table - {key};
      }
    }
  }

  ghost function Below(m: nat): (s: set<nat>)
    ensures |s| == m && forall x: nat :: x in s <==> x < m
  {
    if m == 0 then {} else Below(m - 1) + {m - 1}
  }

  ghost function Elements(s: seq<nat>): set<nat> {
    set x | x in s
  }

  lemma {:induction false} DistinctSize(s: seq<nat>)
    requires Distinct(s)
    ensures |Elements(s)| == |s|
  {
    if s == [] {
      assert Elements(s) == {};
    } else {
      var r := s[..|s| - 1];
      DistinctSize(r);
      assert s[|s| - 1] !in r;
      assert Elements(s) == Elements(r) + {s[|s| - 1]};
    }
  }

  lemma {:induction false} SubsetSize(a: set<nat>, b: set<nat>)
    requires a <= b
    ensures |a| <= |b|
  {
    if a != {} {
      var x :| x in a;
      SubsetSize(a - {x}, b - {x});
    }
  }

  /** n different numbers below n are all of them. */
  lemma Pigeonhole(s: seq<nat>, n: nat, x: nat)
    requires |s| == n && x < n && Distinct(s) && forall i :: 0 <= i < n ==> s[i] < n
    ensures x in s
  {
    DistinctSize(s);
    if x !in s {
      assert |Below(n) - {x}| == n - 1;
      SubsetSize(Elements(s), Below(n) - {x});
    }
  }
}
