/** How a process finds a cached block: the table of slots, the translation table in front of it, and the virtual-memory
    map, whose changes are collected and made at the end of a batch of checkouts. */
module BlockMaps {
  import opened Options
  import CT = CacheTable
  import Tlbs

  /** The block that a slot caches. */
  function KeyOf(e: CT.Entry): Option<nat> {
    if e.inUse then Some(e.key) else None
  }

  ghost predicate UniqueKeys(entries: seq<CT.Entry>) {
    forall i, j :: 0 <= i < |entries| && 0 <= j < |entries| && entries[i].inUse && entries[j].inUse && entries[i].key == entries[j].key
      ==> i == j
  }

  /** A pending slot holds a block that must not be evicted. */
  ghost predicate PendingOk(entries: seq<CT.Entry>, pending: seq<nat>) {
    forall i :: 0 <= i < |pending| ==> pending[i] < |entries| && entries[pending[i]].inUse && entries[pending[i]].pinned
  }

  /** What mapped[s] names is sent to s. */
  ghost predicate VmOk(mapped: seq<Option<nat>>, vm: map<nat, nat>) {
    forall s :: 0 <= s < |mapped| && mapped[s].Some? ==> mapped[s].value in vm && vm[mapped[s].value] == s
  }

  /** Slots that are not pending are mapped to their block; a slot that still has the mapping of the block of a pending
      slot is pending itself, and comes first. */
  ghost predicate MapOk(entries: seq<CT.Entry>, mapped: seq<Option<nat>>, pending: seq<nat>) {
    && |mapped| == |entries|
    && (forall s :: 0 <= s < |mapped| && s !in pending ==> mapped[s] == KeyOf(entries[s]))
    && (forall i, j :: 0 <= i <= j < |pending| && pending[i] < |entries| && pending[j] < |entries| && pending[j] !in pending[..i]
          ==> mapped[pending[j]] != KeyOf(entries[pending[i]]))
  }

  /** is_evictable: a slot is pinned exactly while its block is checked out or not clean; the batch is checked out. */
  ghost predicate PinsOk(entries: seq<CT.Entry>, refs: seq<nat>, unclean: seq<bool>, pending: seq<nat>) {
    && |refs| == |unclean| == |entries|
    && (forall i :: 0 <= i < |entries| ==> (entries[i].pinned <==> refs[i] > 0 || unclean[i]))
    && (forall i :: 0 <= i < |pending| ==> pending[i] < |refs| && refs[pending[i]] > 0)
  }

  ghost predicate AllCheckedOut(refs: seq<nat>) {
    forall i :: 0 <= i < |refs| ==> refs[i] > 0
  }

  lemma CheckedOutIsPinned(entries: seq<CT.Entry>, refs: seq<nat>, unclean: seq<bool>, pending: seq<nat>)
    requires PinsOk(entries, refs, unclean, pending)
    ensures AllCheckedOut(refs) ==> CT.AllPinned(entries)
    ensures (forall i :: 0 <= i < |unclean| ==> !unclean[i]) ==> (AllCheckedOut(refs) <==> CT.AllPinned(entries))
  {
  }

  /** get_entry gave block key the slot idx, which is the only slot of the block, and took it from no pinned block. */
  ghost predicate Claimed(entries: seq<CT.Entry>, entries': seq<CT.Entry>, idx: nat, key: nat) {
    && idx < |entries| && entries' == entries[idx := CT.Entry(true, key, true)]
    && (entries[idx].pinned ==> entries[idx].inUse && entries[idx].key == key)
    && (forall i :: 0 <= i < |entries| && entries[i].inUse && entries[i].key == key ==> i == idx)
  }

  lemma ClaimedPins(entries: seq<CT.Entry>, entries': seq<CT.Entry>, refs: seq<nat>, unclean: seq<bool>, pending: seq<nat>,
                    idx: nat, key: nat, pending': seq<nat>)
    requires PinsOk(entries, refs, unclean, pending) && Claimed(entries, entries', idx, key)
    requires pending' == pending || pending' == pending + [idx]
    ensures idx < |refs| && PinsOk(entries', refs[idx := refs[idx] + 1], unclean, pending')
  {
    PinsNext(entries, refs, unclean, pending, idx, entries'[idx], refs[idx] + 1, unclean[idx], pending');
    assert unclean[idx := unclean[idx]] == unclean;
  }

  lemma FreedPins(entries: seq<CT.Entry>, refs: seq<nat>, unclean: seq<bool>, pending: seq<nat>, idx: nat)
    requires PinsOk(entries, refs, unclean, pending) && idx < |entries| && !entries[idx].pinned
    ensures PinsOk(entries[idx := CT.Entry(false, 0, false)], refs, unclean, pending)
  {
  }

  ghost predicate TableOk(entries: seq<CT.Entry>, table: map<nat, nat>) {
    && (forall k :: k in table ==> table[k] < |entries| && KeyOf(entries[table[k]]) == Some(k))
    && (forall i :: 0 <= i < |entries| && entries[i].inUse ==> entries[i].key in table && table[entries[i].key] == i)
  }

  /** Blocks that are checked out stay in their slots. */
  ghost predicate KeepsSlots(table: map<nat, nat>, table': map<nat, nat>, refs: seq<nat>) {
    forall k :: k in table && table[k] < |refs| && refs[table[k]] > 0 ==> k in table' && table'[k] == table[k]
  }

  lemma KeepsSame(table: map<nat, nat>, refs: seq<nat>)
    ensures KeepsSlots(table, table, refs)
  {
  }

  lemma ClaimKeeps(entries: seq<CT.Entry>, table: map<nat, nat>, entries': seq<CT.Entry>, table': map<nat, nat>,
                   refs: seq<nat>, unclean: seq<bool>, pending: seq<nat>, idx: nat, key: nat)
    requires TableOk(entries, table) && TableOk(entries', table')
    requires PinsOk(entries, refs, unclean, pending) && Claimed(entries, entries', idx, key)
    ensures KeepsSlots(table, table', refs)
  {
    forall k | k in table && refs[table[k]] > 0 ensures k in table' && table'[k] == table[k] {
      assert KeyOf(entries'[table[k]]) == Some(k);
    }
  }

  /** One slot changes its counts and its pin. */
  lemma PinsNext(entries: seq<CT.Entry>, refs: seq<nat>, unclean: seq<bool>, pending: seq<nat>, idx: nat,
                 e: CT.Entry, ref: nat, dirty: bool, pending': seq<nat>)
    requires PinsOk(entries, refs, unclean, pending) && idx < |entries|
    requires (e.pinned <==> ref > 0 || dirty) && (idx in pending' ==> ref > 0)
    requires pending' == pending || pending' == pending + [idx]
    ensures PinsOk(entries[idx := e], refs[idx := ref], unclean[idx := dirty], pending')
  {
  }

  /** A checked-out block whose slot has another mapping joins the batch at its end. */
  lemma JoinBatch(entries: seq<CT.Entry>, entries': seq<CT.Entry>, mapped: seq<Option<nat>>, pending: seq<nat>, idx: nat, key: nat)
    requires UniqueKeys(entries) && PendingOk(entries, pending) && MapOk(entries, mapped, pending)
    requires Claimed(entries, entries', idx, key)
    ensures var pending' := if mapped[idx] != Some(key) then pending + [idx] else pending;
            idx < |mapped| && PendingOk(entries', pending') && MapOk(entries', mapped, pending')
  {
    var pending' := if mapped[idx] != Some(key) then pending + [idx] else pending;
    forall i, j | 0 <= i <= j < |pending'| && pending'[j] !in pending'[..i] ensures mapped[pending'[j]] != KeyOf(entries'[pending'[i]]) {
      if i < |pending| {
        assert pending'[..i] == pending[..i] && KeyOf(entries'[pending[i]]) == KeyOf(entries[pending[i]]);
        if j < |pending| { assert pending[j] !in pending[..i]; }
        else if idx in pending {
          var k :| 0 <= k < |pending| && pending[k] == idx;
          assert k >= i;
        }
        else { assert mapped[idx] == KeyOf(entries[idx]); }
      }
    }
  }

  lemma JoinCounted(entries: seq<CT.Entry>, entries': seq<CT.Entry>, mapped: seq<Option<nat>>, pending: seq<nat>,
                    refs: seq<nat>, unclean: seq<bool>, idx: nat, key: nat)
    requires UniqueKeys(entries) && PendingOk(entries, pending) && MapOk(entries, mapped, pending)
    requires PinsOk(entries, refs, unclean, pending) && Claimed(entries, entries', idx, key)
    ensures idx < |mapped| && idx < |refs|
    ensures var pending' := if mapped[idx] != Some(key) then pending + [idx] else pending;
            PendingOk(entries', pending') && MapOk(entries', mapped, pending') && PinsOk(entries', refs[idx := refs[idx] + 1], unclean, pending')
  {
    hide UniqueKeys, PendingOk, MapOk, PinsOk, Claimed;
    JoinBatch(entries, entries', mapped, pending, idx, key);
    ClaimedPins(entries, entries', refs, unclean, pending, idx, key, if mapped[idx] != Some(key) then pending + [idx] else pending);
  }

  /** Updating the mapping of the next pending slot. */
  lemma MapNext(entries: seq<CT.Entry>, was: seq<Option<nat>>, mapped: seq<Option<nat>>, vm: map<nat, nat>, pending: seq<nat>, i: nat)
    requires UniqueKeys(entries) && PendingOk(entries, pending) && MapOk(entries, was, pending) && i < |pending|
    requires |mapped| == |entries| && VmOk(mapped, vm)
    requires forall s :: 0 <= s < |mapped| ==> mapped[s] == if s in pending[..i] then KeyOf(entries[s]) else was[s]
    ensures var s := pending[i];
            var k := entries[s].key;
            && VmOk(mapped[s := Some(k)], (vm - (if mapped[s].Some? then {mapped[s].value} else {}))[k := s])
            && forall t :: 0 <= t < |mapped| ==> mapped[s := Some(k)][t] == if t in pending[..i + 1] then KeyOf(entries[t]) else was[t]
  {
    var s := pending[i];
    var k := entries[s].key;
    forall t | 0 <= t < |mapped| && t != s ensures mapped[t] != Some(k) {
      if t in pending[..i] {
        assert mapped[t] == KeyOf(entries[t]);
      } else if t in pending {
        var j :| 0 <= j < |pending| && pending[j] == t;
        assert was[pending[j]] != KeyOf(entries[pending[i]]);
      } else {
        assert was[t] == KeyOf(entries[t]);
      }
    }
    assert pending[..i + 1] == pending[..i] + [s];
  }

  lemma PinnedMap(entries: seq<CT.Entry>, mapped: seq<Option<nat>>, pending: seq<nat>, idx: nat, pinned: bool)
    requires PendingOk(entries, pending) && MapOk(entries, mapped, pending)
    requires idx < |entries| && (!pinned ==> idx !in pending)
    ensures var entries' := entries[idx := entries[idx].(pinned := pinned)];
            PendingOk(entries', pending) && MapOk(entries', mapped, pending)
  {
    var entries' := entries[idx := entries[idx].(pinned := pinned)];
    assert forall i :: 0 <= i < |entries| ==> KeyOf(entries'[i]) == KeyOf(entries[i]);
  }

  /** A slot that is freed forgets its mapping. */
  lemma LeaveMap(entries: seq<CT.Entry>, mapped: seq<Option<nat>>, vm: map<nat, nat>, pending: seq<nat>, idx: nat)
    requires PendingOk(entries, pending) && MapOk(entries, mapped, pending) && VmOk(mapped, vm)
    requires idx < |entries| && !entries[idx].pinned
    ensures var entries', mapped' := entries[idx := CT.Entry(false, 0, false)], mapped[idx := None];
            PendingOk(entries', pending) && MapOk(entries', mapped', pending) && VmOk(mapped', vm)
  {
    assert forall i :: 0 <= i < |pending| ==> pending[i] != idx;
  }

  class BlockMap {
    const cs: CT.CacheSystem
    const tlb: Tlbs.Tlb
    /** Per slot: the address that the virtual-memory map is known to send to the slot. */
    const mapped: array<Option<nat>>
    /** The virtual-memory map, from block addresses to slots. */
    var vm: map<nat, nat>
    /** Per slot: how often its block is checked out, and whether it has dirty bytes or puts under way. */
    var refs: seq<nat>
    var unclean: seq<bool>
    /** The slots whose mapping is out of date, in order of their checkout. */
    var pending: seq<nat>

    ghost const Repr: set<object> := {this, cs, cs.entries, tlb, tlb.entries, mapped}

    ghost predicate Valid()
      reads Repr
    {
      cs.Valid() && tlb.Valid() && TlbOk() && BatchOk() && RefsOk()
    }

    ghost predicate RefsOk()
      reads this, cs.entries
    {
      PinsOk(cs.entries[..], refs, unclean, pending)
    }

    ghost predicate BatchOk()
      reads this, cs.entries, mapped
    {
      PendingOk(cs.entries[..], pending) && MapOk(cs.entries[..], mapped[..], pending) && VmOk(mapped[..], vm)
    }

    /** Every translation names the slot that the table has. */
    ghost predicate TlbOk()
      reads cs, tlb, tlb.entries
    {
      forall k, e :: tlb.Has(k, e) ==> k in cs.table && cs.table[k] == e
    }

    lemma KeysUnique()
      requires cs.Valid()
      ensures UniqueKeys(cs.entries[..])
    {
    }

    lemma TableIsOk()
      requires cs.Valid()
      ensures TableOk(cs.entries[..], cs.table)
    {
    }

    constructor (nentries: nat, ntlb: nat)
      requires ntlb > 0
      ensures Valid() && fresh(Repr) && pending == [] && vm == map[] && cs.table == map[]
    {
      cs := new CT.CacheSystem(nentries);
      tlb := new Tlbs.Tlb(ntlb);
      mapped := new Option<nat>[nentries](i => None);
      refs := seq(nentries, i => 0);
      unclean := seq(nentries, i => false);
      vm := map[];
      pending := [];
    }

    /** The fast path: a hit names the slot of the table, and outside a batch the virtual-memory map agrees. */
    method CheckoutFast(key: nat) returns (r: Option<nat>)
      requires Valid()
      modifies this`refs, tlb, tlb.entries, cs.entries
      ensures Valid()
      ensures r.Some? ==> key in cs.table && r.value == cs.table[key]
      ensures r.Some? && pending == [] ==> key in vm && vm[key] == r.value
      ensures refs == if r.Some? then old(refs)[r.value := old(refs[r.value]) + 1] else old(refs)
    {
      r := tlb.Get(Some(key));
      assert r.Some? && pending == [] ==> mapped[..][r.value] == KeyOf(cs.entries[..][r.value]);
      if r.Some? { Retain(r.value); }
    }

    /** One more reference. */
    method Retain(idx: nat)
      requires Valid() && idx < cs.n && cs.entries[idx].inUse
      modifies this`refs, cs.entries
      ensures Valid() && refs == old(refs)[idx := old(refs[idx]) + 1]
    {
      PinsNext(cs.entries[..], refs, unclean, pending, idx, cs.entries[idx].(pinned := true), refs[idx] + 1, unclean[idx], pending);
      refs := refs[idx := refs[idx] + 1];
      Pin(idx, true);
      assert unclean[idx := unclean[idx]] == unclean;
    }

    /** A slot changes its pin; those of the batch keep it. */
    method Pin(idx: nat, pinned: bool)
      requires cs.Valid() && BatchOk() && idx < cs.n && cs.entries[idx].inUse && (!pinned ==> idx !in pending)
      modifies cs.entries
      ensures cs.Valid() && BatchOk()
      ensures cs.entries[..] == old(cs.entries[..])[idx := old(cs.entries[idx]).(pinned := pinned)]
    {
      ghost var was := cs.entries[..];
      cs.SetPinned(idx, pinned);
      assert cs.entries[..] == was[idx := was[idx].(pinned := pinned)];
      PinnedMap(was, mapped[..], pending, idx, pinned);
    }

    /** checkin_blk: one reference less; what was written becomes dirty and keeps the block in the cache. */
    method Checkin(key: nat, registerDirty: bool)
      requires Valid() && key in cs.table && refs[cs.table[key]] > 0
      requires cs.table[key] in pending ==> refs[cs.table[key]] > 1
      modifies this`refs, this`unclean, cs, cs.entries
      ensures Valid() && cs.table == old(cs.table) && cs.lru == old(cs.lru)
      ensures var idx := cs.table[key];
              && refs == old(refs)[idx := old(refs[idx]) - 1]
              && unclean == old(unclean)[idx := old(unclean[idx]) || registerDirty]
              && (cs.entries[idx].pinned <==> old(refs[idx]) > 1 || registerDirty || old(unclean[idx]))
    {
      hide UniqueKeys, PendingOk, MapOk, VmOk;
      var idx := cs.table[key];
      var ref, dirty := refs[idx] - 1, unclean[idx] || registerDirty;
      var pinned := ref > 0 || dirty;
      PinsNext(cs.entries[..], refs, unclean, pending, idx, cs.entries[idx].(pinned := pinned), ref, dirty, pending);
      refs, unclean := refs[idx := ref], unclean[idx := dirty];
      Pin(idx, pinned);
    }

    /** ensure_all_cache_clean: only the checked-out blocks stay pinned. */
    method Clean()
      requires Valid()
      modifies this`unclean, cs.entries
      ensures Valid() && forall i :: 0 <= i < |unclean| ==> !unclean[i] && (cs.entries[i].pinned <==> refs[i] > 0)
      ensures forall i :: 0 <= i < |unclean| ==> KeyOf(cs.entries[i]) == KeyOf(old(cs.entries[i]))
    {
      var i := 0;
      while i < |unclean|
        invariant 0 <= i <= |unclean| && Valid()
        invariant forall j :: 0 <= j < i ==> !unclean[j]
        invariant forall j :: 0 <= j < |unclean| ==> KeyOf(cs.entries[j]) == KeyOf(old(cs.entries[j]))
      {
        CleanSlot(i);
        i := i + 1;
      }
    }

    method CleanSlot(idx: nat)
      requires Valid() && idx < cs.n
      modifies this`unclean, cs.entries
      ensures Valid() && unclean == old(unclean)[idx := false]
      ensures forall j :: 0 <= j < cs.n ==> KeyOf(cs.entries[j]) == KeyOf(old(cs.entries[j]))
    {
      PinsNext(cs.entries[..], refs, unclean, pending, idx, cs.entries[idx].(pinned := refs[idx] > 0), refs[idx], false, pending);
      assert refs[idx := refs[idx]] == refs;
      unclean := unclean[idx := false];
      if cs.entries[idx].inUse { Pin(idx, refs[idx] > 0); }
    }

    /** update_mapping: the old address of the slot is unmapped, then the new one is mapped. */
    method UpdateMapping(s: nat)
      requires s < mapped.Length == cs.entries.Length && cs.entries[s].inUse
      modifies this`vm, mapped
      ensures mapped[..] == old(mapped[..])[s := Some(cs.entries[s].key)]
      ensures vm == (old(vm) - (if old(mapped[s]).Some? then {old(mapped[s]).value} else {}))[cs.entries[s].key := s]
    {
      if mapped[s].Some? { vm := vm - {mapped[s].value}; }
      vm := vm[cs.entries[s].key := s];
      mapped[s] := Some(cs.entries[s].key);
    }

    /** The end of a batch: the map sends every cached block to its own slot, even when the batch evicted a block and
        cached it again in another slot. */
    method CheckoutComplete()
      requires Valid()
      modifies this`vm, this`pending, mapped
      ensures Valid() && pending == []
      ensures forall k :: k in cs.table ==> k in vm && vm[k] == cs.table[k]
    {
      ghost var was := mapped[..];
      KeysUnique();
      var i := 0;
      while i < |pending|
        invariant 0 <= i <= |pending| && pending == old(pending) && VmOk(mapped[..], vm)
        invariant forall s :: 0 <= s < mapped.Length ==> mapped[..][s] == if s in pending[..i] then KeyOf(cs.entries[..][s]) else was[s]
      {
        MapNext(cs.entries[..], was, mapped[..], vm, pending, i);
        UpdateMapping(pending[i]);
        i := i + 1;
      }
      assert pending[..i] == pending;
      pending := [];
      forall k | k in cs.table ensures k in vm && vm[k] == cs.table[k] {
        assert mapped[..][cs.table[k]] == KeyOf(cs.entries[..][cs.table[k]]);
      }
    }

    /** One block of a checkout on the slow path. When the cache is full, everything is written back and the call tries
        again, so that None means that the block is not cached and every slot holds a block that is checked out. The
        block gets the slot of the table, pinned until it is checked in, and its mapping becomes pending unless the map
        has it already. */
    method CheckoutBlk(key: nat) returns (r: Option<nat>)
      requires Valid()
      modifies this`pending, this`refs, this`unclean, cs, cs.entries, tlb, tlb.entries
      ensures Valid()
      ensures r.None? <==> key !in old(cs.table) && AllCheckedOut(old(refs))
      ensures r.None? ==> cs.table == old(cs.table) && pending == old(pending) && refs == old(refs)
      ensures r.Some? ==> key in cs.table && cs.table[key] == r.value < |refs| && cs.entries[r.value].pinned && tlb.Has(key, r.value)
      ensures r.Some? ==> refs == old(refs)[r.value := old(refs[r.value]) + 1]
      ensures KeepsSlots(old(cs.table), cs.table, old(refs))
      ensures r.Some? ==> pending == if mapped[r.value] == Some(key) then old(pending) else old(pending) + [r.value]
    {
      hide CT.AllPinned, AllCheckedOut, KeepsSlots, PinsOk, UniqueKeys, PendingOk, MapOk, VmOk;
      CheckedOutIsPinned(cs.entries[..], refs, unclean, pending);
      r := Attempt(key);
      if r.None? {
        Clean();
        CheckedOutIsPinned(cs.entries[..], refs, unclean, pending);
        r := Attempt(key);
      }
    }

    /** One attempt. */
    method Attempt(key: nat) returns (r: Option<nat>)
      requires Valid()
      modifies this`pending, this`refs, cs, cs.entries, tlb, tlb.entries
      ensures Valid()
      ensures r.None? <==> key !in old(cs.table) && CT.AllPinned(old(cs.entries[..]))
      ensures r.None? ==> cs.table == old(cs.table) && pending == old(pending) && refs == old(refs)
      ensures r.Some? ==> key in cs.table && cs.table[key] == r.value < |refs| && cs.entries[r.value].pinned && tlb.Has(key, r.value)
      ensures r.Some? ==> refs == old(refs)[r.value := old(refs[r.value]) + 1]
      ensures KeepsSlots(old(cs.table), cs.table, old(refs))
      ensures r.Some? ==> pending == if mapped[r.value] == Some(key) then old(pending) else old(pending) + [r.value]
    {
      hide UniqueKeys, PendingOk, MapOk, VmOk, PinsOk, TableOk, Claimed, KeepsSlots;
      KeysUnique();
      TableIsOk();
      KeepsSame(cs.table, refs);
      ghost var was, table, ms := cs.entries[..], cs.table, mapped[..];
      r := Claim(key);
      assert mapped[..] == ms;
      if r.Some? { Admit(r.value, key, was, table); }
    }

    /** The claimed slot joins the batch and gets a translation. */
    method Admit(idx: nat, key: nat, ghost was: seq<CT.Entry>, ghost table: map<nat, nat>)
      requires cs.Valid() && tlb.Valid() && TlbOk() && key in cs.table && cs.table[key] == idx
      requires UniqueKeys(was) && PendingOk(was, pending) && MapOk(was, mapped[..], pending) && VmOk(mapped[..], vm)
      requires PinsOk(was, refs, unclean, pending) && TableOk(was, table) && Claimed(was, cs.entries[..], idx, key)
      modifies this`pending, this`refs, tlb, tlb.entries
      ensures Valid() && tlb.Has(key, idx) && KeepsSlots(table, cs.table, old(refs))
      ensures idx < cs.entries.Length && cs.entries[idx].pinned
      ensures idx < mapped.Length && pending == if mapped[idx] == Some(key) then old(pending) else old(pending) + [idx]
      ensures idx < |old(refs)| && refs == old(refs)[idx := old(refs[idx]) + 1]
    {
      hide UniqueKeys, PendingOk, MapOk, VmOk, PinsOk, TableOk, KeepsSlots;
      TableIsOk();
      ClaimKeeps(was, table, cs.entries[..], cs.table, refs, unclean, pending, idx, key);
      assert cs.entries[..][idx].pinned;
      Enlist(idx, key, was);
      Translate(key, idx);
    }

    /** The slot of a block that is mapped elsewhere joins the batch, and is checked out once more. */
    method Enlist(idx: nat, key: nat, ghost was: seq<CT.Entry>)
      requires UniqueKeys(was) && PendingOk(was, pending) && MapOk(was, mapped[..], pending) && VmOk(mapped[..], vm)
      requires PinsOk(was, refs, unclean, pending) && Claimed(was, cs.entries[..], idx, key)
      modifies this`pending, this`refs
      ensures BatchOk() && RefsOk()
      ensures idx < mapped.Length && pending == if mapped[idx] == Some(key) then old(pending) else old(pending) + [idx]
      ensures idx < |old(refs)| && refs == old(refs)[idx := old(refs[idx]) + 1]
    {
      hide UniqueKeys, PendingOk, MapOk, VmOk, PinsOk, Claimed;
      ghost var es, ms := cs.entries[..], mapped[..];
      JoinCounted(was, es, ms, pending, refs, unclean, idx, key);
      if mapped[idx] != Some(key) { pending := pending + [idx]; }
      refs := refs[idx := refs[idx] + 1];
      assert cs.entries[..] == es && mapped[..] == ms;
    }

    /** get_entry, with the eviction callback that clears the translations. */
    method Claim(key: nat) returns (r: Option<nat>)
      requires cs.Valid() && tlb.Valid() && TlbOk()
      modifies cs, cs.entries, tlb, tlb.entries
      ensures cs.Valid() && tlb.Valid() && TlbOk()
      ensures r.None? <==> key !in old(cs.table) && CT.AllPinned(old(cs.entries[..]))
      ensures r.None? ==> cs.table == old(cs.table) && cs.entries[..] == old(cs.entries[..])
      ensures r.Some? ==> key in cs.table && cs.table[key] == r.value && Claimed(old(cs.entries[..]), cs.entries[..], r.value, key)
    {
      hide CT.AllPinned;
      OnlySlot(key);
      r := GetEntry(key);
      if r.Some? { cs.SetPinned(r.value, true); }
    }

    /** ensure_cached; an eviction clears the translations. */
    method GetEntry(key: nat) returns (r: Option<nat>)
      requires cs.Valid() && tlb.Valid() && TlbOk()
      modifies cs, cs.entries, tlb, tlb.entries
      ensures cs.Valid() && tlb.Valid() && TlbOk()
      ensures r.None? <==> key !in old(cs.table) && CT.AllPinned(old(cs.entries[..]))
      ensures r.None? ==> cs.table == old(cs.table) && cs.entries[..] == old(cs.entries[..])
      ensures old(key in cs.table) ==> cs.table == old(cs.table)
      ensures r.Some? ==> key in cs.table && cs.table[key] == r.value && r.value < |old(cs.entries[..])|
      ensures r.Some? ==>
                var e := old(cs.entries[..])[r.value];
                && cs.entries[..] == old(cs.entries[..])[r.value := CT.Entry(true, key, e.pinned)]
                && (e.pinned ==> e.inUse && e.key == key)
    {
      hide CT.AllPinned, CT.Ensure;
      cs.FullIs(key);
      var evicted;
      r, evicted := cs.EnsureCached(key, true);
      if evicted.Some? { ClearTlb(); }
    }

    lemma OnlySlot(key: nat)
      requires cs.Valid()
      ensures forall i :: 0 <= i < cs.n && cs.entries[i].inUse && cs.entries[i].key == key ==> key in cs.table && cs.table[key] == i
    {
    }

    method ClearTlb()
      requires tlb.Valid()
      modifies tlb, tlb.entries
      ensures tlb.Valid() && TlbOk() && forall k, e :: !tlb.Has(k, e)
    {
      tlb.Clear();
    }

    method Translate(key: nat, idx: nat)
      requires tlb.Valid() && TlbOk() && key in cs.table && cs.table[key] == idx
      modifies tlb, tlb.entries
      ensures tlb.Valid() && TlbOk() && tlb.Has(key, idx)
    {
      tlb.Add(key, idx);
    }

    /** A block of freed memory leaves the cache; its slot forgets its mapping. */
    method Evicted(key: nat)
      requires Valid() && (key in cs.table ==> !cs.entries[cs.table[key]].pinned)
      modifies cs, cs.entries, tlb, tlb.entries, mapped
      ensures Valid() && cs.table == old(cs.table) - {key} && forall e :: !tlb.Has(key, e)
    {
      hide UniqueKeys, PendingOk, MapOk, VmOk, PinsOk;
      if key in cs.table {
        var idx := cs.table[key];
        ghost var was := cs.entries[..];
        Drop(key);
        Forget(idx, was);
      }
    }

    /** ensure_evicted, with the eviction callback. */
    method Drop(key: nat)
      requires cs.Valid() && tlb.Valid() && key in cs.table && !cs.entries[cs.table[key]].pinned
      modifies cs, cs.entries, tlb, tlb.entries
      ensures cs.Valid() && tlb.Valid() && TlbOk() && cs.table == old(cs.table) - {key} && forall e :: !tlb.Has(key, e)
      ensures cs.entries[..] == old(cs.entries[..])[old(cs.table[key]) := CT.Entry(false, 0, false)]
    {
      var evicted := cs.EnsureEvicted(key);
      ClearTlb();
    }

    method Forget(idx: nat, ghost was: seq<CT.Entry>)
      requires PendingOk(was, pending) && MapOk(was, mapped[..], pending) && VmOk(mapped[..], vm)
      requires PinsOk(was, refs, unclean, pending)
      requires idx < |was| && !was[idx].pinned && cs.entries[..] == was[idx := CT.Entry(false, 0, false)]
      modifies mapped
      ensures BatchOk() && RefsOk()
    {
      hide PendingOk, VmOk, PinsOk;
      FreedPins(was, refs, unclean, pending, idx);
      LeaveMap(was, mapped[..], vm, pending, idx);
      ghost var before := mapped[..];
      mapped[idx] := None;
      assert mapped[..] == before[idx := None];
    }
  }
}
