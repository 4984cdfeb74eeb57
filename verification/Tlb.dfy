/** The small table of recent address translations: any key, invalid or repeated, may be stored in any place. */
module Tlbs {
  import opened Options

  datatype Entry = Entry(key: Option<nat>, entry: Option<nat>, timestamp: nat)

  class Tlb {
    const entries: array<Entry>
    var timestamp: nat

    /** Place 0 is the invalid entry that a search without a hit returns. */
    ghost predicate Valid()
      reads this, entries
    {
      && entries.Length > 1
      && entries[0].key == entries[0].entry == None
      && (forall i :: 0 <= i < entries.Length ==> entries[i].key.None? == entries[i].entry.None?)
    }

    /** A hit on k may return e. */
    ghost predicate Has(k: nat, e: nat)
      reads this, entries
    {
      exists i :: 1 <= i < entries.Length && entries[i].key == Some(k) && entries[i].entry == Some(e)
    }

    ghost predicate HasKey(k: nat)
      reads this, entries
    {
      exists i :: 1 <= i < entries.Length && entries[i].key == Some(k)
    }

    constructor (n: nat)
      requires n > 0
      ensures Valid() && fresh(entries) && entries.Length == n + 1 && forall k, e :: !Has(k, e)
    {
      entries := new Entry[n + 1](i => Entry(None, None, 0));
      timestamp := 0;
    }

    /** The new translation is found from now on, no other one appears, and at most one place is lost: a free one, or
        one with the smallest timestamp. */
    method Add(key: nat, entry: nat)
      requires Valid()
      modifies this, entries
      ensures Valid() && Has(key, entry)
      ensures forall k, e :: Has(k, e) ==> old(Has(k, e)) || (k == key && e == entry)
      ensures exists i :: 1 <= i < entries.Length &&
                (old(entries[i].key) == None || forall j :: 1 <= j < entries.Length ==> old(entries[i].timestamp <= entries[j].timestamp)) &&
                (forall j :: 0 <= j < entries.Length && j != i ==> entries[j] == old(entries[j]))
    {
      var invalidKey := entries[0].key;
      var i := 1;
      while i < entries.Length
        invariant 1 <= i <= entries.Length
      {
        if entries[i].key == invalidKey {
          Store(i, key, entry);
          return;
        }
        i := i + 1;
      }
      var victim := 1;
      i := 2;
      while i < entries.Length
        invariant 2 <= i <= entries.Length && 1 <= victim < i
        invariant forall j :: 1 <= j < i ==> entries[victim].timestamp <= entries[j].timestamp
      {
        if entries[i].timestamp < entries[victim].timestamp { victim := i; }
        i := i + 1;
      }
      Store(victim, key, entry);
    }

    method Store(i: nat, key: nat, entry: nat)
      requires Valid() && 1 <= i < entries.Length
      modifies this, entries
      ensures Valid() && entries[i].key == Some(key) && entries[i].entry == Some(entry)
      ensures forall j :: 0 <= j < entries.Length && j != i ==> entries[j] == old(entries[j])
    {
      entries[i] := Entry(Some(key), Some(entry), timestamp);
      timestamp := timestamp + 1;
    }

    /** A hit is a stored translation, a miss means that there is none; searching changes no translation. */
    method Get(key: Option<nat>) returns (r: Option<nat>)
      requires Valid()
      modifies this, entries
      ensures Valid()
      ensures r.Some? ==> key.Some? && Has(key.value, r.value)
      ensures r.None? && key.Some? ==> !HasKey(key.value)
      ensures forall k, e :: Has(k, e) <==> old(Has(k, e))
    {
      var found := 0;
      var i := 1;
      while i < entries.Length
        invariant 1 <= i <= entries.Length && 0 <= found < i
        invariant found > 0 ==> entries[found].key == key
        invariant found == 0 ==> forall j :: 1 <= j < i ==> entries[j].key != key
      {
        if entries[i].key == key { found := i; }
        i := i + 1;
      }
      entries[found] := entries[found].(timestamp := timestamp);
      timestamp := timestamp + 1;
      r := entries[found].entry;
      assert forall j :: 0 <= j < entries.Length ==> entries[j].key == old(entries[j].key) && entries[j].entry == old(entries[j].entry);
      forall k: nat, e: nat ensures Has(k, e) <==> old(Has(k, e)) {
        if old(Has(k, e)) {
          var j :| 1 <= j < entries.Length && old(entries[j].key) == Some(k) && old(entries[j].entry) == Some(e);
          assert entries[j].key == Some(k) && entries[j].entry == Some(e);
        }
      }
    }

    method Clear()
      requires Valid()
      modifies this, entries
      ensures Valid() && forall k, e :: !Has(k, e)
    {
      var invalid := entries[0];
      var i := 0;
      while i < entries.Length
        invariant 0 <= i <= entries.Length
        invariant forall j :: 0 <= j < i ==> entries[j] == invalid
        invariant invalid.key == invalid.entry == None && Valid()
      {
        entries[i] := invalid;
        i := i + 1;
      }
      timestamp := 0;
    }
  }
}
