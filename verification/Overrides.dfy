/** What administrators set by hand for single backends: a table of tables, by group and by
    address within it. */
module Overrides {
  import opened Wire

  /** `weight` None keeps the provider's weight; `drained` removes the backend. */
  datatype Override = Override(weight: Option<int>, drained: bool)

  type Table = map<string, map<string, Override>>

  function OfGroup(t: Table, group: string): map<string, Override> {
    if group in t then t[group] else map[]
  }

  function Find(t: Table, group: string, address: string): Option<Override> {
    if address in OfGroup(t, group) then Some(OfGroup(t, group)[address]) else None
  }

  function WithOverride(t: Table, group: string, address: string, o: Override): Table {
    t[group := OfGroup(t, group)[address := o]]
  }

  function WithoutOverride(t: Table, group: string, address: string): Table {
    if group !in t then t else
    var rest := t[group] - {address};
    if rest == map[] then t - {group} else t[group := rest]
  }

  /** No group is kept with an empty table. */
  predicate Compact(t: Table) {
    forall g :: g in t ==> t[g] != map[]
  }

  /** Setting changes exactly one address; clearing forgets exactly one. */
  lemma OverrideLookup(t: Table, group: string, address: string, o: Override, g: string, a: string)
    ensures Find(WithOverride(t, group, address, o), g, a)
         == if g == group && a == address then Some(o) else Find(t, g, a)
    ensures Find(WithoutOverride(t, group, address), g, a)
         == if g == group && a == address then None else Find(t, g, a)
  {
    if group in t {
      assert forall x :: x in t[group] && x != address ==> x in t[group] - {address};
    }
  }

  /** Clearing a fresh override restores the table exactly. */
  lemma ClearUndoesSet(t: Table, group: string, address: string, o: Override)
    requires Compact(t) && Find(t, group, address) == None
    ensures WithoutOverride(WithOverride(t, group, address, o), group, address) == t
    ensures Compact(WithOverride(t, group, address, o))
  {
    var was := OfGroup(t, group);
    assert was[address := o] - {address} == was;
  }

  class OverrideStore {
    var data: Table

    constructor ()
      ensures data == map[]
    {
      data := map[];
    }

    method GroupOverrides(group: string) returns (out: map<string, Override>)
      ensures out == OfGroup(data, group)
    {
      var src := if group in data then data[group] else map[];
      out := CopyInner(src);
    }

    /** `persisted` is whether writing the snapshot to disk succeeds: memory changes either way. */
    method Set(group: string, address: string, weight: Option<int>, drained: bool, persisted: bool) returns (ok: bool)
      modifies this
      ensures data == WithOverride(old(data), group, address, Override(weight, drained))
      ensures ok == persisted
    {
      if group !in data {
        data := data[group := map[]];
      }
      data := data[group := data[group][address := Override(weight, drained)]];
      var snapshot := CloneLocked();
      ok := persisted;
    }

    method Clear(group: string, address: string, persisted: bool) returns (ok: bool)
      modifies this
      ensures data == WithoutOverride(old(data), group, address)
      ensures ok == persisted
    {
      if group in data {
        data := data[group := data[group] - {address}];
        if data[group] == map[] {
          data := data - {group};
        }
      }
      var snapshot := CloneLocked();
      ok := persisted;
    }

    method CloneLocked() returns (out: Table)
      ensures out == data
    {
      out := map[];
      var groups := data.Keys;
      while groups != {}
        invariant groups <= data.Keys
        invariant out.Keys == data.Keys - groups
        invariant forall g :: g in out ==> out[g] == data[g]
      {
        var g :| g in groups;
        var inner := CopyInner(data[g]);
        out := out[g := inner];
        groups := groups - {g};
      }
    }
  }

  method CopyInner(src: map<string, Override>) returns (out: map<string, Override>)
    ensures out == src
  {
    out := map[];
    var rest := src.Keys;
    while rest != {}
      invariant rest <= src.Keys
      invariant out.Keys == src.Keys - rest
      invariant forall a :: a in out ==> out[a] == src[a]
    {
      var a :| a in rest;
      out := out[a := src[a]];
      rest := rest - {a};
    }
  }
}
