/** Bringing the associated-IMPU pointers and the IMPI mappings of one store in line with
    an IRS whose default record has just been written or deleted. */
module IrsUpdate {
  import opened Types
  import opened StateMap
  import opened Stores
  import opened IrsModel

  /** A table without its versions. */
  function Values<T>(table: map<string, Versioned<T>>): (r: map<string, T>)
    ensures r.Keys == table.Keys
    ensures forall k :: k in table ==> r[k] == table[k].value
  {
    map k | k in table :: table[k].value
  }

  /** The identities of a tracking map that are written: additions, and for a refreshed
      IRS also what is unchanged. */
  function Written(data: Data, refreshed: bool): (r: set<string>)
    ensures forall k :: k in r <==> k in data && (data[k] == ADDED || (refreshed && data[k] == UNCHANGED))
  {
    InState(data, ADDED) + if refreshed then InState(data, UNCHANGED) else {}
  }

  predicate PointsTo(r: Record, d: string) {
    r.Associated? && r.defaultImpu == d
  }

  /** The pointers after the update: those written point to d, those deleted no longer do. */
  function Pointers(impus: map<string, Record>, d: string, write: set<string>, drop: set<string>, expiry: int)
    : (r: map<string, Record>)
  {
    map k | k in impus.Keys + write && (k in write || k !in drop || !PointsTo(impus[k], d)) ::
      if k in write then Associated(d, expiry) else impus[k]
  }

  lemma PointersStep(impus: map<string, Record>, d: string, write: set<string>, drop: set<string>,
                     expiry: int, a: string)
    requires a !in write && a !in drop
    ensures Pointers(impus, d, write + {a}, drop, expiry) ==
              Pointers(impus, d, write, drop, expiry)[a := Associated(d, expiry)]
    ensures var p := Pointers(impus, d, write, drop, expiry);
            Pointers(impus, d, write, drop + {a}, expiry) == if a in p && PointsTo(p[a], d) then p - {a} else p
  {
  }

  method UpdateIrsAssociatedImpus(irs: MemcachedIrs, store: ImpuStore, now: int) returns (status: Status)
    requires store.turns == [] && ValidStore(store.View())
    modifies store
    ensures status == OK && store.turns == [] && ValidStore(store.View())
    ensures store.mappings == old(store.mappings)
    ensures Values(store.impus) ==
              Pointers(old(Values(store.impus)), irs.defaultImpu, Written(irs.associated, irs.refreshed),
                       InState(irs.associated, DELETED), irs.ttl + now)
  {
    status := RemovePointers(InState(irs.associated, DELETED), irs.defaultImpu, irs.ttl + now, store);
    WritePointers(Written(irs.associated, irs.refreshed), InState(irs.associated, DELETED),
                  irs.defaultImpu, irs.ttl + now, store, old(Values(store.impus)));
  }

  method RemovePointers(drop: set<string>, d: string, expiry: int, store: ImpuStore) returns (status: Status)
    requires store.turns == [] && ValidStore(store.View())
    modifies store
    ensures status == OK && store.turns == [] && ValidStore(store.View())
    ensures store.mappings == old(store.mappings)
    ensures Values(store.impus) == Pointers(old(Values(store.impus)), d, {}, drop, expiry)
  {
    status := OK;
    ghost var before := Values(store.impus);
    var todo := drop;
    assert drop - todo == {};
    assert Pointers(before, d, {}, {}, expiry) == before;
    while todo != {}
      invariant todo <= drop && status == OK && store.turns == [] && ValidStore(store.View())
      invariant store.mappings == old(store.mappings)
      invariant Values(store.impus) == Pointers(before, d, {}, drop - todo, expiry)
    {
      var a :| a in todo;
      PointersStep(before, d, {}, drop - todo, expiry, a);
      assert drop - todo + {a} == drop - (todo - {a});
      status := RemovePointer(a, d, store);
      todo := todo - {a};
    }
    assert drop - todo == drop;
  }

  method WritePointer(a: string, d: string, expiry: int, store: ImpuStore)
    requires store.turns == [] && ValidStore(store.View())
    modifies store
    ensures store.turns == [] && ValidStore(store.View())
    ensures store.mappings == old(store.mappings)
    ensures Values(store.impus) == old(Values(store.impus))[a := Associated(d, expiry)]
  {
    var _ := store.SetImpuWithoutCas(a, Associated(d, expiry));
  }

  method WritePointers(write: set<string>, ghost drop: set<string>, d: string, expiry: int, store: ImpuStore,
                       ghost before: map<string, Record>)
    requires store.turns == [] && ValidStore(store.View()) && write !! drop
    requires Values(store.impus) == Pointers(before, d, {}, drop, expiry)
    modifies store
    ensures store.turns == [] && ValidStore(store.View())
    ensures store.mappings == old(store.mappings)
    ensures Values(store.impus) == Pointers(before, d, write, drop, expiry)
  {
    var todo := write;
    assert write - todo == {};
    while todo != {}
      invariant todo <= write && store.turns == [] && ValidStore(store.View())
      invariant store.mappings == old(store.mappings)
      invariant Values(store.impus) == Pointers(before, d, write - todo, drop, expiry)
    {
      var a :| a in todo;
      PointersStep(before, d, write - todo, drop, expiry, a);
      assert write - todo + {a} == write - (todo - {a});
      WritePointer(a, d, expiry, store);
      todo := todo - {a};
    }
    assert write - todo == write;
  }

  /** Deletes a pointer if it still points to this IRS. */
  method RemovePointer(a: string, d: string, store: ImpuStore) returns (status: Status)
    requires store.turns == [] && ValidStore(store.View())
    modifies store
    ensures status == OK && store.turns == [] && ValidStore(store.View())
    ensures store.mappings == old(store.mappings) && store.lastCas >= old(store.lastCas)
    ensures Values(store.impus) ==
              if a in old(store.impus) && PointsTo(old(store.impus)[a].value, d)
              then old(Values(store.impus)) - {a} else old(Values(store.impus))
  {
    status := OK;
    var again := true;
    while again
      invariant status == OK && store.turns == []
      invariant again ==> store.View() == old(store.View())
      invariant !again ==>
        Values(store.impus) == (if a in old(store.impus) && PointsTo(old(store.impus)[a].value, d)
                                then old(Values(store.impus)) - {a} else old(Values(store.impus)))
      invariant ValidStore(store.View())
      invariant store.mappings == old(store.mappings) && store.lastCas >= old(store.lastCas)
      decreases again
    {
      var _, found := store.GetImpu(a);
      if found.Some? && found.value.value.Associated? && found.value.value.defaultImpu == d {
        status := store.DeleteImpu(a);
      }
      again := status == DATA_CONTENTION;
    }
  }

  // ----------------------------------------------------------------- IMPI mappings

  function Add(s: seq<string>, d: string): (r: seq<string>)
    ensures forall x :: x in r <==> x in s || x == d
  {
    if d in s then s else s + [d]
  }

  function Remove(s: seq<string>, d: string): (r: seq<string>)
    ensures forall x :: x in r <==> x in s && x != d
  {
    if s == [] then [] else (if s[0] == d then [] else [s[0]]) + Remove(s[1..], d)
  }

  /** Removing d would empty the mapping, which deletes it. */
  predicate Emptied(m: Mapping, d: string) {
    d in m.defaultImpus && Remove(m.defaultImpus, d) == []
  }

  /** One mapping after d was put in it; a mapping that has d already is only rewritten
      by a refreshed IRS. */
  function Joined(m: Mapping, d: string, refreshed: bool, expiry: int): (r: Mapping) {
    if d in m.defaultImpus && !refreshed then m else Mapping(Add(m.defaultImpus, d), expiry)
  }

  /** One mapping after d was removed from it. */
  function Parted(m: Mapping, d: string): (r: Mapping) {
    if d in m.defaultImpus then Mapping(Remove(m.defaultImpus, d), m.expiry) else m
  }

  function Unmapped(m: map<string, Mapping>, i: string, d: string): (r: map<string, Mapping>) {
    if i !in m then m else if Emptied(m[i], d) then m - {i} else m[i := Parted(m[i], d)]
  }

  function Mapped(m: map<string, Mapping>, i: string, d: string, refreshed: bool, expiry: int)
    : (r: map<string, Mapping>)
  {
    m[i := if i in m then Joined(m[i], d, refreshed, expiry) else Mapping([d], expiry)]
  }

  /** All mappings after the update. */
  function Mappings(m: map<string, Mapping>, d: string, write: set<string>, drop: set<string>,
                    refreshed: bool, expiry: int)
    : (r: map<string, Mapping>)
  {
    map i | i in m.Keys + write && (i in write || i !in drop || !Emptied(m[i], d)) ::
      if i in write then (if i in m then Joined(m[i], d, refreshed, expiry) else Mapping([d], expiry))
      else if i in drop then Parted(m[i], d) else m[i]
  }

  method RemoveFromMapping(i: string, d: string, store: ImpuStore) returns (status: Status)
    requires store.turns == [] && ValidStore(store.View())
    modifies store
    ensures status == OK && store.turns == [] && ValidStore(store.View())
    ensures store.impus == old(store.impus)
    ensures Values(store.mappings) == Unmapped(old(Values(store.mappings)), i, d)
  {
    status := OK;
    var again := true;
    while again
      invariant status == OK && store.turns == [] && ValidStore(store.View())
      invariant again ==> store.View() == old(store.View())
      invariant store.impus == old(store.impus)
      invariant !again ==> Values(store.mappings) == Unmapped(old(Values(store.mappings)), i, d)
      decreases again
    {
      var _, found := store.GetImpiMapping(i);
      if found.Some? {
        var m := found.value.value;
        if d in m.defaultImpus {
          var left := Remove(m.defaultImpus, d);
          if left == [] {
            status := store.DeleteImpiMapping(i);
          } else {
            status := store.SetImpiMapping(i, Mapping(left, m.expiry), found.value.cas);
          }
        }
      }
      again := status == DATA_CONTENTION;
    }
  }

  method RefreshMapping(i: string, d: string, expiry: int, store: ImpuStore) returns (status: Status)
    requires store.turns == [] && ValidStore(store.View())
    modifies store
    ensures status == OK && store.turns == [] && ValidStore(store.View())
    ensures store.impus == old(store.impus)
    ensures Values(store.mappings) == Mapped(old(Values(store.mappings)), i, d, true, expiry)
  {
    status := OK;
    var again := true;
    while again
      invariant status == OK && store.turns == [] && ValidStore(store.View())
      invariant again ==> store.View() == old(store.View())
      invariant store.impus == old(store.impus)
      invariant !again ==> Values(store.mappings) == Mapped(old(Values(store.mappings)), i, d, true, expiry)
      decreases again
    {
      var _, found := store.GetImpiMapping(i);
      var m, cas := Mapping([d], expiry), 0;
      if found.Some? {
        m, cas := Mapping(Add(found.value.value.defaultImpus, d), expiry), found.value.cas;
      }
      status := store.SetImpiMapping(i, m, cas);
      again := status == DATA_CONTENTION;
    }
  }

  /** Supposes that the mapping is new, and resolves the contention if it is not. */
  method AddToMapping(i: string, d: string, refreshed: bool, expiry: int, store: ImpuStore) returns (status: Status)
    requires store.turns == [] && ValidStore(store.View())
    modifies store
    ensures status == OK && store.turns == [] && ValidStore(store.View())
    ensures store.impus == old(store.impus)
    ensures Values(store.mappings) == Mapped(old(Values(store.mappings)), i, d, refreshed, expiry)
  {
    var m, cas := Mapping([d], expiry), 0;
    status := DATA_CONTENTION;
    while status == DATA_CONTENTION
      invariant status == OK || status == DATA_CONTENTION
      invariant store.turns == [] && ValidStore(store.View()) && store.impus == old(store.impus)
      invariant status == DATA_CONTENTION ==> store.View() == old(store.View())
      invariant status == DATA_CONTENTION ==>
        if cas == 0 then m == Mapping([d], expiry)
        else i in store.mappings && cas == store.mappings[i].cas &&
             (d in store.mappings[i].value.defaultImpus ==> refreshed) &&
             m == Mapping(Add(store.mappings[i].value.defaultImpus, d), expiry)
      invariant status == OK ==>
        Values(store.mappings) == Mapped(old(Values(store.mappings)), i, d, refreshed, expiry)
      decreases status == DATA_CONTENTION, cas == 0
    {
      status := store.SetImpiMapping(i, m, cas);
      if status == DATA_CONTENTION {
        var inner, found := store.GetImpiMapping(i);
        if inner == OK {
          m, cas := Mapping(Add(found.value.value.defaultImpus, d), expiry), found.value.cas;
          if d in found.value.value.defaultImpus && !refreshed {
            status := OK;
          }
        } else if inner != NOT_FOUND {
          status := inner;
        }
      }
    }
  }

  lemma MappingsStep(m: map<string, Mapping>, d: string, write: set<string>, drop: set<string>,
                     refreshed: bool, expiry: int, i: string)
    requires i !in write && i !in drop
    ensures var p := Mappings(m, d, write, drop, refreshed, expiry);
            && Mappings(m, d, write + {i}, drop, refreshed, expiry) == Mapped(p, i, d, refreshed, expiry)
            && Mappings(m, d, write, drop + {i}, refreshed, expiry) == Unmapped(p, i, d)
  {
  }

  method RemoveFromMappings(drop: set<string>, d: string, ghost refreshed: bool, ghost expiry: int, store: ImpuStore)
    returns (status: Status)
    requires store.turns == [] && ValidStore(store.View())
    modifies store
    ensures status == OK && store.turns == [] && ValidStore(store.View())
    ensures store.impus == old(store.impus)
    ensures Values(store.mappings) == Mappings(old(Values(store.mappings)), d, {}, drop, refreshed, expiry)
  {
    status := OK;
    ghost var before := Values(store.mappings);
    var todo := drop;
    assert drop - todo == {};
    assert Mappings(before, d, {}, {}, refreshed, expiry) == before;
    while todo != {}
      invariant todo <= drop && status == OK && store.turns == [] && ValidStore(store.View())
      invariant store.impus == old(store.impus)
      invariant Values(store.mappings) == Mappings(before, d, {}, drop - todo, refreshed, expiry)
    {
      var i :| i in todo;
      MappingsStep(before, d, {}, drop - todo, refreshed, expiry, i);
      assert drop - todo + {i} == drop - (todo - {i});
      status := RemoveFromMapping(i, d, store);
      todo := todo - {i};
    }
    assert drop - todo == drop;
  }

  method RefreshMappings(write: set<string>, ghost drop: set<string>, d: string, expiry: int,
                         store: ImpuStore, ghost before: map<string, Mapping>) returns (status: Status)
    requires store.turns == [] && ValidStore(store.View()) && write !! drop
    requires Values(store.mappings) == Mappings(before, d, {}, drop, true, expiry)
    modifies store
    ensures status == OK && store.turns == [] && ValidStore(store.View())
    ensures store.impus == old(store.impus)
    ensures Values(store.mappings) == Mappings(before, d, write, drop, true, expiry)
  {
    status := OK;
    var todo := write;
    assert write - todo == {};
    while todo != {}
      invariant todo <= write && status == OK && store.turns == [] && ValidStore(store.View())
      invariant store.impus == old(store.impus)
      invariant Values(store.mappings) == Mappings(before, d, write - todo, drop, true, expiry)
    {
      var i :| i in todo;
      MappingsStep(before, d, write - todo, drop, true, expiry, i);
      assert write - todo + {i} == write - (todo - {i});
      status := RefreshMapping(i, d, expiry, store);
      todo := todo - {i};
    }
    assert write - todo == write;
  }

  method AddToMappings(added: set<string>, ghost written: set<string>, ghost drop: set<string>, d: string,
                       refreshed: bool, expiry: int, store: ImpuStore, ghost before: map<string, Mapping>)
    returns (status: Status)
    requires store.turns == [] && ValidStore(store.View()) && added !! drop && added !! written
    requires Values(store.mappings) == Mappings(before, d, written, drop, refreshed, expiry)
    modifies store
    ensures status == OK && store.turns == [] && ValidStore(store.View())
    ensures store.impus == old(store.impus)
    ensures Values(store.mappings) == Mappings(before, d, added + written, drop, refreshed, expiry)
  {
    status := OK;
    var todo := added;
    assert added - todo + written == written;
    while todo != {}
      invariant todo <= added && status == OK && store.turns == [] && ValidStore(store.View())
      invariant store.impus == old(store.impus)
      invariant Values(store.mappings) == Mappings(before, d, added - todo + written, drop, refreshed, expiry)
    {
      var i :| i in todo;
      MappingsStep(before, d, added - todo + written, drop, refreshed, expiry, i);
      assert added - todo + written + {i} == added - (todo - {i}) + written;
      status := AddToMapping(i, d, refreshed, expiry, store);
      todo := todo - {i};
    }
    assert added - todo + written == added + written;
  }

  method UpdateIrsImpiMappings(irs: MemcachedIrs, store: ImpuStore, now: int) returns (status: Status)
    requires store.turns == [] && ValidStore(store.View())
    modifies store
    ensures status == OK && store.turns == [] && ValidStore(store.View())
    ensures store.impus == old(store.impus)
    ensures Values(store.mappings) ==
              Mappings(old(Values(store.mappings)), irs.defaultImpu, Written(irs.impis, irs.refreshed),
                       InState(irs.impis, DELETED), irs.refreshed, irs.ttl + now)
  {
    var d, expiry, refreshed := irs.defaultImpu, irs.ttl + now, irs.refreshed;
    ghost var before := Values(store.mappings);
    var drop, kept := InState(irs.impis, DELETED), {};
    status := RemoveFromMappings(drop, d, refreshed, expiry, store);
    if refreshed {
      kept := InState(irs.impis, UNCHANGED);
      status := RefreshMappings(kept, drop, d, expiry, store, before);
    }
    status := AddToMappings(InState(irs.impis, ADDED), kept, drop, d, refreshed, expiry, store, before);
    assert InState(irs.impis, ADDED) + kept == Written(irs.impis, irs.refreshed);
  }
}
