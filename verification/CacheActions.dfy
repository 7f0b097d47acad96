/** Putting and deleting an IRS: first on the local store, then on every remote one. */
module CacheActions {
  import opened Types
  import opened StateMap
  import opened Stores
  import opened IrsModel
  import opened ImpuAction
  import opened IrsUpdate
  import opened Consistency
  import NoLostUpdate

  /** The caller may put this IRS into a store without leaving it inconsistent: none of the
      IMPUs it will write pointers for is in another IRS; the version it remembers, if still
      there, is one it copies; and without a record in the store it claims nothing as unchanged. */
  ghost predicate Ready(irs: Irs, here: bool, s: Store) {
    var d := irs.defaultImpu;
    && Unclaimed(Values(s.impus), d, Written(irs.associated, irs.refreshed))
    && (here ==> 0 < irs.cas)
    && (d in s.impus && here && irs.cas == s.impus[d].cas ==>
          CoversKeys(irs, s.impus[d].value) && (irs.refreshed || Covers(irs, s.impus[d].value)))
    && (d !in s.impus ==>
          irs.refreshed || (InState(irs.associated, UNCHANGED) == {} && InState(irs.impis, UNCHANGED) == {}))
    && (!irs.existing ==> d !in s.impus)
  }

  /** The store still has the version that the IRS remembers, so that it is written over
      without being read. */
  predicate Remembered(irs: Irs, here: bool, s: Store) {
    here && irs.defaultImpu in s.impus && s.impus[irs.defaultImpu].cas == irs.cas
  }

  /** With nobody else writing, the update loop writes at once or after one re-read. */
  lemma QuietSet(irs: Irs, s: Store, here: bool, now: int)
    requires ValidStore(s) && Ready(irs, here, s)
    ensures var r, d := Perform(SET, irs, s, [], here, now), irs.defaultImpu;
            && r.status == OK && r.turns == []
            && r.store == PutImpu(s, d, AsRecord(r.irs, now))
            && r.irs == (if d in s.impus && !Remembered(irs, here, s) then MergeRecord(irs, s.impus[d].value, now)
                         else irs)
            && (d in s.impus && r.irs == irs ==>
                  CoversKeys(irs, s.impus[d].value) && (irs.refreshed || Covers(irs, s.impus[d].value)))
  {
    var d := irs.defaultImpu;
    assert AfterTurns(s, []) == s;
    assert Next([]) == [] && Rest([]) == [];
    var r := Reread(SET, irs, s, [], now);
    assert r.status == OK && r.store == PutImpu(s, d, AsRecord(r.irs, now));
    if d in s.impus && r.irs == irs {
      MergeCovers(irs, s.impus[d].value, now);
    }
  }

  /** An IRS that is ready before a put is up to date when its record has been written. */
  lemma QuietSetUpToDate(irs: Irs, s: Store, here: bool, now: int)
    requires ValidStore(s) && Ready(irs, here, s) && AgreeOnImpus(Values(s.impus))
    ensures var r, impus, d := Perform(SET, irs, s, [], here, now), Values(s.impus), irs.defaultImpu;
            && NoConflict(impus, r.irs) && r.irs.defaultImpu == d
            && UpToDate(r.irs.associated, r.irs.refreshed, Listed(impus, d))
            && UpToDate(r.irs.impis, r.irs.refreshed, ListedImpis(impus, d))
  {
    hide Perform, AgreeOnImpus, NoConflict, MergeRecord;
    QuietSet(irs, s, here, now);
    var d := irs.defaultImpu;
    if d in s.impus && !Remembered(irs, here, s) {
      MergeReady(irs, s, now);
    } else {
      WriteReady(irs, here, s);
    }
  }

  /** After merging the record there. */
  lemma MergeReady(irs: Irs, s: Store, now: int)
    requires AgreeOnImpus(Values(s.impus)) && irs.defaultImpu in s.impus
    requires Unclaimed(Values(s.impus), irs.defaultImpu, Written(irs.associated, irs.refreshed))
    ensures var d, impus := irs.defaultImpu, Values(s.impus);
            var m := MergeRecord(irs, s.impus[d].value, now);
            && NoConflict(impus, m) && m.defaultImpu == d
            && UpToDate(m.associated, m.refreshed, Listed(impus, d))
            && UpToDate(m.impis, m.refreshed, ListedImpis(impus, d))
  {
    var d, impus := irs.defaultImpu, Values(s.impus);
    var rec := s.impus[d].value;
    MergeCovers(irs, rec, now);
    var m := MergeRecord(irs, rec, now);
    assert Listed(impus, d) == rec.associated;
    forall a | a in Live(m.associated) ensures a != d && (a in impus ==> PointsTo(impus[a], d)) {
      if a !in Written(irs.associated, irs.refreshed) {
        assert a in rec.associated;
        assert Points(impus, a, d);
      }
    }
  }

  /** As it is, over the record it remembers or over none. */
  lemma WriteReady(irs: Irs, here: bool, s: Store)
    requires AgreeOnImpus(Values(s.impus)) && Ready(irs, here, s)
    requires irs.defaultImpu in s.impus ==> Remembered(irs, here, s)
    ensures var d, impus := irs.defaultImpu, Values(s.impus);
            && NoConflict(impus, irs)
            && UpToDate(irs.associated, irs.refreshed, Listed(impus, d))
            && UpToDate(irs.impis, irs.refreshed, ListedImpis(impus, d))
  {
    var d, impus := irs.defaultImpu, Values(s.impus);
    forall a | a in Live(irs.associated) ensures a != d && (a in impus ==> PointsTo(impus[a], d)) {
      if a !in Written(irs.associated, irs.refreshed) {
        assert a in InState(irs.associated, UNCHANGED);
        assert Points(impus, a, d);
      }
    }
  }

  /** Creates a default record that was not found: a registered one overwrites whatever got
      there meanwhile, any other one gives way to it. */
  method CreateIrsImpu(irs: MemcachedIrs, store: ImpuStore, now: int) returns (status: Status)
    modifies store
    ensures status == if old(store.Faulty()) then ERROR else OK
    ensures store.turns == old(store.turns)[|old(store.Turns1())|..]
    ensures store.View() ==
              if status == OK && (irs.state == REGISTERED || irs.defaultImpu !in old(store.Now()).impus)
              then PutImpu(old(store.Now()), irs.defaultImpu, AsRecord(irs.View(), now)) else old(store.Now())
  {
    if irs.state == REGISTERED {
      status := store.SetImpuWithoutCas(irs.defaultImpu, AsRecord(irs.View(), now));
    } else {
      status := store.AddImpu(irs.defaultImpu, AsRecord(irs.View(), now));
      if status == DATA_CONTENTION {
        status := OK;
      }
    }
  }

  /** What a put or a deletion makes of an IRS and the two tables of a quiet store. */
  datatype Result = Result(irs: Irs, impus: Impus, maps: Maps, status: Status)

  /** The first step of a put. */
  function WriteDefault(irs: Irs, s: Store, here: bool, now: int): (r: Outcome)
    requires ValidStore(s)
  {
    if irs.existing then Perform(SET, irs, s, [], here, now)
    else
      Outcome(irs,
              if irs.state == REGISTERED || irs.defaultImpu !in s.impus
              then PutImpu(s, irs.defaultImpu, AsRecord(irs, now)) else s,
              [], OK, 1, [], [])
  }

  /** All three steps of a put. */
  function Put(irs: Irs, s: Store, here: bool, now: int): (r: Result)
    requires ValidStore(s)
  {
    var w := WriteDefault(irs, s, here, now);
    var impus := Values(w.store.impus);
    if w.status != OK then Result(w.irs, impus, Values(s.mappings), w.status)
    else
      Result(w.irs,
             Pointers(impus, irs.defaultImpu, Written(w.irs.associated, w.irs.refreshed),
                      InState(w.irs.associated, DELETED), w.irs.ttl + now),
             PutMaps(Values(s.mappings), w.irs, now), OK)
  }

  lemma QuietReread(action: Action, irs: Irs, s: Store, now: int)
    requires ValidStore(s)
    ensures var r := Reread(action, irs, s, [], now);
            && r.turns == [] && r.status != DATA_CONTENTION && ValidStore(r.store)
            && r.store.mappings == s.mappings && r.irs.defaultImpu == irs.defaultImpu
  {
    hide AsRecord, Encoded, MergeRecord;
    RereadContended(action, irs, s, [], now);
    assert AfterTurns(s, []) == s;
    assert Next([]) == [] && Rest([]) == [];
  }

  /** With nobody else writing, the loop leaves a valid store and touches no mapping. */
  lemma QuietPerform(action: Action, irs: Irs, s: Store, here: bool, now: int)
    requires ValidStore(s)
    ensures var r := Perform(action, irs, s, [], here, now);
            && r.turns == [] && ValidStore(r.store)
            && r.store.mappings == s.mappings && r.irs.defaultImpu == irs.defaultImpu
  {
    QuietReread(action, irs, s, now);
    assert AfterTurns(s, []) == s;
    assert Next([]) == [] && Rest([]) == [];
  }

  method WriteDefaultOn(irs: MemcachedIrs, store: ImpuStore, now: int) returns (status: Status)
    requires store.turns == [] && ValidStore(store.View())
    modifies irs, store
    ensures store.turns == [] && ValidStore(store.View()) && irs.origin == old(irs.origin)
    ensures var w := WriteDefault(old(irs.View()), old(store.View()), old(irs.origin) == store, now);
            irs.View() == w.irs && store.View() == w.store && status == w.status
    ensures store.mappings == old(store.mappings) && irs.defaultImpu == old(irs.defaultImpu)
  {
    assert AfterTurns(store.View(), []) == store.View();
    if irs.existing {
      QuietPerform(SET, irs.View(), store.View(), irs.origin == store, now);
      status := PerformIrsImpuAction(SET, irs, store, now);
    } else {
      status := CreateIrsImpu(irs, store, now);
    }
  }

  /** The second and third step of a put. */
  method FinishPut(irs: MemcachedIrs, store: ImpuStore, now: int)
    requires store.turns == [] && ValidStore(store.View())
    modifies store
    ensures store.turns == [] && ValidStore(store.View())
    ensures Values(store.impus) ==
              Pointers(old(Values(store.impus)), irs.defaultImpu, Written(irs.associated, irs.refreshed),
                       InState(irs.associated, DELETED), irs.ttl + now)
    ensures Values(store.mappings) == PutMaps(old(Values(store.mappings)), irs.View(), now)
  {
    var _ := UpdateIrsAssociatedImpus(irs, store, now);
    var _ := UpdateIrsImpiMappings(irs, store, now);
  }

  /** `put_irs_action` on a quiet store. */
  method PutIrsAction(irs: MemcachedIrs, store: ImpuStore, now: int) returns (status: Status)
    requires store.turns == [] && ValidStore(store.View())
    modifies irs, store
    ensures store.turns == [] && ValidStore(store.View()) && irs.origin == old(irs.origin)
    ensures Result(irs.View(), Values(store.impus), Values(store.mappings), status) ==
              Put(old(irs.View()), old(store.View()), old(irs.origin) == store, now)
  {
    hide Perform, Pointers, Mappings, Values;
    status := WriteDefaultOn(irs, store, now);
    if status == OK {
      FinishPut(irs, store, now);
    }
  }

  /** The next store is what putting this IRS makes of the last one. */
  ghost predicate PutStep(irs: Irs, next: Irs, here: bool, s: Store, t: Store, now: int) {
    && ValidStore(s) && ValidStore(t)
    && var r := Put(irs, s, here, now); next == r.irs && Values(t.impus) == r.impus && Values(t.mappings) == r.maps
  }

  lemma PutIsStep(irs: Irs, next: Irs, here: bool, s: Store, t: Store, now: int)
    requires ValidStore(s) && ValidStore(t)
    requires Result(next, Values(t.impus), Values(t.mappings), Put(irs, s, here, now).status) == Put(irs, s, here, now)
    ensures PutStep(irs, next, here, s, t, now)
  {
    hide Put, ValidStore;
  }

  /** `put_ims_sub_action`: puts every IRS of a subscription, one after the other, touched or
      not; whatever becomes of one put is ignored. */
  method PutImsSubAction(irss: seq<MemcachedIrs>, store: ImpuStore, now: int)
    returns (status: Status, ghost steps: seq<Store>)
    requires store.turns == [] && ValidStore(store.View())
    requires forall m, n :: 0 <= m < n < |irss| ==> irss[m] != irss[n]
    modifies irss, store
    ensures status == OK && store.turns == [] && ValidStore(store.View())
    ensures |steps| == |irss| + 1 && steps[0] == old(store.View()) && steps[|irss|] == store.View()
    ensures forall n :: 0 <= n < |irss| ==>
              && irss[n].origin == old(irss[n].origin)
              && PutStep(old(irss[n].View()), irss[n].View(), irss[n].origin == store, steps[n], steps[n + 1], now)
  {
    hide Put, PutStep, ValidStore, Values;
    status, steps := OK, [store.View()];
    for k := 0 to |irss|
      invariant status == OK && store.turns == [] && ValidStore(store.View())
      invariant |steps| == k + 1 && steps[0] == old(store.View()) && steps[k] == store.View()
      invariant forall n :: k <= n < |irss| ==> irss[n].View() == old(irss[n].View())
      invariant forall n :: 0 <= n < |irss| ==> irss[n].origin == old(irss[n].origin)
      invariant forall n :: 0 <= n < k ==>
        PutStep(old(irss[n].View()), irss[n].View(), irss[n].origin == store, steps[n], steps[n + 1], now)
    {
      ghost var i0, s := irss[k].View(), store.View();
      var _ := PutIrsAction(irss[k], store, now);
      PutIsStep(i0, irss[k].View(), irss[k].origin == store, s, store.View(), now);
      steps := steps + [store.View()];
    }
  }

  /** What a put does not change of the IRS itself: it is still the caller's, and tracks all
      it did. */
  ghost predicate KeptByPut(before: Irs, after: Irs) {
    && NoLostUpdate.StillCallers(before, after)
    && before.impis.Keys <= after.impis.Keys && before.associated.Keys <= after.associated.Keys
  }

  /** There is an entry, and it lacks the IMPI. */
  predicate Lacks(impus: Impus, d: string, i: string) {
    d in impus && impus[d].Default? && i !in impus[d].impis
  }

  /** The same for an associated IMPU. */
  predicate LacksImpu(impus: Impus, d: string, a: string) {
    d in impus && impus[d].Default? && a !in impus[d].associated
  }

  /** A put marks no IMPI as deleted but one that the entry lacks; and for an IRS that is not
      refreshed no associated IMPU either. */
  ghost predicate DropsLacking(before: Irs, after: Irs, impus: Impus) {
    && (forall i :: i in InState(after.impis, DELETED) ==>
          i in InState(before.impis, DELETED) || Lacks(impus, before.defaultImpu, i))
    && (!before.refreshed ==>
          forall a :: a in InState(after.associated, DELETED) ==>
            a in InState(before.associated, DELETED) || LacksImpu(impus, before.defaultImpu, a))
  }

  /** The entry that a put resolves against: the one in the store, unless it is written over
      unread although the IRS no longer copies it in full. */
  ghost function Against(irs: Irs, here: bool, s: Store): (entry: Option<Subscriber>) {
    var d := irs.defaultImpu;
    if d !in s.impus || s.impus[d].value.Associated? then None
    else if Remembered(irs, here, s) && !Covers(irs, s.impus[d].value) then None
    else Some(AsSubscriber(s.impus[d].value))
  }

  /** The entry that a put makes: the caller's additions and none of its deletions, the rest
      from the entry there was; what the caller set, and otherwise what there was.  With no
      entry to resolve against, it is all the caller's. */
  ghost function NewEntry(irs: Irs, entry: Option<Subscriber>): (r: Subscriber) {
    match entry
    case None => Subscriber(Live(irs.associated), Live(irs.impis), irs.state == REGISTERED, irs.charging, irs.xml)
    case Some(o) =>
      Subscriber(
        if irs.refreshed then Live(irs.associated)
        else InState(irs.associated, ADDED) + (o.associated - InState(irs.associated, DELETED)),
        InState(irs.impis, ADDED) + (o.impis - InState(irs.impis, DELETED)),
        if irs.stateSet then irs.state == REGISTERED else o.registered,
        if irs.chargingSet then irs.charging else o.charging,
        if irs.xmlSet then irs.xml else o.xml)
  }

  /** The record that a put writes is that entry. */
  lemma WritesNewEntry(irs: Irs, s: Store, here: bool, now: int)
    requires ValidStore(s) && Ready(irs, here, s)
    ensures var w := WriteDefault(irs, s, here, now);
            && AsSubscriber(AsRecord(w.irs, now)) == NewEntry(irs, Against(irs, here, s))
            && KeptByPut(irs, w.irs) && w.irs.defaultImpu == irs.defaultImpu
            && DropsLacking(irs, w.irs, Values(s.impus)) && (irs.defaultImpu !in s.impus ==> w.irs == irs)
  {
    hide Perform, MergeRecord, Encoded, Written, AsRecord, AsSubscriber, NewEntry, KeptByPut;
    var w, d := WriteDefault(irs, s, here, now), irs.defaultImpu;
    WholeEntry(irs, now);
    if irs.existing {
      QuietSet(irs, s, here, now);
      if d in s.impus && !Remembered(irs, here, s) {
        MergedEntry(irs, s.impus[d].value, now);
      } else if d in s.impus && Covers(irs, s.impus[d].value) {
        CoveredEntry(irs, s.impus[d].value, now);
      }
    }
  }

  lemma WholeEntry(irs: Irs, now: int)
    ensures AsRecord(irs, now).Default? && AsSubscriber(AsRecord(irs, now)) == NewEntry(irs, None)
    ensures KeptByPut(irs, irs)
  {
  }

  lemma CoveredEntry(irs: Irs, r: Record, now: int)
    requires r.Default? && Covers(irs, r)
    ensures AsRecord(irs, now).Default? && AsSubscriber(AsRecord(irs, now)) == NewEntry(irs, Some(AsSubscriber(r)))
  {
    CoveredWriteKeepsUpdates(irs, r, now);
  }

  lemma MergedEntry(irs: Irs, r: Record, now: int)
    requires r.Default?
    ensures AsRecord(MergeRecord(irs, r, now), now).Default?
    ensures var m := MergeRecord(irs, r, now);
            && m.defaultImpu == irs.defaultImpu
            && AsSubscriber(AsRecord(m, now)) == NewEntry(irs, Some(AsSubscriber(r))) && KeptByPut(irs, m)
            && (forall i :: i in InState(m.impis, DELETED) ==> i in InState(irs.impis, DELETED) || i !in r.impis)
            && (!irs.refreshed ==>
                  forall a :: a in InState(m.associated, DELETED) ==>
                    a in InState(irs.associated, DELETED) || a !in r.associated)
  {
    hide Covers;
    var m := MergeRecord(irs, r, now);
    assert [r][..0] == [] && MergeRecords(irs, [r], now) == m;
    NoLostUpdate.MergedStillCallers(irs, [r], now);
    MergeCovers(irs, r, now);
    CoveredWriteKeepsUpdates(m, r, now);
    assert r.impis - InState(m.impis, DELETED) == r.impis - InState(irs.impis, DELETED);
    if !irs.refreshed {
      assert r.associated - InState(m.associated, DELETED) == r.associated - InState(irs.associated, DELETED);
    }
  }

  /** The default record is written, and the IRS is now up to date with what the store had. */
  lemma WriteDefaultUpToDate(irs: Irs, s: Store, here: bool, now: int)
    requires ValidStore(s) && AgreeOnImpus(Values(s.impus)) && Ready(irs, here, s)
    ensures var w, impus, d := WriteDefault(irs, s, here, now), Values(s.impus), irs.defaultImpu;
            && w.status == OK && Values(w.store.impus) == impus[d := Encoded(AsRecord(w.irs, now))]
            && NoConflict(impus, w.irs)
            && UpToDate(w.irs.associated, w.irs.refreshed, Listed(impus, d))
            && UpToDate(w.irs.impis, w.irs.refreshed, ListedImpis(impus, d))
  {
    hide Perform, AgreeOnImpus, NoConflict, UpToDate, CoversKeys, Covers;
    if irs.existing {
      QuietSet(irs, s, here, now);
      QuietSetUpToDate(irs, s, here, now);
    } else {
      WriteReady(irs, here, s);
    }
  }

  /** Refinement of `put_irs_action`: on a consistent store an IRS that is ready leaves a
      consistent store, and the abstract map changes in the one entry of that IRS, which is
      resolved from the caller's edits and the entry there was. */
  lemma PutActionRefines(irs: Irs, s: Store, here: bool, now: int)
    requires ValidStore(s) && Consistent(Values(s.impus), Values(s.mappings)) && Ready(irs, here, s)
    ensures var r := Put(irs, s, here, now);
            && r.status == OK && Consistent(r.impus, r.maps)
            && Abstract(r.impus) == Abstract(Values(s.impus))[irs.defaultImpu := NewEntry(irs, Against(irs, here, s))]
            && KeptByPut(irs, r.irs) && DropsLacking(irs, r.irs, Values(s.impus))
            && (irs.defaultImpu !in s.impus ==> r.irs == irs)
  {
    hide AgreeOnImpus, AgreeOnImpis, Perform, Abstract, NewEntry, Against, KeptByPut, DropsLacking, Pointers, Mappings;
    WritesNewEntry(irs, s, here, now);
    WriteDefaultUpToDate(irs, s, here, now);
    var w := WriteDefault(irs, s, here, now);
    PutRefines(Values(s.impus), Values(s.mappings), w.irs, now);
  }

  /** On a store that lacks its record, a non-refreshed IRS leaves a consistent store exactly if
      it counts nothing as unchanged: whatever it does would be listed in the new record, and
      neither pointed nor mapped to it. */
  lemma UnrefreshedPutDangles(irs: Irs, s: Store, here: bool, now: int)
    requires ValidStore(s) && Consistent(Values(s.impus), Values(s.mappings)) && NoConflict(Values(s.impus), irs)
    requires irs.existing && !irs.refreshed && irs.defaultImpu !in s.impus && (here ==> 0 < irs.cas)
    ensures var r := Put(irs, s, here, now);
            && r.status == OK
            && (Consistent(r.impus, r.maps) <==>
                  InState(irs.associated, UNCHANGED) == {} && InState(irs.impis, UNCHANGED) == {})
  {
    hide Consistent, NoConflict, Perform, Pointers, Mappings, AsRecord, Encoded;
    AbsentWrite(irs, s, here, now);
    var w := WriteDefault(irs, s, here, now);
    assert Values(w.store.impus) == Values(s.impus)[irs.defaultImpu := Encoded(AsRecord(irs, now))];
    PutRefines(Values(s.impus), Values(s.mappings), irs, now);
  }

  /** When a put fails on a quiet store: if it is of a stored, non-refreshed IRS and finds a
      pointer where its record should be. */
  lemma PutFailsExactly(irs: Irs, s: Store, here: bool, now: int)
    requires ValidStore(s) && (here ==> 0 < irs.cas)
    ensures var d := irs.defaultImpu;
            Put(irs, s, here, now).status ==
              if irs.existing && !irs.refreshed && d in s.impus && s.impus[d].value.Associated? &&
                 !Remembered(irs, here, s)
              then ERROR else OK
  {
    hide AsRecord, Encoded, Pointers, Mappings, Merged, Superseded;
    assert AfterTurns(s, []) == s;
    assert Next([]) == [] && Rest([]) == [];
  }

  /** With no record there, the IRS is written as it is. */
  lemma AbsentWrite(irs: Irs, s: Store, here: bool, now: int)
    requires ValidStore(s) && irs.existing && irs.defaultImpu !in s.impus && (here ==> 0 < irs.cas)
    ensures var w := WriteDefault(irs, s, here, now);
            w.status == OK && w.irs == irs && w.store == PutImpu(s, irs.defaultImpu, AsRecord(irs, now))
  {
    hide AsRecord, Encoded;
    assert AfterTurns(s, []) == s;
    assert Next([]) == [] && Rest([]) == [];
  }

  // -------------------------------------------------------------------- deletion

  /** `delete_irs_action` as a function; the turns are those its first step waits for. */
  function Delete(irs: Irs, s: Store, turns: seq<Turn>, here: bool, now: int): (r: Result)
    requires ValidStore(s)
  {
    var w := Perform(DELETE, irs.(refreshed := true), s, turns, here, now);
    if w.status != OK then Result(w.irs, Values(w.store.impus), Values(w.store.mappings), w.status)
    else
      Result(w.irs.(associated := AllIn(w.irs.associated.Keys, DELETED), impis := AllIn(w.irs.impis.Keys, DELETED)),
             Pointers(Values(w.store.impus), irs.defaultImpu, {}, w.irs.associated.Keys, w.irs.ttl + now),
             DeletedMaps(Values(w.store.mappings), w.irs, now), OK)
  }

  /** The second and third step of a deletion. */
  method FinishDelete(irs: MemcachedIrs, store: ImpuStore, now: int) returns (status: Status)
    requires store.turns == [] && ValidStore(store.View())
    modifies irs, store
    ensures store.turns == [] && ValidStore(store.View()) && irs.origin == old(irs.origin) && status == OK
    ensures irs.View() == old(irs.View()).(associated := AllIn(old(irs.associated).Keys, DELETED),
                                           impis := AllIn(old(irs.impis).Keys, DELETED))
    ensures Values(store.impus) ==
              Pointers(old(Values(store.impus)), irs.defaultImpu, {}, old(irs.associated).Keys, irs.ttl + now)
    ensures Values(store.mappings) ==
              Mappings(old(Values(store.mappings)), irs.defaultImpu, {}, old(irs.impis).Keys, irs.refreshed,
                  irs.ttl + now)
  {
    hide Pointers, Mappings, Values, Written;
    irs.DeleteAssocImpus();
    AllDeleted(old(irs.associated).Keys, irs.refreshed);
    status := UpdateIrsAssociatedImpus(irs, store, now);
    if status == OK {
      irs.DeleteImpis();
      AllDeleted(old(irs.impis).Keys, irs.refreshed);
      status := UpdateIrsImpiMappings(irs, store, now);
    }
  }

  lemma AllDeleted(keys: set<string>, refreshed: bool)
    ensures Written(AllIn(keys, DELETED), refreshed) == {} && InState(AllIn(keys, DELETED), DELETED) == keys
  {
  }

  /** The first step of a deletion waits for all the turns there are. */
  ghost predicate QuietAfterFirst(irs: Irs, s: Store, turns: seq<Turn>, here: bool, now: int) {
    ValidStore(s) && Perform(DELETE, irs.(refreshed := true), s, turns, here, now).turns == []
  }

  /** `delete_irs_action`: whatever the others do before the accesses of its first step, and
      whether or not those fail; after that the store is quiet. */
  method DeleteIrsAction(irs: MemcachedIrs, store: ImpuStore, now: int) returns (status: Status)
    requires QuietAfterFirst(irs.View(), store.View(), store.turns, irs.origin == store, now)
    modifies irs, store
    ensures store.turns == [] && ValidStore(store.View()) && irs.origin == old(irs.origin)
    ensures Result(irs.View(), Values(store.impus), Values(store.mappings), status) ==
              Delete(old(irs.View()), old(store.View()), old(store.turns), old(irs.origin) == store, now)
  {
    hide Perform, Pointers, Mappings, Values, AllIn;
    irs.MarkAsRefreshed();
    DeleteStaysValid(irs.View(), store.View(), store.turns, irs.origin == store, now);
    status := PerformIrsImpuAction(DELETE, irs, store, now);
    if status == OK {
      status := FinishDelete(irs, store, now);
    }
  }

  /** Over any turns the first step of a deletion makes one round and leaves a valid store. */
  lemma DeleteStaysValid(irs: Irs, s: Store, turns: seq<Turn>, here: bool, now: int)
    requires ValidStore(s) && irs.refreshed
    ensures var r := Perform(DELETE, irs, s, turns, here, now);
            ValidStore(r.store) && r.irs.defaultImpu == irs.defaultImpu && r.irs.refreshed
  {
    hide Reread;
    TurnEffect(s, Next(turns), irs.defaultImpu);
    RereadStaysValid(irs, s, turns, now);
  }

  lemma RereadStaysValid(irs: Irs, s: Store, turns: seq<Turn>, now: int)
    requires ValidStore(s) && irs.refreshed
    ensures var r := Reread(DELETE, irs, s, turns, now);
            && r.status != DATA_CONTENTION && ValidStore(r.store)
            && r.irs.defaultImpu == irs.defaultImpu && r.irs.refreshed
  {
    hide Act, Merged, Superseded, AfterTurns, Next, Rest, ValidStore;
    var t, d := AfterTurns(s, Next(turns)), irs.defaultImpu;
    TurnEffect(s, Next(turns), d);
    if !Fault(turns) && d in t.impus {
      var m := if t.impus[d].value.Default? then MergeRecord(irs, t.impus[d].value, now) else irs;
      DeleteActStaysValid(m, t, Rest(turns), t.impus[d].cas, now);
    }
  }

  lemma DeleteActStaysValid(irs: Irs, s: Store, turns: seq<Turn>, cas: nat, now: int)
    requires ValidStore(s)
    ensures var r := Act(DELETE, irs, s, turns, cas, now);
            r.status != DATA_CONTENTION && ValidStore(r.store) && r.irs == irs
  {
    hide AsRecord, AfterTurns;
    TurnEffect(s, Next(turns), irs.defaultImpu);
  }

  /** With nobody else writing, the record is gone after one round, and if the IRS was read
      from another store, all that the record listed is now tracked. */
  lemma QuietDelete(irs: Irs, s: Store, here: bool, now: int)
    requires ValidStore(s) && irs.refreshed
    ensures var r, d := Perform(DELETE, irs, s, [], here, now), irs.defaultImpu;
            && r.status == OK && r.store == DropImpu(s, d) && r.irs.defaultImpu == d && r.irs.refreshed
            && r.irs.existing == irs.existing && r.irs.cas == irs.cas
            && r.turns == []
            && irs.impis.Keys <= r.irs.impis.Keys && irs.associated.Keys <= r.irs.associated.Keys
            && (!here && d in s.impus && s.impus[d].value.Default? ==> CoversKeys(r.irs, s.impus[d].value))
  {
    hide AsRecord, Encoded, Merged, Superseded;
    var d := irs.defaultImpu;
    assert AfterTurns(s, []) == s;
    assert Next([]) == [] && Rest([]) == [];
    if d in s.impus && s.impus[d].value.Default? {
      MergeCovers(irs, s.impus[d].value, now);
    }
    if d !in s.impus {
      assert s.impus - {d} == s.impus;
    }
  }

  /** Everything listed by the record in the store the IRS was read from is tracked. */
  ghost predicate ReadHere(irs: Irs, here: bool, s: Store) {
    var d := irs.defaultImpu;
    here && d in s.impus && s.impus[d].value.Default? ==> CoversKeys(irs, s.impus[d].value)
  }

  /** A deletion cleans any consistent store, whether or not the IRS was read from it; and
      if the default IMPU is not an associated one there, it is removal from the abstract map. */
  lemma DeleteActionRefines(irs: Irs, s: Store, here: bool, now: int)
    requires ValidStore(s) && Consistent(Values(s.impus), Values(s.mappings)) && ReadHere(irs, here, s)
    ensures var r, d := Delete(irs, s, [], here, now), irs.defaultImpu;
            && r.status == OK && Clean(r.impus, r.maps, d)
            && (!(d in s.impus && s.impus[d].value.Associated?) ==>
                  Consistent(r.impus, r.maps) && Abstract(r.impus) == Abstract(Values(s.impus)) - {d})
            && r.irs.defaultImpu == d && r.irs.existing == irs.existing
            && irs.impis.Keys <= r.irs.impis.Keys && irs.associated.Keys <= r.irs.associated.Keys
  {
    hide Perform, AgreeOnImpus, AgreeOnImpis, Abstract, Mappings;
    var i1, d := irs.(refreshed := true), irs.defaultImpu;
    QuietDelete(i1, s, here, now);
    var w := Perform(DELETE, i1, s, [], here, now);
    assert Values(w.store.impus) == Values(s.impus) - {d};
    DeleteCleans(Values(s.impus), Values(s.mappings), w.irs, now);
    if !(d in s.impus && s.impus[d].value.Associated?) {
      DeleteRefines(Values(s.impus), Values(s.mappings), w.irs, now);
    }
  }

  /** A deletion of an IRS not read from this store whose first read fails reports success
      all the same.  The default record stays, and what it lists and the IRS tracks is no
      longer pointed or mapped to it: the store is consistent exactly if there was nothing. */
  lemma FailedReadDangles(irs: Irs, s: Store, now: int)
    requires ValidStore(s) && Consistent(Values(s.impus), Values(s.mappings))
    requires irs.defaultImpu in s.impus && s.impus[irs.defaultImpu].value.Default?
    ensures var turns, impus, d := [Turn([], true)], Values(s.impus), irs.defaultImpu;
            var r := Delete(irs, s, turns, false, now);
            && QuietAfterFirst(irs, s, turns, false, now) && r.status == OK
            && d in r.impus && r.impus[d] == impus[d]
            && (Consistent(r.impus, r.maps) <==>
                  Listed(impus, d) !! irs.associated.Keys && ListedImpis(impus, d) !! irs.impis.Keys)
  {
    hide Consistent, Listed, ListedImpis;
    var turns := [Turn([], true)];
    assert Next(turns) == turns && turns[1..] == [];
    assert AfterTurns(s, turns) == s;
    StrippedAgree(Values(s.impus), Values(s.mappings), irs.defaultImpu, irs.associated.Keys, irs.impis.Keys,
        irs.ttl + now);
  }

  /** Taking pointers and mappings from a default record that stays. */
  lemma StrippedAgree(impus: Impus, maps: Maps, d: string, drop: set<string>, dropImpis: set<string>, expiry: int)
    requires Consistent(impus, maps) && d in impus && impus[d].Default?
    ensures var after, maps' := Pointers(impus, d, {}, drop, expiry), Mappings(maps, d, {}, dropImpis, true, expiry);
            Consistent(after, maps') <==> Listed(impus, d) !! drop && ListedImpis(impus, d) !! dropImpis
  {
    var after, maps' := Pointers(impus, d, {}, drop, expiry), Mappings(maps, d, {}, dropImpis, true, expiry);
    forall a, e
      ensures Points(after, a, e) <==> a in Listed(impus, e) && !(e == d && a in drop)
      ensures Listed(after, e) == Listed(impus, e)
    {
      assert Points(impus, a, e) <==> a in Listed(impus, e);
    }
    forall i, e
      ensures MapsTo(maps', i, e) <==> i in ListedImpis(impus, e) && !(e == d && i in dropImpis)
      ensures ListedImpis(after, e) == ListedImpis(impus, e)
    {
      assert MapsTo(maps, i, e) <==> i in ListedImpis(impus, e);
    }
    if Consistent(after, maps') {
      forall a ensures !(a in Listed(impus, d) && a in drop) {
        assert Points(after, a, d) <==> a in Listed(after, d);
      }
      forall i ensures !(i in ListedImpis(impus, d) && i in dropImpis) {
        assert MapsTo(maps', i, d) <==> i in ListedImpis(after, d);
      }
    }
  }

  // ------------------------------------------------------------- several deletions

  /** An IRS that can be deleted from a store: it was not stored yet, or all that its record
      lists there is tracked and its default IMPU is nobody's associated one. */
  ghost predicate Deletable(irs: Irs, here: bool, s: Store) {
    var d := irs.defaultImpu;
    irs.existing ==> ReadHere(irs, here, s) && !(d in s.impus && s.impus[d].value.Associated?)
  }

  /** The store t is what passing over or deleting this IRS makes of s. */
  ghost predicate PassedOn(irs: Irs, here: bool, now: int, s: Store, t: Store)
    requires ValidStore(s)
  {
    var r := Delete(irs, s, [], here, now);
    if irs.existing then Values(t.impus) == r.impus && Values(t.mappings) == r.maps else t == s
  }

  /** Deleting one IRS from a consistent store leaves the others deletable. */
  lemma StillDeletable(irs: Irs, here: bool, s: Store, gone: Irs, wasHere: bool, now: int, t: Store)
    requires ValidStore(s) && Consistent(Values(s.impus), Values(s.mappings))
    requires Deletable(irs, here, s) && Deletable(gone, wasHere, s) && PassedOn(gone, wasHere, now, s, t)
    ensures Deletable(irs, here, t)
  {
    hide Perform, Pointers, Mappings, Consistent, ValidStore, CoversKeys;
    if gone.existing {
      QuietDelete(gone.(refreshed := true), s, wasHere, now);
      var w := Perform(DELETE, gone.(refreshed := true), s, [], wasHere, now);
      PointersKeep(Values(w.store.impus), gone.defaultImpu, w.irs.associated.Keys, w.irs.ttl + now, irs.defaultImpu);
    }
  }

  /** Removing pointers creates no record and changes none. */
  lemma PointersKeep(impus: Impus, d: string, drop: set<string>, expiry: int, k: string)
    ensures var r := Pointers(impus, d, {}, drop, expiry); k in r ==> k in impus && r[k] == impus[k]
  {
  }

  /** What a deletion does not change of the IRS. */
  ghost predicate CarriedByDelete(before: Irs, after: Irs) {
    && after.defaultImpu == before.defaultImpu && after.existing == before.existing
    && before.impis.Keys <= after.impis.Keys && before.associated.Keys <= after.associated.Keys
  }

  ghost function Views(irss: seq<MemcachedIrs>): (r: seq<Irs>)
    reads irss
    ensures |r| == |irss| && forall n :: 0 <= n < |r| ==> r[n] == irss[n].View()
  {
    seq(|irss|, n requires 0 <= n < |irss| reads irss => irss[n].View())
  }

  /** The stores they were read from. */
  ghost function Origins(irss: seq<MemcachedIrs>): (r: seq<ImpuStore?>)
    reads irss
    ensures |r| == |irss| && forall n :: 0 <= n < |r| ==> r[n] == irss[n].origin
  {
    seq(|irss|, n requires 0 <= n < |irss| reads irss => irss[n].origin)
  }

  ghost function ExistingDefaults(irss: seq<Irs>): (r: set<string>) {
    set n | 0 <= n < |irss| && irss[n].existing :: irss[n].defaultImpu
  }

  /** The store is consistent, and each of the IRSs from the k-th on can be deleted from it. */
  ghost predicate AllDeletable(irss: seq<Irs>, origins: seq<ImpuStore?>, k: nat, store: ImpuStore, s: Store)
    requires |origins| == |irss|
  {
    && Consistent(Values(s.impus), Values(s.mappings))
    && forall n :: k <= n < |irss| ==> Deletable(irss[n], origins[n] == store, s)
  }

  /** The IRSs that were stored are gone from the abstract map, and nothing else is. */
  ghost predicate Removed(irss: seq<Irs>, before: Impus, impus: Impus, maps: Maps) {
    Consistent(impus, maps) && Abstract(impus) == Abstract(before) - ExistingDefaults(irss)
  }

  ghost predicate AllCarried(before: seq<Irs>, after: seq<Irs>) {
    |after| == |before| && forall n :: 0 <= n < |before| ==> CarriedByDelete(before[n], after[n])
  }

  /** `delete_irss_action`: on a consistent store, every one of the IRSs that was stored is
      removed from the abstract map, and nothing else is. */
  method DeleteIrssAction(irss: seq<MemcachedIrs>, store: ImpuStore, now: int) returns (status: Status)
    requires store.turns == [] && ValidStore(store.View())
    requires forall m, n :: 0 <= m < n < |irss| ==> irss[m] != irss[n]
    modifies irss, store
    ensures store.turns == [] && ValidStore(store.View()) && status == OK
    ensures Origins(irss) == old(Origins(irss)) && AllCarried(old(Views(irss)), Views(irss))
    ensures old(AllDeletable(Views(irss), Origins(irss), 0, store, store.View())) ==>
              Removed(old(Views(irss)), old(Values(store.impus)), Values(store.impus), Values(store.mappings))
  {
    hide CarriedByDelete, AllDeletable, Removed, PassedOn, Values, Deletable, ValidStore, Consistent, AllCarried,
         Abstract, Views, Origins, Delete;
    status := OK;
    ghost var views, origins, before := Views(irss), Origins(irss), Values(store.impus);
    ghost var fits := AllDeletable(views, origins, 0, store, store.View());
    NoneRemoved(views, origins, store, store.View());
    for k := 0 to |irss|
      invariant store.turns == [] && ValidStore(store.View()) && status == OK
      invariant Origins(irss) == origins && AllCarried(views, Views(irss))
      invariant forall n :: k <= n < |irss| ==> irss[n].View() == views[n]
      invariant fits ==> AllDeletable(views, origins, k, store, store.View())
      invariant fits ==> Removed(views[..k], before, Values(store.impus), Values(store.mappings))
    {
      ghost var s, last := store.View(), Views(irss);
      var result := DeleteExisting(irss[k], store, now);
      if result.Some? {
        status := result.value;
      }
      assert Views(irss) == last[k := irss[k].View()];
      CarriedOne(views, last, k, irss[k].View());
      if fits {
        OneMoreRemoved(views, origins, k, store, s, store.View(), before, now);
      }
    }
    assert views[..|irss|] == views;
  }

  /** One IRS of the list; one that was never stored is passed over. */
  method DeleteExisting(irs: MemcachedIrs, store: ImpuStore, now: int) returns (status: Option<Status>)
    requires store.turns == [] && ValidStore(store.View())
    modifies irs, store
    ensures store.turns == [] && ValidStore(store.View()) && (status.Some? <==> old(irs.existing))
    ensures irs.origin == old(irs.origin) && CarriedByDelete(old(irs.View()), irs.View())
    ensures PassedOn(old(irs.View()), old(irs.origin) == store, now, old(store.View()), store.View())
    ensures status.Some? ==> status.value == OK
  {
    hide Delete, Values;
    status := None;
    if irs.existing {
      DeleteCarries(irs.View(), store.View(), irs.origin == store, now);
      var result := DeleteIrsAction(irs, store, now);
      status := Some(result);
    }
  }

  lemma DeleteCarries(irs: Irs, s: Store, here: bool, now: int)
    requires ValidStore(s)
    ensures QuietAfterFirst(irs, s, [], here, now) && CarriedByDelete(irs, Delete(irs, s, [], here, now).irs)
    ensures Delete(irs, s, [], here, now).status == OK
  {
    hide Perform, Pointers, Mappings;
    QuietDelete(irs.(refreshed := true), s, here, now);
  }

  lemma NoneRemoved(irss: seq<Irs>, origins: seq<ImpuStore?>, store: ImpuStore, s: Store)
    requires |origins| == |irss|
    ensures AllDeletable(irss, origins, 0, store, s) ==>
        Removed(irss[..0], Values(s.impus), Values(s.impus), Values(s.mappings))
    ensures AllCarried(irss, irss)
  {
    hide Consistent, Deletable, Abstract;
    assert ExistingDefaults(irss[..0]) == {};
    assert Abstract(Values(s.impus)) - {} == Abstract(Values(s.impus));
  }

  lemma CarriedOne(first: seq<Irs>, last: seq<Irs>, k: nat, irs: Irs)
    requires k < |first| && AllCarried(first, last) && CarriedByDelete(last[k], irs)
    ensures AllCarried(first, last[k := irs])
  {
  }

  lemma OneMoreRemoved(irss: seq<Irs>, origins: seq<ImpuStore?>, k: nat, store: ImpuStore, s: Store, t: Store,
      before: Impus, now: int)
    requires k < |irss| == |origins| && ValidStore(s)
    requires AllDeletable(irss, origins, k, store, s) && PassedOn(irss[k], origins[k] == store, now, s, t)
    requires Removed(irss[..k], before, Values(s.impus), Values(s.mappings))
    ensures AllDeletable(irss, origins, k + 1, store, t)
    ensures Removed(irss[..k + 1], before, Values(t.impus), Values(t.mappings))
  {
    hide AgreeOnImpus, AgreeOnImpis, Abstract, Delete, Values, Deletable, ValidStore;
    ExistingSnoc(irss, k);
    assert Consistent(Values(t.impus), Values(t.mappings)) by {
      if irss[k].existing {
        DeletedOne(irss[k], s, origins[k] == store, now);
      }
    }
    forall n | k + 1 <= n < |irss| ensures Deletable(irss[n], origins[n] == store, t) {
      StillDeletable(irss[n], origins[n] == store, s, irss[k], origins[k] == store, now, t);
    }
    if irss[k].existing {
      DeletedOne(irss[k], s, origins[k] == store, now);
    }
  }

  lemma ExistingSnoc(irss: seq<Irs>, k: nat)
    requires k < |irss|
    ensures ExistingDefaults(irss[..k + 1]) ==
              ExistingDefaults(irss[..k]) + if irss[k].existing then {irss[k].defaultImpu} else {}
  {
  }

  lemma DeletedOne(irs: Irs, s: Store, here: bool, now: int)
    requires ValidStore(s) && Consistent(Values(s.impus), Values(s.mappings))
    requires irs.existing && Deletable(irs, here, s)
    ensures var r := Delete(irs, s, [], here, now);
            && r.status == OK && Consistent(r.impus, r.maps)
            && Abstract(r.impus) == Abstract(Values(s.impus)) - {irs.defaultImpu}
  {
    hide AgreeOnImpus, AgreeOnImpis, Abstract, Delete;
    DeleteActionRefines(irs, s, here, now);
  }
}
