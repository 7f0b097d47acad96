/** When the three kinds of record in a store agree, what they then stand for, and exactly
    when putting or deleting an IRS keeps them in agreement. */
module Consistency {
  import opened Types
  import opened StateMap
  import opened Stores
  import opened IrsModel
  import opened IrsUpdate

  type Impus = map<string, Record>
  type Maps = map<string, Mapping>

  predicate Points(impus: Impus, a: string, d: string) {
    a in impus && PointsTo(impus[a], d)
  }

  /** What the default record of d lists. */
  function Listed(impus: Impus, d: string): (r: set<string>) {
    if d in impus && impus[d].Default? then impus[d].associated else {}
  }

  function ListedImpis(impus: Impus, d: string): (r: set<string>) {
    if d in impus && impus[d].Default? then impus[d].impis else {}
  }

  predicate MapsTo(maps: Maps, i: string, d: string) {
    i in maps && d in maps[i].defaultImpus
  }

  /** a points to d just when d's record lists a. */
  ghost predicate AgreeOnImpus(impus: Impus) {
    forall a, d :: Points(impus, a, d) <==> a in Listed(impus, d)
  }

  /** i maps to d just when d's record lists i, and no mapping is empty. */
  ghost predicate AgreeOnImpis(impus: Impus, maps: Maps) {
    && (forall i, d :: MapsTo(maps, i, d) <==> i in ListedImpis(impus, d))
    && (forall i :: i in maps ==> maps[i].defaultImpus != [])
  }

  ghost predicate Consistent(impus: Impus, maps: Maps) {
    AgreeOnImpus(impus) && AgreeOnImpis(impus, maps)
  }

  /** The IRS that a default record stands for. */
  datatype Subscriber = Subscriber(associated: set<string>, impis: set<string>, registered: bool,
                                   charging: Charging, xml: Xml)

  function AsSubscriber(r: Record): (s: Subscriber)
    requires r.Default?
  {
    Subscriber(r.associated, r.impis, r.state == REGISTERED, r.charging, r.xml)
  }

  /** What a store stands for: a map from default IMPU to IRS. */
  function Abstract(impus: Impus): (r: map<string, Subscriber>) {
    map d | d in impus && impus[d].Default? :: AsSubscriber(impus[d])
  }

  // --------------------------------------------------------------------- putting

  /** The IMPU table after a put that got to write the default record. */
  function PutImpus(impus: Impus, irs: Irs, now: int): (r: Impus) {
    Pointers(impus[irs.defaultImpu := Encoded(AsRecord(irs, now))], irs.defaultImpu,
             Written(irs.associated, irs.refreshed), InState(irs.associated, DELETED), irs.ttl + now)
  }

  function PutMaps(maps: Maps, irs: Irs, now: int): (r: Maps) {
    Mappings(maps, irs.defaultImpu, Written(irs.impis, irs.refreshed), InState(irs.impis, DELETED),
             irs.refreshed, irs.ttl + now)
  }

  /** None of these IMPUs, nor d as a default one, is known under another IRS. */
  ghost predicate Unclaimed(impus: Impus, d: string, names: set<string>) {
    && (d in impus ==> impus[d].Default?)
    && d !in names
    && (forall a :: a in names && a in impus ==> PointsTo(impus[a], d))
  }

  /** Each IMPU is in at most one IRS: nothing of this IRS is known under another one. */
  ghost predicate NoConflict(impus: Impus, irs: Irs) {
    Unclaimed(impus, irs.defaultImpu, Live(irs.associated))
  }

  /** Every identity the store lists is tracked, and whatever is left unwritten because it
      counts as unchanged really is listed. */
  ghost predicate UpToDate(data: Data, refreshed: bool, listed: set<string>) {
    listed <= data.Keys && (refreshed || InState(data, UNCHANGED) <= listed)
  }

  /** Who points to whom after a put. */
  lemma PutPoints(impus: Impus, irs: Irs, now: int, a: string, d: string)
    requires NoConflict(impus, irs)
    ensures d != irs.defaultImpu ==> (Points(PutImpus(impus, irs, now), a, d) <==> Points(impus, a, d))
    ensures Points(PutImpus(impus, irs, now), a, irs.defaultImpu) <==>
              || a in Written(irs.associated, irs.refreshed)
              || (a !in InState(irs.associated, DELETED) && Points(impus, a, irs.defaultImpu))
  {
  }

  lemma PutLists(impus: Impus, irs: Irs, now: int, d: string)
    requires NoConflict(impus, irs)
    ensures Listed(PutImpus(impus, irs, now), d) ==
              if d == irs.defaultImpu then Live(irs.associated) else Listed(impus, d)
    ensures ListedImpis(PutImpus(impus, irs, now), d) ==
              if d == irs.defaultImpu then Live(irs.impis) else ListedImpis(impus, d)
  {
  }

  lemma PutMapsTo(maps: Maps, irs: Irs, now: int, i: string, d: string)
    ensures d != irs.defaultImpu ==> (MapsTo(PutMaps(maps, irs, now), i, d) <==> MapsTo(maps, i, d))
    ensures MapsTo(PutMaps(maps, irs, now), i, irs.defaultImpu) <==>
              || i in Written(irs.impis, irs.refreshed)
              || (i !in InState(irs.impis, DELETED) && MapsTo(maps, i, irs.defaultImpu))
  {
  }

  /** How long records live after a put: everything written lives as long as the default record;
      of a mapping that was there already, a refreshed IRS prolongs the life and any other one
      that is in it leaves it; and whatever is not written keeps its own. */
  lemma PutExpiries(impus: Impus, maps: Maps, irs: Irs, now: int, k: string)
    requires irs.defaultImpu !in Written(irs.associated, irs.refreshed)
    ensures var after, write := PutImpus(impus, irs, now), Written(irs.associated, irs.refreshed);
            && (irs.defaultImpu in after ==> after[irs.defaultImpu].expiry == irs.ttl + now)
            && (k in write ==> k in after && after[k].expiry == irs.ttl + now)
            && (k !in write && k != irs.defaultImpu && k in after ==> k in impus && after[k] == impus[k])
    ensures var after, write := PutMaps(maps, irs, now), Written(irs.impis, irs.refreshed);
            && (k in write ==> k in after)
            && (k in write && (irs.refreshed || !MapsTo(maps, k, irs.defaultImpu)) ==> after[k].expiry == irs.ttl + now)
            && (k in after && (k !in write || (!irs.refreshed && MapsTo(maps, k, irs.defaultImpu))) ==>
                  k in maps && after[k].expiry == maps[k].expiry)
  {
  }

  /** The pointers agree after a put exactly when the IRS was up to date. */
  lemma PutAgreesOnImpus(impus: Impus, irs: Irs, now: int)
    requires AgreeOnImpus(impus) && NoConflict(impus, irs)
    ensures AgreeOnImpus(PutImpus(impus, irs, now)) <==>
              UpToDate(irs.associated, irs.refreshed, Listed(impus, irs.defaultImpu))
  {
    var after, own := PutImpus(impus, irs, now), irs.defaultImpu;
    var listed := Listed(impus, own);
    forall a, d
      ensures d != own ==> (Points(after, a, d) <==> a in Listed(after, d))
      ensures Points(after, a, own) <==>
                a in Written(irs.associated, irs.refreshed) || (a !in InState(irs.associated, DELETED) && a in listed)
      ensures a in Listed(after, own) <==> a in Live(irs.associated)
    {
      PutPoints(impus, irs, now, a, d);
      PutLists(impus, irs, now, d);
      PutLists(impus, irs, now, own);
    }
    if AgreeOnImpus(after) {
      forall a | a in listed ensures a in irs.associated.Keys {
        assert Points(after, a, own) <==> a in Listed(after, own);
      }
      if !irs.refreshed {
        forall a | a in InState(irs.associated, UNCHANGED) ensures a in listed {
          assert Points(after, a, own) <==> a in Listed(after, own);
        }
      }
    }
  }

  /** The mappings agree after a put exactly when the IRS was up to date. */
  lemma PutAgreesOnImpis(impus: Impus, maps: Maps, irs: Irs, now: int)
    requires AgreeOnImpis(impus, maps) && NoConflict(impus, irs)
    ensures AgreeOnImpis(PutImpus(impus, irs, now), PutMaps(maps, irs, now)) <==>
              UpToDate(irs.impis, irs.refreshed, ListedImpis(impus, irs.defaultImpu))
  {
    var after, maps', own := PutImpus(impus, irs, now), PutMaps(maps, irs, now), irs.defaultImpu;
    var listed := ListedImpis(impus, own);
    forall i, d
      ensures d != own ==> (MapsTo(maps', i, d) <==> i in ListedImpis(after, d))
      ensures MapsTo(maps', i, own) <==>
                i in Written(irs.impis, irs.refreshed) || (i !in InState(irs.impis, DELETED) && i in listed)
      ensures i in ListedImpis(after, own) <==> i in Live(irs.impis)
    {
      PutMapsTo(maps, irs, now, i, d);
      PutLists(impus, irs, now, d);
      PutLists(impus, irs, now, own);
    }
    forall i | i in maps' ensures maps'[i].defaultImpus != [] {
      PutNotEmpty(maps, irs, now, i);
    }
    if AgreeOnImpis(after, maps') {
      forall i | i in listed ensures i in irs.impis.Keys {
        assert MapsTo(maps', i, own) <==> i in ListedImpis(after, own);
      }
      if !irs.refreshed {
        forall i | i in InState(irs.impis, UNCHANGED) ensures i in listed {
          assert MapsTo(maps', i, own) <==> i in ListedImpis(after, own);
        }
      }
    }
  }

  lemma PutNotEmpty(maps: Maps, irs: Irs, now: int, i: string)
    requires forall j :: j in maps ==> maps[j].defaultImpus != []
    ensures i in PutMaps(maps, irs, now) ==> PutMaps(maps, irs, now)[i].defaultImpus != []
  {
  }

  /** Refinement of a put: it keeps the store consistent exactly when the IRS was up to
      date with it, and on the abstract map it is an update of one entry. */
  lemma PutRefines(impus: Impus, maps: Maps, irs: Irs, now: int)
    requires Consistent(impus, maps) && NoConflict(impus, irs)
    ensures Consistent(PutImpus(impus, irs, now), PutMaps(maps, irs, now)) <==>
              && UpToDate(irs.associated, irs.refreshed, Listed(impus, irs.defaultImpu))
              && UpToDate(irs.impis, irs.refreshed, ListedImpis(impus, irs.defaultImpu))
    ensures Abstract(PutImpus(impus, irs, now)) ==
              Abstract(impus)[irs.defaultImpu := AsSubscriber(AsRecord(irs, now))]
  {
    hide PutImpus, PutMaps, AgreeOnImpus, AgreeOnImpis, UpToDate, Abstract;
    PutAgreesOnImpus(impus, irs, now);
    PutAgreesOnImpis(impus, maps, irs, now);
    PutUpdatesAbstract(impus, irs, now);
  }

  lemma PutUpdatesAbstract(impus: Impus, irs: Irs, now: int)
    requires NoConflict(impus, irs)
    ensures Abstract(PutImpus(impus, irs, now)) ==
              Abstract(impus)[irs.defaultImpu := AsSubscriber(AsRecord(irs, now))]
  {
  }

  // -------------------------------------------------------------------- deleting

  /** The IMPU table after a deletion, everything tracked being marked DELETED. */
  function DeletedImpus(impus: Impus, irs: Irs, now: int): (r: Impus) {
    Pointers(impus - {irs.defaultImpu}, irs.defaultImpu, {}, irs.associated.Keys, irs.ttl + now)
  }

  function DeletedMaps(maps: Maps, irs: Irs, now: int): (r: Maps) {
    Mappings(maps, irs.defaultImpu, {}, irs.impis.Keys, true, irs.ttl + now)
  }

  /** Nothing in the store refers to d any more. */
  ghost predicate Clean(impus: Impus, maps: Maps, d: string) {
    && !(d in impus && impus[d].Default?)
    && (forall a :: !Points(impus, a, d))
    && (forall i :: !MapsTo(maps, i, d))
  }

  /** A deletion leaves no trace of d exactly when the IRS tracked all that was listed. */
  lemma DeleteCleans(impus: Impus, maps: Maps, irs: Irs, now: int)
    requires Consistent(impus, maps)
    ensures var d := irs.defaultImpu;
            Clean(DeletedImpus(impus, irs, now), DeletedMaps(maps, irs, now), d) <==>
              && Listed(impus, d) - {d} <= irs.associated.Keys && ListedImpis(impus, d) <= irs.impis.Keys
  {
    var after, maps', d := DeletedImpus(impus, irs, now), DeletedMaps(maps, irs, now), irs.defaultImpu;
    forall a
      ensures Points(after, a, d) <==> a != d && a in Listed(impus, d) && a !in irs.associated.Keys
    {
      assert Points(impus, a, d) <==> a in Listed(impus, d);
    }
    forall i
      ensures MapsTo(maps', i, d) <==> i in ListedImpis(impus, d) && i !in irs.impis.Keys
    {
      assert MapsTo(maps, i, d) <==> i in ListedImpis(impus, d);
    }
  }

  lemma DeleteAgreesOnImpus(impus: Impus, irs: Irs, now: int)
    requires AgreeOnImpus(impus)
    requires irs.defaultImpu in impus ==> impus[irs.defaultImpu].Default?
    ensures AgreeOnImpus(DeletedImpus(impus, irs, now)) <==> Listed(impus, irs.defaultImpu) <= irs.associated.Keys
  {
    var after, d := DeletedImpus(impus, irs, now), irs.defaultImpu;
    assert d !in Listed(impus, d) by { assert !Points(impus, d, d); }
    forall a, e
      ensures e != d ==> (Points(after, a, e) <==> a in Listed(after, e))
      ensures Listed(after, d) == {}
      ensures Points(after, a, d) <==> a in Listed(impus, d) && a !in irs.associated.Keys
    {
      assert Points(impus, a, e) <==> a in Listed(impus, e);
      assert Points(impus, a, d) <==> a in Listed(impus, d);
    }
    if AgreeOnImpus(after) {
      forall a ensures a in Listed(impus, d) ==> a in irs.associated.Keys {
        assert Points(after, a, d) <==> a in Listed(after, d);
      }
    }
  }

  lemma DeleteAgreesOnImpis(impus: Impus, maps: Maps, irs: Irs, now: int)
    requires AgreeOnImpis(impus, maps)
    ensures AgreeOnImpis(DeletedImpus(impus, irs, now), DeletedMaps(maps, irs, now)) <==>
              ListedImpis(impus, irs.defaultImpu) <= irs.impis.Keys
  {
    var after, maps', d := DeletedImpus(impus, irs, now), DeletedMaps(maps, irs, now), irs.defaultImpu;
    forall i, e
      ensures e != d ==> (MapsTo(maps', i, e) <==> i in ListedImpis(after, e))
      ensures ListedImpis(after, d) == {}
      ensures MapsTo(maps', i, d) <==> i in ListedImpis(impus, d) && i !in irs.impis.Keys
    {
      assert MapsTo(maps, i, e) <==> i in ListedImpis(impus, e);
      assert MapsTo(maps, i, d) <==> i in ListedImpis(impus, d);
    }
    if AgreeOnImpis(after, maps') {
      forall i ensures i in ListedImpis(impus, d) ==> i in irs.impis.Keys {
        assert MapsTo(maps', i, d) <==> i in ListedImpis(after, d);
      }
    }
  }

  /** Refinement of a deletion: removal of one entry of the abstract map, and consistency
      is kept exactly when the IRS tracked all that was listed. */
  lemma DeleteRefines(impus: Impus, maps: Maps, irs: Irs, now: int)
    requires Consistent(impus, maps)
    requires irs.defaultImpu in impus ==> impus[irs.defaultImpu].Default?
    ensures var d := irs.defaultImpu;
            && (Consistent(DeletedImpus(impus, irs, now), DeletedMaps(maps, irs, now)) <==>
                  Listed(impus, d) <= irs.associated.Keys && ListedImpis(impus, d) <= irs.impis.Keys)
            && Abstract(DeletedImpus(impus, irs, now)) == Abstract(impus) - {d}
  {
    DeleteAgreesOnImpus(impus, irs, now);
    DeleteAgreesOnImpis(impus, maps, irs, now);
  }
}
