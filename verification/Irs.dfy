/** One implicit registration set in memory: the identities it tracks, the fields the
    caller has set, and how it is merged with what a store holds. */
module IrsModel {
  import opened Types
  import opened StateMap
  import opened Stores
  import Identities

  datatype Irs = Irs(
    defaultImpu: string, cas: nat, ttl: int, existing: bool, refreshed: bool,
    impis: Data, associated: Data,
    xml: Xml, xmlSet: bool, charging: Charging, chargingSet: bool,
    state: RegState, stateSet: bool)

  /** An IRS that represents the default record read from a store. */
  function FromRecord(d: string, v: Versioned<Record>, now: int): (irs: Irs)
    requires v.value.Default?
  {
    var r := v.value;
    Irs(d, v.cas, r.expiry - now, true, false,
        AllIn(r.impis, UNCHANGED), AllIn(r.associated, UNCHANGED),
        r.xml, false, r.charging, false, r.state, false)
  }

  /** An IRS for a subscriber nothing is known about yet. */
  function Blank(): (irs: Irs) {
    Irs("", 0, 0, false, true, map[], map[], Xml("", []), false,
        Charging([], []), false, REG_UNKNOWN, false)
  }

  function WithXml(irs: Irs, xml: Xml): (r: Irs) {
    var d := Identities.DefaultId(xml);
    irs.(xml := xml, xmlSet := true, defaultImpu := d,
         associated := Replaced(irs.associated, Elements(Identities.PublicIds(xml)), d))
  }

  function WithState(irs: Irs, s: RegState): (r: Irs) { irs.(state := s, stateSet := true) }

  function WithCharging(irs: Irs, c: Charging): (r: Irs) { irs.(charging := c, chargingSet := true) }

  function WithTtl(irs: Irs, ttl: int): (r: Irs) { irs.(ttl := ttl, refreshed := true) }

  function WithImpi(irs: Irs, i: string, s: State): (r: Irs) { irs.(impis := irs.impis[i := s]) }

  /** The IRS as it is put after the HSS has assigned the subscriber. */
  function Assigned(irs: Irs, c: Charging, xml: Xml, ttl: int): (r: Irs) {
    WithTtl(WithXml(WithCharging(irs, c), xml), ttl)
  }

  /** The IRS after a push of a document, of charging addresses, or of both. */
  function WithPush(irs: Irs, xml: Option<Xml>, c: Option<Charging>): (r: Irs) {
    var i := match xml case Some(x) => WithXml(irs, x) case None => irs;
    match c case Some(c) => WithCharging(i, c) case None => i
  }

  /** The record this IRS would write. */
  function AsRecord(irs: Irs, now: int): (r: Record) {
    Default(Live(irs.associated), Live(irs.impis), irs.state, irs.charging, irs.xml, irs.ttl + now)
  }

  function MergeRecord(irs: Irs, r: Record, now: int): (m: Irs)
    requires r.Default?
  {
    irs.(state := if irs.stateSet then irs.state else r.state,
         xml := if irs.xmlSet then irs.xml else r.xml,
         charging := if irs.chargingSet then irs.charging else r.charging,
         impis := Merged(irs.impis, r.impis),
         associated := if irs.refreshed then Superseded(irs.associated, r.associated)
                       else Merged(irs.associated, r.associated),
         ttl := if irs.refreshed then irs.ttl else r.expiry - now)
  }

  predicate ChangedData(data: Data) {
    InState(data, ADDED) + InState(data, DELETED) != {}
  }

  predicate HasChanged(irs: Irs) {
    || !irs.existing || irs.refreshed || irs.xmlSet || irs.chargingSet || irs.stateSet
    || ChangedData(irs.associated) || ChangedData(irs.impis)
  }

  /** What makes an IRS worth a put: it is new or refreshed, or the caller has set something of
      it, or added or deleted an identity. */
  lemma ChangedMeaning(irs: Irs)
    ensures HasChanged(irs) <==>
              || !irs.existing || irs.refreshed || irs.stateSet || irs.xmlSet || irs.chargingSet
              || (exists i :: i in irs.impis && irs.impis[i] != UNCHANGED)
              || (exists a :: a in irs.associated && irs.associated[a] != UNCHANGED)
  {
    forall i | i in irs.impis && irs.impis[i] != UNCHANGED ensures ChangedData(irs.impis) {
      assert i in InState(irs.impis, ADDED) + InState(irs.impis, DELETED);
    }
    forall a | a in irs.associated && irs.associated[a] != UNCHANGED ensures ChangedData(irs.associated) {
      assert a in InState(irs.associated, ADDED) + InState(irs.associated, DELETED);
    }
    if ChangedData(irs.impis) {
      var i :| i in InState(irs.impis, ADDED) + InState(irs.impis, DELETED);
      assert irs.impis[i] != UNCHANGED;
    }
    if ChangedData(irs.associated) {
      var a :| a in InState(irs.associated, ADDED) + InState(irs.associated, DELETED);
      assert irs.associated[a] != UNCHANGED;
    }
  }

  /** Setting a document makes the live associated IMPUs its identities minus its default
      one, exactly unless that default is already tracked as live; no key is forgotten. */
  lemma XmlSetsAssociated(irs: Irs, xml: Xml)
    ensures var r, d, ids := WithXml(irs, xml), Identities.DefaultId(xml), Elements(Identities.PublicIds(xml));
            && (Live(r.associated) == ids - {d} <==> !(d in ids && d in Live(irs.associated)))
            && irs.associated.Keys <= r.associated.Keys
  {
  }

  // ---------------------------------------------------- relation to a store record

  /** Everything a record lists is tracked. */
  ghost predicate CoversKeys(irs: Irs, r: Record)
    requires r.Default?
  {
    r.impis <= irs.impis.Keys && r.associated <= irs.associated.Keys
  }

  /** The IRS is an edited copy of the record: everything listed is tracked, what is
      UNCHANGED is listed (for the associated IMPUs only if the IRS is not refreshed),
      and what the caller did not set is the record's. */
  ghost predicate Covers(irs: Irs, r: Record)
    requires r.Default?
  {
    && CoversKeys(irs, r)
    && InState(irs.impis, UNCHANGED) <= r.impis
    && (!irs.refreshed ==> InState(irs.associated, UNCHANGED) <= r.associated)
    && (!irs.stateSet ==> irs.state == r.state)
    && (!irs.xmlSet ==> irs.xml == r.xml)
    && (!irs.chargingSet ==> irs.charging == r.charging)
  }

  /** An IRS covers the record it was read from... */
  lemma ReadCovers(d: string, v: Versioned<Record>, now: int)
    requires v.value.Default?
    ensures Covers(FromRecord(d, v, now), v.value)
  {
  }

  /** ...whatever the caller then sets. */
  lemma EditCovers(irs: Irs, r: Record, xml: Xml, c: Charging, s: RegState, ttl: int, i: string, mark: State)
    requires r.Default? && Covers(irs, r)
    ensures Covers(WithState(irs, s), r) && Covers(WithCharging(irs, c), r) && Covers(WithTtl(irs, ttl), r)
    ensures Covers(WithXml(irs, xml), r)
    ensures mark != UNCHANGED ==> Covers(WithImpi(irs, i, mark), r)
  {
  }

  /** Merging a record makes the IRS cover it, and keeps covered keys covered. */
  lemma MergeCovers(irs: Irs, r: Record, now: int)
    requires r.Default?
    ensures Covers(MergeRecord(irs, r, now), r)
    ensures irs.impis.Keys <= MergeRecord(irs, r, now).impis.Keys
    ensures irs.associated.Keys <= MergeRecord(irs, r, now).associated.Keys
  {
  }

  /** No lost update, for one write: over a covered record the IMPIs written are the
      added ones plus the record's minus the deleted ones; so are the associated IMPUs
      unless the IRS is refreshed; and what the caller did not set stays as it was. */
  ghost predicate KeepsUpdates(irs: Irs, r: Record, w: Record)
    requires r.Default?
  {
    && w.Default?
    && w.impis == InState(irs.impis, ADDED) + (r.impis - InState(irs.impis, DELETED))
    && w.associated == (if irs.refreshed then Live(irs.associated)
                        else InState(irs.associated, ADDED) + (r.associated - InState(irs.associated, DELETED)))
    && (!irs.stateSet ==> w.state == r.state)
    && (!irs.xmlSet ==> w.xml == r.xml)
    && (!irs.chargingSet ==> w.charging == r.charging)
  }

  lemma CoveredWriteKeepsUpdates(irs: Irs, r: Record, now: int)
    requires r.Default? && Covers(irs, r)
    ensures KeepsUpdates(irs, r, AsRecord(irs, now))
  {
  }

  /** Skipping the write of an unchanged IRS loses nothing: it would rewrite the very
      record it was read from. */
  lemma UnchangedRewritesItself(irs: Irs, r: Record, now: int)
    requires r.Default? && Covers(irs, r) && !HasChanged(irs)
    ensures AsRecord(irs, now) == Default(r.associated, r.impis, r.state, r.charging, r.xml, irs.ttl + now)
  {
  }

  // ---------------------------------------------------------------- retry histories

  /** A retry loop merges one record after the other. */
  function MergeRecords(irs: Irs, rs: seq<Record>, now: int): (m: Irs)
    requires forall r :: r in rs ==> r.Default?
  {
    if rs == [] then irs
    else MergeRecord(MergeRecords(irs, rs[..|rs| - 1], now), rs[|rs| - 1], now)
  }

  function ImpiSnaps(rs: seq<Record>): (s: seq<set<string>>)
    requires forall r :: r in rs ==> r.Default?
  {
    seq(|rs|, n requires 0 <= n < |rs| => assert rs[n] in rs; rs[n].impis)
  }

  function AssociatedSnaps(rs: seq<Record>): (s: seq<set<string>>)
    requires forall r :: r in rs ==> r.Default?
  {
    seq(|rs|, n requires 0 <= n < |rs| => assert rs[n] in rs; rs[n].associated)
  }

  /** What no merge touches: the key, what the caller set, and which fields that is. */
  ghost predicate CallerKept(before: Irs, after: Irs) {
    && after.defaultImpu == before.defaultImpu && after.cas == before.cas
    && after.existing == before.existing && after.refreshed == before.refreshed
    && after.stateSet == before.stateSet && (before.stateSet ==> after.state == before.state)
    && after.xmlSet == before.xmlSet && (before.xmlSet ==> after.xml == before.xml)
    && after.chargingSet == before.chargingSet && (before.chargingSet ==> after.charging == before.charging)
    && (before.refreshed ==> after.ttl == before.ttl)
  }

  /** Over a whole retry history: the IMPIs, and the associated IMPUs of an IRS that is not
      refreshed, are exactly what merging the snapshots one by one leaves; a refreshed IRS
      keeps its own associated IMPUs while still tracking all those any snapshot listed; no
      key is forgotten, and nothing the caller set is touched. */
  lemma {:induction false} MergeRecordsMeaning(irs: Irs, rs: seq<Record>, now: int)
    requires forall r :: r in rs ==> r.Default?
    ensures var m := MergeRecords(irs, rs, now);
            && m.impis == MergedAll(irs.impis, ImpiSnaps(rs))
            && (!irs.refreshed ==> m.associated == MergedAll(irs.associated, AssociatedSnaps(rs)))
            && (irs.refreshed ==> Live(m.associated) == Live(irs.associated))
            && irs.impis.Keys <= m.impis.Keys && irs.associated.Keys <= m.associated.Keys
            && (forall r :: r in rs ==> CoversKeys(m, r))
            && CallerKept(irs, m)
  {
    if rs != [] {
      var init, last := rs[..|rs| - 1], rs[|rs| - 1];
      MergeRecordsMeaning(irs, init, now);
      MergeCovers(MergeRecords(irs, init, now), last, now);
      assert ImpiSnaps(rs) == ImpiSnaps(init) + [last.impis];
      assert AssociatedSnaps(rs) == AssociatedSnaps(init) + [last.associated];
      MergedAllSnoc(irs.impis, ImpiSnaps(init), last.impis);
      MergedAllSnoc(irs.associated, AssociatedSnaps(init), last.associated);
      assert forall r :: r in rs <==> r in init || r == last;
    } else {
      assert ImpiSnaps(rs) == [] && AssociatedSnaps(rs) == [];
    }
  }

  // ------------------------------------------------------------------- the object

  class MemcachedIrs {
    var defaultImpu: string
    var origin: ImpuStore?
    var cas: nat
    var ttl: int
    var existing: bool
    var refreshed: bool
    var impis: Data
    var associated: Data
    var xml: Xml
    var xmlSet: bool
    var charging: Charging
    var chargingSet: bool
    var state: RegState
    var stateSet: bool

    function View(): (irs: Irs)
      reads this
    {
      Irs(defaultImpu, cas, ttl, existing, refreshed, impis, associated,
          xml, xmlSet, charging, chargingSet, state, stateSet)
    }

    constructor FromStore(d: string, v: Versioned<Record>, store: ImpuStore, now: int)
      requires v.value.Default?
      ensures View() == FromRecord(d, v, now) && origin == store
    {
      var r := v.value;
      var impiData := TrackAll(r.impis);
      var impuData := TrackAll(r.associated);
      defaultImpu, origin, cas, ttl := d, store, v.cas, r.expiry - now;
      existing, refreshed, impis, associated := true, false, impiData, impuData;
      xml, xmlSet, charging, chargingSet := r.xml, false, r.charging, false;
      state, stateSet := r.state, false;
    }

    constructor New()
      ensures View() == Blank() && origin == null
      ensures !existing && refreshed && !xmlSet && !chargingSet && !stateSet && impis == map[] && associated == map[]
    {
      defaultImpu, origin, cas, ttl := "", null, 0, 0;
      existing, refreshed, impis, associated := false, true, map[], map[];
      xml, xmlSet, charging, chargingSet := Xml("", []), false, Charging([], []), false;
      state, stateSet := REG_UNKNOWN, false;
    }

    method SetImsSubXml(x: Xml)
      modifies this
      ensures View() == WithXml(old(View()), x) && origin == old(origin)
    {
      xmlSet, xml := true, x;
      var ids, d := Identities.GetPublicAndDefaultIds(x);
      if defaultImpu != d {
        defaultImpu := d;
      }
      associated := SetElements(ids, associated, d);
    }

    method SetRegState(s: RegState)
      modifies this
      ensures View() == WithState(old(View()), s) && origin == old(origin)
    {
      stateSet, state := true, s;
    }

    method SetChargingAddresses(c: Charging)
      modifies this
      ensures View() == WithCharging(old(View()), c) && origin == old(origin)
    {
      chargingSet, charging := true, c;
    }

    method SetTtl(t: int)
      modifies this
      ensures View() == WithTtl(old(View()), t) && origin == old(origin)
    {
      refreshed, ttl := true, t;
    }

    method AddAssociatedImpi(i: string)
      modifies this
      ensures View() == WithImpi(old(View()), i, ADDED) && origin == old(origin)
      ensures i in InState(impis, ADDED) && i in Live(impis)
      ensures forall j :: j != i ==> (j in impis <==> j in old(impis)) && (j in impis ==> impis[j] == old(impis)[j])
    {
      impis := impis[i := ADDED];
    }

    method DeleteAssociatedImpi(i: string)
      modifies this
      ensures View() == WithImpi(old(View()), i, DELETED) && origin == old(origin)
      ensures i in InState(impis, DELETED) && i !in Live(impis)
      ensures forall j :: j != i ==> (j in impis <==> j in old(impis)) && (j in impis ==> impis[j] == old(impis)[j])
    {
      impis := impis[i := DELETED];
    }

    method MarkAsRefreshed()
      modifies this
      ensures View() == old(View()).(refreshed := true) && origin == old(origin)
    {
      refreshed := true;
    }

    method DeleteAssocImpus()
      modifies this
      ensures View() == old(View()).(associated := AllIn(old(associated).Keys, DELETED)) && origin == old(origin)
    {
      associated := DeleteTracked(associated);
    }

    method DeleteImpis()
      modifies this
      ensures View() == old(View()).(impis := AllIn(old(impis).Keys, DELETED)) && origin == old(origin)
    {
      impis := DeleteTracked(impis);
    }

    method UpdateFromImpuFromStore(r: Record, now: int)
      requires r.Default?
      modifies this
      ensures View() == MergeRecord(old(View()), r, now) && origin == old(origin)
    {
      hide Merged, Superseded;
      UpdateUnsetFields(r);
      impis := MergeDataSets(impis, r.impis);
      if refreshed {
        associated := EmplaceDeleted(associated, r.associated);
      } else {
        ttl := r.expiry - now;
        associated := MergeDataSets(associated, r.associated);
      }
    }

    /** What the caller has not set is taken from the store. */
    method UpdateUnsetFields(r: Record)
      requires r.Default?
      modifies this
      ensures View() == old(View()).(state := if stateSet then old(state) else r.state,
                                     xml := if xmlSet then old(xml) else r.xml,
                                     charging := if chargingSet then old(charging) else r.charging)
      ensures origin == old(origin)
    {
      if !stateSet {
        state := r.state;
      }
      if !xmlSet {
        xml := r.xml;
      }
      if !chargingSet {
        charging := r.charging;
      }
    }
  }
}
