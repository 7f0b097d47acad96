/** What the handlers put does fit the stores: the conditions of the cache theorems are met by
    registrations, calls and pushes. */
module HandlerPuts {
  import opened Types
  import opened StateMap
  import opened Stores
  import opened IrsModel
  import opened IrsUpdate
  import opened Consistency
  import opened CacheActions
  import opened GeoCache
  import Identities
  import RegDataTask

  /** No IMPU of the document is known to the store under another IRS than that of d. */
  ghost predicate IdsFree(xml: Xml, d: string, s: Store) {
    && Identities.DefaultId(xml) == d
    && (d in s.impus ==> s.impus[d].value.Default?)
    && forall a :: a in Identities.PublicIds(xml) && a != d && a in s.impus ==> PointsTo(s.impus[a].value, d)
  }

  ghost predicate HasDefault(d: string, s: Store) {
    d in s.impus && s.impus[d].value.Default?
  }

  /** The IRS of a registration, as it is put: found in s, or nowhere. */
  function Registration(found: Irs, sent: string, c: Charging, xml: Xml, ttl: int): (r: Irs) {
    Assigned(RegDataTask.Prepared(RegDataTask.REG, found, sent), c, xml, ttl)
  }

  /** A registration of a subscriber found in s is ready for s, and for any other store t. */
  lemma RegistrationReady(d: string, s: Store, t: Store, now: int, sent: string, c: Charging, xml: Xml, ttl: int)
    requires ValidStore(s) && AgreeOnImpus(Values(s.impus)) && HasDefault(d, s)
    ensures var irs := Registration(FromRecord(d, s.impus[d], now), sent, c, xml, ttl);
            && irs.refreshed
            && (IdsFree(xml, d, s) ==> Ready(irs, true, s))
            && (IdsFree(xml, d, t) ==> Ready(irs, false, t))
  {
    hide Identities.PublicIds, Identities.DefaultId, RegDataTask.NewBinding, RegDataTask.PrivateId;
    var r, irs := s.impus[d].value, Registration(FromRecord(d, s.impus[d], now), sent, c, xml, ttl);
    assert d !in r.associated by { assert !Points(Values(s.impus), d, d); }
    AssignedKeys(FromRecord(d, s.impus[d], now), sent, c, xml, ttl);
    hide Registration, AgreeOnImpus, Written, Points, Live;
    if Identities.DefaultId(xml) == d {
      assert Written(irs.associated, true) == Elements(Identities.PublicIds(xml)) - {d};
    }
  }

  lemma AssignedKeys(found: Irs, sent: string, c: Charging, xml: Xml, ttl: int)
    ensures var irs := Registration(found, sent, c, xml, ttl);
            && irs.refreshed && irs.defaultImpu == Identities.DefaultId(xml)
            && irs.cas == found.cas && irs.existing == found.existing
            && found.impis.Keys <= irs.impis.Keys && found.associated.Keys <= irs.associated.Keys
            && (irs.defaultImpu !in found.associated ==>
                  Written(irs.associated, true) == Elements(Identities.PublicIds(xml)) - {irs.defaultImpu})
  {
    hide Identities.PublicIds, Identities.DefaultId, RegDataTask.Prepared;
    PreparedKeys(found, sent);
  }

  lemma PreparedKeys(found: Irs, sent: string)
    ensures var irs := RegDataTask.Prepared(RegDataTask.REG, found, sent);
            && irs.cas == found.cas && irs.existing == found.existing && irs.associated == found.associated
            && found.impis.Keys <= irs.impis.Keys
  {
    hide RegDataTask.NewBinding, RegDataTask.PrivateId;
  }

  /** A registration or a call of a subscriber found nowhere is ready for any store that does
      not have it. */
  lemma NewReady(t: Store, reg: bool, sent: string, c: Charging, xml: Xml, ttl: int)
    requires IdsFree(xml, Identities.DefaultId(xml), t) && Identities.DefaultId(xml) !in t.impus
    ensures var ty := if reg then RegDataTask.REG else RegDataTask.CALL;
            var irs := Assigned(RegDataTask.Prepared(ty, RegDataTask.Unknown(), sent), c, xml, ttl);
            irs.refreshed && Ready(irs, false, t)
  {
    hide Identities.PublicIds, Identities.DefaultId, RegDataTask.NewBinding, RegDataTask.PrivateId;
  }

  /** A push to an IRS found in s is ready for s, and for any other store that has its record. */
  lemma PushReady(d: string, s: Store, t: Store, now: int, xml: Option<Xml>, c: Option<Charging>)
    requires ValidStore(s) && AgreeOnImpus(Values(s.impus)) && HasDefault(d, s) && HasDefault(d, t)
    ensures var irs := WithPush(FromRecord(d, s.impus[d], now), xml, c);
            && !irs.refreshed
            && ((xml.Some? ==> IdsFree(xml.value, d, s)) ==> Ready(irs, true, s) && irs.defaultImpu == d)
            && ((xml.Some? ==> IdsFree(xml.value, d, t)) ==> Ready(irs, false, t))
  {
    hide Identities.PublicIds, Identities.DefaultId;
    var irs := WithPush(FromRecord(d, s.impus[d], now), xml, c);
    if xml.Some? && Identities.DefaultId(xml.value) == d {
      assert Written(irs.associated, false) <= Elements(Identities.PublicIds(xml.value)) - {d};
    }
  }

  /** The stores are consistent, and know none of the document's IMPUs under another IRS. */
  ghost predicate AllFree(xml: Option<Xml>, d: string, stores: seq<Store>) {
    forall n :: 0 <= n < |stores| ==>
      && Consistent(Values(stores[n].impus), Values(stores[n].mappings))
      && (xml.Some? ==> IdsFree(xml.value, d, stores[n]))
  }

  /** The IRS was read from the local store. */
  ghost predicate ReadLocally(d: string, g: Geo) {
    && |g.stores| == |g.heres| > 0 && ValidStore(g.stores[0]) && HasDefault(d, g.stores[0])
    && forall n :: 0 <= n < |g.heres| ==> g.heres[n] == (n == 0)
  }

  /** So a registration fits all stores, however their entries for it differ... */
  lemma RegistrationFitsAll(d: string, g: Geo, now: int, sent: string, c: Charging, xml: Xml, ttl: int)
    requires ReadLocally(d, g) && AllFree(Some(xml), d, g.stores)
    ensures FitsAll(PUT, Registration(FromRecord(d, g.stores[0].impus[d], now), sent, c, xml, ttl), g)
  {
    hide Ready, IdsFree, Registration, FromRecord, AgreeOnImpis;
    forall n | 0 <= n < |g.stores|
      ensures Ready(Registration(FromRecord(d, g.stores[0].impus[d], now), sent, c, xml, ttl), n == 0, g.stores[n])
    {
      RegistrationReady(d, g.stores[0], g.stores[n], now, sent, c, xml, ttl);
    }
    RegistrationReady(d, g.stores[0], g.stores[0], now, sent, c, xml, ttl);
  }

  /** ...a registration or a call of a subscriber no store has does... */
  lemma NewFitsAll(g: Geo, reg: bool, sent: string, c: Charging, xml: Xml, ttl: int)
    requires |g.stores| == |g.heres| > 0 && forall n :: 0 <= n < |g.heres| ==> !g.heres[n]
    requires AllFree(Some(xml), Identities.DefaultId(xml), g.stores)
    requires forall n :: 0 <= n < |g.stores| ==> Identities.DefaultId(xml) !in g.stores[n].impus
    ensures var ty := if reg then RegDataTask.REG else RegDataTask.CALL;
            FitsAll(PUT, Assigned(RegDataTask.Prepared(ty, RegDataTask.Unknown(), sent), c, xml, ttl), g)
  {
    hide Ready, IdsFree, Assigned, RegDataTask.Prepared, Consistent, Identities.DefaultId;
    var ty := if reg then RegDataTask.REG else RegDataTask.CALL;
    forall n | 0 <= n < |g.stores|
      ensures Ready(Assigned(RegDataTask.Prepared(ty, RegDataTask.Unknown(), sent), c, xml, ttl),
                    g.heres[n], g.stores[n])
    {
      NewReady(g.stores[n], reg, sent, c, xml, ttl);
    }
    NewReady(g.stores[0], reg, sent, c, xml, ttl);
  }

  /** ...and a push does if all stores have the default record. */
  lemma PushFitsAll(d: string, g: Geo, now: int, xml: Option<Xml>, c: Option<Charging>)
    requires ReadLocally(d, g) && AllFree(xml, d, g.stores)
    requires forall n :: 0 <= n < |g.stores| ==> HasDefault(d, g.stores[n])
    ensures FitsAll(PUT, WithPush(FromRecord(d, g.stores[0].impus[d], now), xml, c), g)
  {
    hide Ready, IdsFree, WithPush, FromRecord, AgreeOnImpis;
    var irs := WithPush(FromRecord(d, g.stores[0].impus[d], now), xml, c);
    forall n | 0 <= n < |g.stores| ensures Ready(irs, n == 0, g.stores[n]) && irs.defaultImpu == d {
      PushReady(d, g.stores[0], g.stores[n], now, xml, c);
      PushReady(d, g.stores[0], g.stores[0], now, xml, c);
    }
  }

  // ------------------------------------------------------------ what is then stored

  /** A registration that the cache does not know the private identity of: the subscriber is not
      registered, or is with a profile but not with the identity that was sent. */
  predicate Binds(found: Irs, sent: string) {
    found.state != REGISTERED || (sent != "" && found.xml != Xml("", []) && sent !in Live(found.impis))
  }

  /** The private identity of a registration: the one sent, or else that of the profile. */
  function Binding(found: Irs, sent: string): (i: string) {
    if sent != "" then sent else found.xml.privateId
  }

  /** What a registration makes of the IRS: it is registered, has what the HSS sent, and exactly
      if the private identity is new to it, that is added; no other one changes. */
  lemma RegistrationMeaning(found: Irs, sent: string, c: Charging, xml: Xml, ttl: int)
    ensures var irs, i := Registration(found, sent, c, xml, ttl), Binding(found, sent);
            && irs.state == REGISTERED && irs.stateSet && irs.refreshed && irs.ttl == ttl
            && irs.xml == xml && irs.xmlSet && irs.charging == c && irs.chargingSet
            && (Binds(found, sent) ==> i in InState(irs.impis, ADDED))
            && (!Binds(found, sent) ==> irs.impis == found.impis)
            && (forall j :: j != i ==> (j in irs.impis <==> j in found.impis))
            && (forall j :: j != i && j in irs.impis ==> irs.impis[j] == found.impis[j])
            && (sent != "" && (found.state != REGISTERED || found.xml != Xml("", [])) ==> sent in Live(irs.impis))
  {
    hide Replaced, Identities.PublicIds, Identities.DefaultId, RegDataTask.Prepared, Live, InState, Binds;
    PreparedMeaning(found, sent);
  }

  lemma PreparedMeaning(found: Irs, sent: string)
    ensures var irs, i := RegDataTask.Prepared(RegDataTask.REG, found, sent), Binding(found, sent);
            && irs.state == REGISTERED && irs.stateSet
            && (Binds(found, sent) ==> i in irs.impis && irs.impis[i] == ADDED)
            && (!Binds(found, sent) ==> irs.impis == found.impis)
            && (forall j :: j != i ==> (j in irs.impis <==> j in found.impis))
            && (forall j :: j != i && j in irs.impis ==> irs.impis[j] == found.impis[j])
            && (sent != "" && (found.state != REGISTERED || found.xml != Xml("", [])) ==> sent in Live(irs.impis))
  {
    hide InState;
    var i := RegDataTask.PrivateId(found, sent);
    if Binds(found, sent) {
      assert RegDataTask.Prepared(RegDataTask.REG, found, sent).impis == found.impis[i := ADDED];
    } else {
      assert RegDataTask.Prepared(RegDataTask.REG, found, sent).impis == found.impis;
    }
  }

  /** A registration that fits a store is stored there: the entry is registered, has the HSS's
      document and addresses, its identities but for the default one, and the private identity;
      and the mapping of that one leads to it. */
  lemma RegistrationStored(found: Irs, sent: string, c: Charging, xml: Xml, ttl: int, here: bool, s: Store, now: int)
    requires ValidStore(s) && Fit(PUT, Registration(found, sent, c, xml, ttl), here, s)
    ensures var irs, i, d := Registration(found, sent, c, xml, ttl), Binding(found, sent), Identities.DefaultId(xml);
            var r := Put(irs, s, here, now);
            && r.status == OK && d in Abstract(r.impus)
            && var entry := Abstract(r.impus)[d];
               && entry.registered && entry.xml == xml && entry.charging == c
               && (d !in found.associated ==> entry.associated == Elements(Identities.PublicIds(xml)) - {d})
               && (forall a :: a in entry.associated <==> Points(r.impus, a, d))
               && (Binds(found, sent) ==> i in entry.impis && MapsTo(r.maps, i, d))
               && (forall j :: j in entry.impis <==> MapsTo(r.maps, j, d))
  {
    hide Put, Against, Ready, Registration, AgreeOnImpis, AgreeOnImpus, Identities.PublicIds, Identities.DefaultId;
    var irs := Registration(found, sent, c, xml, ttl);
    RegistrationMeaning(found, sent, c, xml, ttl);
    AssignedKeys(found, sent, c, xml, ttl);
    FitAchieves(PUT, irs, here, s, now);
    var r := Put(irs, s, here, now);
    ConsistentEntry(r.impus, r.maps, irs.defaultImpu);
    assert Written(irs.associated, true) == Live(irs.associated);
  }

  /** In a consistent store an entry lists just what points and maps to it. */
  lemma ConsistentEntry(impus: Impus, maps: Maps, d: string)
    requires Consistent(impus, maps) && d in Abstract(impus)
    ensures forall a :: a in Abstract(impus)[d].associated <==> Points(impus, a, d)
    ensures forall i :: i in Abstract(impus)[d].impis <==> MapsTo(maps, i, d)
  {
    assert forall a :: Points(impus, a, d) <==> a in Listed(impus, d);
    assert forall i :: MapsTo(maps, i, d) <==> i in ListedImpis(impus, d);
  }

  /** Of a subscriber found nowhere, the entry says what the HSS sent, and a registration binds
      just its own private identity; a call leaves the subscriber unregistered, without any. */
  lemma NewStored(reg: bool, sent: string, c: Charging, xml: Xml, ttl: int, s: Store, now: int)
    requires var ty := if reg then RegDataTask.REG else RegDataTask.CALL;
             ValidStore(s) &&
             Fit(PUT, Assigned(RegDataTask.Prepared(ty, RegDataTask.Unknown(), sent), c, xml, ttl), false, s)
    ensures var ty, d := if reg then RegDataTask.REG else RegDataTask.CALL, Identities.DefaultId(xml);
            var r := Put(Assigned(RegDataTask.Prepared(ty, RegDataTask.Unknown(), sent), c, xml, ttl), s, false, now);
            && r.status == OK && Consistent(r.impus, r.maps) && d in Abstract(r.impus)
            && Abstract(r.impus)[d] ==
                 Subscriber(Elements(Identities.PublicIds(xml)) - {d}, if reg then {sent} else {}, reg, c, xml)
  {
    hide Put, AgreeOnImpis, AgreeOnImpus, Identities.PublicIds, Identities.DefaultId;
    var ty := if reg then RegDataTask.REG else RegDataTask.CALL;
    var irs := Assigned(RegDataTask.Prepared(ty, RegDataTask.Unknown(), sent), c, xml, ttl);
    FitAchieves(PUT, irs, false, s, now);
    NewEntryOf(reg, sent, c, xml, ttl);
  }

  lemma NewEntryOf(reg: bool, sent: string, c: Charging, xml: Xml, ttl: int)
    ensures var ty, d := if reg then RegDataTask.REG else RegDataTask.CALL, Identities.DefaultId(xml);
            var irs := Assigned(RegDataTask.Prepared(ty, RegDataTask.Unknown(), sent), c, xml, ttl);
            && irs.defaultImpu == d && !irs.existing
            && NewEntry(irs, None) ==
                 Subscriber(Elements(Identities.PublicIds(xml)) - {d}, if reg then {sent} else {}, reg, c, xml)
  {
    hide Identities.PublicIds, Identities.DefaultId;
  }

  /** A push that fits a store that has the entry: the document and the addresses that came are in
      it, what did not come is as it was, and so are state and private identities. */
  lemma PushStored(d: string, s: Store, xml: Option<Xml>, c: Option<Charging>, now: int)
    requires ValidStore(s) && HasDefault(d, s) && (xml.Some? ==> Identities.DefaultId(xml.value) == d)
    requires Fit(PUT, WithPush(FromRecord(d, s.impus[d], now), xml, c), true, s)
    ensures var r := Put(WithPush(FromRecord(d, s.impus[d], now), xml, c), s, true, now);
            var entry := AsSubscriber(s.impus[d].value);
            && r.status == OK && Consistent(r.impus, r.maps)
            && Abstract(r.impus) ==
                 Abstract(Values(s.impus))[d := Subscriber(
                   if xml.Some? then Elements(Identities.PublicIds(xml.value)) - {d} else entry.associated, entry.impis,
                   entry.registered, if c.Some? then c.value else entry.charging,
                   if xml.Some? then xml.value else entry.xml)]
  {
    hide Put, Identities.PublicIds, Identities.DefaultId;
    var irs := WithPush(FromRecord(d, s.impus[d], now), xml, c);
    FitAchieves(PUT, irs, true, s, now);
    assert d !in s.impus[d].value.associated by { assert !Points(Values(s.impus), d, d); }
    hide AgreeOnImpis, AgreeOnImpus;
    PushEntry(d, s.impus[d], xml, c, now);
  }

  lemma PushEntry(d: string, v: Versioned<Record>, xml: Option<Xml>, c: Option<Charging>, now: int)
    requires v.value.Default? && d !in v.value.associated && (xml.Some? ==> Identities.DefaultId(xml.value) == d)
    ensures var irs, entry := WithPush(FromRecord(d, v, now), xml, c), AsSubscriber(v.value);
            && irs.defaultImpu == d && irs.cas == v.cas && Covers(irs, v.value)
            && NewEntry(irs, Some(entry)) ==
                 Subscriber(
                   if xml.Some? then Elements(Identities.PublicIds(xml.value)) - {d} else entry.associated, entry.impis,
                   entry.registered, if c.Some? then c.value else entry.charging,
                   if xml.Some? then xml.value else entry.xml)
  {
    hide Identities.PublicIds, Identities.DefaultId;
    if xml.Some? {
      assert d !in FromRecord(d, v, now).associated;
    }
  }
}
