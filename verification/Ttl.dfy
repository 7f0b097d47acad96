/** Registrations over time: how long a record lasts, and when the HSS is asked again. */
module Ttl {
  import opened Types
  import opened StateMap
  import opened Stores
  import opened IrsModel
  import opened IrsUpdate
  import opened ImpuAction
  import opened CacheActions
  import Identities
  import Lookup
  import RegDataTask

  /** The lifetime of a record: twice the re-registration time, or the longest registration
      with some padding. */
  function RecordTtl(reregTime: int, maxExpires: int): (r: int)
    ensures r >= 2 * reregTime && r >= maxExpires + 10 && (r == 2 * reregTime || r == maxExpires + 10)
  {
    if 2 * reregTime >= maxExpires + 10 then 2 * reregTime else maxExpires + 10
  }

  /** A registration of one IMPU, and what the HSS will answer if it is asked. */
  datatype Reg = Reg(time: int, impi: string, noCache: bool, xml: Xml, charging: Charging)

  /** The records of a store, and when the HSS last answered for the subscriber. */
  datatype Site = Site(records: map<string, Record>, lastSaa: int)

  /** What is still there at some time. */
  function Unexpired(records: map<string, Record>, now: int): (r: map<string, Record>) {
    map k | k in records && now < records[k].expiry :: records[k]
  }

  /** A store with these records, all of one version. */
  function Stored(records: map<string, Record>): (s: Store)
    ensures ValidStore(s) && s.impus.Keys == records.Keys
    ensures forall k :: k in records ==> s.impus[k] == Versioned(records[k], 1)
  {
    Store(map k | k in records :: Versioned(records[k], 1), map[], 1)
  }

  /** What a lookup of d finds. */
  function Found(d: string, site: Site, now: int): (r: Option<Irs>) {
    var records := Unexpired(site.records, now);
    match Lookup.DefaultOf(records, d)
    case None => None
    case Some(key) => Some(FromRecord(key, Stored(records).impus[key], now))
  }

  /** What the registration task is given. */
  function Cached(d: string, site: Site, q: Reg): (r: Irs) {
    match Found(d, site, q.time) case None => RegDataTask.Unknown() case Some(irs) => irs
  }

  /** The registration task asks the HSS. */
  predicate Asks(d: string, site: Site, q: Reg, reregTime: int, maxExpires: int) {
    !RegDataTask.CacheSuffices(RegDataTask.PUT, RegDataTask.REG, Cached(d, site, q), q.impi,
                               RecordTtl(reregTime, maxExpires), reregTime, q.noCache)
  }

  /** The IRS the registration task puts when the HSS has answered. */
  function Answer(d: string, site: Site, q: Reg, reregTime: int, maxExpires: int): (r: Irs) {
    Assigned(RegDataTask.Prepared(RegDataTask.REG, Cached(d, site, q), q.impi), q.charging, q.xml,
             RecordTtl(reregTime, maxExpires))
  }

  /** The records after the put, with nobody else writing.  If the document has moved the IRS
      to another key, the CAS it remembers is not that of any record there. */
  function AfterPut(d: string, site: Site, q: Reg, reregTime: int, maxExpires: int): (r: map<string, Record>) {
    var irs := Answer(d, site, q, reregTime, maxExpires);
    Put(irs, Stored(Unexpired(site.records, q.time)), irs.defaultImpu == Cached(d, site, q).defaultImpu, q.time).impus
  }

  /** Serving a registration: if the HSS is asked, it answers, and the IRS is put unless the
      document names nobody. */
  function Serve(d: string, site: Site, q: Reg, reregTime: int, maxExpires: int): (r: Site) {
    if !Asks(d, site, q, reregTime, maxExpires) then site
    else if Identities.PublicIds(q.xml) == [] then site.(lastSaa := q.time)
    else Site(AfterPut(d, site, q, reregTime, maxExpires), q.time)
  }

  function ServeAll(d: string, qs: seq<Reg>, reregTime: int, maxExpires: int): (r: Site) {
    if qs == [] then Site(map[], 0)
    else Serve(d, ServeAll(d, qs[..|qs| - 1], reregTime, maxExpires), qs[|qs| - 1], reregTime, maxExpires)
  }

  /** The document is about the IRS with default IMPU d. */
  predicate Names(xml: Xml, d: string) {
    Identities.PublicIds(xml) != [] && Identities.DefaultId(xml) == d
  }

  /** Registrations follow each other within the re-registration time, and the HSS answers
      each for the same default IMPU. */
  ghost predicate Regular(d: string, qs: seq<Reg>, reregTime: int) {
    && (forall n :: 0 < n < |qs| ==> 0 <= qs[n].time - qs[n - 1].time <= reregTime)
    && (forall n :: 0 <= n < |qs| ==> Names(qs[n].xml, d))
  }

  /** After a registration at time t: a registered record, which expires one lifetime after
      the last answer of the HSS, and that answer is younger than the re-registration time. */
  ghost predicate Current(d: string, site: Site, t: int, reregTime: int, maxExpires: int) {
    && d in site.records && CurrentRecord(d, site.records[d], site.lastSaa + RecordTtl(reregTime, maxExpires))
    && site.lastSaa <= t < site.lastSaa + reregTime
  }

  predicate CurrentRecord(d: string, r: Record, expiry: int) {
    r.Default? && r.state == REGISTERED && r.expiry == expiry && d !in r.associated
  }

  /** The record is found, its age is the true time since the last answer, and the HSS is
      asked exactly if that is at least the re-registration time, or the binding is new, or
      the cache is not allowed. */
  ghost predicate OnTime(d: string, site: Site, q: Reg, reregTime: int, maxExpires: int) {
    var found := Found(d, site, q.time);
    && found.Some? && found.value.defaultImpu == d
    && RecordTtl(reregTime, maxExpires) - found.value.ttl == q.time - site.lastSaa
    && (Asks(d, site, q, reregTime, maxExpires) <==>
          q.time - site.lastSaa >= reregTime || RegDataTask.NewBinding(found.value, q.impi) || q.noCache)
  }

  /** One more registration within the re-registration time finds the record, computes the
      true time since the last answer as its age, and asks exactly when it has to. */
  lemma ServeOnTime(d: string, site: Site, t: int, q: Reg, reregTime: int, maxExpires: int)
    requires reregTime > 0 && Current(d, site, t, reregTime, maxExpires) && 0 <= q.time - t <= reregTime
    ensures OnTime(d, site, q, reregTime, maxExpires)
  {
  }

  /** What a put of a registered, refreshed IRS leaves under its own key and, where there was
      a default record, under another one. */
  lemma PutRegistered(irs: Irs, s: Store, here: bool, now: int, k: string)
    requires ValidStore(s) && irs.refreshed && irs.state == REGISTERED && irs.stateSet
    requires irs.existing && here ==> CasMatches(s.impus, irs.defaultImpu, irs.cas)
    ensures var r, d, live := Put(irs, s, here, now), irs.defaultImpu, Live(irs.associated);
            && (d !in live ==> d in r.impus && CurrentRecord(d, r.impus[d], irs.ttl + now))
            && (k != d && k in s.impus && s.impus[k].value.Default? ==>
                  k in r.impus && if k in live then r.impus[k].Associated? else r.impus[k] == s.impus[k].value)
  {
    hide Put, WriteDefault, Encoded, Pointers, AsRecord;
    RegisteredWrite(irs, s, here, now);
    PutWritesPointers(irs, s, here, now);
    var w, d := WriteDefault(irs, s, here, now), irs.defaultImpu;
    AsRecordRegistered(w.irs, now);
    var before, drop := Values(s.impus)[d := AsRecord(w.irs, now)], InState(w.irs.associated, DELETED);
    PointersLeave(before, d, Live(irs.associated), drop, irs.ttl + now, d);
    if k in s.impus && s.impus[k].value.Default? {
      PointersLeave(before, d, Live(irs.associated), drop, irs.ttl + now, k);
    }
  }

  lemma PutWritesPointers(irs: Irs, s: Store, here: bool, now: int)
    requires ValidStore(s) && irs.refreshed && irs.state == REGISTERED && irs.stateSet
    requires irs.existing && here ==> CasMatches(s.impus, irs.defaultImpu, irs.cas)
    ensures var w, d := WriteDefault(irs, s, here, now), irs.defaultImpu;
            Put(irs, s, here, now).impus ==
              Pointers(Values(s.impus)[d := AsRecord(w.irs, now)], d, Live(irs.associated),
                       InState(w.irs.associated, DELETED), irs.ttl + now)
  {
    hide WriteDefault, Pointers, Mappings;
    RegisteredWrite(irs, s, here, now);
    var w, d := WriteDefault(irs, s, here, now), irs.defaultImpu;
    AsRecordRegistered(w.irs, now);
    assert Written(w.irs.associated, true) == Live(irs.associated);
    assert Values(w.store.impus) == Values(s.impus)[d := AsRecord(w.irs, now)];
  }

  lemma AsRecordRegistered(irs: Irs, now: int)
    requires irs.state == REGISTERED
    ensures Encoded(AsRecord(irs, now)) == AsRecord(irs, now)
    ensures AsRecord(irs, now).Default?
    ensures irs.defaultImpu !in Live(irs.associated) ==>
        CurrentRecord(irs.defaultImpu, AsRecord(irs, now), irs.ttl + now)
  {
  }

  /** Pointers overwrite default records, and otherwise leave them alone. */
  lemma PointersLeave(impus: map<string, Record>, d: string, write: set<string>, drop: set<string>, expiry: int,
      k: string)
    requires k in impus && impus[k].Default?
    ensures var r := Pointers(impus, d, write, drop, expiry);
            k in r && r[k] == if k in write then Associated(d, expiry) else impus[k]
  {
  }

  lemma RegisteredWrite(irs: Irs, s: Store, here: bool, now: int)
    requires ValidStore(s) && irs.refreshed && irs.state == REGISTERED && irs.stateSet
    requires irs.existing && here ==> CasMatches(s.impus, irs.defaultImpu, irs.cas)
    ensures var w, d := WriteDefault(irs, s, here, now), irs.defaultImpu;
            && w.status == OK && w.store == PutImpu(s, d, AsRecord(w.irs, now))
            && w.irs.defaultImpu == d && w.irs.state == REGISTERED && w.irs.refreshed && w.irs.ttl == irs.ttl
            && Live(w.irs.associated) == Live(irs.associated)
  {
    assert AfterTurns(s, []) == s;
    assert Next([]) == [] && Rest([]) == [];
  }

  /** The IRS of the answer. */
  lemma AnswerMeaning(d: string, site: Site, q: Reg, reregTime: int, maxExpires: int)
    requires d in site.records && q.time < site.records[d].expiry ==>
        site.records[d].Default? && d !in site.records[d].associated
    ensures var irs, found := Answer(d, site, q, reregTime, maxExpires), Found(d, site, q.time);
            && irs.refreshed && irs.state == REGISTERED && irs.stateSet
            && irs.ttl == RecordTtl(reregTime, maxExpires) && irs.defaultImpu == Identities.DefaultId(q.xml)
            && (irs.existing <==> found.Some?) && (found.Some? ==> irs.cas == 1 && found.value.defaultImpu == d)
            && (irs.defaultImpu == d ==> d !in Live(irs.associated))
            && (irs.defaultImpu != d ==> (d in Live(irs.associated) <==> d in Identities.PublicIds(q.xml)))
  {
  }

  /** What a put leaves under the key the registration was for. */
  lemma PutCurrent(d: string, site: Site, t: int, q: Reg, reregTime: int, maxExpires: int)
    requires Current(d, site, t, reregTime, maxExpires) && Found(d, site, q.time).Some?
    ensures var after, irs := AfterPut(d, site, q, reregTime, maxExpires), Answer(d, site, q, reregTime, maxExpires);
            && d in after
            && (irs.defaultImpu == d ==> CurrentRecord(d, after[d], q.time + RecordTtl(reregTime, maxExpires)))
            && (irs.defaultImpu != d ==>
                  if d in Identities.PublicIds(q.xml) then after[d].Associated? else after[d] == site.records[d])
  {
    hide Put, RecordTtl, Answer;
    var irs, s := Answer(d, site, q, reregTime, maxExpires), Stored(Unexpired(site.records, q.time));
    AnswerMeaning(d, site, q, reregTime, maxExpires);
    PutRegistered(irs, s, irs.defaultImpu == Cached(d, site, q).defaultImpu, q.time, d);
  }

  /** It leaves a current record again exactly if the HSS was not asked, or it answered for
      this default IMPU; or else at the very time of the answer before, with a document that
      does not name d at all: then the record is not touched, and as old as it was. */
  lemma ServeCurrent(d: string, site: Site, t: int, q: Reg, reregTime: int, maxExpires: int)
    requires reregTime > 0 && Current(d, site, t, reregTime, maxExpires) && 0 <= q.time - t <= reregTime
    ensures Current(d, Serve(d, site, q, reregTime, maxExpires), q.time, reregTime, maxExpires) <==>
              || !Asks(d, site, q, reregTime, maxExpires)
              || Names(q.xml, d)
              || (q.time == site.lastSaa && d !in Identities.PublicIds(q.xml))
  {
    hide RecordTtl, Identities.PublicIds, Identities.DefaultId;
    ServeOnTime(d, site, t, q, reregTime, maxExpires);
    if Asks(d, site, q, reregTime, maxExpires) && Identities.PublicIds(q.xml) != [] {
      PutCurrent(d, site, t, q, reregTime, maxExpires);
    }
  }

  /** The first registration leaves a current record. */
  lemma FirstCurrent(d: string, q: Reg, reregTime: int, maxExpires: int)
    requires reregTime > 0 && Names(q.xml, d)
    ensures Current(d, Serve(d, Site(map[], 0), q, reregTime, maxExpires), q.time, reregTime, maxExpires)
  {
    hide Put, CurrentRecord, RecordTtl, Answer;
    var site := Site(map[], 0);
    var irs := Answer(d, site, q, reregTime, maxExpires);
    assert Unexpired(site.records, q.time) == map[];
    AnswerMeaning(d, site, q, reregTime, maxExpires);
    PutRegistered(irs, Stored(map[]), irs.defaultImpu == Cached(d, site, q).defaultImpu, q.time, d);
  }

  /** Over every regular run with every assignment succeeding, no registration but the first
      ever meets an expired record, and each is on time. */
  lemma {:induction false} RunOnTime(d: string, qs: seq<Reg>, reregTime: int, maxExpires: int, n: nat)
    requires reregTime > 0 && Regular(d, qs, reregTime) && n < |qs|
    ensures Current(d, ServeAll(d, qs[..n + 1], reregTime, maxExpires), qs[n].time, reregTime, maxExpires)
    ensures n > 0 ==> OnTime(d, ServeAll(d, qs[..n], reregTime, maxExpires), qs[n], reregTime, maxExpires)
  {
    hide Serve, Current, OnTime, Names;
    assert qs[..n + 1][..n] == qs[..n];
    if n > 0 {
      var site, t, q := ServeAll(d, qs[..n], reregTime, maxExpires), qs[n - 1].time, qs[n];
      RunOnTime(d, qs, reregTime, maxExpires, n - 1);
      ServeOnTime(d, site, t, q, reregTime, maxExpires);
      ServeCurrent(d, site, t, q, reregTime, maxExpires);
    } else {
      FirstCurrent(d, qs[0], reregTime, maxExpires);
    }
  }
}
