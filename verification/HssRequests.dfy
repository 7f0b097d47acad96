/** Requests from the HSS: Registration-Termination and Push-Profile. */
module HssRequests {
  import opened Types
  import opened StateMap
  import opened IrsModel
  import Identities

  datatype Event =
    | LOOKED_UP_IMPIS(impis: seq<string>)
    | LOOKED_UP_IMPUS(impus: seq<string>)
    | LOOKED_UP_SUBSCRIPTION(impi: string)
    | TOLD_SPROUT_DEREGISTER(notify: bool, defaults: seq<string>, bindings: seq<string>)
    | TOLD_SPROUT_CHANGE(default: string, xml: Xml)
    | ANSWERED(success: bool)
    | DELETED_SETS(irss: seq<Irs>)
    | SAVED
    | DESTROYED

  predicate IsAnswer(e: Event) { e.ANSWERED? }
  predicate IsEnd(e: Event) { e.DESTROYED? }

  const HTTP_OK := 200

  /** The whole log of a finished task: one answer, and destroyed once, as the last thing. */
  ghost predicate AnsweredOnce(log: seq<Event>) {
    && Count(log, IsAnswer) == 1 && Count(log, IsEnd) == 1
    && log != [] && log[|log| - 1].DESTROYED?
  }

  lemma CountSnoc(log: seq<Event>, e: Event)
    ensures Count(log + [e], IsAnswer) == Count(log, IsAnswer) + if IsAnswer(e) then 1 else 0
    ensures Count(log + [e], IsEnd) == Count(log, IsEnd) + if IsEnd(e) then 1 else 0
  {
  }

  /** The default IMPUs of some registration sets. */
  function Defaults(irss: seq<Irs>): (r: seq<string>)
    ensures |r| == |irss| && forall n :: 0 <= n < |r| ==> r[n] == irss[n].defaultImpu
  {
    if irss == [] then [] else Defaults(irss[..|irss| - 1]) + [irss[|irss| - 1].defaultImpu]
  }

  // -------------------------------------------------------- registration termination

  datatype Reason = PERMANENT_TERMINATION | NEW_SERVER_ASSIGNED | SERVER_CHANGE | REMOVE_SCSCF | OTHER_REASON

  class RegistrationTerminationTask {
    const reason: Reason
    const requestImpi: string
    const associatedIds: seq<string>
    const requestImpus: seq<string>
    var impis: seq<string>
    var impus: seq<string>
    var regSets: seq<Irs>
    var log: seq<Event>

    constructor (reason: Reason, impi: string, associatedIds: seq<string>, impus: seq<string>)
      ensures log == [] && this.reason == reason && requestImpus == impus
      ensures this.impus == [] && impis == [] && requestImpi == impi && this.associatedIds == associatedIds
    {
      this.reason, requestImpi, this.associatedIds, requestImpus := reason, impi, associatedIds, impus;
      this.impis, this.impus, regSets, log := [], [], [], [];
    }

    method Emit(e: Event)
      modifies this`log
      ensures log == old(log) + [e]
      ensures Count(log, IsAnswer) == old(Count(log, IsAnswer)) + if IsAnswer(e) then 1 else 0
      ensures Count(log, IsEnd) == old(Count(log, IsEnd)) + if IsEnd(e) then 1 else 0
    {
      CountSnoc(log, e);
      log := log + [e];
    }

    /** An RTR is about the sets of its public identities if it names any and the reason lets it,
        and about those of its private identities otherwise; or the reason is invalid. */
    method Run()
      requires log == [] && impus == [] && impis == []
      modifies this
      ensures impis == [requestImpi] + associatedIds
      ensures log == match reason
                     case PERMANENT_TERMINATION =>
                       if requestImpus == [] then [LOOKED_UP_IMPIS([requestImpi] + associatedIds)]
                       else [LOOKED_UP_IMPUS(requestImpus)]
                     case REMOVE_SCSCF =>
                       if requestImpus == [] then [LOOKED_UP_IMPIS([requestImpi] + associatedIds)]
                       else [LOOKED_UP_IMPUS(requestImpus)]
                     case SERVER_CHANGE => [LOOKED_UP_IMPIS([requestImpi] + associatedIds)]
                     case NEW_SERVER_ASSIGNED => [LOOKED_UP_IMPIS([requestImpi] + associatedIds)]
                     case OTHER_REASON => [ANSWERED(false), DESTROYED]
      ensures if reason.OTHER_REASON? then AnsweredOnce(log) else Count(log, IsAnswer) == 0 && Count(log, IsEnd) == 0
    {
      impis := [requestImpi] + associatedIds;
      if reason != SERVER_CHANGE && reason != NEW_SERVER_ASSIGNED {
        impus := requestImpus;
      }
      if impus == [] && reason in {PERMANENT_TERMINATION, REMOVE_SCSCF, SERVER_CHANGE, NEW_SERVER_ASSIGNED} {
        Emit(LOOKED_UP_IMPIS(impis));
      } else if impus != [] && reason in {PERMANENT_TERMINATION, REMOVE_SCSCF} {
        Emit(LOOKED_UP_IMPUS(impus));
      } else {
        Emit(ANSWERED(false));
        Emit(DESTROYED);
      }
    }

    method DefaultImpus(found: seq<Irs>) returns (defaults: seq<string>)
      ensures defaults == Defaults(found)
    {
      defaults := [];
      for n := 0 to |found|
        invariant defaults == Defaults(found[..n])
      {
        assert found[..n + 1][..n] == found[..n];
        defaults := defaults + [found[n].defaultImpu];
      }
      assert found[..|found|] == found;
    }

    /** What Sprout is told about the bindings to remove. */
    method TellSprout(defaults: seq<string>)
      requires reason != OTHER_REASON
      modifies this`log
      ensures log == old(log) + [TOLD_SPROUT_DEREGISTER(reason in {REMOVE_SCSCF, SERVER_CHANGE}, defaults,
                                                        if reason.PERMANENT_TERMINATION? then impis else [])]
      ensures Count(log, IsAnswer) == old(Count(log, IsAnswer)) && Count(log, IsEnd) == old(Count(log, IsEnd))
    {
      var notify, bindings := false, [];
      match reason {
        case PERMANENT_TERMINATION => bindings := impis;
        case REMOVE_SCSCF => notify := true;
        case SERVER_CHANGE => notify := true;
        case NEW_SERVER_ASSIGNED =>
        case OTHER_REASON => assert false;
      }
      Emit(TOLD_SPROUT_DEREGISTER(notify, defaults, bindings));
    }

    /** The registration sets have been found: Sprout is told, the HSS is answered with
        Sprout's verdict, and in any case all of them are deleted from the cache. */
    method GetRegistrationSetsSuccess(found: seq<Irs>, sproutCode: int)
      requires reason != OTHER_REASON && Count(log, IsAnswer) == 0 && Count(log, IsEnd) == 0
      modifies this
      ensures found == [] ==> log == old(log) + [ANSWERED(true), DESTROYED] && AnsweredOnce(log)
      ensures found != [] ==>
                && log == old(log) + [TOLD_SPROUT_DEREGISTER(reason in {REMOVE_SCSCF, SERVER_CHANGE}, Defaults(found),
                                                             if reason.PERMANENT_TERMINATION? then impis else []),
                                      ANSWERED(sproutCode == HTTP_OK), DELETED_SETS(found)]
                && Count(log, IsAnswer) == 1 && Count(log, IsEnd) == 0
    {
      hide Count, Defaults;
      regSets := found;
      if regSets == [] {
        Emit(ANSWERED(true));
        Emit(DESTROYED);
      } else {
        var defaults := DefaultImpus(regSets);
        TellSprout(defaults);
        Emit(ANSWERED(sproutCode == HTTP_OK));
        Emit(DELETED_SETS(regSets));
      }
    }

    method GetRegistrationSetsFailure()
      requires Count(log, IsAnswer) == 0 && Count(log, IsEnd) == 0
      modifies this`log
      ensures log == old(log) + [ANSWERED(false), DESTROYED] && AnsweredOnce(log)
    {
      Emit(ANSWERED(false));
      Emit(DESTROYED);
    }

    /** `delete_reg_sets_success` and `delete_reg_sets_failure`; the progress callback in
        between does nothing. */
    method DeleteRegSetsDone()
      requires Count(log, IsAnswer) == 1 && Count(log, IsEnd) == 0
      modifies this`log
      ensures log == old(log) + [DESTROYED] && AnsweredOnce(log)
    {
      Emit(DESTROYED);
    }

    /** A whole run, whatever the cache and Sprout answer: one answer, destroyed once; and
        sets that were found are all deleted, whatever Sprout said. */
    method Drive(found: Option<seq<Irs>>, sproutCode: int)
      requires log == [] && impus == [] && impis == []
      modifies this
      ensures AnsweredOnce(log)
      ensures !reason.OTHER_REASON? && found.Some? && found.value != [] ==>
                |log| == 5 && log[3] == DELETED_SETS(found.value) && log[2] == ANSWERED(sproutCode == 200)
      ensures reason.OTHER_REASON? || found.None? || found.value == [] ==>
                && (forall e :: e in log ==> !e.DELETED_SETS? && !e.TOLD_SPROUT_DEREGISTER?)
                && (ANSWERED(true) in log <==> !reason.OTHER_REASON? && found.Some?)
    {
      Run();
      if log[|log| - 1] != DESTROYED {
        if found.Some? {
          GetRegistrationSetsSuccess(found.value, sproutCode);
          if found.value != [] {
            DeleteRegSetsDone();
          }
        } else {
          GetRegistrationSetsFailure();
        }
      }
    }
  }

  // ---------------------------------------------------------------- push profile

  /** The last of some sets with a given default IMPU. */
  ghost predicate LastWith(sets: seq<MemcachedIrs>, k: string, irs: MemcachedIrs)
    reads sets
  {
    exists n :: 0 <= n < |sets| && sets[n] == irs && irs.defaultImpu == k &&
      forall m :: n < m < |sets| ==> sets[m].defaultImpu != k
  }

  lemma LastWithSnoc(sets: seq<MemcachedIrs>, n: nat, k: string, irs: MemcachedIrs)
    requires n < |sets|
    ensures k == sets[n].defaultImpu ==> LastWith(sets[..n + 1], k, sets[n])
    ensures k != sets[n].defaultImpu && LastWith(sets[..n], k, irs) ==> LastWith(sets[..n + 1], k, irs)
  {
    var some, more := sets[..n], sets[..n + 1];
    assert more[n] == sets[n] && |more| == n + 1;
    if k != sets[n].defaultImpu && LastWith(some, k, irs) {
      var m :| 0 <= m < n && some[m] == irs && forall j :: m < j < n ==> some[j].defaultImpu != k;
      assert more[m] == irs && forall j :: 0 <= j < n ==> more[j] == some[j];
      assert forall j :: m < j < |more| ==> more[j].defaultImpu != k;
    }
  }

  /** All the registration sets of one private identity, by default IMPU. */
  class BaseImsSubscription {
    var irss: map<string, MemcachedIrs>

    ghost predicate Valid()
      reads this, irss.Values
    {
      forall k :: k in irss ==> irss[k].defaultImpu == k
    }

    constructor (sets: seq<MemcachedIrs>)
      ensures Valid()
      ensures forall k :: k in irss ==> LastWith(sets, k, irss[k])
      ensures forall n :: 0 <= n < |sets| ==> sets[n].defaultImpu in irss
    {
      irss := map[];
      new;
      hide LastWith;
      for n := 0 to |sets|
        invariant Valid()
        invariant forall k :: k in irss ==> LastWith(sets[..n], k, irss[k])
        invariant forall m :: 0 <= m < n ==> sets[m].defaultImpu in irss
      {
        forall k | k in irss && k != sets[n].defaultImpu ensures LastWith(sets[..n + 1], k, irss[k]) {
          LastWithSnoc(sets, n, k, irss[k]);
        }
        LastWithSnoc(sets, n, sets[n].defaultImpu, sets[n]);
        irss := irss[sets[n].defaultImpu := sets[n]];
      }
      assert sets[..|sets|] == sets;
    }

    /** Every set gets the new addresses, and nothing else of it changes. */
    method SetChargingAddrs(c: Charging)
      requires Valid()
      modifies irss.Values
      ensures Valid() && irss == old(irss)
      ensures forall k :: k in irss ==> irss[k].View() == WithCharging(old(irss[k].View()), c)
      ensures forall k :: k in irss ==> irss[k].origin == old(irss[k].origin)
    {
      var todo := irss.Keys;
      while todo != {}
        invariant todo <= irss.Keys && irss == old(irss) && Valid()
        invariant forall k :: k in irss && k !in todo ==> irss[k].View() == WithCharging(old(irss[k].View()), c)
        invariant forall k :: k in todo ==> irss[k].View() == old(irss[k].View())
        invariant forall k :: k in irss ==> irss[k].origin == old(irss[k].origin)
      {
        var k :| k in todo;
        assert irss[k] in irss.Values;
        irss[k].SetChargingAddresses(c);
        todo := todo - {k};
      }
    }

    function GetIrsForDefaultImpu(d: string): (r: Option<MemcachedIrs>)
      reads this
    {
      if d in irss then Some(irss[d]) else None
    }
  }

  class PushProfileTask {
    const impi: string
    const xml: Option<Xml>
    const charging: Option<Charging>
    var log: seq<Event>

    constructor (impi: string, xml: Option<Xml>, charging: Option<Charging>)
      ensures log == [] && this.impi == impi && this.xml == xml && this.charging == charging
    {
      this.impi, this.xml, this.charging, log := impi, xml, charging, [];
    }

    method Emit(e: Event)
      modifies this`log
      ensures log == old(log) + [e]
      ensures Count(log, IsAnswer) == old(Count(log, IsAnswer)) + if IsAnswer(e) then 1 else 0
      ensures Count(log, IsEnd) == old(Count(log, IsEnd)) + if IsEnd(e) then 1 else 0
    {
      CountSnoc(log, e);
      log := log + [e];
    }

    method Run()
      requires log == []
      modifies this`log
      ensures xml.None? && charging.None? ==> log == [ANSWERED(true), DESTROYED] && AnsweredOnce(log)
      ensures xml.Some? || charging.Some? ==>
                log == [LOOKED_UP_SUBSCRIPTION(impi)] && Count(log, IsAnswer) == 0 && Count(log, IsEnd) == 0
    {
      if charging.None? && xml.None? {
        Emit(ANSWERED(true));
        Emit(DESTROYED);
      } else {
        Emit(LOOKED_UP_SUBSCRIPTION(impi));
      }
    }

    /** The profile may be pushed: it has no document, or one whose default identity is that
        of a set the private identity already has, and Sprout accepts it. */
    predicate Accepted(known: set<string>, sproutCode: int) {
      xml.Some? ==> Identities.DefaultId(xml.value) in known && sproutCode == HTTP_OK
    }

    /** What an accepted push makes of the set with default IMPU k: the document goes to the
        one set it is for, the charging addresses to all. */
    function Pushed(k: string, irs: Irs): (r: Irs) {
      WithPush(irs, DocumentFor(k), charging)
    }

    function DocumentFor(k: string): (r: Option<Xml>) {
      if xml.Some? && Identities.DefaultId(xml.value) == k then xml else None
    }

    /** The set the document is for gets it, every set gets the charging addresses if there are
        any, and nothing else of a set changes but its associated IMPUs with the document. */
    lemma PushedMeaning(k: string, irs: Irs)
      ensures var r, mine := Pushed(k, irs), xml.Some? && Identities.DefaultId(xml.value) == k;
              && r.xml == (if mine then xml.value else irs.xml) && (r.xmlSet <==> irs.xmlSet || mine)
              && r.charging == (if charging.Some? then charging.value else irs.charging)
              && (r.chargingSet <==> irs.chargingSet || charging.Some?)
              && r.impis == irs.impis && r.state == irs.state && r.stateSet == irs.stateSet
              && r.refreshed == irs.refreshed && r.ttl == irs.ttl && r.cas == irs.cas && r.existing == irs.existing
              && (!mine ==> r.associated == irs.associated && r.defaultImpu == irs.defaultImpu)
              && (mine ==> r.defaultImpu == k)
    {
      hide Identities.DefaultId, Replaced;
    }

    /** Every set that an accepted push saves has been touched by it, exactly unless there is one
        besides the document's and no charging addresses came; so with the one set that a lookup
        finds, always. */
    lemma TouchesAll(sets: map<string, Irs>, sproutCode: int)
      requires (xml.Some? || charging.Some?) && Accepted(sets.Keys, sproutCode)
      requires forall k :: k in sets ==> !HasChanged(sets[k])
      ensures (forall k :: k in sets ==> HasChanged(Pushed(k, sets[k]))) <==>
                charging.Some? || forall k :: k in sets ==> k == Identities.DefaultId(xml.value)
      ensures |sets| <= 1 ==> forall k :: k in sets ==> HasChanged(Pushed(k, sets[k]))
    {
      hide Identities.DefaultId, Replaced;
      if |sets| <= 1 && xml.Some? {
        var d := Identities.DefaultId(xml.value);
        assert d in sets.Keys && |sets.Keys - {d}| == 0;
        forall k | k in sets ensures k == d {
          assert k in sets.Keys - {d} || k == d;
        }
      }
    }

    /** An answer, and the handler is gone. */
    method Conclude(ok: bool)
      requires Count(log, IsAnswer) == 0 && Count(log, IsEnd) == 0
      modifies this`log
      ensures log == old(log) + [ANSWERED(ok), DESTROYED] && AnsweredOnce(log)
    {
      Emit(ANSWERED(ok));
      Emit(DESTROYED);
    }

    /** The document of the push, if it has one: set in the registration set it is for, and
        shown to Sprout.  Anything but consent ends it. */
    method PushDocument(sub: BaseImsSubscription, sproutCode: int) returns (go: bool)
      requires sub.Valid() && Count(log, IsAnswer) == 0 && Count(log, IsEnd) == 0
      modifies this`log, sub.irss.Values
      ensures go == Accepted(sub.irss.Keys, sproutCode)
      ensures sub.Valid() && sub.irss == old(sub.irss)
      ensures forall k :: k in sub.irss ==> sub.irss[k].origin == old(sub.irss[k].origin)
      ensures go ==> forall k :: k in sub.irss ==>
                sub.irss[k].View() == WithPush(old(sub.irss[k].View()), DocumentFor(k), None)
      ensures log == old(log) + Shown(sub.irss.Keys) + if go then [] else [ANSWERED(false), DESTROYED]
      ensures if go then Count(log, IsAnswer) == 0 && Count(log, IsEnd) == 0 else AnsweredOnce(log)
    {
      go := true;
      if xml.Some? {
        var d := Identities.DefaultId(xml.value);
        var irs := sub.GetIrsForDefaultImpu(d);
        if irs.None? {
          Conclude(false);
          return false;
        }
        assert irs.value in sub.irss.Values;
        irs.value.SetImsSubXml(xml.value);
        Emit(TOLD_SPROUT_CHANGE(d, xml.value));
        if sproutCode != HTTP_OK {
          Conclude(false);
          return false;
        }
      }
    }

    function Shown(known: set<string>): (r: seq<Event>) {
      if xml.Some? && Identities.DefaultId(xml.value) in known
      then [TOLD_SPROUT_CHANGE(Identities.DefaultId(xml.value), xml.value)] else []
    }

    /** Saved exactly if accepted; and no set ever changes its default IMPU. */
    method OnGetImsSubSuccess(sub: BaseImsSubscription, sproutCode: int)
      requires sub.Valid() && Count(log, IsAnswer) == 0 && Count(log, IsEnd) == 0
      modifies this`log, sub.irss.Values
      ensures sub.Valid() && sub.irss == old(sub.irss)
      ensures forall k :: k in sub.irss ==> sub.irss[k].origin == old(sub.irss[k].origin)
      ensures Accepted(sub.irss.Keys, sproutCode) ==>
                forall k :: k in sub.irss ==> sub.irss[k].View() == Pushed(k, old(sub.irss[k].View()))
      ensures log == old(log) + Shown(sub.irss.Keys) +
                     if Accepted(sub.irss.Keys, sproutCode) then [SAVED] else [ANSWERED(false), DESTROYED]
      ensures if Accepted(sub.irss.Keys, sproutCode) then Count(log, IsAnswer) == 0 && Count(log, IsEnd) == 0
              else AnsweredOnce(log)
    {
      hide WithXml, WithCharging, Count, Identities.DefaultId;
      var go := PushDocument(sub, sproutCode);
      if go {
        if charging.Some? {
          sub.SetChargingAddrs(charging.value);
        }
        Emit(SAVED);
      }
    }

    method OnGetImsSubFailure()
      requires Count(log, IsAnswer) == 0 && Count(log, IsEnd) == 0
      modifies this`log
      ensures log == old(log) + [ANSWERED(false), DESTROYED] && AnsweredOnce(log)
    {
      Emit(ANSWERED(false));
      Emit(DESTROYED);
    }

    /** The cache has made progress and then succeeded, or has failed. */
    method OnSaved(ok: bool)
      requires Count(log, IsAnswer) == 0 && Count(log, IsEnd) == 0
      modifies this`log
      ensures log == old(log) + [ANSWERED(ok), DESTROYED] && AnsweredOnce(log)
    {
      Conclude(ok);
    }

    /** A whole run, whatever the cache and Sprout answer. */
    method Drive(sub: BaseImsSubscription, found: bool, sproutCode: int, saved: bool)
      requires log == [] && sub.Valid()
      modifies this`log, sub.irss.Values
      ensures AnsweredOnce(log) && sub.irss == old(sub.irss)
      ensures forall k :: k in sub.irss ==> sub.irss[k].defaultImpu == k
      ensures var known := xml.Some? && Identities.DefaultId(xml.value) in sub.irss;
              var saves := found && (xml.Some? ==> known && sproutCode == 200);
              && log == (if xml.None? && charging.None? then [ANSWERED(true), DESTROYED]
                         else
                           [LOOKED_UP_SUBSCRIPTION(impi)]
                           + (if found && known then [TOLD_SPROUT_CHANGE(Identities.DefaultId(xml.value), xml.value)]
                              else [])
                           + (if saves then [SAVED, ANSWERED(saved), DESTROYED] else [ANSWERED(false), DESTROYED]))
              && (saves && (xml.Some? || charging.Some?) ==>
                    forall k :: k in sub.irss ==> sub.irss[k].View() == Pushed(k, old(sub.irss[k].View())))
    {
      hide Identities.DefaultId, Pushed, WithPush, Count;
      Run();
      if log[|log| - 1] != DESTROYED {
        if found {
          OnGetImsSubSuccess(sub, sproutCode);
          if log[|log| - 1] == SAVED {
            OnSaved(saved);
          }
        } else {
          OnGetImsSubFailure();
        }
      }
    }
  }
}
