/** Acting on the local store and then on every remote one, and the callbacks that come
    back from it. */
module GeoCache {
  import opened Types
  import opened StateMap
  import opened Stores
  import opened IrsModel
  import opened IrsUpdate
  import opened Consistency
  import opened CacheActions

  datatype StoreAction = PUT | DELETE

  /** Everything a store stands for, as one value. */
  datatype Tables = Tables(impus: Impus, maps: Maps)

  ghost function TablesOf(s: Store): (t: Tables) {
    Tables(Values(s.impus), Values(s.mappings))
  }

  ghost predicate Quiet(store: ImpuStore)
    reads store
  {
    store.turns == [] && ValidStore(store.View())
  }

  /** The store is consistent, and this IRS may be put into or deleted from it. */
  ghost predicate Fit(action: StoreAction, irs: Irs, here: bool, s: Store) {
    && Consistent(Values(s.impus), Values(s.mappings))
    && (action.PUT? ==> Ready(irs, here, s))
    && (action.DELETE? ==> ReadHere(irs, here, s))
  }

  /** So it may after its turn on other stores, if `seen` says whether one of those has its
      record.  What it takes over there does no harm to a refreshed IRS; any other one has to
      find its record here, and to read it. */
  ghost predicate FitLater(action: StoreAction, irs: Irs, here: bool, seen: bool, s: Store) {
    && Fit(action, irs, here, s)
    && (action.PUT? && seen && !irs.refreshed ==> irs.defaultImpu in s.impus && !Remembered(irs, here, s))
  }

  /** A deletion leaves no trace of the IRS; and unless its default IMPU is an associated one in
      this store, nothing else changes. */
  ghost predicate Deleted(d: string, before: Tables, after: Tables) {
    && Clean(after.impus, after.maps, d)
    && (!(d in before.impus && before.impus[d].Associated?) ==>
          Consistent(after.impus, after.maps) && Abstract(after.impus) == Abstract(before.impus) - {d})
  }

  /** What the action achieves on one store: a deletion deletes; a put
      leaves a consistent store that differs in the one entry of the IRS, which is resolved
      from the caller's edits and the given entry. */
  ghost predicate Achieved(action: StoreAction, irs: Irs, entry: Option<Subscriber>, before: Tables, after: Tables) {
    var d := irs.defaultImpu;
    match action
    case DELETE => Deleted(d, before, after)
    case PUT =>
      && Consistent(after.impus, after.maps)
      && Abstract(after.impus) == Abstract(before.impus)[d := NewEntry(irs, entry)]
  }

  /** The IMPIs and associated IMPUs that the caller does not delete and that no store's entry
      lacks. */
  datatype Kept = Kept(impis: iset<string>, impus: iset<string>)

  ghost function Common(irs: Irs, stores: seq<Store>): (kept: Kept) {
    Kept(iset i | i !in InState(irs.impis, DELETED) &&
                  forall n :: 0 <= n < |stores| ==> !Lacks(Values(stores[n].impus), irs.defaultImpu, i),
         iset a | a !in InState(irs.associated, DELETED) &&
                  forall n :: 0 <= n < |stores| ==> !LacksImpu(Values(stores[n].impus), irs.defaultImpu, a))
  }

  ghost predicate Undeleted(irs: Irs, kept: Kept) {
    && (forall i :: i in kept.impis ==> i !in InState(irs.impis, DELETED))
    && (!irs.refreshed ==> forall a :: a in kept.impus ==> a !in InState(irs.associated, DELETED))
  }

  ghost predicate NoneLacked(s: Store, d: string, kept: Kept) {
    && (forall i :: i in kept.impis ==> !Lacks(Values(s.impus), d, i))
    && (forall a :: a in kept.impus ==> !LacksImpu(Values(s.impus), d, a))
  }

  /** A set of the new entry has the caller's additions and none of its deletions.  All the rest
      is from the entry there was, if that was resolved against, and of that it has all that is
      to be kept. */
  ghost predicate Resolves(data: Data, entry: Option<set<string>>, kept: iset<string>, r: set<string>) {
    && InState(data, ADDED) <= r && r !! InState(data, DELETED)
    && (entry.Some? ==> r <= InState(data, ADDED) + entry.value)
    && (entry.Some? ==> forall x :: x in kept && x in entry.value ==> x in r)
  }

  /** The new entry says what the caller wanted of the IRS when it was put: its additions and
      none of its deletions, all its associated IMPUs if it is refreshed, and the fields it set;
      and for the rest what was there. */
  ghost predicate Wanted(irs: Irs, entry: Option<Subscriber>, kept: Kept, r: Subscriber) {
    && (if irs.refreshed then r.associated == Live(irs.associated)
        else Resolves(irs.associated, if entry.Some? then Some(entry.value.associated) else None,
                      kept.impus, r.associated))
    && Resolves(irs.impis, if entry.Some? then Some(entry.value.impis) else None, kept.impis, r.impis)
    && (irs.stateSet ==> r.registered == (irs.state == REGISTERED))
    && (irs.xmlSet ==> r.xml == irs.xml)
    && (irs.chargingSet ==> r.charging == irs.charging)
    && (entry.Some? && !irs.stateSet ==> r.registered == entry.value.registered)
    && (entry.Some? && !irs.xmlSet ==> r.xml == entry.value.xml)
    && (entry.Some? && !irs.chargingSet ==> r.charging == entry.value.charging)
  }

  /** The end of the whole action on a store whose turn comes after others. */
  ghost predicate Served(action: StoreAction, irs: Irs, entry: Option<Subscriber>, kept: Kept,
                         before: Tables, after: Tables)
  {
    var d := irs.defaultImpu;
    match action
    case DELETE => Deleted(d, before, after)
    case PUT =>
      && Consistent(after.impus, after.maps)
      && d in Abstract(after.impus) && Wanted(irs, entry, kept, Abstract(after.impus)[d])
      && Abstract(after.impus) == Abstract(before.impus)[d := Abstract(after.impus)[d]]
  }

  /** What is resolved against at a store: its entry, for sure unless the IRS was read there and
      has since taken something over from another store. */
  ghost function Resolved(irs: Irs, here: bool, seen: bool, s: Store): (entry: Option<Subscriber>) {
    if here && seen then None else Against(irs, here, s)
  }

  /** What one store's turn leaves of the IRS. */
  ghost predicate Carried(action: StoreAction, before: Irs, after: Irs) {
    && after.defaultImpu == before.defaultImpu && after.existing == before.existing
    && before.impis.Keys <= after.impis.Keys && before.associated.Keys <= after.associated.Keys
    && (action.PUT? ==> KeptByPut(before, after))
  }

  /** One store's turn: it achieves the action's end there, and leaves the IRS fit for others. */
  ghost predicate Took(action: StoreAction, before: Irs, after: Irs, here: bool, s: Store, t: Tables) {
    && Carried(action, before, after)
    && Achieved(action, before, Against(before, here, s), TablesOf(s), t)
    && (action.PUT? ==> DropsLacking(before, after, Values(s.impus)))
    && (action.PUT? && before.defaultImpu !in s.impus ==> after == before)
  }

  /** The IRS, as it is by now, still serves what the caller wanted of it, and is the same as
      long as no store had its record. */
  ghost predicate Serves(action: StoreAction, first: Irs, last: Irs, kept: Kept, seen: bool) {
    && Carried(action, first, last)
    && (action.PUT? ==> Undeleted(last, kept) && (!seen ==> last == first))
  }

  /** An IRS that fits a store later does so after its turn on the others. */
  lemma StillFits(action: StoreAction, first: Irs, last: Irs, here: bool, seen: bool, kept: Kept, s: Store)
    requires FitLater(action, first, here, seen, s) && Serves(action, first, last, kept, seen)
    ensures Fit(action, last, here, s)
  {
    hide AgreeOnImpus, AgreeOnImpis, Covers;
    if action.PUT? && seen && first.refreshed {
      assert Written(last.associated, true) == Written(first.associated, true);
    }
  }

  /** Achieving it for a later form of the IRS serves the first one. */
  lemma ServesFirst(action: StoreAction, first: Irs, last: Irs, here: bool, seen: bool, kept: Kept, s: Store, t: Tables)
    requires FitLater(action, first, here, seen, s) && Serves(action, first, last, kept, seen)
    requires Achieved(action, last, Against(last, here, s), TablesOf(s), t)
    ensures Served(action, first, Resolved(first, here, seen, s), kept, TablesOf(s), t)
  {
    hide AgreeOnImpus, AgreeOnImpis, Ready, Abstract, Wanted, NewEntry, KeptByPut, Undeleted, Covers;
    if action.PUT? {
      NewEntryWanted(first, last, Against(last, here, s), Resolved(first, here, seen, s), kept);
    }
  }

  lemma NewEntryWanted(first: Irs, last: Irs, against: Option<Subscriber>, entry: Option<Subscriber>, kept: Kept)
    requires KeptByPut(first, last) && (entry == against || entry == None) && Undeleted(last, kept)
    ensures Wanted(first, entry, kept, NewEntry(last, against))
  {
  }

  /** What is to be kept stays undeleted, store after store. */
  lemma StillUndeleted(before: Irs, after: Irs, kept: Kept, s: Store)
    requires Undeleted(before, kept) && DropsLacking(before, after, Values(s.impus))
    requires NoneLacked(s, before.defaultImpu, kept) && after.refreshed == before.refreshed
    ensures Undeleted(after, kept)
  {
  }

  /** How the action ends on one store. */
  ghost function StatusOf(action: StoreAction, irs: Irs, here: bool, s: Store, now: int): (status: Status)
    requires ValidStore(s)
  {
    if action.PUT? then Put(irs, s, here, now).status else Delete(irs, s, [], here, now).status
  }

  method ActOnStore(action: StoreAction, irs: MemcachedIrs, store: ImpuStore, now: int) returns (status: Status)
    requires Quiet(store)
    modifies irs, store
    ensures Quiet(store) && irs.origin == old(irs.origin)
    ensures status == StatusOf(action, old(irs.View()), old(irs.origin) == store, old(store.View()), now)
    ensures old(Fit(action, irs.View(), irs.origin == store, store.View())) ==>
              && status == OK
              && Took(action, old(irs.View()), irs.View(), old(irs.origin) == store, old(store.View()),
                      TablesOf(store.View()))
  {
    hide Took, AgreeOnImpus, AgreeOnImpis, Put, Delete, Ready, Values;
    ghost var i0, s0, here := irs.View(), store.View(), irs.origin == store;
    DeleteCarries(i0, s0, here, now);
    if action.PUT? {
      status := PutIrsAction(irs, store, now);
    } else {
      status := DeleteIrsAction(irs, store, now);
    }
    if Fit(action, i0, here, s0) {
      FitAchieves(action, i0, here, s0, now);
    }
  }

  lemma FitAchieves(action: StoreAction, irs: Irs, here: bool, s: Store, now: int)
    requires ValidStore(s) && Fit(action, irs, here, s)
    ensures var r := if action.PUT? then Put(irs, s, here, now) else Delete(irs, s, [], here, now);
            r.status == OK && Took(action, irs, r.irs, here, s, Tables(r.impus, r.maps))
  {
    hide AgreeOnImpus, AgreeOnImpis, Put, Delete, Ready, NewEntry, DropsLacking, Against;
    if action.PUT? {
      PutActionRefines(irs, s, here, now);
    } else {
      DeleteActionRefines(irs, s, here, now);
      DeleteCarries(irs, s, here, now);
    }
  }

  // ------------------------------------------------------------------- all stores

  datatype Callback = PROGRESS | SUCCESS | FAILURE(status: Status)

  /** The two traces of callbacks a handler has to expect. */
  predicate CallbackProtocol(trace: seq<Callback>) {
    trace == [PROGRESS, SUCCESS] || (|trace| == 1 && trace[0].FAILURE?)
  }

  /** All stores, the local one first, and which of them the IRS was read from. */
  datatype Geo = Geo(stores: seq<Store>, heres: seq<bool>)

  ghost function GeoOf(origin: ImpuStore?, local: ImpuStore, remotes: seq<ImpuStore>): (g: Geo)
    reads local, remotes
    ensures |g.stores| == |g.heres| == |remotes| + 1
    ensures g.stores[0] == local.View() && g.heres[0] == (origin == local)
    ensures forall n :: 1 <= n < |g.stores| ==>
              g.stores[n] == remotes[n - 1].View() && g.heres[n] == (origin == remotes[n - 1])
  {
    Geo([local.View()] + seq(|remotes|, n requires 0 <= n < |remotes| reads remotes => remotes[n].View()),
        [origin == local] + seq(|remotes|, n requires 0 <= n < |remotes| => origin == remotes[n]))
  }

  /** One of the stores has a record under d. */
  ghost predicate SeenBy(d: string, stores: seq<Store>) {
    exists n :: 0 <= n < |stores| && d in stores[n].impus
  }

  /** The IRS fits every store in its turn. */
  ghost predicate FitsAll(action: StoreAction, irs: Irs, g: Geo) {
    && |g.stores| == |g.heres| > 0
    && Fit(action, irs, g.heres[0], g.stores[0])
    && forall n :: 1 <= n < |g.stores| ==>
         FitLater(action, irs, g.heres[n], SeenBy(irs.defaultImpu, g.stores[..n]), g.stores[n])
  }

  /** The end of the whole action on the n-th store. */
  ghost predicate ServedAt(action: StoreAction, irs: Irs, g: Geo, n: nat, after: Tables)
    requires n < |g.stores| == |g.heres|
  {
    Served(action, irs, Resolved(irs, g.heres[n], SeenBy(irs.defaultImpu, g.stores[..n]), g.stores[n]),
           Common(irs, g.stores), TablesOf(g.stores[n]), after)
  }

  /** And on all of them: in the first one as for a single store, in the others as the caller
      wanted, and with nothing lost there that all stores had. */
  ghost predicate ServedAll(action: StoreAction, irs: Irs, g: Geo, after: seq<Store>) {
    && |g.stores| == |g.heres| == |after| > 0
    && Achieved(action, irs, Against(irs, g.heres[0], g.stores[0]), TablesOf(g.stores[0]), TablesOf(after[0]))
    && forall n :: 1 <= n < |after| ==> ServedAt(action, irs, g, n, TablesOf(after[n]))
  }

  /** The IRS serves the stores from the n-th on. */
  ghost predicate ServesFrom(action: StoreAction, first: Irs, last: Irs, stores: seq<Store>, n: nat)
    requires n <= |stores|
  {
    Serves(action, first, last, Common(first, stores), SeenBy(first.defaultImpu, stores[..n]))
  }

  lemma CommonNotLacked(irs: Irs, stores: seq<Store>, n: nat)
    requires n < |stores|
    ensures NoneLacked(stores[n], irs.defaultImpu, Common(irs, stores)) && Undeleted(irs, Common(irs, stores))
  {
  }

  lemma SeenNext(d: string, stores: seq<Store>, n: nat)
    requires n < |stores|
    ensures SeenBy(d, stores[..n + 1]) <==> SeenBy(d, stores[..n]) || d in stores[n].impus
  {
    var before, after := stores[..n], stores[..n + 1];
    assert after[n] == stores[n] && forall m :: 0 <= m < n ==> after[m] == before[m];
  }

  /** After its turn on the n-th store the IRS serves the rest. */
  lemma ServesNext(action: StoreAction, first: Irs, last: Irs, next: Irs, here: bool,
                   stores: seq<Store>, n: nat, t: Tables)
    requires n < |stores| && ServesFrom(action, first, last, stores, n)
    requires Took(action, last, next, here, stores[n], t)
    ensures ServesFrom(action, first, next, stores, n + 1)
  {
    hide Common, SeenBy, DropsLacking, Undeleted, NoneLacked, Achieved, Against;
    CommonNotLacked(first, stores, n);
    SeenNext(first.defaultImpu, stores, n);
    if action.PUT? {
      StillUndeleted(last, next, Common(first, stores), stores[n]);
    }
  }

  /** After its turn on the local store. */
  lemma ServedFirst(action: StoreAction, irs: Irs, next: Irs, g: Geo, t: Tables)
    requires FitsAll(action, irs, g) && Took(action, irs, next, g.heres[0], g.stores[0], t)
    ensures ServesFrom(action, irs, next, g.stores, 1)
    ensures Achieved(action, irs, Against(irs, g.heres[0], g.stores[0]), TablesOf(g.stores[0]), t)
  {
    hide Common, Achieved, Against, DropsLacking, Fit, FitLater;
    CommonNotLacked(irs, g.stores, 0);
    ServesNext(action, irs, irs, next, g.heres[0], g.stores, 0, t);
  }

  /** One more store. */
  lemma ServedNext(action: StoreAction, first: Irs, last: Irs, next: Irs, g: Geo, n: nat, t: Tables)
    requires FitsAll(action, first, g) && 1 <= n < |g.stores| && ServesFrom(action, first, last, g.stores, n)
    ensures Fit(action, last, g.heres[n], g.stores[n])
    ensures Took(action, last, next, g.heres[n], g.stores[n], t) ==>
              ServedAt(action, first, g, n, t) && ServesFrom(action, first, next, g.stores, n + 1)
  {
    hide Fit, FitLater, Serves, Served, Resolved, Against, Common, SeenBy, Achieved, DropsLacking, Carried;
    var seen, kept := SeenBy(first.defaultImpu, g.stores[..n]), Common(first, g.stores);
    StillFits(action, first, last, g.heres[n], seen, kept, g.stores[n]);
    if Took(action, last, next, g.heres[n], g.stores[n], t) {
      ServesFirst(action, first, last, g.heres[n], seen, kept, g.stores[n], t);
      ServesNext(action, first, last, next, g.heres[n], g.stores, n, t);
    }
  }

  /** The remote stores are the ones of g, and the IRS is ready for them. */
  ghost predicate RemotesNext(action: StoreAction, i0: Irs, irs: MemcachedIrs, remotes: seq<ImpuStore>, g: Geo)
    reads irs, remotes
  {
    && |g.stores| == |g.heres| == |remotes| + 1
    && (forall n :: 1 <= n < |g.stores| ==>
          g.stores[n] == remotes[n - 1].View() && g.heres[n] == (irs.origin == remotes[n - 1]))
    && (FitsAll(action, i0, g) ==> ServesFrom(action, i0, irs.View(), g.stores, 1))
  }

  /** The remote stores, after the local one. */
  method PerformOnRemotes(action: StoreAction, irs: MemcachedIrs, remotes: seq<ImpuStore>, now: int,
                          ghost i0: Irs, ghost g: Geo)
    requires forall n :: 0 <= n < |remotes| ==> Quiet(remotes[n])
    requires forall m, n :: 0 <= m < n < |remotes| ==> remotes[m] != remotes[n]
    requires RemotesNext(action, i0, irs, remotes, g)
    modifies irs, remotes
    ensures forall n :: 0 <= n < |remotes| ==> Quiet(remotes[n])
    ensures FitsAll(action, i0, g) ==>
              forall n :: 0 <= n < |remotes| ==> ServedAt(action, i0, g, n + 1, TablesOf(remotes[n].View()))
  {
    hide FitsAll, Fit, ServesFrom, ServedAt, Took, TablesOf, ValidStore;
    for k := 0 to |remotes|
      invariant irs.origin == old(irs.origin) && forall n :: 0 <= n < |remotes| ==> Quiet(remotes[n])
      invariant forall n :: k < n < |g.stores| ==> g.stores[n] == remotes[n - 1].View()
      invariant FitsAll(action, i0, g) ==>
        && ServesFrom(action, i0, irs.View(), g.stores, k + 1)
        && forall n :: 0 <= n < k ==> ServedAt(action, i0, g, n + 1, TablesOf(remotes[n].View()))
    {
      ghost var i1 := irs.View();
      var _ := ActOnStore(action, irs, remotes[k], now);
      if FitsAll(action, i0, g) {
        ServedNext(action, i0, i1, irs.View(), g, k + 1, TablesOf(remotes[k].View()));
      }
    }
  }

  lemma FirstFits(action: StoreAction, irs: Irs, g: Geo)
    requires FitsAll(action, irs, g)
    ensures Fit(action, irs, g.heres[0], g.stores[0])
  {
  }

  /** `perform`: the local store first; the remote ones only if that went well, and
      whatever becomes of them the result is the local one.  If the IRS fits every store,
      the action achieves its end in all of them, however much they differ. */
  method Perform(action: StoreAction, irs: MemcachedIrs, local: ImpuStore, remotes: seq<ImpuStore>, now: int)
    returns (status: Status, trace: seq<Callback>)
    requires Quiet(local) && forall n :: 0 <= n < |remotes| ==> Quiet(remotes[n])
    requires local !in remotes && forall m, n :: 0 <= m < n < |remotes| ==> remotes[m] != remotes[n]
    modifies irs, local, remotes
    ensures trace == if status == OK then [PROGRESS] else []
    ensures status == StatusOf(action, old(irs.View()), old(irs.origin) == local, old(local.View()), now)
    ensures status != OK ==> forall n :: 0 <= n < |remotes| ==> remotes[n].View() == old(remotes[n].View())
    ensures Quiet(local) && forall n :: 0 <= n < |remotes| ==> Quiet(remotes[n])
    ensures old(Fit(action, irs.View(), irs.origin == local, local.View())) ==> status == OK
    ensures old(FitsAll(action, irs.View(), GeoOf(irs.origin, local, remotes))) ==>
              && status == OK
              && ServedAll(action, old(irs.View()), old(GeoOf(irs.origin, local, remotes)),
                           GeoOf(irs.origin, local, remotes).stores)
  {
    hide Fit, FitLater, FitsAll, ServesFrom, ServedAt, Took, Achieved, Against, TablesOf, ValidStore, GeoOf;
    ghost var i0, g := irs.View(), GeoOf(irs.origin, local, remotes);
    trace := [];
    status := ActOnStore(action, irs, local, now);
    if FitsAll(action, i0, g) {
      FirstFits(action, i0, g);
      ServedFirst(action, i0, irs.View(), g, TablesOf(local.View()));
    }
    if status == OK {
      trace := [PROGRESS];
      PerformOnRemotes(action, irs, remotes, now, i0, g);
    }
    ghost var after := GeoOf(irs.origin, local, remotes).stores;
    if FitsAll(action, i0, g) {
      forall n | 1 <= n < |after| ensures ServedAt(action, i0, g, n, TablesOf(after[n])) {
        assert after[n] == remotes[n - 1].View();
      }
    }
  }

  /** What the cache processor makes of a status: it ends the trace. */
  function Finished(status: Status, trace: seq<Callback>): (r: seq<Callback>) {
    trace + [if status == OK then SUCCESS else FAILURE(status)]
  }

  /** Skipping the put of an IRS that nothing was done to leaves the entry that it asks for. */
  lemma SkippedIsAchieved(irs: Irs, here: bool, s: Store)
    requires Fit(PUT, irs, here, s) && !HasChanged(irs) && Against(irs, here, s).Some?
    ensures Achieved(PUT, irs, Against(irs, here, s), TablesOf(s), TablesOf(s))
  {
    hide AgreeOnImpus, AgreeOnImpis, Ready;
    var entry := Against(irs, here, s).value;
    assert NewEntry(irs, Some(entry)) == entry;
  }

  /** `put_implicit_registration_set` and `delete_implicit_registration_set`.  A new IRS, a
      refreshed one, and one that the caller has set or edited anything of, is put in all stores
      if it fits them; any other one is not, and the local entry is what it asks for in either
      case.  A stored IRS is deleted from all stores; one never stored touches nothing. */
  method PutOrDelete(action: StoreAction, irs: MemcachedIrs, local: ImpuStore, remotes: seq<ImpuStore>, now: int)
    returns (trace: seq<Callback>)
    requires Quiet(local) && forall n :: 0 <= n < |remotes| ==> Quiet(remotes[n])
    requires local !in remotes && forall m, n :: 0 <= m < n < |remotes| ==> remotes[m] != remotes[n]
    modifies irs, local, remotes
    ensures CallbackProtocol(trace)
    ensures var edited := old(|| !irs.existing || irs.refreshed || irs.stateSet || irs.xmlSet || irs.chargingSet
                              || (exists i :: i in irs.impis && irs.impis[i] != UNCHANGED)
                              || (exists a :: a in irs.associated && irs.associated[a] != UNCHANGED));
            if if action.PUT? then edited else old(irs.existing) then
              old(FitsAll(action, irs.View(), GeoOf(irs.origin, local, remotes))) ==>
                && trace == [PROGRESS, SUCCESS]
                && ServedAll(action, old(irs.View()), old(GeoOf(irs.origin, local, remotes)),
                             GeoOf(irs.origin, local, remotes).stores)
            else
              && trace == [PROGRESS, SUCCESS] && irs.View() == old(irs.View())
              && unchanged(local) && forall n :: 0 <= n < |remotes| ==> unchanged(remotes[n])
    ensures action.PUT? && old(FitsAll(PUT, irs.View(), GeoOf(irs.origin, local, remotes)) &&
                               Against(irs.View(), irs.origin == local, local.View()).Some?) ==>
              Achieved(PUT, old(irs.View()), old(Against(irs.View(), irs.origin == local, local.View())),
                       old(TablesOf(local.View())), TablesOf(local.View()))
    ensures action.DELETE? ==> trace == [PROGRESS, SUCCESS]
    ensures trace != [PROGRESS, SUCCESS] ==>
              && trace == [FAILURE(StatusOf(action, old(irs.View()), old(irs.origin) == local, old(local.View()), now))]
              && forall n :: 0 <= n < |remotes| ==> remotes[n].View() == old(remotes[n].View())
  {
    DeleteSucceeds(irs.View(), irs.origin == local, local.View(), now);
    hide FitsAll, ServedAll, GeoOf, Achieved, Against, TablesOf, StatusOf, HasChanged;
    var status := OK;
    trace := [];
    ChangedMeaning(irs.View());
    if if action.PUT? then HasChanged(irs.View()) else irs.existing {
      ghost var i0, g := irs.View(), GeoOf(irs.origin, local, remotes);
      status, trace := Perform(action, irs, local, remotes, now);
      if ServedAll(action, i0, g, GeoOf(irs.origin, local, remotes).stores) {
        ServedLocally(action, i0, g, GeoOf(irs.origin, local, remotes).stores);
      }
    } else {
      if action.PUT? && FitsAll(PUT, irs.View(), GeoOf(irs.origin, local, remotes)) {
        FirstFits(PUT, irs.View(), GeoOf(irs.origin, local, remotes));
        if Against(irs.View(), irs.origin == local, local.View()).Some? {
          SkippedIsAchieved(irs.View(), irs.origin == local, local.View());
        }
      }
      trace := [PROGRESS];
    }
    trace := Finished(status, trace);
  }

  lemma DeleteSucceeds(irs: Irs, here: bool, s: Store, now: int)
    requires ValidStore(s)
    ensures StatusOf(DELETE, irs, here, s, now) == OK
  {
    hide Delete;
    DeleteCarries(irs, s, here, now);
  }

  lemma ServedLocally(action: StoreAction, irs: Irs, g: Geo, after: seq<Store>)
    requires ServedAll(action, irs, g, after)
    ensures Achieved(action, irs, Against(irs, g.heres[0], g.stores[0]), TablesOf(g.stores[0]), TablesOf(after[0]))
  {
  }

  // --------------------------------------------------------- a pushed subscription

  /** A subscription on one store; if it is of one IRS, that is put there. */
  method SaveOnStore(irss: seq<MemcachedIrs>, store: ImpuStore, now: int)
    requires Quiet(store)
    requires forall m, n :: 0 <= m < n < |irss| ==> irss[m] != irss[n]
    modifies irss, store
    ensures Quiet(store) && (irss == [] ==> store.View() == old(store.View()))
    ensures |irss| == 1 ==>
              && irss[0].origin == old(irss[0].origin)
              && (old(Fit(PUT, irss[0].View(), irss[0].origin == store, store.View())) ==>
                    Took(PUT, old(irss[0].View()), irss[0].View(), old(irss[0].origin) == store, old(store.View()),
                         TablesOf(store.View())))
  {
    hide Took, Put, AgreeOnImpus, AgreeOnImpis, Ready, Values;
    ghost var s := store.View();
    var _, steps := PutImsSubAction(irss, store, now);
    if |irss| == 1 && old(Fit(PUT, irss[0].View(), irss[0].origin == store, store.View())) {
      FitAchieves(PUT, old(irss[0].View()), old(irss[0].origin) == store, s, now);
    }
  }

  method SaveOnRemotes(irss: seq<MemcachedIrs>, remotes: seq<ImpuStore>, now: int, ghost i0: Irs, ghost g: Geo)
    requires forall n :: 0 <= n < |remotes| ==> Quiet(remotes[n])
    requires forall m, n :: 0 <= m < n < |irss| ==> irss[m] != irss[n]
    requires forall m, n :: 0 <= m < n < |remotes| ==> remotes[m] != remotes[n]
    requires |irss| == 1 ==> RemotesNext(PUT, i0, irss[0], remotes, g)
    modifies irss, remotes
    ensures forall n :: 0 <= n < |remotes| ==> Quiet(remotes[n])
    ensures irss == [] ==> forall n :: 0 <= n < |remotes| ==> remotes[n].View() == old(remotes[n].View())
    ensures |irss| == 1 && FitsAll(PUT, i0, g) ==>
              forall n :: 0 <= n < |remotes| ==> ServedAt(PUT, i0, g, n + 1, TablesOf(remotes[n].View()))
  {
    hide FitsAll, Fit, ServesFrom, ServedAt, Took, TablesOf, ValidStore;
    for k := 0 to |remotes|
      invariant forall n :: 0 <= n < |remotes| ==> Quiet(remotes[n])
      invariant irss == [] ==> forall n :: 0 <= n < |remotes| ==> remotes[n].View() == old(remotes[n].View())
      invariant |irss| == 1 ==>
        irss[0].origin == old(irss[0].origin) && forall n :: k < n < |g.stores| ==> g.stores[n] == remotes[n - 1].View()
      invariant |irss| == 1 && FitsAll(PUT, i0, g) ==>
        && ServesFrom(PUT, i0, irss[0].View(), g.stores, k + 1)
        && forall n :: 0 <= n < k ==> ServedAt(PUT, i0, g, n + 1, TablesOf(remotes[n].View()))
    {
      ghost var i1 := if |irss| == 1 then irss[0].View() else i0;
      SaveOnStore(irss, remotes[k], now);
      if |irss| == 1 && FitsAll(PUT, i0, g) {
        ServedNext(PUT, i0, i1, irss[0].View(), g, k + 1, TablesOf(remotes[k].View()));
      }
    }
  }

  /** `put_ims_subscription`: it always counts as success.  The subscriptions that are looked up
      have at most one IRS; if that fits every store, it is put in all of them. */
  method PutImsSubscription(irss: seq<MemcachedIrs>, local: ImpuStore, remotes: seq<ImpuStore>, now: int)
    returns (trace: seq<Callback>)
    requires Quiet(local) && forall n :: 0 <= n < |remotes| ==> Quiet(remotes[n])
    requires local !in remotes && forall m, n :: 0 <= m < n < |remotes| ==> remotes[m] != remotes[n]
    requires forall m, n :: 0 <= m < n < |irss| ==> irss[m] != irss[n]
    modifies irss, local, remotes
    ensures trace == [PROGRESS, SUCCESS]
    ensures irss == [] ==> GeoOf(null, local, remotes) == old(GeoOf(null, local, remotes))
    ensures |irss| == 1 && old(FitsAll(PUT, irss[0].View(), GeoOf(irss[0].origin, local, remotes))) ==>
              ServedAll(PUT, old(irss[0].View()), old(GeoOf(irss[0].origin, local, remotes)),
                        GeoOf(irss[0].origin, local, remotes).stores)
  {
    hide Fit, FitLater, FitsAll, ServesFrom, ServedAt, Took, Achieved, Against, TablesOf, ValidStore;
    ghost var i0 := if |irss| == 1 then irss[0].View() else Blank();
    ghost var g := GeoOf(if |irss| == 1 then irss[0].origin else null, local, remotes);
    SaveOnStore(irss, local, now);
    if |irss| == 1 && FitsAll(PUT, i0, g) {
      FirstFits(PUT, i0, g);
      ServedFirst(PUT, i0, irss[0].View(), g, TablesOf(local.View()));
    }
    trace := [PROGRESS];
    SaveOnRemotes(irss, remotes, now, i0, g);
    ghost var after := GeoOf(if |irss| == 1 then irss[0].origin else null, local, remotes).stores;
    if |irss| == 1 && FitsAll(PUT, i0, g) {
      forall n | 1 <= n < |after| ensures ServedAt(PUT, i0, g, n, TablesOf(after[n])) {
        assert after[n] == remotes[n - 1].View();
      }
    }
    trace := Finished(OK, trace);
  }

  // ------------------------------------------------------ several IRSs, all stores

  /** Deleting the IRSs from one store spoils nothing for the next. */
  lemma StillAllDeletable(before: seq<Irs>, after: seq<Irs>, origins: seq<ImpuStore?>, store: ImpuStore, s: Store)
    requires AllCarried(before, after) && |origins| == |before|
    ensures AllDeletable(before, origins, 0, store, s) ==> AllDeletable(after, origins, 0, store, s)
  {
    hide Consistent;
    forall n | 0 <= n < |before| && Deletable(before[n], origins[n] == store, s)
      ensures Deletable(after[n], origins[n] == store, s)
    {
      assert CarriedByDelete(before[n], after[n]);
    }
  }

  /** Removing them as they are by then is removing them as they were. */
  lemma RemovedFirst(first: seq<Irs>, last: seq<Irs>, next: seq<Irs>, before: Impus, impus: Impus, maps: Maps)
    requires AllCarried(first, last) && AllCarried(last, next)
    ensures Removed(last, before, impus, maps) ==> Removed(first, before, impus, maps)
    ensures AllCarried(first, next)
  {
    hide Consistent, Abstract;
    forall n | 0 <= n < |first|
      ensures CarriedByDelete(first[n], next[n])
      ensures last[n].existing == first[n].existing && last[n].defaultImpu == first[n].defaultImpu
    {
      assert CarriedByDelete(first[n], last[n]) && CarriedByDelete(last[n], next[n]);
    }
    assert ExistingDefaults(last) == ExistingDefaults(first);
  }

  /** The remote stores, after the local one. */
  method DeleteFromRemotes(irss: seq<MemcachedIrs>, remotes: seq<ImpuStore>, ghost i0: seq<Irs>, now: int)
    requires forall n :: 0 <= n < |remotes| ==> Quiet(remotes[n])
    requires forall m, n :: 0 <= m < n < |remotes| ==> remotes[m] != remotes[n]
    requires forall m, n :: 0 <= m < n < |irss| ==> irss[m] != irss[n]
    requires |i0| == |irss| && AllCarried(i0, Views(irss))
    modifies irss, remotes
    ensures forall n :: 0 <= n < |remotes| ==> Quiet(remotes[n])
    ensures old(forall n :: 0 <= n < |remotes| ==>
                  AllDeletable(i0, Origins(irss), 0, remotes[n], remotes[n].View())) ==>
              forall n :: 0 <= n < |remotes| ==>
                Removed(i0, old(Values(remotes[n].impus)), Values(remotes[n].impus), Values(remotes[n].mappings))
  {
    hide AllDeletable, Removed, AllCarried, ValidStore, Values, Views, Origins;
    ghost var origins := Origins(irss);
    ghost var fits := forall n :: 0 <= n < |remotes| ==> AllDeletable(i0, origins, 0, remotes[n], remotes[n].View());
    for k := 0 to |remotes|
      invariant forall n :: 0 <= n < |remotes| ==> Quiet(remotes[n])
      invariant forall n :: k <= n < |remotes| ==> remotes[n].View() == old(remotes[n].View())
      invariant AllCarried(i0, Views(irss)) && Origins(irss) == origins
      invariant fits ==> forall n :: 0 <= n < k ==>
        Removed(i0, old(Values(remotes[n].impus)), Values(remotes[n].impus), Values(remotes[n].mappings))
    {
      ghost var i1 := Views(irss);
      StillAllDeletable(i0, i1, origins, remotes[k], remotes[k].View());
      var _ := DeleteIrssAction(irss, remotes[k], now);
      RemovedFirst(i0, i1, Views(irss), old(Values(remotes[k].impus)), Values(remotes[k].impus),
          Values(remotes[k].mappings));
    }
  }

  /** `delete_implicit_registration_sets`: the IRSs that were stored are removed from the local
      store and then from every remote one, and nothing else is; with one call of progress. */
  method DeleteImplicitRegistrationSets(irss: seq<MemcachedIrs>, local: ImpuStore, remotes: seq<ImpuStore>, now: int)
    returns (trace: seq<Callback>)
    requires Quiet(local) && forall n :: 0 <= n < |remotes| ==> Quiet(remotes[n])
    requires local !in remotes && forall m, n :: 0 <= m < n < |remotes| ==> remotes[m] != remotes[n]
    requires forall m, n :: 0 <= m < n < |irss| ==> irss[m] != irss[n]
    modifies irss, local, remotes
    ensures trace == [PROGRESS, SUCCESS]
    ensures old(AllDeletable(Views(irss), Origins(irss), 0, local, local.View()) &&
                forall n :: 0 <= n < |remotes| ==>
                  AllDeletable(Views(irss), Origins(irss), 0, remotes[n], remotes[n].View())) ==>
              && Removed(old(Views(irss)), old(Values(local.impus)), Values(local.impus), Values(local.mappings))
              && forall n :: 0 <= n < |remotes| ==>
                   Removed(old(Views(irss)), old(Values(remotes[n].impus)), Values(remotes[n].impus),
                       Values(remotes[n].mappings))
  {
    hide AllDeletable, Removed, AllCarried, ValidStore, Values, Views, Origins;
    ghost var i0 := Views(irss);
    trace := [];
    var status := DeleteIrssAction(irss, local, now);
    if status == OK {
      trace := [PROGRESS];
      DeleteFromRemotes(irss, remotes, i0, now);
    }
    trace := Finished(status, trace);
  }
}
