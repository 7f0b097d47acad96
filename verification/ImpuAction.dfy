/** Writing or deleting the default record of an IRS: the compare-and-swap retry loop,
    against any interleaving with other Homesteads. */
module ImpuAction {
  import opened Types
  import opened Stores
  import opened IrsModel

  datatype Action = SET | DELETE

  /** Where some rounds of the loop lead: the IRS, the store, the turns still to come, the
      status, how many rounds it took, the turns that passed and the records merged. */
  datatype Outcome = Outcome(irs: Irs, store: Store, turns: seq<Turn>, status: Status,
                             rounds: nat, used: seq<Turn>, snaps: seq<Record>)

  function Next(turns: seq<Turn>): (r: seq<Turn>)
    ensures |r| <= 1 && r <= turns
  {
    if turns == [] then [] else turns[..1]
  }

  function Rest(turns: seq<Turn>): (r: seq<Turn>)
    ensures turns == Next(turns) + r
  {
    if turns == [] then [] else turns[1..]
  }

  predicate Fault(turns: seq<Turn>) {
    turns != [] && turns[0].fault
  }

  /** One store access that performs the action. */
  function Act(action: Action, irs: Irs, s: Store, turns: seq<Turn>, cas: nat, now: int): (r: Outcome) {
    var t, d := AfterTurns(s, Next(turns)), irs.defaultImpu;
    var status := if Fault(turns) then ERROR
                  else if action.DELETE? || CasMatches(t.impus, d, cas) then OK else DATA_CONTENTION;
    Outcome(irs,
            if status != OK then t else if action.DELETE? then DropImpu(t, d) else PutImpu(t, d, AsRecord(irs, now)),
            Rest(turns), status, 1, Next(turns), [])
  }

  /** A round that starts by reading the store's view of the record. */
  function Reread(action: Action, irs: Irs, s: Store, turns: seq<Turn>, now: int): (r: Outcome) {
    var t, d, rest, passed := AfterTurns(s, Next(turns)), irs.defaultImpu, Rest(turns), Next(turns);
    if Fault(turns) || d !in t.impus then
      if action.DELETE? then Outcome(irs, t, rest, OK, 1, passed, [])
      else Before(passed, Act(action, irs, t, rest, 0, now))
    else if t.impus[d].value.Default? then
      var rec := t.impus[d].value;
      Before(passed, Act(action, MergeRecord(irs, rec, now), t, rest, t.impus[d].cas, now)).(snaps := [rec])
    else if irs.refreshed then
      Before(passed, Act(action, irs, t, rest, t.impus[d].cas, now))
    else
      Outcome(irs, t, rest, ERROR, 1, passed, [])
  }

  function Before(passed: seq<Turn>, r: Outcome): (q: Outcome) {
    r.(used := passed + r.used)
  }

  /** Rounds that read first, until one of them is not met with contention. */
  function Retry(action: Action, irs: Irs, s: Store, turns: seq<Turn>, now: int): (r: Outcome)
    requires ValidStore(s)
    decreases Disturbances(turns, irs.defaultImpu)
  {
    var r := Reread(action, irs, s, turns, now);
    if r.status != DATA_CONTENTION then r
    else
      RereadContended(action, irs, s, turns, now);
      Then(r, Retry(action, r.irs, r.store, r.turns, now))
  }

  function Then(r: Outcome, more: Outcome): (q: Outcome) {
    more.(rounds := r.rounds + more.rounds, used := r.used + more.used, snaps := r.snaps + more.snaps)
  }

  /** The whole loop; `here` says that the IRS was read from this store. */
  function Perform(action: Action, irs: Irs, s: Store, turns: seq<Turn>, here: bool, now: int): (r: Outcome)
    requires ValidStore(s)
  {
    if !here then Retry(action, irs, s, turns, now)
    else
      var r := Act(action, irs, s, turns, irs.cas, now);
      if r.status != DATA_CONTENTION then r
      else
        TurnEffect(s, Next(turns), irs.defaultImpu);
        Then(r, Retry(action, r.irs, r.store, r.turns, now))
  }

  /** `perform_irs_impu_action` does just that, and always ends. */
  method PerformIrsImpuAction(action: Action, irs: MemcachedIrs, store: ImpuStore, now: int)
    returns (status: Status)
    requires ValidStore(store.View())
    modifies irs, store
    ensures var r := Perform(action, old(irs.View()), old(store.View()), old(store.turns),
                             old(irs.origin) == store, now);
            && irs.View() == r.irs && store.View() == r.store && store.turns == r.turns && status == r.status
    ensures irs.origin == old(irs.origin)
  {
    var d := irs.defaultImpu;
    ghost var want := Perform(action, irs.View(), store.View(), store.turns, irs.origin == store, now);
    TurnEffect(store.View(), Next(store.turns), d);
    status := DATA_CONTENTION;
    if irs.origin == store {
      status := ActOn(action, irs, store, irs.cas, now);
    }
    while status == DATA_CONTENTION
      invariant irs.origin == old(irs.origin)
      invariant status == DATA_CONTENTION ==>
        && ValidStore(store.View())
        && Same(Retry(action, irs.View(), store.View(), store.turns, now), want)
      invariant status != DATA_CONTENTION ==>
        Same(Outcome(irs.View(), store.View(), store.turns, status, 0, [], []), want)
      decreases status == DATA_CONTENTION, Disturbances(store.turns, irs.defaultImpu)
    {
      RereadContended(action, irs.View(), store.View(), store.turns, now);
      status := RereadOn(action, irs, store, now);
    }
  }

  /** Equal but for the history. */
  predicate Same(a: Outcome, b: Outcome) {
    a.irs == b.irs && a.store == b.store && a.turns == b.turns && a.status == b.status
  }

  method ActOn(action: Action, irs: MemcachedIrs, store: ImpuStore, cas: nat, now: int) returns (status: Status)
    modifies store
    ensures var r := Act(action, irs.View(), old(store.View()), old(store.turns), cas, now);
            store.View() == r.store && store.turns == r.turns && status == r.status
  {
    if action.SET? {
      status := store.SetImpu(irs.defaultImpu, AsRecord(irs.View(), now), cas);
    } else {
      status := store.DeleteImpu(irs.defaultImpu);
    }
  }

  method RereadOn(action: Action, irs: MemcachedIrs, store: ImpuStore, now: int) returns (status: Status)
    modifies irs, store
    ensures var r := Reread(action, old(irs.View()), old(store.View()), old(store.turns), now);
            && irs.View() == r.irs && store.View() == r.store && store.turns == r.turns && status == r.status
    ensures irs.origin == old(irs.origin)
  {
    var _, found := store.GetImpu(irs.defaultImpu);
    if found.None? {
      if action.DELETE? {
        status := OK;
      } else {
        status := ActOn(action, irs, store, 0, now);
      }
    } else if found.value.value.Default? {
      irs.UpdateFromImpuFromStore(found.value.value, now);
      status := ActOn(action, irs, store, found.value.cas, now);
    } else if irs.refreshed {
      status := ActOn(action, irs, store, found.value.cas, now);
    } else {
      status := ERROR;
    }
  }

  // ------------------------------------------------------------ what a round does

  lemma TurnEffect(s: Store, used: seq<Turn>, k: string)
    requires ValidStore(s) && |used| <= 1
    ensures ValidStore(AfterTurns(s, used))
    ensures Disturbances(used, k) == 0 ==>
              var t := AfterTurns(s, used);
              && (k in t.impus <==> k in s.impus) && (k in t.impus ==> t.impus[k] == s.impus[k])
              && (used == [] || !used[0].fault)
  {
    if used != [] {
      assert used[1..] == [];
      assert AfterTurns(s, used) == ForeignWrites(s, used[0].writes);
      ForeignWritesFresh(s, used[0].writes, k);
    }
  }

  /** A write is only met with contention if its CAS was wrong already, or the turn it
      waited for disturbed it. */
  lemma ActContended(action: Action, irs: Irs, s: Store, turns: seq<Turn>, cas: nat, now: int)
    requires ValidStore(s)
    ensures var r := Act(action, irs, s, turns, cas, now);
            && turns == r.used + r.turns && r.irs == irs && r.rounds == 1 && r.snaps == []
            && ValidStore(AfterTurns(s, r.used))
            && (r.status != OK ==> r.store == AfterTurns(s, r.used))
            && (r.status == DATA_CONTENTION ==>
                  action.SET? && (CasMatches(s.impus, irs.defaultImpu, cas) ==>
                      Disturbances(r.used, irs.defaultImpu) > 0))
  {
    TurnEffect(s, Next(turns), irs.defaultImpu);
  }

  /** What a round that reads first does before it writes. */
  ghost predicate ReadsThenActs(action: Action, irs: Irs, s: Store, turns: seq<Turn>, now: int,
                                irs': Irs, cas: nat, r: Outcome)
  {
    var t, d := AfterTurns(s, Next(turns)), irs.defaultImpu;
    && irs'.defaultImpu == d
    && r == Before(Next(turns), Act(action, irs', t, Rest(turns), cas, now)).(snaps := r.snaps)
    && (CasMatches(t.impus, d, cas) || Fault(turns))
  }

  /** A round that read first only meets contention if one of the two turns it waited
      for disturbed it; and then the store is still as the others left it. */
  lemma RereadContended(action: Action, irs: Irs, s: Store, turns: seq<Turn>, now: int)
    requires ValidStore(s)
    ensures var r := Reread(action, irs, s, turns, now);
            && turns == r.used + r.turns && r.irs.defaultImpu == irs.defaultImpu && r.rounds == 1
            && ValidStore(AfterTurns(s, r.used))
            && (r.status != OK ==> r.store == AfterTurns(s, r.used))
            && (r.status == DATA_CONTENTION ==>
                  && action.SET? && Disturbances(r.used, irs.defaultImpu) > 0
                  && Disturbances(r.turns, irs.defaultImpu) < Disturbances(turns, irs.defaultImpu))
  {
    var t, d, r := AfterTurns(s, Next(turns)), irs.defaultImpu, Reread(action, irs, s, turns, now);
    TurnEffect(s, Next(turns), d);
    if Fault(turns) || d !in t.impus {
      if action.SET? {
        ReadThenAct(action, irs, s, turns, now, irs, 0, r);
      }
    } else if t.impus[d].value.Default? {
      ReadThenAct(action, irs, s, turns, now, MergeRecord(irs, t.impus[d].value, now), t.impus[d].cas, r);
    } else if irs.refreshed {
      ReadThenAct(action, irs, s, turns, now, irs, t.impus[d].cas, r);
    }
  }

  lemma ReadThenAct(action: Action, irs: Irs, s: Store, turns: seq<Turn>, now: int,
                    irs': Irs, cas: nat, r: Outcome)
    requires ValidStore(s) && ReadsThenActs(action, irs, s, turns, now, irs', cas, r)
    ensures turns == r.used + r.turns && ValidStore(AfterTurns(s, r.used))
    ensures r.status != OK ==> r.store == AfterTurns(s, r.used)
    ensures r.status == DATA_CONTENTION ==>
              && action.SET? && Disturbances(r.used, irs.defaultImpu) > 0
              && Disturbances(r.turns, irs.defaultImpu) < Disturbances(turns, irs.defaultImpu)
  {
    var t, d, passed := AfterTurns(s, Next(turns)), irs.defaultImpu, Next(turns);
    TurnEffect(s, passed, d);
    ActContended(action, irs', t, Rest(turns), cas, now);
    var act := Act(action, irs', t, Rest(turns), cas, now);
    AfterTurnsConcat(s, passed, act.used);
    DisturbancesConcat(passed, act.used, d);
    DisturbancesConcat(r.used, r.turns, d);
  }
}
