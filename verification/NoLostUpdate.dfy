/** What the retry loop guarantees over every interleaving with other writers. */
module NoLostUpdate {
  import opened Types
  import opened StateMap
  import opened Stores
  import opened IrsModel
  import opened ImpuAction
  import Identities

  /** What is found under the default IMPU is the record merged last; or else a pointer,
      that only a refreshed IRS may overwrite. */
  ghost predicate Known(s: Store, irs: Irs, snaps: seq<Record>) {
    var d := irs.defaultImpu;
    d in s.impus ==>
      if s.impus[d].value.Default? then snaps != [] && snaps[|snaps| - 1] == s.impus[d].value
      else irs.refreshed
  }

  /** Rounds that end with `r` wrote nothing but this IRS, over what the turns left. */
  ghost predicate WroteOver(r: Outcome, s: Store, now: int) {
    var m := AfterTurns(s, r.used);
    if r.status == OK then r.store == PutImpu(m, r.irs.defaultImpu, AsRecord(r.irs, now)) else r.store == m
  }

  lemma ActWrites(irs: Irs, s: Store, turns: seq<Turn>, cas: nat, now: int)
    requires ValidStore(s)
    ensures var r := Act(SET, irs, s, turns, cas, now);
            && WroteOver(r, s, now)
            && (r.status == OK ==> CasMatches(AfterTurns(s, r.used).impus, irs.defaultImpu, cas))
  {
  }

  /** The same, one turn later: what is found under that CAS is what was read. */
  lemma ActAfterRead(irs: Irs, s: Store, turns: seq<Turn>, cas: nat, now: int, passed: seq<Turn>)
    requires ValidStore(s) && |passed| <= 1
    requires cas <= AfterTurns(s, passed).lastCas
    ensures var t, d := AfterTurns(s, passed), irs.defaultImpu;
            var r := Before(passed, Act(SET, irs, t, turns, cas, now));
            var m := AfterTurns(s, r.used);
            && WroteOver(r, s, now)
            && (r.status == OK && d in m.impus ==> cas != 0 && d in t.impus && m.impus[d] == t.impus[d])
  {
    var t, d := AfterTurns(s, passed), irs.defaultImpu;
    TurnEffect(s, passed, d);
    var act := Act(SET, irs, t, turns, cas, now);
    ActWrites(irs, t, turns, cas, now);
    AfterTurnsConcat(s, passed, act.used);
    AfterTurnsFresh(t, act.used, d);
  }

  lemma RereadWrites(irs: Irs, s: Store, turns: seq<Turn>, now: int)
    requires ValidStore(s)
    ensures var r := Reread(SET, irs, s, turns, now);
            && WroteOver(r, s, now)
            && (forall x :: x in r.snaps ==> x.Default?) && r.irs == MergeRecords(irs, r.snaps, now)
            && r.irs.refreshed == irs.refreshed
            && (r.status == OK ==> Known(AfterTurns(s, r.used), irs, r.snaps))
  {
    var t, d, rest, passed := AfterTurns(s, Next(turns)), irs.defaultImpu, Rest(turns), Next(turns);
    TurnEffect(s, passed, d);
    if Fault(turns) || d !in t.impus {
      ActAfterRead(irs, s, rest, 0, now, passed);
    } else if t.impus[d].value.Default? {
      RereadMerges(irs, s, turns, now);
    } else if irs.refreshed {
      ActAfterRead(irs, s, rest, t.impus[d].cas, now, passed);
    }
  }

  lemma RereadMerges(irs: Irs, s: Store, turns: seq<Turn>, now: int)
    requires ValidStore(s) && !Fault(turns)
    requires var t := AfterTurns(s, Next(turns)); irs.defaultImpu in t.impus && t.impus[irs.defaultImpu].value.Default?
    ensures var r := Reread(SET, irs, s, turns, now);
            && WroteOver(r, s, now)
            && |r.snaps| == 1 && r.snaps[0].Default? && r.irs == MergeRecords(irs, r.snaps, now)
            && r.irs.refreshed == irs.refreshed
            && (r.status == OK ==> Known(AfterTurns(s, r.used), irs, r.snaps))
  {
    var t, d, rest, passed := AfterTurns(s, Next(turns)), irs.defaultImpu, Rest(turns), Next(turns);
    TurnEffect(s, passed, d);
    var rec := t.impus[d].value;
    assert [rec][..0] == [];
    var merged := MergeRecord(irs, rec, now);
    ActAfterRead(merged, s, rest, t.impus[d].cas, now, passed);
    var r := Before(passed, Act(SET, merged, t, rest, t.impus[d].cas, now));
    assert Reread(SET, irs, s, turns, now) == r.(snaps := [rec]);
  }

  lemma {:induction false} MergeRecordsConcat(irs: Irs, a: seq<Record>, b: seq<Record>, now: int)
    requires (forall r :: r in a ==> r.Default?) && (forall r :: r in b ==> r.Default?)
    ensures MergeRecords(irs, a + b, now) == MergeRecords(MergeRecords(irs, a, now), b, now)
    decreases |b|
  {
    if b == [] {
      assert a + b == a;
    } else {
      var c := b[..|b| - 1];
      assert (a + b)[..|a + b| - 1] == a + c;
      MergeRecordsConcat(irs, a, c, now);
    }
  }

  /** Everything the retry loop did: one write, over the record it merged last. */
  ghost predicate RetriedSoundly(irs: Irs, s: Store, turns: seq<Turn>, now: int, r: Outcome) {
    && turns == r.used + r.turns
    && r.status != DATA_CONTENTION
    && r.irs.defaultImpu == irs.defaultImpu && r.irs.refreshed == irs.refreshed
    && (forall x :: x in r.snaps ==> x.Default?) && r.irs == MergeRecords(irs, r.snaps, now)
    && WroteOver(r, s, now)
    && (r.status == OK ==> Known(AfterTurns(s, r.used), irs, r.snaps))
  }

  lemma {:induction false} RetrySound(irs: Irs, s: Store, turns: seq<Turn>, now: int)
    requires ValidStore(s)
    ensures RetriedSoundly(irs, s, turns, now, Retry(SET, irs, s, turns, now))
    decreases Disturbances(turns, irs.defaultImpu)
  {
    var r := Reread(SET, irs, s, turns, now);
    RereadContended(SET, irs, s, turns, now);
    RereadWrites(irs, s, turns, now);
    if r.status == DATA_CONTENTION {
      RetrySound(r.irs, r.store, r.turns, now);
      ThenSound(irs, s, turns, now, r, Retry(SET, r.irs, r.store, r.turns, now));
    }
  }

  /** A contended first part does not spoil a sound second part. */
  lemma ThenSound(irs: Irs, s: Store, turns: seq<Turn>, now: int, r: Outcome, more: Outcome)
    requires ValidStore(s) && r.store == AfterTurns(s, r.used) && turns == r.used + r.turns
    requires r.irs.defaultImpu == irs.defaultImpu && r.irs.refreshed == irs.refreshed
    requires (forall x :: x in r.snaps ==> x.Default?) && r.irs == MergeRecords(irs, r.snaps, now)
    requires RetriedSoundly(r.irs, r.store, r.turns, now, more)
    ensures RetriedSoundly(irs, s, turns, now, Then(r, more))
  {
    hide PutImpu, AsRecord, AfterTurns, MergeRecord, MergeRecords, ValidStore;
    var q := Then(r, more);
    assert AfterTurns(s, q.used) == AfterTurns(r.store, more.used) by { AfterTurnsConcat(s, r.used, more.used); }
    assert q.irs == MergeRecords(irs, q.snaps, now) by { MergeRecordsConcat(irs, r.snaps, more.snaps, now); }
    assert turns == q.used + q.turns;
    assert WroteOver(q, s, now);
    assert more.snaps != [] ==> q.snaps[|q.snaps| - 1] == more.snaps[|more.snaps| - 1];
  }

  /** The turns that cost a round, of those that accesses wait for which read and write in
      turn: a read that fails, and a foreign write of the record before ours. */
  function Costly(turns: seq<Turn>, k: string, reading: bool): (n: nat) {
    if turns == [] then 0
    else
      var t := turns[0];
      (if reading then (if t.fault then 1 else 0)
       else if !t.fault && (exists f :: f in t.writes && Touches(f, k)) then 1 else 0)
      + Costly(turns[1..], k, !reading)
  }

  /** A round of two accesses, unless the turns run out, that costs. */
  ghost predicate Costs(r: Outcome, k: string) {
    && Costly(r.used, k, true) >= 1
    && (|r.used| == 2 || (|r.used| < 2 && r.turns == []))
  }

  /** A contended round costs. */
  lemma RereadCosts(action: Action, irs: Irs, s: Store, turns: seq<Turn>, now: int)
    requires ValidStore(s)
    ensures var r := Reread(action, irs, s, turns, now); r.status == DATA_CONTENTION ==> Costs(r, irs.defaultImpu)
  {
    hide AsRecord, Merged, Superseded, PutImpu, Costs, Act;
    var t, d, r := AfterTurns(s, Next(turns)), irs.defaultImpu, Reread(action, irs, s, turns, now);
    TurnEffect(s, Next(turns), d);
    if Fault(turns) || d !in t.impus {
      if action.SET? {
        ReadThenActCosts(action, irs, s, turns, now, irs, 0, r);
      }
    } else if t.impus[d].value.Default? {
      ReadThenActCosts(action, irs, s, turns, now, MergeRecord(irs, t.impus[d].value, now), t.impus[d].cas, r);
    } else if irs.refreshed {
      ReadThenActCosts(action, irs, s, turns, now, irs, t.impus[d].cas, r);
    }
  }

  lemma ReadThenActCosts(action: Action, irs: Irs, s: Store, turns: seq<Turn>, now: int, irs': Irs, cas: nat,
      r: Outcome)
    requires ValidStore(s) && ReadsThenActs(action, irs, s, turns, now, irs', cas, r)
    ensures r.status == DATA_CONTENTION ==> Costs(r, irs.defaultImpu)
  {
    hide AsRecord, PutImpu;
    var t, d, next := AfterTurns(s, Next(turns)), irs.defaultImpu, Next(Rest(turns));
    TurnEffect(s, Next(turns), d);
    ActContended(action, irs', t, Rest(turns), cas, now);
    if r.status == DATA_CONTENTION && !Fault(turns) {
      assert next != [] && next[1..] == [];
      assert Costly(next, d, false) == 1;
      assert r.used == Next(turns) + next && r.used[1..] == next && r.used[0] == turns[0];
    }
  }

  lemma CostlyConcat(a: seq<Turn>, b: seq<Turn>, k: string)
    requires |a| == 2 || b == []
    ensures Costly(a + b, k, true) == Costly(a, k, true) + Costly(b, k, true)
  {
    if b == [] {
      assert a + b == a;
    } else {
      var a1 := a[1..];
      assert (a + b)[1..] == a1 + b && (a1 + b)[1..] == b && a1[1..] == [];
      assert Costly(a1 + b, k, false) == Costly(a1, k, false) + Costly(b, k, true);
    }
  }

  /** The retry loop makes at most one round more than there were turns that cost one. */
  lemma {:induction false} RetryBounded(action: Action, irs: Irs, s: Store, turns: seq<Turn>, now: int)
    requires ValidStore(s)
    ensures var r := Retry(action, irs, s, turns, now);
            r.rounds <= 1 + Costly(r.used, irs.defaultImpu, true) && r.status != DATA_CONTENTION
            && turns == r.used + r.turns
    decreases Disturbances(turns, irs.defaultImpu)
  {
    hide Reread, Costly, Disturbances, AfterTurns;
    var r := Reread(action, irs, s, turns, now);
    RereadContended(action, irs, s, turns, now);
    if r.status == DATA_CONTENTION {
      var more := Retry(action, r.irs, r.store, r.turns, now);
      RetryBounded(action, r.irs, r.store, r.turns, now);
      assert turns == (r.used + more.used) + more.turns;
      RereadCosts(action, irs, s, turns, now);
      CostlyConcat(r.used, more.used, irs.defaultImpu);
    }
  }

  /** Bounded retry: after the write that the loop may begin with, it makes at most one round
      more than there were reads that failed, and turns before a write in which somebody else
      wrote the record.  What the others do before a read costs nothing. */
  lemma BoundedRetry(action: Action, irs: Irs, s: Store, turns: seq<Turn>, here: bool, now: int)
    requires ValidStore(s)
    ensures var r, d := Perform(action, irs, s, turns, here, now), irs.defaultImpu;
            && r.status != DATA_CONTENTION && turns == r.used + r.turns
            && r.rounds <= if here then 2 + Costly(Rest(r.used), d, true) else 1 + Costly(r.used, d, true)
  {
    hide Retry, Costly, Disturbances, AsRecord, PutImpu, DropImpu, AfterTurns;
    if here {
      TurnEffect(s, Next(turns), irs.defaultImpu);
      var r := Act(action, irs, s, turns, irs.cas, now);
      ActContended(action, irs, s, turns, irs.cas, now);
      if r.status == DATA_CONTENTION {
        RetryBounded(action, irs, r.store, r.turns, now);
        var more := Retry(action, irs, r.store, r.turns, now);
        assert turns == (r.used + more.used) + more.turns;
        assert Rest(r.used + more.used) == more.used;
      }
    } else {
      RetryBounded(action, irs, s, turns, now);
    }
  }

  ghost predicate NoFaults(turns: seq<Turn>) {
    forall t :: t in turns ==> !t.fault
  }

  /** The loop gave up: the IRS is not refreshed (a deleted one always is), and there is a pointer where
      the record should be. */
  ghost predicate GaveUp(irs: Irs, r: Outcome) {
    var d := irs.defaultImpu;
    r.status == ERROR && !irs.refreshed && d in r.store.impus && r.store.impus[d].value.Associated?
  }

  lemma RereadSucceeds(action: Action, irs: Irs, s: Store, turns: seq<Turn>, now: int)
    requires ValidStore(s) && NoFaults(turns)
    ensures var r := Reread(action, irs, s, turns, now);
            && (r.status == OK || r.status == DATA_CONTENTION || GaveUp(irs, r))
            && r.irs.defaultImpu == irs.defaultImpu && r.irs.refreshed == irs.refreshed
  {
    hide AsRecord, PutImpu, DropImpu, Merged, Superseded, AfterTurns;
    assert !Fault(turns) && !Fault(Rest(turns)) by {
      assert turns != [] ==> turns[0] in turns;
      assert |turns| > 1 ==> Rest(turns)[0] == turns[1] && turns[1] in turns;
    }
    hide Fault, NoFaults;
  }

  lemma {:induction false} RetrySucceeds(action: Action, irs: Irs, s: Store, turns: seq<Turn>, now: int)
    requires ValidStore(s) && NoFaults(turns)
    ensures var r := Retry(action, irs, s, turns, now); r.status == OK || GaveUp(irs, r)
    decreases Disturbances(turns, irs.defaultImpu)
  {
    hide Reread, Disturbances, AfterTurns;
    var r := Reread(action, irs, s, turns, now);
    RereadContended(action, irs, s, turns, now);
    RereadSucceeds(action, irs, s, turns, now);
    if r.status == DATA_CONTENTION {
      assert NoFaults(r.turns) by { assert forall t :: t in r.turns ==> t in r.used + r.turns; }
      RetrySucceeds(action, r.irs, r.store, r.turns, now);
    }
  }

  /** If no access fails, the loop succeeds, whatever the others write meanwhile, unless it gives
      up; so a refreshed put and a deletion always succeed. */
  lemma PerformSucceeds(action: Action, irs: Irs, s: Store, turns: seq<Turn>, here: bool, now: int)
    requires ValidStore(s) && NoFaults(turns)
    ensures var r := Perform(action, irs, s, turns, here, now); r.status == OK || GaveUp(irs, r)
  {
    hide Retry, Disturbances, AsRecord, AfterTurns;
    if here {
      TurnEffect(s, Next(turns), irs.defaultImpu);
      var r := Act(action, irs, s, turns, irs.cas, now);
      assert turns != [] ==> turns[0] in turns;
      if r.status == DATA_CONTENTION {
        assert NoFaults(Rest(turns)) by { assert forall t :: t in Rest(turns) ==> t in Next(turns) + Rest(turns); }
        RetrySucceeds(action, irs, r.store, r.turns, now);
      }
    } else {
      RetrySucceeds(action, irs, s, turns, now);
    }
  }

  /** A read that fails costs a put nothing but a round: with nobody else writing, it comes to
      the same as without the failure. */
  lemma FailedReadRetries(irs: Irs, s: Store, now: int)
    requires ValidStore(s)
    ensures Same(Perform(SET, irs, s, [Turn([], true)], false, now), Perform(SET, irs, s, [], false, now))
  {
    hide AsRecord, Encoded, MergeRecord;
    var turns := [Turn([], true)];
    assert Next(turns) == turns && Rest(turns) == [] && turns[1..] == [] && Next([]) == [] && Rest([]) == [];
    assert AfterTurns(s, []) == s && AfterTurns(s, turns) == s;
    var r := Reread(SET, irs, s, turns, now);
    if irs.defaultImpu in s.impus {
      assert r.status == DATA_CONTENTION && r.store == s && r.turns == [] && r.irs == irs;
    }
  }

  /** The version the IRS remembers, if it is still there, is one it covers. */
  ghost predicate FreshRead(irs: Irs, s: Store) {
    var d := irs.defaultImpu;
    && 0 < irs.cas <= s.lastCas
    && (d in s.impus && s.impus[d].cas == irs.cas ==> s.impus[d].value.Default? && Covers(irs, s.impus[d].value))
  }

  /** Whatever the caller sets after reading from a store, and whatever the others write
      meanwhile, the IRS stays a fresh read; here for one caller's edits. */
  lemma ReadIsFresh(d: string, s: Store, now: int, turns: seq<Turn>, xml: Xml, c: Charging, ttl: int, i: string,
      st: RegState)
    requires ValidStore(s) && d in s.impus && s.impus[d].value.Default?
    requires Identities.DefaultId(xml) == d
    ensures var read := FromRecord(d, s.impus[d], now);
            var t := AfterTurns(s, turns);
            && FreshRead(read, t)
            && FreshRead(WithTtl(WithXml(WithCharging(WithState(WithImpi(read, i, ADDED), st), c), xml), ttl), t)
            && FreshRead(WithCharging(WithXml(read, xml), c), t)
  {
    hide Covers, WithXml, WithState, WithCharging, WithTtl, WithImpi;
    AfterTurnsFresh(s, turns, d);
    var v := s.impus[d];
    var read := FromRecord(d, v, now);
    ReadCovers(d, v, now);
    var e1 := WithImpi(read, i, ADDED);
    var e2 := WithState(e1, st);
    var e3 := WithCharging(e2, c);
    var e4 := WithXml(e3, xml);
    EditCovers(read, v.value, xml, c, st, ttl, i, ADDED);
    EditCovers(e1, v.value, xml, c, st, ttl, i, ADDED);
    EditCovers(e2, v.value, xml, c, st, ttl, i, ADDED);
    EditCovers(e3, v.value, xml, c, st, ttl, i, ADDED);
    EditCovers(e4, v.value, xml, c, st, ttl, i, ADDED);
    var p1 := WithXml(read, xml);
    EditCovers(p1, v.value, xml, c, st, ttl, i, ADDED);
    EditsKeepKey(read, xml, c, st, ttl, i);
  }

  /** Edits with a document of the same default identity keep the key and the CAS. */
  lemma EditsKeepKey(irs: Irs, xml: Xml, c: Charging, st: RegState, ttl: int, i: string)
    requires Identities.DefaultId(xml) == irs.defaultImpu
    ensures var e := WithTtl(WithXml(WithCharging(WithState(WithImpi(irs, i, ADDED), st), c), xml), ttl);
            e.defaultImpu == irs.defaultImpu && e.cas == irs.cas
    ensures var e := WithCharging(WithXml(irs, xml), c);
            e.defaultImpu == irs.defaultImpu && e.cas == irs.cas
  {
  }

  /** The IRS at the end of the loop is the caller's: additions are the same, deletions have
      only grown, and so for the associated IMPUs unless the IRS is refreshed and keeps its
      own; no field or flag the caller set has changed. */
  ghost predicate StillCallers(before: Irs, after: Irs) {
    && CallerKept(before, after)
    && InState(after.impis, ADDED) == InState(before.impis, ADDED)
    && InState(before.impis, DELETED) <= InState(after.impis, DELETED)
    && (if before.refreshed then Live(after.associated) == Live(before.associated)
        else
          && InState(after.associated, ADDED) == InState(before.associated, ADDED)
          && InState(before.associated, DELETED) <= InState(after.associated, DELETED))
  }

  lemma MergedStillCallers(irs: Irs, rs: seq<Record>, now: int)
    requires forall r :: r in rs ==> r.Default?
    ensures StillCallers(irs, MergeRecords(irs, rs, now))
  {
    MergeRecordsMeaning(irs, rs, now);
    MergedAllLive(irs.impis, ImpiSnaps(rs));
    MergedAllLive(irs.associated, AssociatedSnaps(rs));
  }

  /** No lost update: whenever the loop ends with OK, after any number of foreign writes, it
      has changed nothing but the one record, and if it replaced a default record then what
      it wrote keeps that record's updates: added plus (its own minus deleted), and its
      registration state, XML and charging addresses wherever the caller set none.  What the
      caller did set or edit is written as it was. */
  lemma NoUpdateLost(irs: Irs, s: Store, turns: seq<Turn>, here: bool, now: int)
    requires ValidStore(s) && (here ==> FreshRead(irs, s))
    ensures var r, d := Perform(SET, irs, s, turns, here, now), irs.defaultImpu;
            var m := AfterTurns(s, r.used);
            && turns == r.used + r.turns
            && WroteOver(r, s, now)
            && StillCallers(irs, r.irs)
            && (r.status == OK && d in m.impus && m.impus[d].value.Default? ==>
                  && Covers(r.irs, m.impus[d].value)
                  && KeepsUpdates(r.irs, m.impus[d].value, AsRecord(r.irs, now)))
            && (r.status == OK ==> WritesCallers(irs, AsRecord(r.irs, now)))
            && (d in m.impus && r.status == OK && !m.impus[d].value.Default? ==> irs.refreshed)
  {
    hide MergeRecords, WroteOver;
    var r, d := Perform(SET, irs, s, turns, here, now), irs.defaultImpu;
    PerformSound(irs, s, turns, here, now);
    var m := AfterTurns(s, r.used);
    MergedStillCallers(irs, r.snaps, now);
    PerformOverDefault(irs, s, turns, here, now);
    if r.status == OK && d in m.impus && m.impus[d].value.Default? {
      CoveredWriteKeepsUpdates(r.irs, m.impus[d].value, now);
    }
  }

  /** The record says what the caller wanted: its additions and none of its deletions, the
      fields it set, and for a refreshed IRS its associated IMPUs. */
  ghost predicate WritesCallers(irs: Irs, w: Record) {
    && w.Default?
    && InState(irs.impis, ADDED) <= w.impis && w.impis !! InState(irs.impis, DELETED)
    && InState(irs.associated, ADDED) <= w.associated && w.associated !! InState(irs.associated, DELETED)
    && (irs.refreshed ==> w.associated == Live(irs.associated))
    && (irs.stateSet ==> w.state == irs.state)
    && (irs.xmlSet ==> w.xml == irs.xml)
    && (irs.chargingSet ==> w.charging == irs.charging)
  }

  /** The loop with its first round: sound, except that a first round that succeeds
      replaced the version the IRS remembers. */
  lemma PerformSound(irs: Irs, s: Store, turns: seq<Turn>, here: bool, now: int)
    requires ValidStore(s)
    ensures var r := Perform(SET, irs, s, turns, here, now);
            && turns == r.used + r.turns && r.irs.defaultImpu == irs.defaultImpu
            && (forall x :: x in r.snaps ==> x.Default?) && r.irs == MergeRecords(irs, r.snaps, now)
            && WroteOver(r, s, now)
            && (r.status == OK ==>
                  || Known(AfterTurns(s, r.used), irs, r.snaps)
                  || (here && r.irs == irs && CasMatches(AfterTurns(s, r.used).impus, irs.defaultImpu, irs.cas)))
  {
    if here {
      var r := Act(SET, irs, s, turns, irs.cas, now);
      ActWrites(irs, s, turns, irs.cas, now);
      TurnEffect(s, Next(turns), irs.defaultImpu);
      if r.status == DATA_CONTENTION {
        RetrySound(r.irs, r.store, r.turns, now);
        ThenSound(irs, s, turns, now, r, Retry(SET, r.irs, r.store, r.turns, now));
      }
    } else {
      RetrySound(irs, s, turns, now);
    }
  }

  /** The time to live of a copy of a record is what is left of the record's. */
  ghost predicate Timely(irs: Irs, r: Record, now: int) {
    irs.ttl + now == r.expiry
  }

  /** A put without a refresh does not prolong a life: the record it replaces had the same
      expiry, whichever of the versions met on the way that is. */
  lemma UnrefreshedKeepsExpiry(irs: Irs, s: Store, turns: seq<Turn>, here: bool, now: int)
    requires ValidStore(s) && !irs.refreshed && (here ==> FreshRead(irs, s))
    requires var d := irs.defaultImpu;
             here && d in s.impus && s.impus[d].cas == irs.cas ==> Timely(irs, s.impus[d].value, now)
    ensures var r, d := Perform(SET, irs, s, turns, here, now), irs.defaultImpu;
            var m := AfterTurns(s, r.used);
            r.status == OK && d in m.impus ==> AsRecord(r.irs, now).expiry == m.impus[d].value.expiry
  {
    var r, d := Perform(SET, irs, s, turns, here, now), irs.defaultImpu;
    PerformSound(irs, s, turns, here, now);
    AfterTurnsFresh(s, r.used, d);
    if r.snaps != [] {
      MergeRecordsMeaning(irs, r.snaps[..|r.snaps| - 1], now);
    }
  }

  lemma PerformOverDefault(irs: Irs, s: Store, turns: seq<Turn>, here: bool, now: int)
    requires ValidStore(s) && (here ==> FreshRead(irs, s))
    ensures var r, d := Perform(SET, irs, s, turns, here, now), irs.defaultImpu;
            var m := AfterTurns(s, r.used);
            && (r.status == OK && d in m.impus && m.impus[d].value.Default? ==> Covers(r.irs, m.impus[d].value))
            && (r.status == OK && d in m.impus && !m.impus[d].value.Default? ==> irs.refreshed)
  {
    var r, d := Perform(SET, irs, s, turns, here, now), irs.defaultImpu;
    PerformSound(irs, s, turns, here, now);
    AfterTurnsFresh(s, r.used, d);
    if r.snaps != [] {
      var init := r.snaps[..|r.snaps| - 1];
      MergeCovers(MergeRecords(irs, init, now), r.snaps[|r.snaps| - 1], now);
    }
  }

  /** Exactly which IMPIs get written, in terms of the records merged on the way: added ones;
      those unchanged that every one of them listed; and of those unknown to the caller the
      ones that the last listed and that no earlier one had seen go. */
  lemma WrittenImpisExactly(irs: Irs, s: Store, turns: seq<Turn>, here: bool, now: int, i: string)
    requires ValidStore(s)
    ensures var r := Perform(SET, irs, s, turns, here, now);
            && (forall x :: x in r.snaps ==> x.Default?)
            && (i in AsRecord(r.irs, now).impis <==> Survives(irs.impis, i, ImpiSnaps(r.snaps)))
  {
    var r := Perform(SET, irs, s, turns, here, now);
    PerformSound(irs, s, turns, here, now);
    MergeRecordsMeaning(irs, r.snaps, now);
    MergedAllLive(irs.impis, ImpiSnaps(r.snaps));
  }

  /** A turn in which somebody else writes this record. */
  function Writes(d: string, r: Record): (t: Turn) { Turn([WriteImpu(d, r)], false) }

  function Pause(): (t: Turn) { Turn([], false) }

  lemma AfterWrite(s: Store, d: string, r: Record, more: seq<Turn>)
    ensures AfterTurns(s, [Pause(), Writes(d, r)] + more) == AfterTurns(PutImpu(s, d, r), more)
    ensures AfterTurns(s, [Pause()]) == s && AfterTurns(s, [Writes(d, r)]) == PutImpu(s, d, r)
  {
    var two := [Writes(d, r)] + more;
    assert ([Pause(), Writes(d, r)] + more)[1..] == two && two[1..] == more;
    assert Writes(d, r).writes[1..] == [] && [Writes(d, r)][1..] == [] && [Pause()][1..] == [];
    assert AfterTurns(s, two) == AfterTurns(ForeignWrites(s, Writes(d, r).writes), more);
  }

  /** A round that reads the record before somebody else replaces it. */
  lemma OvertakenRound(irs: Irs, s: Store, r: Record, more: seq<Turn>, now: int)
    requires ValidStore(s) && irs.defaultImpu in s.impus && s.impus[irs.defaultImpu].value.Default?
    ensures var d, turns := irs.defaultImpu, [Pause(), Writes(irs.defaultImpu, r)] + more;
            var round := Reread(SET, irs, s, turns, now);
            && round.status == DATA_CONTENTION && round.store == PutImpu(s, d, r) && round.turns == more
            && round.irs == MergeRecord(irs, s.impus[d].value, now)
  {
    hide AsRecord, Encoded, MergeRecord;
    var d := irs.defaultImpu;
    var turns := [Pause(), Writes(d, r)] + more;
    AfterWrite(s, d, r, more);
    assert Next(turns) == [Pause()] && Rest(turns) == [Writes(d, r)] + more;
    assert Next(Rest(turns)) == [Writes(d, r)] && Rest(Rest(turns)) == more;
    assert MergeRecord(irs, s.impus[d].value, now).defaultImpu == d by { MergeKeepsKey(irs, s.impus[d].value, now); }
    var t := PutImpu(s, d, r);
    assert d in t.impus && t.impus[d].cas == s.lastCas + 1;
    assert !CasMatches(t.impus, d, s.impus[d].cas);
  }

  lemma MergeKeepsKey(irs: Irs, r: Record, now: int)
    requires r.Default?
    ensures MergeRecord(irs, r, now).defaultImpu == irs.defaultImpu
  {
  }

  /** The loop does lose an identity: the record lists it, somebody removes it between the read
      and the write of a put that does not mention it, and somebody adds it back between the
      next read and write.  The put then replaces a record that lists it by one that does not. */
  lemma RetryLosesReadded(irs: Irs, s: Store, gone: Record, back: Record, now: int, k: string)
    requires ValidStore(s) && irs.defaultImpu in s.impus && s.impus[irs.defaultImpu].value.Default?
    requires k in s.impus[irs.defaultImpu].value.impis && k !in irs.impis
    requires gone.Default? && k !in gone.impis && back.Default? && k in back.impis
    ensures var d := irs.defaultImpu;
            var turns := [Pause(), Writes(d, gone), Pause(), Writes(d, back)];
            var r, m := Perform(SET, irs, s, turns, false, now), AfterTurns(s, turns);
            && r.status == OK && r.store == PutImpu(m, d, AsRecord(r.irs, now))
            && d in m.impus && m.impus[d].value.Default? && k in m.impus[d].value.impis
            && k !in AsRecord(r.irs, now).impis
  {
    hide Reread, AsRecord;
    var d, last := irs.defaultImpu, [Pause(), Writes(irs.defaultImpu, back)];
    var turns := [Pause(), Writes(d, gone), Pause(), Writes(d, back)];
    assert turns == [Pause(), Writes(d, gone)] + last && last == last + [];
    OvertakenRound(irs, s, gone, last, now);
    var r1 := Reread(SET, irs, s, turns, now);
    OvertakenRound(r1.irs, r1.store, back, [], now);
    var r2 := Reread(SET, r1.irs, r1.store, last, now);
    AfterWrite(s, d, gone, last);
    AfterWrite(r1.store, d, back, []);
    QuietRound(r2.irs, r2.store, now);
    var r3 := Reread(SET, r2.irs, r2.store, [], now);
    LostInMerges(irs, s.impus[d].value, gone, back, now, k);
    RereadContended(SET, irs, s, turns, now);
    RereadContended(SET, r1.irs, r1.store, last, now);
    assert Retry(SET, r2.irs, r2.store, [], now) == r3;
    assert Retry(SET, r1.irs, r1.store, last, now) == Then(r2, r3);
  }

  lemma QuietRound(irs: Irs, s: Store, now: int)
    requires ValidStore(s) && irs.defaultImpu in s.impus && s.impus[irs.defaultImpu].value.Default?
    ensures var d, round := irs.defaultImpu, Reread(SET, irs, s, [], now);
            && round.status == OK && round.irs == MergeRecord(irs, s.impus[d].value, now)
            && round.store == PutImpu(s, d, AsRecord(round.irs, now))
  {
    hide AsRecord, Encoded, MergeRecord;
    MergeKeepsKey(irs, s.impus[irs.defaultImpu].value, now);
    assert AfterTurns(s, []) == s;
    assert Next([]) == [] && Rest([]) == [];
  }

  lemma LostInMerges(irs: Irs, r: Record, gone: Record, back: Record, now: int, k: string)
    requires r.Default? && k in r.impis && k !in irs.impis
    requires gone.Default? && k !in gone.impis && back.Default? && k in back.impis
    ensures var m := MergeRecord(MergeRecord(MergeRecord(irs, r, now), Encoded(gone), now), Encoded(back), now);
            k !in AsRecord(m, now).impis
  {
  }

  lemma RereadDeletes(irs: Irs, s: Store, turns: seq<Turn>, now: int)
    requires irs.refreshed
    ensures var r, d := Reread(DELETE, irs, s, turns, now), irs.defaultImpu;
            && r.status != DATA_CONTENTION
            && (r.status == OK ==>
                  (d !in r.store.impus <==> !(Fault(turns) && d in AfterTurns(s, Next(turns)).impus)))
  {
    hide AsRecord, Encoded, Merged, Superseded, AfterTurns;
  }

  /** A deletion that reports OK has removed the default record, exactly unless it began with
      a read of the record, which failed: a failed read counts as finding nothing. */
  lemma DeletionTakesEffect(irs: Irs, s: Store, turns: seq<Turn>, here: bool, now: int)
    requires ValidStore(s) && irs.refreshed
    ensures var r, d := Perform(DELETE, irs, s, turns, here, now), irs.defaultImpu;
            r.status == OK ==>
              (d !in r.store.impus <==> !(!here && Fault(turns) && d in AfterTurns(s, Next(turns)).impus))
  {
    hide Reread, AsRecord, Encoded, AfterTurns;
    RereadDeletes(irs, s, turns, now);
  }
}
