/** Any number of Homesteads changing IMPI mappings at once: the three loops of the mapping
    update as one step per store access, interleaved in every possible order. */
module MappingRace {
  import opened Types
  import opened Stores
  import opened IrsUpdate

  datatype Kind = ADDING | REFRESHING | REMOVING

  /** One loop: put `impu` into, or take it out of, the mapping of `impi`. */
  datatype Job = Job(kind: Kind, impi: string, impu: string, refreshed: bool, expiry: int)

  datatype Phase = WRITING | READING | ERASING | DONE

  /** A running loop: its next access, the list it would write with its expiry and the CAS
      it would use, the list it read that CAS with, and whether it has met contention. */
  datatype Proc = Proc(job: Job, phase: Phase, copy: seq<string>, until: int, cas: nat, base: seq<string>,
                       contended: bool)

  datatype System = System(store: Store, procs: seq<Proc>)

  /** Who moves, and whether the access fails. */
  datatype Tick = Tick(p: nat, fault: bool)

  /** Where a loop starts: an addition supposes that there is no mapping yet. */
  function Start(job: Job): (p: Proc) {
    if job.kind.ADDING? then Proc(job, WRITING, [job.impu], job.expiry, 0, [], false)
    else Proc(job, READING, [], job.expiry, 0, [], false)
  }

  /** What the loop makes of a list. */
  function Edit(job: Job, s: seq<string>): (r: seq<string>) {
    if job.kind.REMOVING? then Remove(s, job.impu) else Add(s, job.impu)
  }

  /** The default IMPUs an IMPI maps to; none if it has no mapping. */
  function MappedTo(s: Store, i: string): (r: seq<string>) {
    if i in s.mappings then s.mappings[i].value.defaultImpus else []
  }

  function AfterRead(p: Proc, s: Store, fault: bool): (q: Proc) {
    var job := p.job;
    if !fault && job.impi in s.mappings then
      var read, cas := MappedTo(s, job.impi), s.mappings[job.impi].cas;
      var until := if job.kind.REMOVING? then s.mappings[job.impi].value.expiry else job.expiry;
      var edited := p.(copy := Edit(job, read), until := until, cas := cas, base := read);
      match job.kind
      case ADDING => if job.impu in read && !job.refreshed then p.(phase := DONE) else edited.(phase := WRITING)
      case REFRESHING => edited.(phase := WRITING)
      case REMOVING =>
        if job.impu !in read then (if p.contended then p else p.(phase := DONE))
        else edited.(phase := if Edit(job, read) == [] then ERASING else WRITING)
    else
      match job.kind
      case ADDING => p.(phase := if fault then DONE else WRITING)
      case REFRESHING => p.(phase := WRITING, copy := [job.impu], cas := 0)
      case REMOVING => if p.contended then p else p.(phase := DONE)
  }

  /** The access takes effect on the store. */
  predicate Commits(p: Proc, s: Store, fault: bool) {
    !fault && (p.phase.ERASING? || (p.phase.WRITING? && CasMatches(s.mappings, p.job.impi, p.cas)))
  }

  function Committed(p: Proc, s: Store): (t: Store) {
    if p.phase.ERASING? then DropMapping(s, p.job.impi)
    else PutMapping(s, p.job.impi, Mapping(p.copy, p.until))
  }

  function Step(sys: System, t: Tick): (r: System)
    ensures |r.procs| == |sys.procs|
  {
    if t.p >= |sys.procs| then sys
    else
      var p := sys.procs[t.p];
      if Commits(p, sys.store, t.fault) then
        System(Committed(p, sys.store), sys.procs[t.p := p.(phase := DONE)])
      else
        var q := match p.phase
                 case WRITING => if t.fault then p.(phase := DONE) else p.(phase := READING, contended := true)
                 case READING => AfterRead(p, sys.store, t.fault)
                 case ERASING => p.(phase := DONE)
                 case DONE => p;
        sys.(procs := sys.procs[t.p := q])
  }

  function Run(sys: System, ticks: seq<Tick>): (r: System)
    ensures |r.procs| == |sys.procs|
    decreases |ticks|
  {
    if ticks == [] then sys else Run(Step(sys, ticks[0]), ticks[1..])
  }

  // -------------------------------------------------------------------- invariant

  /** What a loop holds is an edit of the version it would replace. */
  ghost predicate Honest(p: Proc, s: Store) {
    && p.cas <= s.lastCas
    && (p.phase.ERASING? ==> p.job.kind.REMOVING?)
    && (p.job.kind.REMOVING? && p.phase.WRITING? ==> p.cas != 0)
    && (!p.job.kind.REMOVING? && p.cas == 0 && p.phase != READING ==> p.copy == [p.job.impu])
    && (p.job.kind.ADDING? && p.cas == 0 ==> p.copy == [p.job.impu])
    && (p.cas != 0 ==> p.copy == Edit(p.job, p.base))
    && (p.cas != 0 && p.job.impi in s.mappings && s.mappings[p.job.impi].cas == p.cas ==>
          MappedTo(s, p.job.impi) == p.base)
  }

  ghost predicate Inv(sys: System) {
    ValidStore(sys.store) && forall n :: 0 <= n < |sys.procs| ==> Honest(sys.procs[n], sys.store)
  }

  lemma StartHonest(job: Job, s: Store)
    ensures Honest(Start(job), s)
  {
  }

  lemma ReadHonest(p: Proc, s: Store, fault: bool)
    requires ValidStore(s) && Honest(p, s) && p.phase.READING?
    ensures Honest(AfterRead(p, s, fault), s)
  {
  }

  /** A fresh CAS spoils nobody's honesty. */
  lemma CommitHonest(p: Proc, q: Proc, s: Store)
    requires ValidStore(s) && Honest(q, s) && (p.phase.ERASING? || p.phase.WRITING?)
    ensures ValidStore(Committed(p, s)) && Honest(q, Committed(p, s))
  {
  }

  lemma StepInv(sys: System, t: Tick)
    requires Inv(sys)
    ensures Inv(Step(sys, t))
  {
    if t.p < |sys.procs| {
      var p, r := sys.procs[t.p], Step(sys, t);
      forall n | 0 <= n < |r.procs| ensures Honest(r.procs[n], r.store) {
        assert Honest(sys.procs[n], sys.store);
        if Commits(p, sys.store, t.fault) {
          CommitHonest(p, sys.procs[n], sys.store);
        } else if p.phase.READING? {
          ReadHonest(p, sys.store, t.fault);
        }
      }
      if Commits(p, sys.store, t.fault) {
        CommitHonest(p, p, sys.store);
      }
    }
  }

  // ------------------------------------------------------------------- each write

  /** The step throws away default IMPUs that its loop has no business with: an uncased
      delete of a mapping that holds more than its own. */
  ghost predicate ErasesOthers(sys: System, t: Tick) {
    && t.p < |sys.procs| && sys.procs[t.p].phase.ERASING? && !t.fault
    && Remove(MappedTo(sys.store, sys.procs[t.p].job.impi), sys.procs[t.p].job.impu) != []
  }

  /** Each step leaves every mapping alone, or adds to or removes from one mapping the one
      default IMPU of its own job, exactly unless it erases others. */
  lemma StepEdits(sys: System, t: Tick, i: string)
    requires Inv(sys)
    ensures var before, after := MappedTo(sys.store, i), MappedTo(Step(sys, t).store, i);
            && (after != before ==>
                  && t.p < |sys.procs| && sys.procs[t.p].job.impi == i && Commits(sys.procs[t.p], sys.store, t.fault)
                  && (after == Edit(sys.procs[t.p].job, before) || (ErasesOthers(sys, t) && after == [])))
            && (t.p < |sys.procs| && sys.procs[t.p].job.impi == i && Commits(sys.procs[t.p], sys.store, t.fault) ==>
                  (after == Edit(sys.procs[t.p].job, before) <==> !ErasesOthers(sys, t)))
  {
  }

  ghost predicate NoDup(s: seq<string>) {
    forall m, n :: 0 <= m < n < |s| ==> s[m] != s[n]
  }

  lemma {:induction false} EditNoDup(job: Job, s: seq<string>)
    requires NoDup(s)
    ensures NoDup(Edit(job, s))
  {
    if job.kind.REMOVING? {
      RemoveNoDup(s, job.impu);
    }
  }

  lemma {:induction false} RemoveNoDup(s: seq<string>, d: string)
    requires NoDup(s)
    ensures NoDup(Remove(s, d))
  {
    if s != [] {
      RemoveNoDup(s[1..], d);
      assert s[0] !in s[1..];
    }
  }

  // ------------------------------------------------------------------- whole runs

  /** The step removes d from the mapping of i: a committed removal of d, or an erasure
      of the whole mapping by a loop that meant another one. */
  ghost predicate Takes(sys: System, t: Tick, i: string, d: string) {
    && t.p < |sys.procs| && sys.procs[t.p].job.impi == i && sys.procs[t.p].job.kind.REMOVING?
    && Commits(sys.procs[t.p], sys.store, t.fault)
    && (sys.procs[t.p].job.impu == d || sys.procs[t.p].phase.ERASING?)
  }

  /** A default IMPU leaves a mapping exactly in such a step. */
  lemma StepLoses(sys: System, t: Tick, i: string, d: string)
    requires Inv(sys) && d in MappedTo(sys.store, i)
    ensures d !in MappedTo(Step(sys, t).store, i) <==> Takes(sys, t, i, d)
  {
  }

  /** Some step of the run takes d from the mapping of i. */
  ghost predicate EverTaken(sys: System, ticks: seq<Tick>, i: string, d: string)
    decreases |ticks|
  {
    ticks != [] && (Takes(sys, ticks[0], i, d) || EverTaken(Step(sys, ticks[0]), ticks[1..], i, d))
  }

  /** Over every interleaving: the loops stay honest, no mapping gains a duplicate, and a
      default IMPU that is in a mapping stays there unless some step takes it out. */
  lemma {:induction false} RunKeeps(sys: System, ticks: seq<Tick>, i: string, d: string)
    requires Inv(sys)
    ensures Inv(Run(sys, ticks))
    ensures NoDup(MappedTo(sys.store, i)) ==> NoDup(MappedTo(Run(sys, ticks).store, i))
    ensures d in MappedTo(sys.store, i) && !EverTaken(sys, ticks, i, d) ==> d in MappedTo(Run(sys, ticks).store, i)
    decreases |ticks|
  {
    if ticks != [] {
      var one := Step(sys, ticks[0]);
      StepInv(sys, ticks[0]);
      StepEdits(sys, ticks[0], i);
      if NoDup(MappedTo(sys.store, i)) && MappedTo(one.store, i) != MappedTo(sys.store, i) {
        EditNoDup(sys.procs[ticks[0].p].job, MappedTo(sys.store, i));
      }
      if d in MappedTo(sys.store, i) {
        StepLoses(sys, ticks[0], i, d);
      }
      RunKeeps(one, ticks[1..], i, d);
    }
  }

  /** A loop with nobody else around ends after at most three accesses, and has done what
      the methods of the mapping update do on a quiet store. */
  lemma LoneLoop(job: Job, s: Store)
    requires ValidStore(s)
    ensures var t := Tick(0, false);
            var r := Run(System(s, [Start(job)]), [t, t, t]);
            && r.procs[0].phase == DONE
            && Values(r.store.mappings) ==
                 if job.kind.REMOVING? then Unmapped(Values(s.mappings), job.impi, job.impu)
                 else Mapped(Values(s.mappings), job.impi, job.impu, job.refreshed || job.kind.REFRESHING?, job.expiry)
  {
    hide Unmapped, Mapped, Values;
    var t, p := Tick(0, false), Start(job);
    var s0 := System(s, [p]);
    var s1 := Step(s0, t);
    var s2 := Step(s1, t);
    RunCons(s0, t, [t, t]);
    RunCons(s1, t, [t]);
    RunCons(s2, t, []);
    if job.kind.ADDING? {
      LoneAddition(job, s);
    } else {
      LoneReader(job, s);
    }
  }

  lemma LoneReader(job: Job, s: Store)
    requires ValidStore(s) && !job.kind.ADDING?
    ensures var t := Tick(0, false);
            var r := Step(Step(System(s, [Start(job)]), t), t);
            && r.procs[0].phase == DONE && Step(r, t) == r
            && Values(r.store.mappings) ==
                 if job.kind.REMOVING? then Unmapped(Values(s.mappings), job.impi, job.impu)
                 else Mapped(Values(s.mappings), job.impi, job.impu, true, job.expiry)
  {
  }

  lemma LoneAddition(job: Job, s: Store)
    requires ValidStore(s) && job.kind.ADDING?
    ensures var t := Tick(0, false);
            var r := Step(Step(Step(System(s, [Start(job)]), t), t), t);
            && r.procs[0].phase == DONE
            && Values(r.store.mappings) == Mapped(Values(s.mappings), job.impi, job.impu, job.refreshed, job.expiry)
  {
  }

  // ------------------------------------------------------------------ sharp edges

  lemma SmallEdits(d: string, e: string)
    requires d != e
    ensures Remove([d], d) == [] && Remove([d, e], d) == [e] && Add([d], e) == [d, e]
  {
    assert [d][1..] == [] && [d, e][1..] == [e] && [e][1..] == [];
    assert [d] + [e] == [d, e];
    assert Remove([e], d) == [e] + Remove([], d);
  }

  /** A mapping [d], about to be erased by a removal of d, and an addition of e that has met
      the mapping and is about to write [d, e]. */
  lemma EraserAndWriter(i: string, d: string, e: string)
    requires d != e
    ensures var s := Store(map[], map[i := Versioned(Mapping([d], 0), 1)], 1);
            var add, rem := Start(Job(ADDING, i, e, false, 0)), Start(Job(REMOVING, i, d, false, 0));
            var sys, a, b := System(s, [add, rem]), Tick(0, false), Tick(1, false);
            && Inv(sys)
            && Step(Step(Step(sys, b), a), a) ==
                 System(s, [Proc(add.job, WRITING, [d, e], 0, 1, [d], true),
                     rem.(phase := ERASING, cas := 1, base := [d])])
  {
    var s := Store(map[], map[i := Versioned(Mapping([d], 0), 1)], 1);
    var add, rem := Start(Job(ADDING, i, e, false, 0)), Start(Job(REMOVING, i, d, false, 0));
    var sys, a, b := System(s, [add, rem]), Tick(0, false), Tick(1, false);
    hide Honest, Add, Remove;
    StartHonest(add.job, s);
    StartHonest(rem.job, s);
    SmallEdits(d, e);
    var eraser := rem.(phase := ERASING, cas := 1, base := [d]);
    assert Step(sys, b) == System(s, [add, eraser]);
    assert Step(System(s, [add, eraser]), a) == System(s, [add.(phase := READING, contended := true), eraser]);
  }

  /** The guarantee does need its condition: an addition committed between the read and
      the uncased delete of a removal is lost. */
  lemma RacedDeleteLosesAddition(i: string, d: string, e: string)
    requires d != e
    ensures var s := Store(map[], map[i := Versioned(Mapping([d], 0), 1)], 1);
            var sys := System(s, [Start(Job(ADDING, i, e, false, 0)), Start(Job(REMOVING, i, d, false, 0))]);
            var ticks := [Tick(1, false), Tick(0, false), Tick(0, false), Tick(0, false)];
            && Inv(sys)
            && MappedTo(Run(sys, ticks).store, i) == [d, e]
            && MappedTo(Run(sys, ticks + [Tick(1, false)]).store, i) == []
  {
    var s := Store(map[], map[i := Versioned(Mapping([d], 0), 1)], 1);
    var add, rem := Start(Job(ADDING, i, e, false, 0)), Start(Job(REMOVING, i, d, false, 0));
    var sys, a, b := System(s, [add, rem]), Tick(0, false), Tick(1, false);
    EraserAndWriter(i, d, e);
    var s3 := Step(Step(Step(sys, b), a), a);
    var s4 := Step(s3, a);
    assert MappedTo(s4.store, i) == [d, e] && s4.procs[1].phase == ERASING && s4.procs[1].job.impi == i;
    assert MappedTo(Step(s4, b).store, i) == [];
    hide Step, Honest;
    RunFour(sys, b, a, a, a);
    assert [b, a, a, a] + [b] == [b] + [a, a, a, b];
    RunCons(sys, b, [a, a, a, b]);
    RunFour(Step(sys, b), a, a, a, b);
  }

  lemma RunCons(sys: System, t: Tick, ticks: seq<Tick>)
    ensures Run(sys, [t] + ticks) == Run(Step(sys, t), ticks)
  {
  }

  // ------------------------------------------------------------------ termination

  /** The loop cannot end by itself: a contended removal that finds nothing to remove, since
      its status is not reset; or an addition holding the CAS of a mapping that has gone. */
  predicate Stuck(p: Proc, s: Store) {
    match p.job.kind
    case ADDING => p.phase in {WRITING, READING} && p.cas != 0 && p.job.impi !in s.mappings
    case REFRESHING => false
    case REMOVING =>
      && p.job.impu !in MappedTo(s, p.job.impi)
      && ((p.phase.READING? && p.contended) || (p.phase.WRITING? && !CasMatches(s.mappings, p.job.impi, p.cas)))
  }

  /** Nobody but loop p moves, and its accesses do not fail. */
  function Alone(sys: System, p: nat, n: nat): (r: System)
    ensures |r.procs| == |sys.procs|
  {
    if n == 0 then sys else Step(Alone(sys, p, n - 1), Tick(p, false))
  }

  predicate Ended(sys: System, p: nat) {
    p < |sys.procs| && sys.procs[p].phase.DONE?
  }

  /** How many accesses a loop that is not stuck has still to make. */
  function Left(p: Proc, s: Store): (n: nat)
    ensures n <= 3 && (n == 0 <==> p.phase.DONE?)
  {
    match p.phase
    case DONE => 0
    case ERASING => 1
    case READING => 2
    case WRITING => if CasMatches(s.mappings, p.job.impi, p.cas) then 1 else 3
  }

  /** One access of a loop on its own. */
  lemma AloneStep(sys: System, p: nat)
    requires Inv(sys) && p < |sys.procs|
    ensures var q, r := sys.procs[p], Step(sys, Tick(p, false));
            && Inv(r) && (Stuck(r.procs[p], r.store) <==> Stuck(q, sys.store))
            && (Stuck(q, sys.store) ==> !q.phase.DONE?)
            && (!Stuck(q, sys.store) ==>
                  Left(r.procs[p], r.store) <= if q.phase.DONE? then 0 else Left(q, sys.store) - 1)
  {
    StepInv(sys, Tick(p, false));
  }

  lemma {:induction false} AloneKeeps(sys: System, p: nat, n: nat)
    requires Inv(sys) && p < |sys.procs|
    ensures var q, r := sys.procs[p], Alone(sys, p, n);
            && Inv(r) && (Stuck(r.procs[p], r.store) <==> Stuck(q, sys.store))
            && (Stuck(q, sys.store) ==> !Ended(r, p))
            && (!Stuck(q, sys.store) ==>
                  Left(r.procs[p], r.store) <= if n <= Left(q, sys.store) then Left(q, sys.store) - n else 0)
  {
    hide Step, Stuck, Left, Honest;
    if n > 0 {
      AloneKeeps(sys, p, n - 1);
      AloneStep(Alone(sys, p, n - 1), p);
    }
    AloneStep(Alone(sys, p, n), p);
  }

  /** When the loops end: whatever the others did before, a loop then left alone ends within
      three accesses, or never; and it never ends exactly if it is stuck. */
  lemma EndsUnlessStuck(sys: System, p: nat)
    requires Inv(sys) && p < |sys.procs|
    ensures !Stuck(sys.procs[p], sys.store) ==> Ended(Alone(sys, p, 3), p)
    ensures Stuck(sys.procs[p], sys.store) ==> forall n :: !Ended(Alone(sys, p, n), p)
  {
    hide Step, Stuck;
    forall n ensures Stuck(sys.procs[p], sys.store) ==> !Ended(Alone(sys, p, n), p) {
      AloneKeeps(sys, p, n);
    }
    AloneKeeps(sys, p, 3);
  }

  /** Two loops that remove the same default IMPU get the second one stuck. */
  lemma ContendedRemovalSpins(i: string, d: string, e: string)
    requires d != e
    ensures var s := Store(map[], map[i := Versioned(Mapping([d, e], 0), 1)], 1);
            var rem := Start(Job(REMOVING, i, d, false, 0));
            var sys := System(s, [rem, rem]);
            var r := Run(sys, [Tick(0, false), Tick(1, false), Tick(0, false), Tick(1, false)]);
            && Inv(sys) && Stuck(r.procs[1], r.store)
            && forall n :: !Ended(Alone(r, 1, n), 1)
  {
    var s := Store(map[], map[i := Versioned(Mapping([d, e], 0), 1)], 1);
    var rem := Start(Job(REMOVING, i, d, false, 0));
    var sys, a, b := System(s, [rem, rem]), Tick(0, false), Tick(1, false);
    hide Honest, Add, Remove;
    StartHonest(rem.job, s);
    SmallEdits(d, e);
    var writer := rem.(phase := WRITING, copy := [e], cas := 1, base := [d, e]);
    var s1, s2 := System(s, [writer, rem]), System(s, [writer, writer]);
    assert Step(sys, a) == s1 && Step(s1, b) == s2;
    var t := Store(map[], map[i := Versioned(Mapping([e], 0), 2)], 2);
    var s3 := System(t, [writer.(phase := DONE), writer]);
    assert Step(s2, a) == s3;
    var s4 := System(t, [writer.(phase := DONE), writer.(phase := READING, contended := true)]);
    assert Step(s3, b) == s4;
    assert Inv(sys) && Stuck(s4.procs[1], s4.store);
    hide Step, MappedTo, Edit, Add, Remove, Stuck;
    RunFour(sys, a, b, a, b);
    RunKeeps(sys, [a, b, a, b], i, e);
    EndsUnlessStuck(s4, 1);
  }

  /** An addition that meets an existing mapping, which is then erased, gets stuck. */
  lemma StaleAdditionSpins(i: string, d: string, e: string)
    requires d != e
    ensures var s := Store(map[], map[i := Versioned(Mapping([d], 0), 1)], 1);
            var sys := System(s, [Start(Job(ADDING, i, e, false, 0)), Start(Job(REMOVING, i, d, false, 0))]);
            var r := Run(sys, [Tick(1, false), Tick(0, false), Tick(0, false), Tick(1, false)]);
            && Inv(sys) && Stuck(r.procs[0], r.store)
            && forall n :: !Ended(Alone(r, 0, n), 0)
  {
    var s := Store(map[], map[i := Versioned(Mapping([d], 0), 1)], 1);
    var add, rem := Start(Job(ADDING, i, e, false, 0)), Start(Job(REMOVING, i, d, false, 0));
    var sys, a, b := System(s, [add, rem]), Tick(0, false), Tick(1, false);
    EraserAndWriter(i, d, e);
    var s4 := Step(Step(Step(Step(sys, b), a), a), b);
    assert Stuck(s4.procs[0], s4.store);
    hide Step, Honest, MappedTo, Edit, Add, Remove, Stuck;
    RunFour(sys, b, a, a, b);
    RunKeeps(sys, [b, a, a, b], i, e);
    EndsUnlessStuck(s4, 0);
  }

  lemma RunFour(sys: System, a: Tick, b: Tick, c: Tick, d: Tick)
    ensures Run(sys, [a, b, c, d]) == Step(Step(Step(Step(sys, a), b), c), d)
  {
    hide Step;
    RunCons(sys, a, [b, c, d]);
    RunCons(Step(sys, a), b, [c, d]);
    RunCons(Step(Step(sys, a), b), c, [d]);
    RunCons(Step(Step(Step(sys, a), b), c), d, []);
  }
}
