/** Registrations, calls, profile pushes and deregistrations from any number of Homesteads
    on one store, one store access at a time, in every possible order. */
module RegStateRace {
  import opened Types
  import opened StateMap
  import opened Stores
  import opened IrsModel
  import opened IrsUpdate
  import CacheActions
  import Consistency
  import Identities
  import ImpuAction
  import Lookup
  import RegDataTask

  datatype Kind = REGISTER | CALL | PUSH | DEREGISTER

  /** A request for a subscriber that its cache lookup does not answer, with what the HSS
      sends for it; a push may come without a document or without charging addresses. */
  datatype Request = Request(kind: Kind, impu: string, impi: string, ttl: int,
                             xml: Option<Xml>, charging: Option<Charging>)

  /** The next access: of the IMPU itself; of the default IMPU its pointer names; the write of
      the default record, in one of two ways, or the read before it is tried again; its
      deletion; then the pointers, one by one, in any order. */
  datatype Phase = LOOKUP | FOLLOW(d: string) | CREATE | WRITE | REREAD | DELETE | POINTERS | ERASE(a: string) | END

  /** A running request, with the pointers it has still to remove and to write. */
  datatype Proc = Proc(req: Request, phase: Phase, irs: Irs, cas: nat, drop: set<string>, write: set<string>)

  datatype System = System(store: Store, procs: seq<Proc>)

  /** Who moves, at what time, whether the access fails, and which pointer it is about. */
  datatype Tick = Tick(p: nat, now: int, fault: bool, a: string)

  function Start(req: Request): (p: Proc) { Proc(req, LOOKUP, Blank(), 0, {}, {}) }

  function RequestType(k: Kind): (t: RegDataTask.RequestType) {
    match k
    case REGISTER => RegDataTask.REG
    case CALL => RegDataTask.CALL
    case PUSH => RegDataTask.UNKNOWN
    case DEREGISTER => RegDataTask.DEREG_USER
  }

  /** A registration or a call: the HSS answers, and the IRS is put, unless the document
      names nobody. */
  function Assign(p: Proc, found: Irs, phase: Phase): (q: Proc) {
    var req := p.req;
    var c := match req.charging case Some(c) => c case None => Charging([], []);
    var x := match req.xml case Some(x) => x case None => Xml("", []);
    var irs := Assigned(RegDataTask.Prepared(RequestType(req.kind), found, req.impi), c, x, req.ttl);
    if Identities.PublicIds(x) == [] then p.(phase := END) else p.(phase := phase, irs := irs, cas := found.cas)
  }

  /** The lookup has found an IRS. */
  function OnFound(p: Proc, irs: Irs): (q: Proc) {
    var req := p.req;
    match req.kind
    case REGISTER => Assign(p, irs, WRITE)
    case CALL => p.(phase := END)
    case PUSH =>
      if req.xml.Some? && Identities.DefaultId(req.xml.value) != irs.defaultImpu then p.(phase := END)
      else p.(phase := WRITE, irs := WithPush(irs, req.xml, req.charging), cas := irs.cas)
    case DEREGISTER => p.(phase := DELETE, irs := RegDataTask.Prepared(RequestType(DEREGISTER), irs, req.impi))
  }

  function OnNotFound(p: Proc): (q: Proc) {
    if p.req.kind in {REGISTER, CALL} then Assign(p, RegDataTask.Unknown(), CREATE) else p.(phase := END)
  }

  function AfterLookup(p: Proc, s: Store, t: Tick): (q: Proc) {
    var k := p.req.impu;
    if t.fault then p.(phase := END)
    else if k !in s.impus then OnNotFound(p)
    else match s.impus[k].value
      case Default(_, _, _, _, _, _) => OnFound(p, FromRecord(k, s.impus[k], t.now))
      case Associated(d, _) => p.(phase := FOLLOW(d))
  }

  function AfterFollow(p: Proc, s: Store, t: Tick, d: string): (q: Proc) {
    if t.fault then p.(phase := END)
    else if d in s.impus && s.impus[d].value.Default? && p.req.impu in s.impus[d].value.associated
    then OnFound(p, FromRecord(d, s.impus[d], t.now))
    else OnNotFound(p)
  }

  function AfterReread(p: Proc, s: Store, t: Tick): (q: Proc) {
    var d := p.irs.defaultImpu;
    if t.fault || d !in s.impus then p.(phase := WRITE, cas := 0)
    else if s.impus[d].value.Default? then
      p.(phase := WRITE, irs := MergeRecord(p.irs, s.impus[d].value, t.now), cas := s.impus[d].cas)
    else if p.irs.refreshed then p.(phase := WRITE, cas := s.impus[d].cas)
    else p.(phase := END)
  }

  /** The default record has been written, or given up to another one. */
  function AfterPut(p: Proc): (q: Proc) {
    p.(phase := POINTERS, drop := InState(p.irs.associated, DELETED),
        write := Written(p.irs.associated, p.irs.refreshed))
  }

  /** The default record has been deleted; everything tracked goes with it. */
  function AfterDelete(p: Proc): (q: Proc) {
    p.(phase := POINTERS, drop := p.irs.associated.Keys, write := {})
  }

  /** One pointer: those to remove come first, and are read before they are erased. */
  function AfterPointer(p: Proc, s: Store, t: Tick): (q: Proc) {
    if p.drop == {} then p.(write := p.write - {t.a})
    else if t.a !in p.drop then p
    else
      var points := !t.fault && t.a in s.impus && PointsTo(s.impus[t.a].value, p.irs.defaultImpu);
      p.(drop := p.drop - {t.a}, phase := if points then ERASE(t.a) else POINTERS)
  }

  /** Where a step takes its own request. */
  function Moved(p: Proc, s: Store, t: Tick): (q: Proc) {
    match p.phase
    case LOOKUP => AfterLookup(p, s, t)
    case FOLLOW(d) => AfterFollow(p, s, t, d)
    case CREATE => if t.fault then p.(phase := END) else AfterPut(p)
    case WRITE => if t.fault then p.(phase := END) else if Puts(p, s, t) then AfterPut(p) else p.(phase := REREAD)
    case REREAD => AfterReread(p, s, t)
    case DELETE => if t.fault then p.(phase := END) else AfterDelete(p)
    case POINTERS => AfterPointer(p, s, t)
    case ERASE(_) => p.(phase := POINTERS)
    case END => p
  }

  /** The access writes the record of its IRS. */
  predicate Puts(p: Proc, s: Store, t: Tick) {
    && !t.fault
    && match p.phase
       case CREATE => p.irs.state == REGISTERED || p.irs.defaultImpu !in s.impus
       case WRITE => CasMatches(s.impus, p.irs.defaultImpu, p.cas)
       case _ => false
  }

  /** The access deletes the record under k, without looking at it. */
  predicate Drops(p: Proc, t: Tick, k: string) {
    !t.fault && ((p.phase.DELETE? && k == p.irs.defaultImpu) || p.phase == ERASE(k))
  }

  /** The access writes a pointer under k, without looking at what is there. */
  predicate Points(p: Proc, t: Tick, k: string) {
    !t.fault && p.phase.POINTERS? && p.drop == {} && t.a == k && k in p.write
  }

  /** What a step makes of the store. */
  function Effect(p: Proc, s: Store, t: Tick): (r: Store) {
    if Puts(p, s, t) then PutImpu(s, p.irs.defaultImpu, AsRecord(p.irs, t.now))
    else if Drops(p, t, p.irs.defaultImpu) then DropImpu(s, p.irs.defaultImpu)
    else if p.phase.ERASE? && Drops(p, t, p.phase.a) then DropImpu(s, p.phase.a)
    else if Points(p, t, t.a) then PutImpu(s, t.a, Associated(p.irs.defaultImpu, p.irs.ttl + t.now))
    else s
  }

  function Step(sys: System, t: Tick): (r: System) {
    if t.p >= |sys.procs| then sys
    else System(Effect(sys.procs[t.p], sys.store, t), sys.procs[t.p := Moved(sys.procs[t.p], sys.store, t)])
  }

  function Run(sys: System, ticks: seq<Tick>): (r: System)
    decreases |ticks|
  {
    if ticks == [] then sys else Run(Step(sys, ticks[0]), ticks[1..])
  }

  // -------------------------------------------------------------------- invariant

  /** The store holds a registered default record under k. */
  predicate Registered(s: Store, k: string) {
    k in s.impus && s.impus[k].value.Default? && s.impus[k].value.state == REGISTERED
  }

  /** Every stored record says either registered or unregistered. */
  ghost predicate TwoStates(s: Store) {
    forall k :: k in s.impus && s.impus[k].value.Default? ==> s.impus[k].value.state in {REGISTERED, UNREGISTERED}
  }

  /** What a request may write: the caller's state is REGISTERED when updating, and when the
      caller set none it is that of the version to be replaced. */
  ghost predicate Honest(p: Proc, s: Store) {
    var d := p.irs.defaultImpu;
    && p.cas <= s.lastCas
    && (p.phase in {CREATE, WRITE, REREAD} ==> p.irs.state in {REGISTERED, UNREGISTERED})
    && (p.phase in {WRITE, REREAD} ==> (if p.irs.stateSet then p.irs.state == REGISTERED else !p.irs.refreshed))
    && (p.phase.WRITE? && !p.irs.stateSet && p.cas != 0 && d in s.impus && s.impus[d].cas == p.cas ==>
          s.impus[d].value.Default? && s.impus[d].value.state == p.irs.state)
  }

  ghost predicate Inv(sys: System) {
    && ValidStore(sys.store) && TwoStates(sys.store)
    && forall n :: 0 <= n < |sys.procs| ==> Honest(sys.procs[n], sys.store)
  }

  lemma StartHonest(req: Request, s: Store)
    ensures Honest(Start(req), s)
  {
  }

  lemma AssignHonest(p: Proc, found: Irs, phase: Phase, s: Store)
    requires Honest(p, s) && found.cas <= s.lastCas && phase in {CREATE, WRITE}
    requires p.req.kind == REGISTER || (p.req.kind == CALL && phase == CREATE)
    ensures Honest(Assign(p, found, phase), s)
  {
    hide Assigned, RegDataTask.Prepared, Identities.PublicIds;
    var req := p.req;
    var c := match req.charging case Some(c) => c case None => Charging([], []);
    var x := match req.xml case Some(x) => x case None => Xml("", []);
    PreparedState(RequestType(req.kind), found, req.impi, c, x, req.ttl);
  }

  lemma PreparedState(t: RegDataTask.RequestType, found: Irs, sent: string, c: Charging, x: Xml, ttl: int)
    requires t in {RegDataTask.REG, RegDataTask.CALL}
    ensures var irs := Assigned(RegDataTask.Prepared(t, found, sent), c, x, ttl);
            irs.stateSet && irs.refreshed && irs.state == if t.REG? then REGISTERED else UNREGISTERED
  {
    hide Replaced, Identities.PublicIds, Identities.DefaultId, RegDataTask.NewBinding;
  }

  lemma PushHonest(p: Proc, d: string, s: Store, now: int)
    requires ValidStore(s) && TwoStates(s) && d in s.impus && s.impus[d].value.Default?
    requires p.req.xml.Some? ==> Identities.DefaultId(p.req.xml.value) == d
    ensures var irs := FromRecord(d, s.impus[d], now);
            Honest(p.(phase := WRITE, irs := WithPush(irs, p.req.xml, p.req.charging), cas := irs.cas), s)
  {
    hide Replaced, AllIn, Identities.PublicIds, Identities.DefaultId;
  }

  /** What a request prepares to write after its lookup. */
  lemma FoundHonest(p: Proc, d: string, s: Store, now: int)
    requires ValidStore(s) && TwoStates(s) && Honest(p, s) && d in s.impus && s.impus[d].value.Default?
    ensures Honest(OnFound(p, FromRecord(d, s.impus[d], now)), s)
  {
    hide Assign, WithPush, AllIn;
    var irs := FromRecord(d, s.impus[d], now);
    match p.req.kind
    case REGISTER => AssignHonest(p, irs, WRITE, s);
    case PUSH =>
      if !(p.req.xml.Some? && Identities.DefaultId(p.req.xml.value) != d) {
        PushHonest(p, d, s, now);
      }
    case CALL =>
    case DEREGISTER =>
  }

  lemma NotFoundHonest(p: Proc, s: Store)
    requires Honest(p, s)
    ensures Honest(OnNotFound(p), s)
  {
    hide Assign;
    if p.req.kind in {REGISTER, CALL} {
      AssignHonest(p, RegDataTask.Unknown(), CREATE, s);
    }
  }

  lemma LookupHonest(p: Proc, s: Store, t: Tick)
    requires ValidStore(s) && TwoStates(s) && Honest(p, s)
    ensures Honest(AfterLookup(p, s, t), s)
    ensures p.phase.FOLLOW? ==> Honest(AfterFollow(p, s, t, p.phase.d), s)
  {
    hide OnFound, OnNotFound, FromRecord, TwoStates;
    NotFoundHonest(p, s);
    var k := p.req.impu;
    if k in s.impus && s.impus[k].value.Default? {
      FoundHonest(p, k, s, t.now);
    }
    if p.phase.FOLLOW? && p.phase.d in s.impus && s.impus[p.phase.d].value.Default? {
      FoundHonest(p, p.phase.d, s, t.now);
    }
  }

  lemma RereadHonest(p: Proc, s: Store, t: Tick)
    requires ValidStore(s) && TwoStates(s) && Honest(p, s) && p.phase.REREAD?
    ensures Honest(AfterReread(p, s, t), s)
  {
    hide Merged, Superseded;
  }

  /** Fresh versions and deletions spoil nobody's honesty. */
  lemma WriteHonest(q: Proc, s: Store, k: string, r: Record)
    requires ValidStore(s) && TwoStates(s) && Honest(q, s)
    ensures Honest(q, PutImpu(s, k, r)) && Honest(q, DropImpu(s, k))
    ensures TwoStates(PutImpu(s, k, r)) && TwoStates(DropImpu(s, k))
  {
  }

  lemma EffectHonest(p: Proc, q: Proc, s: Store, t: Tick)
    requires ValidStore(s) && TwoStates(s) && Honest(q, s)
    ensures ValidStore(Effect(p, s, t)) && TwoStates(Effect(p, s, t)) && Honest(q, Effect(p, s, t))
  {
    hide PutImpu, DropImpu, Honest, TwoStates, AsRecord, Puts;
    WriteHonest(q, s, p.irs.defaultImpu, AsRecord(p.irs, t.now));
    WriteHonest(q, s, t.a, Associated(p.irs.defaultImpu, p.irs.ttl + t.now));
    if p.phase.ERASE? {
      WriteHonest(q, s, p.phase.a, AsRecord(p.irs, t.now));
    }
  }

  lemma MovedHonest(p: Proc, s: Store, t: Tick)
    requires ValidStore(s) && TwoStates(s) && Honest(p, s)
    ensures Honest(Moved(p, s, t), s)
  {
    hide AfterLookup, AfterFollow, AfterReread, TwoStates, Written, InState;
    if p.phase.LOOKUP? || p.phase.FOLLOW? {
      LookupHonest(p, s, t);
    } else if p.phase.REREAD? {
      RereadHonest(p, s, t);
    }
  }

  lemma StepInv(sys: System, t: Tick)
    requires Inv(sys)
    ensures Inv(Step(sys, t))
  {
    hide Effect, Moved, Honest, TwoStates;
    if t.p < |sys.procs| {
      var p, s, r := sys.procs[t.p], sys.store, Step(sys, t);
      MovedHonest(p, s, t);
      forall n | 0 <= n < |r.procs| ensures Honest(r.procs[n], r.store) {
        EffectHonest(p, if n == t.p then Moved(p, s, t) else sys.procs[n], s, t);
      }
      EffectHonest(p, p, s, t);
    }
  }

  // --------------------------------------------------------------------- theorems

  /** The step takes a registered record from k: it deletes it for a deregistration, erases it
      taking it for a pointer it has read before, or writes a pointer over it. */
  ghost predicate Takes(sys: System, t: Tick, k: string) {
    t.p < |sys.procs| && (Drops(sys.procs[t.p], t, k) || Points(sys.procs[t.p], t, k))
  }

  /** A registered record stays registered, exactly unless the step takes it; and whatever a
      step puts is registered or unregistered, never NOT_REGISTERED. */
  lemma StepKeepsRegistered(sys: System, t: Tick, k: string)
    requires Inv(sys)
    ensures Registered(sys.store, k) ==> (Registered(Step(sys, t).store, k) <==> !Takes(sys, t, k))
    ensures t.p < |sys.procs| && Puts(sys.procs[t.p], sys.store, t) ==>
              AsRecord(sys.procs[t.p].irs, t.now).state in {REGISTERED, UNREGISTERED}
  {
    hide Moved;
  }

  ghost predicate EverTaken(sys: System, ticks: seq<Tick>, k: string)
    decreases |ticks|
  {
    ticks != [] && (Takes(sys, ticks[0], k) || EverTaken(Step(sys, ticks[0]), ticks[1..], k))
  }

  /** Some step of the run replaces a registered record by an unregistered one. */
  ghost predicate EverRegresses(sys: System, ticks: seq<Tick>, k: string)
    decreases |ticks|
  {
    && ticks != []
    && var one := Step(sys, ticks[0]);
       || (Registered(sys.store, k) && k in one.store.impus && one.store.impus[k].value.Default? &&
           !Registered(one.store, k))
       || EverRegresses(one, ticks[1..], k)
  }

  /** Taking leaves no default record. */
  lemma TakenIsGone(sys: System, t: Tick, k: string)
    requires Inv(sys) && Registered(sys.store, k) && Takes(sys, t, k)
    ensures var s := Step(sys, t).store; !(k in s.impus && s.impus[k].value.Default?)
  {
    hide Moved;
  }

  /** Registration state never regresses: over every interleaving no step replaces a
      registered record by an unregistered one, and a registered record is still there at
      the end unless some step took it. */
  lemma {:induction false} RunKeepsRegistered(sys: System, ticks: seq<Tick>, k: string)
    requires Inv(sys)
    ensures Inv(Run(sys, ticks))
    ensures !EverRegresses(sys, ticks, k)
    ensures Registered(sys.store, k) && !EverTaken(sys, ticks, k) ==> Registered(Run(sys, ticks).store, k)
    decreases |ticks|
  {
    hide Step, Takes, Honest, TwoStates;
    if ticks != [] {
      StepInv(sys, ticks[0]);
      StepKeepsRegistered(sys, ticks[0], k);
      RunKeepsRegistered(Step(sys, ticks[0]), ticks[1..], k);
      if Registered(sys.store, k) && Takes(sys, ticks[0], k) {
        TakenIsGone(sys, ticks[0], k);
      }
    }
  }

  // --------------------------------------------------------------- one request alone

  /** With nobody else moving, the lookup finds what the records say. */
  lemma LookupFinds(p: Proc, s: Store, t: Tick)
    requires p.phase == LOOKUP && !t.fault
    ensures var q := Moved(p, s, t);
            (if q.phase.FOLLOW? then Moved(q, s, t) else q) ==
              match Lookup.DefaultOf(Values(s.impus), p.req.impu)
              case None => OnNotFound(p)
              case Some(d) => OnFound(p, FromRecord(d, s.impus[d], t.now))
  {
    hide FromRecord, Assigned, WithPush, RegDataTask.Prepared, Identities.PublicIds, Identities.DefaultId;
  }

  /** The HSS answers a request with a document that names somebody. */
  predicate Answered(req: Request) {
    req.xml.Some? && Identities.PublicIds(req.xml.value) != []
  }

  /** What follows when an IRS is found: the one that the handler prepares is put or deleted; a
      call, a push for another set and an answer that names nobody change nothing. */
  lemma FoundFor(p: Proc, found: Irs)
    ensures var req, q := p.req, OnFound(p, found);
            match req.kind
            case REGISTER =>
              if !Answered(req) then q.phase == END
              else
                && q.phase == WRITE && q.cas == found.cas && q.irs.xml == req.xml.value
                && q.irs == Assigned(RegDataTask.Prepared(RegDataTask.REG, found, req.impi),
                                     q.irs.charging, q.irs.xml, req.ttl)
                && (req.charging.Some? ==> q.irs.charging == req.charging.value)
            case CALL => q.phase == END
            case PUSH =>
              if req.xml.Some? && Identities.DefaultId(req.xml.value) != found.defaultImpu then q.phase == END
              else q.phase == WRITE && q.cas == found.cas && q.irs == WithPush(found, req.xml, req.charging)
            case DEREGISTER =>
              q.phase == DELETE && q.irs.defaultImpu == found.defaultImpu && q.irs.associated == found.associated
  {
    hide Replaced, Identities.DefaultId, RegDataTask.NewBinding, RegDataTask.PrivateId;
    assert Identities.PublicIds(Xml("", [])) == [];
    hide Identities.PublicIds;
  }

  /** And when none is found: registrations and calls create one. */
  lemma NotFoundFor(p: Proc)
    ensures var req, q := p.req, OnNotFound(p);
            if req.kind in {REGISTER, CALL} && Answered(req) then
              && q.phase == CREATE && !q.irs.existing && q.irs.refreshed && q.irs.xml == req.xml.value
              && q.irs.state == (if req.kind == REGISTER then REGISTERED else UNREGISTERED)
              && (req.charging.Some? ==> q.irs.charging == req.charging.value)
            else q.phase == END
  {
    hide Replaced, Identities.DefaultId, RegDataTask.NewBinding;
    assert Identities.PublicIds(Xml("", [])) == [];
    hide Identities.PublicIds;
  }

  /** The creation writes what the cache's first step writes. */
  lemma LoneCreate(p: Proc, s: Store, t: Tick)
    requires ValidStore(s) && p.phase == CREATE && !p.irs.existing && !t.fault
    ensures Effect(p, s, t) == CacheActions.WriteDefault(p.irs, s, false, t.now).store && Moved(p, s, t) == AfterPut(p)
  {
  }

  function Alone(p: Proc, s: Store, t: Tick, n: nat): (r: (Proc, Store))
    decreases n
  {
    if n == 0 then (p, s) else Alone(Moved(p, s, t), Effect(p, s, t), t, n - 1)
  }

  /** So does the update, in at most three accesses, or it gives up as the cache does. */
  lemma LoneWrite(p: Proc, s: Store, t: Tick)
    requires ValidStore(s) && p.phase == WRITE && p.irs.existing && p.cas == p.irs.cas > 0 && !t.fault
    ensures var w := ImpuAction.Perform(ImpuAction.SET, p.irs, s, [], true, t.now);
            var (q, r) := Alone(p, s, t, if CasMatches(s.impus, p.irs.defaultImpu, p.cas) then 1 else 3);
            && r == w.store
            && (w.status == OK ==> q == AfterPut(q.(irs := w.irs)))
            && (w.status != OK ==> q.phase == END)
  {
    hide AsRecord, PutImpu, Moved, Effect, ImpuAction.Perform, ImpuAction.Reread;
    PerformAlone(p.irs, s, t.now);
    WriteAlone(p, s, t);
    var q1 := Moved(p, s, t);
    if CasMatches(s.impus, p.irs.defaultImpu, p.cas) {
      assert Alone(q1, Effect(p, s, t), t, 0) == (q1, Effect(p, s, t));
    } else {
      RereadAlone(q1, s, t);
      var q2 := Moved(q1, s, t);
      WriteAlone(q2, s, t);
      var q3, s3 := Moved(q2, s, t), Effect(q2, s, t);
      assert Alone(q3, s3, t, 0) == (q3, s3) && Alone(q2, s, t, 1) == (q3, s3) && Alone(q1, s, t, 2) == (q3, s3);
    }
  }

  /** One write access, or none at all. */
  lemma WriteAlone(p: Proc, s: Store, t: Tick)
    requires !t.fault
    ensures p.phase == WRITE ==>
              if Puts(p, s, t) then
                && Moved(p, s, t) == AfterPut(p)
                && Effect(p, s, t) == PutImpu(s, p.irs.defaultImpu, AsRecord(p.irs, t.now))
              else Moved(p, s, t) == p.(phase := REREAD) && Effect(p, s, t) == s
    ensures p.phase == END ==> Moved(p, s, t) == p && Effect(p, s, t) == s
  {
  }

  /** The cache's loop on a quiet store. */
  lemma PerformAlone(irs: Irs, s: Store, now: int)
    requires ValidStore(s)
    ensures var w := ImpuAction.Perform(ImpuAction.SET, irs, s, [], true, now);
            if CasMatches(s.impus, irs.defaultImpu, irs.cas) then
              w.status == OK && w.irs == irs && w.store == PutImpu(s, irs.defaultImpu, AsRecord(irs, now))
            else
              var r := ImpuAction.Reread(ImpuAction.SET, irs, s, [], now);
              w.status == r.status && w.irs == r.irs && w.store == r.store
  {
    hide AsRecord, PutImpu, ImpuAction.Reread;
    assert AfterTurns(s, []) == s;
    assert ImpuAction.Next([]) == [] && ImpuAction.Rest([]) == [];
    CacheActions.QuietReread(ImpuAction.SET, irs, s, now);
  }

  /** The read before the update is tried again. */
  lemma RereadAlone(p: Proc, s: Store, t: Tick)
    requires ValidStore(s) && p.phase == REREAD && !t.fault
    ensures var w, q := ImpuAction.Reread(ImpuAction.SET, p.irs, s, [], t.now), Moved(p, s, t);
            && Effect(p, s, t) == s
            && (w.status != OK ==> q.phase == END && w.store == s)
            && (w.status == OK ==>
                  && q.phase == WRITE && q.irs == w.irs && Puts(q, s, t)
                  && w.store == PutImpu(s, q.irs.defaultImpu, AsRecord(q.irs, t.now)))
  {
    hide AsRecord, Encoded, Merged, Superseded;
    assert AfterTurns(s, []) == s;
    assert ImpuAction.Next([]) == [] && ImpuAction.Rest([]) == [];
  }

  /** And the deletion. */
  lemma LoneDelete(p: Proc, s: Store, t: Tick)
    requires ValidStore(s) && p.phase == DELETE && !t.fault
    ensures Effect(p, s, t) ==
              ImpuAction.Perform(ImpuAction.DELETE, p.irs.(refreshed := true), s, [], true, t.now).store
    ensures Moved(p, s, t) == AfterDelete(p)
  {
    assert AfterTurns(s, []) == s;
    assert ImpuAction.Next([]) == [] && ImpuAction.Rest([]) == [];
  }

  /** The IMPUs as they will be when this request has dealt with its pointers. */
  function AtLast(p: Proc, s: Store, now: int): (r: map<string, Record>) {
    Pointers(Values(s.impus), p.irs.defaultImpu, p.write, p.drop + if p.phase.ERASE? then {p.phase.a} else {},
             p.irs.ttl + now)
  }

  /** It is doing so: nothing is both removed and written, and what it erases is a pointer. */
  ghost predicate Pointing(p: Proc, s: Store) {
    && (p.phase == POINTERS || p.phase.ERASE?)
    && p.drop !! p.write
    && (p.phase.ERASE? ==>
          && p.phase.a !in p.drop + p.write
          && p.phase.a in s.impus && PointsTo(s.impus[p.phase.a].value, p.irs.defaultImpu))
  }

  /** Alone, whatever order it takes them in, each access brings it nearer to that and leaves the
      end as it was; when no pointer is left, it is there. */
  lemma LonePointer(p: Proc, s: Store, t: Tick)
    requires Pointing(p, s) && !t.fault
    ensures var q, r := Moved(p, s, t), Effect(p, s, t);
            Pointing(q, r) && q.irs == p.irs && AtLast(q, r, t.now) == AtLast(p, s, t.now)
    ensures p.phase == POINTERS && p.drop == p.write == {} ==> AtLast(p, s, t.now) == Values(s.impus)
  {
    if p.phase.ERASE? {
      assert p.drop + {} == p.drop;
      assert Values(DropImpu(s, p.phase.a).impus) == Values(s.impus) - {p.phase.a};
    } else if p.drop != {} {
      LoneRead(p, s, t);
    } else {
      LoneWriting(p, s, t);
    }
  }

  lemma LoneRead(p: Proc, s: Store, t: Tick)
    requires Pointing(p, s) && !t.fault && p.phase == POINTERS && p.drop != {}
    ensures var q, r := Moved(p, s, t), Effect(p, s, t);
            Pointing(q, r) && q.irs == p.irs && AtLast(q, r, t.now) == AtLast(p, s, t.now)
  {
    if t.a in p.drop {
      assert p.drop - {t.a} + {t.a} == p.drop && p.drop - {t.a} + {} == p.drop - {t.a} && p.drop + {} == p.drop;
    }
  }

  lemma LoneWriting(p: Proc, s: Store, t: Tick)
    requires Pointing(p, s) && !t.fault && p.phase == POINTERS && p.drop == {}
    ensures var q, r := Moved(p, s, t), Effect(p, s, t);
            Pointing(q, r) && q.irs == p.irs && AtLast(q, r, t.now) == AtLast(p, s, t.now)
  {
    assert p.drop + {} == {};
    if t.a !in p.write {
      assert p.write - {t.a} == p.write;
    }
  }

  /** What that is, after a put and after a deletion: the cache's last word on the IMPUs. */
  lemma PointersAtLast(p: Proc, s: Store, t: Tick)
    requires !t.fault
    ensures Puts(p, s, t) ==>
              && Pointing(Moved(p, s, t), Effect(p, s, t))
              && AtLast(Moved(p, s, t), Effect(p, s, t), t.now) == Consistency.PutImpus(Values(s.impus), p.irs, t.now)
    ensures p.phase == DELETE ==>
              && Pointing(Moved(p, s, t), Effect(p, s, t))
              && AtLast(Moved(p, s, t), Effect(p, s, t), t.now) ==
                   Consistency.DeletedImpus(Values(s.impus), p.irs, t.now)
  {
    hide AsRecord, Encoded, Pointers;
    var own, r := p.irs.defaultImpu, Effect(p, s, t);
    if Puts(p, s, t) {
      assert Values(r.impus) == Values(s.impus)[own := Encoded(AsRecord(p.irs, t.now))];
      assert InState(p.irs.associated, DELETED) + {} == InState(p.irs.associated, DELETED);
    } else if p.phase == DELETE {
      assert Values(r.impus) == Values(s.impus) - {own};
      assert p.irs.associated.Keys + {} == p.irs.associated.Keys;
    }
  }

  // ------------------------------------------------------------------ sharp edges

  /** A document that lists some unbarred IMPUs in one profile. */
  function Listing(ids: seq<string>): (xml: Xml) {
    Xml("", [Profile(ids)])
  }

  function Profile(ids: seq<string>): (p: seq<PublicIdentity>) {
    if ids == [] then [] else Profile(ids[..|ids| - 1]) + [PublicIdentity(Some(ids[|ids| - 1]), false)]
  }

  function Entries(ids: seq<string>): (w: seq<Identities.Entry>) {
    if ids == [] then [] else Entries(ids[..|ids| - 1]) + [Identities.Entry(ids[|ids| - 1], false)]
  }

  lemma {:induction false} ProfileEntries(ids: seq<string>)
    ensures Identities.Profile(Profile(ids)) == Entries(ids)
  {
    if ids != [] {
      var before := ids[..|ids| - 1];
      ProfileEntries(before);
      assert Profile(ids)[..|Profile(ids)| - 1] == Profile(before);
    }
  }

  lemma EntriesSnoc(before: seq<string>, last: string)
    requires last !in before
    requires Identities.Ids(Entries(before)) == before && Identities.Unbarred(Entries(before)) == before
    ensures var w := Entries(before + [last]);
            Identities.Ids(w) == before + [last] && Identities.Unbarred(w) == before + [last]
  {
    hide Identities.Ids, Identities.Unbarred;
    assert (before + [last])[..|before|] == before;
    Identities.Mention(Entries(before), Identities.Entry(last, false));
  }

  lemma {:induction false} EntriesIds(ids: seq<string>)
    requires forall m, n :: 0 <= m < n < |ids| ==> ids[m] != ids[n]
    ensures Identities.Ids(Entries(ids)) == ids && Identities.Unbarred(Entries(ids)) == ids
  {
    if ids == [] {
      assert Entries(ids) == [];
    } else {
      hide Identities.Ids, Identities.Unbarred, Entries;
      var before, last := ids[..|ids| - 1], ids[|ids| - 1];
      EntriesIds(before);
      EntriesSnoc(before, last);
      assert ids == before + [last];
    }
  }

  /** Its public identities are those, and the first one is the default. */
  lemma ListingIds(ids: seq<string>)
    requires ids != [] && forall m, n :: 0 <= m < n < |ids| ==> ids[m] != ids[n]
    ensures Identities.PublicIds(Listing(ids)) == ids && Identities.DefaultId(Listing(ids)) == ids[0]
  {
    var ps: seq<seq<PublicIdentity>> := [Profile(ids)];
    assert ps[..0] == [];
    assert Identities.Walk(ps) == Identities.Profile(Profile(ids));
    ProfileEntries(ids);
    EntriesIds(ids);
  }

  lemma RunCons(sys: System, t: Tick, ticks: seq<Tick>)
    ensures Run(sys, [t] + ticks) == Run(Step(sys, t), ticks)
  {
  }

  /** The store has a registered set of a, with b as its one associated IMPU. */
  ghost predicate Pair(s: Store, a: string, b: string) {
    && a != b && ValidStore(s) && TwoStates(s)
    && Registered(s, a) && s.impus[a].value.associated == {b}
    && b in s.impus && PointsTo(s.impus[b].value, a)
  }

  /** The first part: a push takes b out of a's set, and is about to erase b's pointer. */
  lemma PushReadsPointer(s: Store, a: string, b: string, q: Proc)
    requires Pair(s, a, b)
    ensures var push := Start(Request(PUSH, a, "", 0, Some(Listing([a])), None));
            var t := Tick(0, 0, false, b);
            var r := Step(Step(Step(System(s, [push, q]), t), t), t);
            && |r.procs| == 2 && r.procs[1] == q && r.procs[0].phase == ERASE(b)
            && a in r.store.impus && r.store.impus[a].value.Default? && r.store.impus[a].value.associated == {}
            && b in r.store.impus && r.store.impus[b] == s.impus[b]
  {
    hide Identities.PublicIds, Identities.DefaultId;
    var push, t := Start(Request(PUSH, a, "", 0, Some(Listing([a])), None)), Tick(0, 0, false, b);
    ListingIds([a]);
    var irs := WithPush(FromRecord(a, s.impus[a], 0), push.req.xml, push.req.charging);
    var p1 := push.(phase := WRITE, irs := irs, cas := s.impus[a].cas);
    var s1 := System(s, [p1, q]);
    assert Step(System(s, [push, q]), t) == s1;
    assert InState(irs.associated, DELETED) == {b} && Live(irs.associated) == {} &&
        InState(irs.associated, ADDED) == {};
    var s2 := Step(s1, t);
    assert s2 == System(PutImpu(s, a, AsRecord(irs, 0)), [AfterPut(p1), q]);
  }

  /** The second part: b's own registration finds no set that lists it, and creates one. */
  lemma RegistrationCreates(sys: System, a: string, b: string, i: string)
    requires a != b && |sys.procs| == 2
    requires sys.procs[1] == Start(Request(REGISTER, b, i, 0, Some(Listing([b])), None))
    requires a in sys.store.impus && sys.store.impus[a].value.Default? && b !in sys.store.impus[a].value.associated
    requires b in sys.store.impus && PointsTo(sys.store.impus[b].value, a)
    ensures var t := Tick(1, 0, false, b);
            var r := Step(Step(Step(sys, t), t), t);
            Registered(r.store, b) && |r.procs| == 2 && r.procs[0] == sys.procs[0]
  {
    hide Identities.PublicIds, Identities.DefaultId, Replaced;
    var t, p := Tick(1, 0, false, b), sys.procs[1];
    ListingIds([b]);
    assert Step(sys, t) == sys.(procs := [sys.procs[0], p.(phase := FOLLOW(a))]);
    var q := OnNotFound(p.(phase := FOLLOW(a)));
    assert q.phase == CREATE && q.irs.defaultImpu == b && q.irs.state == REGISTERED;
    assert Step(Step(sys, t), t) == sys.(procs := [sys.procs[0], q]);
  }

  /** A registered record can be lost with no deregistration at all: a push that takes b out of
      a's set reads b's pointer; b then registers on its own; and the push deletes what it
      takes for the pointer. */
  lemma RacedEraseLosesRegistration(s: Store, a: string, b: string, i: string)
    requires Pair(s, a, b)
    ensures var push := Start(Request(PUSH, a, "", 0, Some(Listing([a])), None));
            var reg := Start(Request(REGISTER, b, i, 0, Some(Listing([b])), None));
            var sys, t, u := System(s, [push, reg]), Tick(0, 0, false, b), Tick(1, 0, false, b);
            && Inv(sys)
            && Registered(Run(sys, [t, t, t, u, u, u]).store, b)
            && b !in Run(sys, [t, t, t, u, u, u, t]).store.impus
  {
    hide Step;
    var push := Start(Request(PUSH, a, "", 0, Some(Listing([a])), None));
    var reg := Start(Request(REGISTER, b, i, 0, Some(Listing([b])), None));
    var sys, t, u := System(s, [push, reg]), Tick(0, 0, false, b), Tick(1, 0, false, b);
    PushReadsPointer(s, a, b, reg);
    var s1 := Step(sys, t);
    var s2 := Step(s1, t);
    var s3 := Step(s2, t);
    RegistrationCreates(s3, a, b, i);
    var s4 := Step(s3, u);
    var s5 := Step(s4, u);
    var s6 := Step(s5, u);
    ErasesWhatIsThere(s6, b);
    RunSix(sys, t, u, []);
    RunSix(sys, t, u, [t]);
    assert [t, t, t, u, u, u] + [t] == [t, t, t, u, u, u, t];
    assert [t, t, t, u, u, u] + [] == [t, t, t, u, u, u];
    RunCons(s6, t, []);
  }

  lemma ErasesWhatIsThere(sys: System, b: string)
    requires sys.procs != [] && sys.procs[0].phase == ERASE(b)
    ensures b !in Step(sys, Tick(0, 0, false, b)).store.impus
  {
  }

  lemma RunSix(sys: System, t: Tick, u: Tick, more: seq<Tick>)
    ensures Run(sys, [t, t, t, u, u, u] + more) == Run(Step(Step(Step(Step(Step(Step(sys, t), t), t), u), u), u), more)
  {
    hide Step;
    var s3 := Step(Step(Step(sys, t), t), t);
    assert [t, t, t, u, u, u] + more == [t] + ([t] + ([t] + ([u] + ([u] + ([u] + more)))));
    RunCons(sys, t, [t] + ([t] + ([u] + ([u] + ([u] + more)))));
    RunCons(Step(sys, t), t, [t] + ([u] + ([u] + ([u] + more))));
    RunCons(Step(Step(sys, t), t), t, [u] + ([u] + ([u] + more)));
    RunCons(s3, u, [u] + ([u] + more));
    RunCons(Step(s3, u), u, [u] + more);
    RunCons(Step(Step(s3, u), u), u, more);
  }

  lemma WritesPointerNext(s: Store, a: string, b: string, p: Proc, now: int)
    requires a != b && Registered(s, b) && a !in s.impus
    requires p.phase == CREATE && p.irs.defaultImpu == a && p.irs.refreshed && p.irs.ttl == 0
    requires p.irs.associated == map[b := ADDED]
    ensures var t := Tick(0, now, false, b);
            var r := Step(System(s, [p]), t);
            Registered(r.store, b) && var q := Step(r, t).store.impus; b in q && q[b].value == Associated(a, now)
  {
    var t, q := Tick(0, now, false, b), AfterPut(p);
    hide AsRecord;
    assert q.drop == {} && b in q.write;
    var r := Step(System(s, [p]), t);
    assert r == System(PutImpu(s, a, AsRecord(p.irs, now)), [q]);
  }

  lemma PreparesPointer(a: string, b: string, i: string)
    requires a != b
    ensures var p := OnNotFound(Start(Request(REGISTER, a, i, 0, Some(Listing([a, b])), None)));
            && p.phase == CREATE && p.irs.defaultImpu == a && p.irs.refreshed && p.irs.ttl == 0
            && p.irs.associated == map[b := ADDED]
  {
    hide Identities.PublicIds, Identities.DefaultId;
    ListingIds([a, b]);
  }

  /** And with no race at all: a registration whose document lists an IMPU that is registered
      on its own writes a pointer over that one's record. */
  lemma PointerReplacesRegistration(a: string, b: string, i: string, s: Store, now: int)
    requires a != b && ValidStore(s) && TwoStates(s) && a !in s.impus && Registered(s, b)
    ensures var reg := Start(Request(REGISTER, a, i, 0, Some(Listing([a, b])), None));
            var sys, t := System(s, [reg]), Tick(0, now, false, b);
            && Inv(sys)
            && Registered(Run(sys, [t, t]).store, b)
            && var r := Run(sys, [t, t, t]).store.impus; b in r && r[b].value == Associated(a, now)
  {
    hide OnNotFound, Listing, TwoStates;
    var reg := Start(Request(REGISTER, a, i, 0, Some(Listing([a, b])), None));
    var sys, t := System(s, [reg]), Tick(0, now, false, b);
    var p := OnNotFound(reg);
    PreparesPointer(a, b, i);
    var s1 := System(s, [p]);
    assert Step(sys, t) == s1;
    WritesPointerNext(s, a, b, p, now);
    var s2 := Step(s1, t);
    hide Step;
    RunCons(sys, t, [t, t]);
    RunCons(s1, t, [t]);
    RunCons(s2, t, []);
    RunCons(sys, t, [t]);
    RunCons(s1, t, []);
  }
}
