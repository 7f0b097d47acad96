/** The registration task: one HTTP request served by cache lookups, Server-Assignment
    requests, at most one change of the cache, and one reply. */
module RegDataTask {
  import opened Types
  import opened StateMap
  import opened IrsModel
  import Identities

  datatype Verb = GET | PUT | OTHER_VERB

  datatype RequestType =
    UNKNOWN | REG | CALL | DEREG_USER | DEREG_ADMIN | DEREG_TIMEOUT | DEREG_AUTH_FAIL | DEREG_AUTH_TIMEOUT

  datatype SarType =
    | REGISTRATION | RE_REGISTRATION | UNREGISTERED_USER
    | TIMEOUT_DEREGISTRATION | USER_DEREGISTRATION | ADMINISTRATIVE_DEREGISTRATION
    | AUTHENTICATION_FAILURE | AUTHENTICATION_TIMEOUT

  datatype ResultCode = SUCCESS | SERVER_UNAVAILABLE | HSS_NOT_FOUND | NEW_WILDCARD | HSS_TIMEOUT | HSS_OTHER

  /** A Server-Assignment answer. */
  datatype Saa = Saa(rc: ResultCode, charging: Charging, xml: Xml, wildcard: string)

  /** What the handler of a request does, and the answers it gets from the HSS. */
  datatype Event =
    | LOOKED_UP(id: string, wildcard: string)
    | ASKED(sar: SarType, impi: string, impu: string, wildcard: string)
    | ANSWERED(rc: ResultCode, newWildcard: string)
    | PUT_IRS(put: Irs)
    | DELETED_IRS(deleted: Irs)
    | REPLIED(code: int)
    | DESTROYED

  predicate IsDeregistration(t: RequestType) {
    t in {DEREG_USER, DEREG_ADMIN, DEREG_TIMEOUT}
  }

  predicate IsAuthFailure(t: RequestType) {
    t in {DEREG_AUTH_FAIL, DEREG_AUTH_TIMEOUT}
  }

  function SarTypeFor(t: RequestType): (r: SarType)
    requires IsDeregistration(t) || IsAuthFailure(t)
  {
    match t
    case DEREG_USER => USER_DEREGISTRATION
    case DEREG_TIMEOUT => TIMEOUT_DEREGISTRATION
    case DEREG_AUTH_FAIL => AUTHENTICATION_FAILURE
    case DEREG_AUTH_TIMEOUT => AUTHENTICATION_TIMEOUT
    case _ => ADMINISTRATIVE_DEREGISTRATION
  }

  // --------------------------------------------------------------- the protocol

  /** How far a run has got, as far as its events tell. */
  datatype Stage =
    | START
    | LOOKING(wildcard: string)
    | ASKING(wildcard: string)
    | JUDGING(wildcard: string, rc: ResultCode, newWildcard: string)
    | WRITING(outcome: ResultCode)
    | CLOSING
    | GONE

  /** Whom a request is about: an IMPU, and the wildcard that Sprout thinks it matches, if any. */
  datatype Target = Target(impu: string, wildcard: string)

  /** The protocol a request of the given type keeps to: what may come next, and where it
      leads.  The cache is changed only on an answer that calls for it. */
  function Next(t: RequestType, to: Target, stage: Stage, e: Event): (r: Option<Stage>) {
    match stage
    case START =>
      if e.LOOKED_UP? && e.wildcard == to.wildcard && e.id == Key(to, e.wildcard) then Some(LOOKING(e.wildcard))
      else if e.REPLIED? then Some(CLOSING) else None
    case LOOKING(w) =>
      if e.ASKED? && e.wildcard == w && e.impu == to.impu && Suits(t, e.sar) then Some(ASKING(w))
      else if e.REPLIED? then Some(CLOSING) else None
    case ASKING(w) =>
      if e.ANSWERED? then Some(JUDGING(w, e.rc, e.newWildcard)) else None
    case JUDGING(w, rc, named) =>
      if rc == NEW_WILDCARD && named != w then
        if e.LOOKED_UP? && e.wildcard == Effective(named, to.wildcard) && e.id == Key(to, e.wildcard)
        then Some(LOOKING(e.wildcard)) else None
      else if rc == SUCCESS && t in {REG, CALL} && e.PUT_IRS? && e.put.state == AssignedState(t) then Some(WRITING(rc))
      else if IsDeregistration(t) && rc != SERVER_UNAVAILABLE && e.DELETED_IRS? && e.deleted.state == AssignedState(t)
      then Some(WRITING(rc))
      else if e.REPLIED? && (rc != SUCCESS ==> e.code == Failure(rc)) &&
              !(IsDeregistration(t) && rc != SERVER_UNAVAILABLE)
      then Some(CLOSING)
      else None
    case WRITING(rc) =>
      if e.REPLIED? && (if rc != SUCCESS then e.code == Failure(rc)
                        else e.code in {HTTP_OK, HTTP_SERVER_ERROR, HTTP_SERVER_UNAVAILABLE})
      then Some(CLOSING) else None
    case CLOSING => if e.DESTROYED? then Some(GONE) else None
    case GONE => None
  }

  /** The Server-Assignment that a request of some type may ask for. */
  predicate Suits(t: RequestType, sar: SarType) {
    match t
    case UNKNOWN => false
    case REG => sar in {REGISTRATION, RE_REGISTRATION}
    case CALL => sar == UNREGISTERED_USER
    case DEREG_USER => sar == USER_DEREGISTRATION
    case DEREG_ADMIN => sar == ADMINISTRATIVE_DEREGISTRATION
    case DEREG_TIMEOUT => sar == TIMEOUT_DEREGISTRATION
    case DEREG_AUTH_FAIL => sar == AUTHENTICATION_FAILURE
    case DEREG_AUTH_TIMEOUT => sar == AUTHENTICATION_TIMEOUT
  }

  /** A wildcard from the HSS overrides the one from Sprout. */
  function Effective(hss: string, sprout: string): (r: string) {
    if hss == "" then sprout else hss
  }

  /** What is looked up: a wildcard, or the IMPU itself if there is none. */
  function Key(to: Target, wildcard: string): (id: string) {
    if wildcard == "" then to.impu else wildcard
  }

  function AssignedState(t: RequestType): (r: RegState) {
    if t.REG? then REGISTERED else if t.CALL? then UNREGISTERED else NOT_REGISTERED
  }

  function StageAfter(t: RequestType, to: Target, log: seq<Event>): (r: Option<Stage>) {
    if log == [] then Some(START)
    else
      match StageAfter(t, to, log[..|log| - 1])
      case None => None
      case Some(stage) => Next(t, to, stage, log[|log| - 1])
  }

  lemma StageSnoc(t: RequestType, to: Target, log: seq<Event>, e: Event)
    ensures StageAfter(t, to, log + [e]) ==
              match StageAfter(t, to, log) case None => None case Some(stage) => Next(t, to, stage, e)
  {
  }

  predicate IsReply(e: Event) { e.REPLIED? }
  predicate IsMutation(e: Event) { e.PUT_IRS? || e.DELETED_IRS? }
  predicate IsEnd(e: Event) { e.DESTROYED? }

  /** How many replies, cache changes and destructions a stage has behind it. */
  lemma {:induction false} ProtocolCounts(t: RequestType, to: Target, log: seq<Event>)
    requires StageAfter(t, to, log).Some?
    ensures var stage := StageAfter(t, to, log).value;
            && Count(log, IsReply) == (if stage in {CLOSING, GONE} then 1 else 0)
            && Count(log, IsEnd) == (if stage.GONE? then 1 else 0)
            && Count(log, IsMutation) <= 1
            && (stage.START? || stage.LOOKING? || stage.ASKING? || stage.JUDGING? ==> Count(log, IsMutation) == 0)
            && (stage.WRITING? ==> Count(log, IsMutation) == 1)
  {
    if log != [] {
      ProtocolCounts(t, to, log[..|log| - 1]);
    }
  }

  /** What the reply says of a Server-Assignment that failed, whether or not the cache was changed
      on the way. */
  predicate Tells(rc: ResultCode, code: int) {
    match rc
    case SUCCESS => true
    case SERVER_UNAVAILABLE => code == 503
    case HSS_NOT_FOUND => code == 404
    case HSS_TIMEOUT => code == 504
    case _ => code == 500
  }

  /** Every change of the cache comes directly after the answer that called for it: a put of
      a registered or unregistered IRS after a success to REG or CALL, a deletion after any
      answer but SERVER_UNAVAILABLE to a deregistration, of an IRS marked NOT_REGISTERED.
      Every lookup but the first comes after the HSS named a wildcard other than the one just
      used. */
  lemma {:induction false} ProtocolCauses(t: RequestType, to: Target, log: seq<Event>, n: nat)
    requires StageAfter(t, to, log).Some? && n < |log|
    ensures log[n].PUT_IRS? ==>
              n > 0 && log[n - 1].ANSWERED? && log[n - 1].rc == SUCCESS && t in {REG, CALL} &&
              log[n].put.state == if t.REG? then REGISTERED else UNREGISTERED
    ensures log[n].DELETED_IRS? ==>
              n > 0 && log[n - 1].ANSWERED? && log[n - 1].rc != SERVER_UNAVAILABLE && IsDeregistration(t) &&
              log[n].deleted.state == NOT_REGISTERED
    ensures log[n].LOOKED_UP? && n > 0 ==>
              && n > 2 && log[n - 1].ANSWERED? && log[n - 1].rc == NEW_WILDCARD
              && log[n - 2].ASKED? && log[n - 3].LOOKED_UP? && log[n - 2].wildcard == log[n - 3].wildcard
              && log[n - 1].newWildcard != log[n - 3].wildcard
              && log[n].wildcard == Effective(log[n - 1].newWildcard, to.wildcard)
    ensures log[n].LOOKED_UP? ==> log[n].id == if log[n].wildcard == "" then to.impu else log[n].wildcard
    ensures log[n].LOOKED_UP? && n == 0 ==> log[n].wildcard == to.wildcard
    ensures log[n].ASKED? ==>
              && n > 0 && log[n - 1].LOOKED_UP? && log[n].wildcard == log[n - 1].wildcard && log[n].impu == to.impu
              && (t.REG? <==> log[n].sar in {REGISTRATION, RE_REGISTRATION})
              && (t.CALL? <==> log[n].sar == UNREGISTERED_USER)
              && (t.DEREG_USER? <==> log[n].sar == USER_DEREGISTRATION)
              && (t.DEREG_ADMIN? <==> log[n].sar == ADMINISTRATIVE_DEREGISTRATION)
              && (t.DEREG_TIMEOUT? <==> log[n].sar == TIMEOUT_DEREGISTRATION)
              && (t.DEREG_AUTH_FAIL? <==> log[n].sar == AUTHENTICATION_FAILURE)
              && (t.DEREG_AUTH_TIMEOUT? <==> log[n].sar == AUTHENTICATION_TIMEOUT)
    ensures log[n].REPLIED? && n > 0 && log[n - 1].ANSWERED? ==> Tells(log[n - 1].rc, log[n].code)
    ensures log[n].REPLIED? && n > 0 && IsMutation(log[n - 1]) ==>
              n > 1 && log[n - 2].ANSWERED? && Tells(log[n - 2].rc, log[n].code)
    ensures log[n].DESTROYED? ==> n == |log| - 1
  {
    var before := log[..|log| - 1];
    if n < |log| - 1 {
      ProtocolCauses(t, to, before, n);
    }
    StageHistory(t, to, before);
  }

  /** The last events before each stage. */
  lemma {:induction false} StageHistory(t: RequestType, to: Target, log: seq<Event>)
    requires StageAfter(t, to, log).Some?
    ensures var stage, k := StageAfter(t, to, log).value, |log|;
            && (stage.START? ==> k == 0)
            && (stage.LOOKING? ==> k > 0 && log[k - 1].LOOKED_UP? && log[k - 1].wildcard == stage.wildcard)
            && (stage.ASKING? ==> k > 1 && log[k - 1].ASKED? && log[k - 1].wildcard == stage.wildcard &&
                                  log[k - 2].LOOKED_UP? && log[k - 2].wildcard == stage.wildcard)
            && (stage.JUDGING? ==> k > 2 && log[k - 1] == ANSWERED(stage.rc, stage.newWildcard) &&
                                   log[k - 2].ASKED? && log[k - 2].wildcard == stage.wildcard &&
                                   log[k - 3].LOOKED_UP? && log[k - 3].wildcard == stage.wildcard)
            && (stage.WRITING? ==> k > 1 && IsMutation(log[k - 1]) && log[k - 2].ANSWERED? &&
                                   log[k - 2].rc == stage.outcome)
            && (forall n :: 0 <= n < k && log[n].DESTROYED? ==> stage.GONE?)
  {
    if log != [] {
      StageHistory(t, to, log[..|log| - 1]);
    }
  }

  /** On any run, a lookup that follows an answer asks the cache for the wildcard the HSS named,
      and if it named none for Sprout's, or the IMPU; and that is something else than the lookup
      that led to the answer asked for, exactly unless the HSS named none and Sprout's had just
      been used, or one of the two was for the IMPU and the other for a wildcard equal to it. */
  lemma RetryMoves(t: RequestType, to: Target, log: seq<Event>, n: nat)
    requires StageAfter(t, to, log).Some? && 0 < n < |log| && log[n].LOOKED_UP?
    ensures n > 2 && log[n - 3].LOOKED_UP? && log[n - 1].ANSWERED?
    ensures var named := log[n - 1].newWildcard;
            && (named != "" ==> log[n].id == named)
            && (named == "" && to.wildcard != "" ==> log[n].id == to.wildcard)
            && (named == "" && to.wildcard == "" ==> log[n].id == to.impu)
    ensures var named, used := log[n - 1].newWildcard, log[n - 3].wildcard;
            log[n].id != log[n - 3].id <==>
              && !(named == "" && used == to.wildcard)
              && !(named == to.impu && used == "")
              && !(named == "" && to.wildcard == "" && used == to.impu)
              && !(named == "" && to.wildcard == to.impu && used == "")
  {
    ProtocolCauses(t, to, log, n);
    ProtocolCauses(t, to, log, n - 3);
  }

  // -------------------------------------------------------------------- the handler

  const HTTP_OK := 200
  const HTTP_BAD_REQUEST := 400
  const HTTP_NOT_FOUND := 404
  const HTTP_BADMETHOD := 405
  const HTTP_SERVER_ERROR := 500
  const HTTP_SERVER_UNAVAILABLE := 503
  const HTTP_GATEWAY_TIMEOUT := 504

  /** Nothing has been cached for the subscriber. */
  predicate NoProfile(x: Xml) { x == Xml("", []) }

  /** Sprout registers a private identity that the cached record does not know. */
  predicate NewBinding(irs: Irs, impi: string) {
    impi != "" && !NoProfile(irs.xml) && impi !in Live(irs.impis)
  }

  /** A registered record older than the re-registration time.  Its age is what has gone
      of the lifetime it was written with. */
  predicate Stale(irs: Irs, recordTtl: int, reregTime: int) {
    recordTtl - irs.ttl >= reregTime
  }

  /** The HTTP status a failed Server-Assignment leads to. */
  function Failure(rc: ResultCode): (code: int)
    requires rc != SUCCESS
    ensures code >= 400
  {
    match rc
    case SERVER_UNAVAILABLE => HTTP_SERVER_UNAVAILABLE
    case HSS_NOT_FOUND => HTTP_NOT_FOUND
    case HSS_TIMEOUT => HTTP_GATEWAY_TIMEOUT
    case _ => HTTP_SERVER_ERROR
  }

  /** The request can be answered with what is cached. */
  predicate CacheSuffices(verb: Verb, t: RequestType, found: Irs, sent: string, recordTtl: int, reregTime: int,
                          noCache: bool)
  {
    || verb.GET?
    || (t.REG? && found.state == REGISTERED && !NewBinding(found, sent) && !Stale(found, recordTtl, reregTime) &&
        !noCache)
    || (t.CALL? && found.state != NOT_REGISTERED)
  }

  /** The private identity a request is about. */
  function PrivateId(found: Irs, sent: string): (r: string) {
    if sent == "" then found.xml.privateId else sent
  }

  /** What a PUT goes on with for a subscriber nothing is cached for. */
  function Unknown(): (r: Irs) { WithState(Blank(), NOT_REGISTERED) }

  /** The IRS a request goes on with once it asks the HSS. */
  function Prepared(t: RequestType, found: Irs, sent: string): (r: Irs) {
    match t
    case REG =>
      if found.state == REGISTERED && !NewBinding(found, sent) then WithState(found, REGISTERED)
      else WithImpi(WithState(found, REGISTERED), PrivateId(found, sent), ADDED)
    case CALL => WithState(found, UNREGISTERED)
    case _ => if IsDeregistration(t) then WithState(found, NOT_REGISTERED) else found
  }

  lemma AssignedKeepsState(irs: Irs, saa: Saa, ttl: int)
    ensures var a := Assigned(irs, saa.charging, saa.xml, ttl);
            a.state == irs.state && a.xml == saa.xml
  {
  }

  class ImpuRegDataTask {
    const verb: Verb
    const ty: RequestType
    const impu: string
    const sproutWildcard: string
    const noCache: bool
    const recordTtl: int
    const reregTime: int
    /** Whether a service profile can be rendered into a reply. */
    const renders: Xml -> bool

    var impi: string
    var irs: Option<Irs>
    var cachedState: RegState
    var httpRc: int
    var hssWildcard: string
    var log: seq<Event>

    constructor (verb: Verb, body: RequestType, impu: string, impi: string, wildcard: string, noCache: bool,
                 recordTtl: int, reregTime: int, renders: Xml -> bool)
      ensures log == [] && this.verb == verb && ty == (if verb.PUT? then body else UNKNOWN)
      ensures sproutWildcard == wildcard && hssWildcard == "" && httpRc == HTTP_OK && At() == Some(START)
    {
      this.verb, this.ty := verb, if verb.PUT? then body else UNKNOWN;
      this.impu, this.impi, this.sproutWildcard, this.noCache := impu, impi, wildcard, noCache;
      this.recordTtl, this.reregTime, this.renders := recordTtl, reregTime, renders;
      this.irs, cachedState, httpRc, hssWildcard, log := None, REG_UNKNOWN, HTTP_OK, "", [];
    }

    /** Where the protocol has got to; None if it has been broken. */
    ghost function At(): (r: Option<Stage>)
      reads this
    {
      StageAfter(ty, Asked(), log)
    }

    /** The handler waits for the answer that the stage asks for. */
    ghost predicate Awaits(stage: Stage)
      reads this
    {
      && At() == Some(stage)
      && (stage.LOOKING? || stage.ASKING? ==>
            && stage.wildcard == WildcardId() && httpRc == HTTP_OK
            && (if verb.GET? then ty.UNKNOWN? else verb.PUT? && !ty.UNKNOWN?))
      && (stage.ASKING? ==>
            && verb.PUT? && irs.Some?
            && (!IsAuthFailure(ty) ==> irs.value.state == AssignedState(ty)))
    }

    /** It waits for the cache, and has kept what the HSS answered for the reply. */
    ghost predicate AwaitsCache()
      reads this
    {
      && At().Some? && At().value.WRITING?
      && httpRc == if At().value.outcome == SUCCESS then HTTP_OK else Failure(At().value.outcome)
    }

    function Asked(): (to: Target) { Target(impu, sproutWildcard) }

    function WildcardId(): (r: string)
      reads this
    {
      if hssWildcard == "" then sproutWildcard else hssWildcard
    }

    function PublicId(): (r: string)
      reads this
    {
      if WildcardId() == "" then impu else WildcardId()
    }

    method Emit(e: Event)
      modifies this`log
      ensures log == old(log) + [e]
      ensures At() == match old(At()) case None => None case Some(stage) => Next(ty, Asked(), stage, e)
    {
      StageSnoc(ty, Asked(), log, e);
      log := log + [e];
    }

    function ReplyCode(): (r: int)
      reads this
    {
      if httpRc != HTTP_OK then httpRc
      else if irs.Some? && !NoProfile(irs.value.xml) && !renders(irs.value.xml) then HTTP_SERVER_ERROR
      else HTTP_OK
    }

    method SendReply()
      modifies this`log
      ensures log == old(log) + [REPLIED(ReplyCode())]
      ensures At() == match old(At())
                      case None => None
                      case Some(stage) => Next(ty, Asked(), stage, REPLIED(ReplyCode()))
    {
      Emit(REPLIED(ReplyCode()));
    }

    /** A reply, and the handler is gone. */
    method Finish(code: int)
      requires At().Some? && (At().value.START? || At().value.LOOKING? ||
                 (At().value.WRITING? && Next(ty, Asked(), At().value, REPLIED(code)) == Some(CLOSING)) ||
                 (At().value.JUDGING? && Next(ty, Asked(), At().value, REPLIED(code)) == Some(CLOSING)))
      modifies this`log
      ensures log == old(log) + [REPLIED(code), DESTROYED] && At() == Some(GONE)
    {
      Emit(REPLIED(code));
      Emit(DESTROYED);
    }

    method Run()
      requires Awaits(START) && log == [] && hssWildcard == "" && httpRc == HTTP_OK
      requires !verb.PUT? ==> ty.UNKNOWN?
      modifies this
      ensures verb.OTHER_VERB? ==> log == [REPLIED(HTTP_BADMETHOD), DESTROYED]
      ensures verb.PUT? && ty.UNKNOWN? ==> log == [REPLIED(HTTP_BAD_REQUEST), DESTROYED]
      ensures !verb.OTHER_VERB? && !(verb.PUT? && ty.UNKNOWN?) ==> log == [LOOKED_UP(PublicId(), sproutWildcard)]
      ensures Awaits(GONE) || Awaits(LOOKING(WildcardId()))
    {
      if verb.PUT? && ty.UNKNOWN? {
        Finish(HTTP_BAD_REQUEST);
      } else if verb.OTHER_VERB? {
        Finish(HTTP_BADMETHOD);
      } else {
        Emit(LOOKED_UP(PublicId(), WildcardId()));
      }
    }

    method OnGetRegDataSuccess(found: Irs)
      requires Awaits(LOOKING(WildcardId()))
      modifies this
      ensures Moved(old(log), log, found, old(impi)) && (Awaits(GONE) || Awaits(ASKING(WildcardId())))
    {
      irs := Some(found);
      ProcessReceivedRegData();
    }

    method OnGetRegDataFailure(rc: Status)
      requires Awaits(LOOKING(WildcardId()))
      modifies this
      ensures rc == NOT_FOUND && verb.PUT? ==> Moved(old(log), log, Unknown(), old(impi))
      ensures rc == NOT_FOUND && verb.PUT? ==>
                if ty in {DEREG_USER, DEREG_ADMIN, DEREG_TIMEOUT} then log == old(log) + [REPLIED(400), DESTROYED]
                else
                  && |log| == |old(log)| + 1 && log[|old(log)|].ASKED? && irs.Some?
                  && (ty.REG? ==> log[|old(log)|].sar == REGISTRATION && irs.value.state == REGISTERED)
                  && (ty.CALL? ==> log[|old(log)|].sar == UNREGISTERED_USER && irs.value.state == UNREGISTERED)
      ensures rc == NOT_FOUND && !verb.PUT? ==> log == old(log) + [REPLIED(HTTP_NOT_FOUND), DESTROYED]
      ensures rc != NOT_FOUND ==> log == old(log) + [REPLIED(HTTP_GATEWAY_TIMEOUT), DESTROYED]
      ensures Awaits(GONE) || Awaits(ASKING(WildcardId()))
    {
      if rc == NOT_FOUND {
        if verb.PUT? {
          irs := Some(Unknown());
          ProcessReceivedRegData();
        } else {
          Finish(HTTP_NOT_FOUND);
        }
      } else {
        Finish(HTTP_GATEWAY_TIMEOUT);
      }
    }

    /** The Server-Assignment request that is needed otherwise. */
    function SarFor(found: Irs, sent: string): (r: SarType)
      requires !ty.UNKNOWN?
    {
      if ty.REG? then (if found.state == REGISTERED && !NewBinding(found, sent) then RE_REGISTRATION else REGISTRATION)
      else if ty.CALL? then UNREGISTERED_USER
      else SarTypeFor(ty)
    }

    /** What the handler does with cached data `found`, the request having come with the private
        identity `sent`: answers from the cache, rejects, or prepares the IRS and asks the HSS. */
    ghost predicate Moved(before: seq<Event>, after: seq<Event>, found: Irs, sent: string)
      reads this
    {
      if CacheSuffices(verb, ty, found, sent, recordTtl, reregTime, noCache) then
        after == before + [REPLIED(if NoProfile(found.xml) || renders(found.xml) then HTTP_OK else HTTP_SERVER_ERROR),
                           DESTROYED]
      else if IsDeregistration(ty) && found.state == NOT_REGISTERED then
        after == before + [REPLIED(HTTP_BAD_REQUEST), DESTROYED]
      else
        && !ty.UNKNOWN?
        && after == before + [ASKED(SarFor(found, sent), PrivateId(found, sent), impu, WildcardId())]
        && irs == Some(Prepared(ty, found, sent))
    }

    method ProcessReceivedRegData()
      requires Awaits(LOOKING(WildcardId())) && irs.Some?
      modifies this
      ensures Moved(old(log), log, old(irs).value, old(impi)) && hssWildcard == old(hssWildcard)
      ensures Awaits(GONE) || Awaits(ASKING(WildcardId()))
    {
      var found := irs.value;
      cachedState := found.state;
      if verb.GET? {
        Finish(ReplyCode());
        return;
      }
      var newBinding := false;
      if impi == "" {
        impi := found.xml.privateId;
      } else if !NoProfile(found.xml) && impi !in Live(found.impis) {
        newBinding := true;
      }
      if ty.REG? {
        HandleRegistration(found, newBinding);
      } else if ty.CALL? {
        HandleCall(found);
      } else if IsDeregistration(ty) {
        HandleDeregistration(found);
      } else {
        Emit(ASKED(SarTypeFor(ty), impi, impu, WildcardId()));
      }
    }

    method HandleRegistration(found: Irs, newBinding: bool)
      requires Awaits(LOOKING(WildcardId())) && ty.REG? && irs == Some(found)
      modifies this`irs, this`log
      ensures var again := found.state == REGISTERED && !newBinding;
              if again && !Stale(found, recordTtl, reregTime) && !noCache then
                log == old(log) + [REPLIED(ReplyCode()), DESTROYED] && Awaits(GONE) &&
                    irs == Some(WithState(found, REGISTERED))
              else
                && log == old(log) + [ASKED(if again then RE_REGISTRATION else REGISTRATION, impi, impu, WildcardId())]
                && Awaits(ASKING(WildcardId()))
                && irs == Some(if again then WithState(found, REGISTERED)
                    else WithImpi(WithState(found, REGISTERED), impi, ADDED))
    {
      if found.state == REGISTERED && !newBinding {
        var recordAge := recordTtl - found.ttl;
        irs := Some(WithState(found, REGISTERED));
        if recordAge >= reregTime || noCache {
          Emit(ASKED(RE_REGISTRATION, impi, impu, WildcardId()));
        } else {
          Finish(ReplyCode());
        }
      } else {
        irs := Some(WithImpi(WithState(found, REGISTERED), impi, ADDED));
        Emit(ASKED(REGISTRATION, impi, impu, WildcardId()));
      }
    }

    method HandleCall(found: Irs)
      requires Awaits(LOOKING(WildcardId())) && ty.CALL? && irs == Some(found)
      modifies this`irs, this`log
      ensures if found.state == NOT_REGISTERED then
                && log == old(log) + [ASKED(UNREGISTERED_USER, impi, impu, WildcardId())]
                && Awaits(ASKING(WildcardId())) && irs == Some(WithState(found, UNREGISTERED))
              else log == old(log) + [REPLIED(ReplyCode()), DESTROYED] && Awaits(GONE) && irs == Some(found)
    {
      if found.state == NOT_REGISTERED {
        irs := Some(WithState(found, UNREGISTERED));
        Emit(ASKED(UNREGISTERED_USER, impi, impu, WildcardId()));
      } else {
        Finish(ReplyCode());
      }
    }

    method HandleDeregistration(found: Irs)
      requires Awaits(LOOKING(WildcardId())) && IsDeregistration(ty) && irs == Some(found)
      modifies this`irs, this`log
      ensures if found.state != NOT_REGISTERED then
                && log == old(log) + [ASKED(SarTypeFor(ty), impi, impu, WildcardId())]
                && Awaits(ASKING(WildcardId())) && irs == Some(WithState(found, NOT_REGISTERED))
              else log == old(log) + [REPLIED(HTTP_BAD_REQUEST), DESTROYED] && Awaits(GONE)
    {
      if found.state != NOT_REGISTERED {
        irs := Some(WithState(found, NOT_REGISTERED));
        Emit(ASKED(SarTypeFor(ty), impi, impu, WildcardId()));
      } else {
        Finish(HTTP_BAD_REQUEST);
      }
    }

    /** What an answer other than success means for the reply; and whether it names a new
        wildcard, in which case the lookup starts over. */
    method Judge(saa: Saa) returns (retried: bool)
      requires Awaits(ASKING(WildcardId()))
      modifies this
      ensures retried <==> saa.rc == NEW_WILDCARD && saa.wildcard != old(WildcardId())
      ensures var judged := old(log) + [ANSWERED(saa.rc, saa.wildcard)];
              if retried then
                log == judged + [LOOKED_UP(PublicId(), WildcardId())] && hssWildcard == saa.wildcard &&
                    Awaits(LOOKING(WildcardId()))
              else log == judged && At() == Some(JUDGING(old(WildcardId()), saa.rc, saa.wildcard))
      ensures !retried ==> irs == old(irs) && httpRc == if saa.rc == SUCCESS then HTTP_OK else Failure(saa.rc)
    {
      Emit(ANSWERED(saa.rc, saa.wildcard));
      retried := false;
      if saa.rc == NEW_WILDCARD {
        var current := WildcardId();
        hssWildcard := saa.wildcard;
        if current == hssWildcard {
          httpRc := HTTP_SERVER_ERROR;
        } else {
          irs := None;
          Emit(LOOKED_UP(PublicId(), WildcardId()));
          retried := true;
        }
      } else if saa.rc != SUCCESS {
        httpRc := Failure(saa.rc);
      }
    }

    method OnSarResponse(saa: Saa)
      requires Awaits(ASKING(WildcardId()))
      modifies this
      ensures var judged := old(log) + [ANSWERED(saa.rc, saa.wildcard)];
              if saa.rc == NEW_WILDCARD && saa.wildcard != old(WildcardId()) then
                log == judged + [LOOKED_UP(PublicId(), WildcardId())] && hssWildcard == saa.wildcard
              else if saa.rc == SUCCESS && ty in {REG, CALL} && Identities.PublicIds(saa.xml) != [] then
                log == judged + [PUT_IRS(Assigned(old(irs).value, saa.charging, saa.xml, recordTtl))]
              else if IsDeregistration(ty) && saa.rc != SERVER_UNAVAILABLE then
                log == judged + [DELETED_IRS(old(irs).value)]
              else
                log == judged + [REPLIED(ReplyCode()), DESTROYED]
      ensures saa.rc != SUCCESS && !Awaits(LOOKING(WildcardId())) ==> httpRc == Failure(saa.rc)
      ensures Awaits(GONE) || AwaitsCache() || Awaits(LOOKING(WildcardId()))
    {
      hide StageAfter, WithXml, WithCharging, WithTtl, Assigned;
      AssignedKeepsState(irs.value, saa, recordTtl);
      var retried := Judge(saa);
      if retried {
        return;
      }
      if saa.rc == SUCCESS && !IsDeregistration(ty) && !IsAuthFailure(ty) {
        irs := Some(Assigned(irs.value, saa.charging, saa.xml, recordTtl));
        PutInCache();
      } else if IsDeregistration(ty) && saa.rc != SERVER_UNAVAILABLE {
        Emit(DELETED_IRS(irs.value));
      } else {
        Finish(ReplyCode());
      }
    }

    method PutInCache()
      requires irs.Some? && At().Some? && At().value.JUDGING? && At().value.rc == SUCCESS
      requires ty in {REG, CALL} && irs.value.state == AssignedState(ty)
      modifies this`log
      ensures if Identities.PublicIds(irs.value.xml) != [] then
                log == old(log) + [PUT_IRS(irs.value)] && At() == Some(WRITING(SUCCESS))
              else log == old(log) + [REPLIED(ReplyCode()), DESTROYED] && At() == Some(GONE)
    {
      var ids, _ := Identities.GetPublicAndDefaultIds(irs.value.xml);
      if ids != [] {
        Emit(PUT_IRS(irs.value));
      } else {
        Finish(ReplyCode());
      }
    }

    /** `on_put_reg_data_progress` and `on_del_impu_progress`. */
    method OnProgress()
      requires AwaitsCache()
      modifies this`log
      ensures log == old(log) + [REPLIED(ReplyCode())] && Awaits(CLOSING)
    {
      SendReply();
    }

    /** `on_put_reg_data_success` and `on_del_impu_success`. */
    method OnSuccess()
      requires Awaits(CLOSING)
      modifies this`log
      ensures log == old(log) + [DESTROYED] && Awaits(GONE)
    {
      Emit(DESTROYED);
    }

    method OnPutFailure()
      requires AwaitsCache() && At().value.outcome == SUCCESS
      modifies this`log
      ensures log == old(log) + [REPLIED(HTTP_SERVER_UNAVAILABLE), DESTROYED] && Awaits(GONE)
    {
      Finish(HTTP_SERVER_UNAVAILABLE);
    }

    method OnDelFailure(status: Status)
      requires AwaitsCache()
      modifies this`log
      ensures log == old(log) + [REPLIED(if status == NOT_FOUND then ReplyCode()
                                         else if httpRc == HTTP_OK then HTTP_SERVER_UNAVAILABLE else httpRc), DESTROYED]
      ensures Awaits(GONE)
    {
      if status == NOT_FOUND {
        SendReply();
        Emit(DESTROYED);
      } else {
        Finish(if httpRc == HTTP_OK then HTTP_SERVER_UNAVAILABLE else httpRc);
      }
    }

    /** The answer to the last thing asked for. */
    method Receive(a: Answer)
      requires Awaits(LOOKING(WildcardId())) || Awaits(ASKING(WildcardId())) || AwaitsCache()
      modifies this
      ensures Awaits(GONE) || Awaits(LOOKING(WildcardId())) || Awaits(ASKING(WildcardId())) || AwaitsCache()
    {
      hide Next, StageAfter, Moved;
      StageHistory(ty, Asked(), log);
      LastEvent(ty, Asked(), log);
      ProtocolCauses(ty, Asked(), log, |log| - 1);
      match log[|log| - 1] {
        case LOOKED_UP(_, _) =>
          if a.found.Some? {
            OnGetRegDataSuccess(a.found.value);
          } else {
            OnGetRegDataFailure(a.status);
          }
        case ASKED(_, _, _, _) => OnSarResponse(a.saa);
        case PUT_IRS(_) =>
          if a.status == OK {
            OnProgress();
            OnSuccess();
          } else {
            OnPutFailure();
          }
        case DELETED_IRS(_) =>
          if a.status == OK {
            OnProgress();
            OnSuccess();
          } else {
            OnDelFailure(a.status);
          }
        case _ => assert false;
      }
    }

    /** A whole run against any sequence of answers: it keeps to the protocol throughout. */
    method Drive(answers: seq<Answer>)
      requires Awaits(START) && log == [] && hssWildcard == "" && httpRc == HTTP_OK
      requires !verb.PUT? ==> ty.UNKNOWN?
      modifies this
      ensures At().Some? && (At().value.GONE? || At().value.LOOKING? || At().value.ASKING? || At().value.WRITING?)
      ensures At().value.GONE? <==> log != [] && log[|log| - 1].DESTROYED?
      ensures Count(log, IsReply) == Count(log, IsEnd) == if At().value.GONE? then 1 else 0
    {
      Run();
      var n := 0;
      while n < |answers| && (log == [] || log[|log| - 1] != DESTROYED)
        invariant 0 <= n <= |answers|
        invariant Awaits(GONE) || Awaits(LOOKING(WildcardId())) || Awaits(ASKING(WildcardId())) || AwaitsCache()
      {
        LastEvent(ty, Asked(), log);
        Receive(answers[n]);
        n := n + 1;
      }
      ProtocolCounts(ty, Asked(), log);
      StageHistory(ty, Asked(), log);
      LastEvent(ty, Asked(), log);
    }
  }

  /** What the world answers, whichever of it is asked for: the cached IRS or the reason for
      having none, the HSS's answer, the outcome of a cache write. */
  datatype Answer = Answer(found: Option<Irs>, status: Status, saa: Saa)

  /** What the last event says about the stage. */
  lemma LastEvent(t: RequestType, to: Target, log: seq<Event>)
    requires StageAfter(t, to, log).Some?
    ensures var stage := StageAfter(t, to, log).value;
            && (stage.WRITING? ==> log != [] && IsMutation(log[|log| - 1]))
            && (stage.GONE? ==> log != [] && log[|log| - 1].DESTROYED?)
  {
  }

  /** Exactly one reply: whatever the answers, a run that has come to its end has sent one
      reply, has been destroyed once, and did nothing after that; and no run, ended or not,
      changes the cache twice or replies before the cache write it waits for. */
  lemma ExactlyOneReply(t: RequestType, to: Target, log: seq<Event>)
    requires StageAfter(t, to, log).Some?
    ensures log != [] && log[|log| - 1].DESTROYED? ==> Count(log, IsReply) == 1 && Count(log, IsEnd) == 1
    ensures Count(log, IsReply) <= 1 && Count(log, IsMutation) <= 1
    ensures t.UNKNOWN? || IsAuthFailure(t) ==> Count(log, IsMutation) == 0
    ensures forall e :: StageAfter(t, to, log).value.GONE? ==> StageAfter(t, to, log + [e]).None?
  {
    ProtocolCounts(t, to, log);
    StageHistory(t, to, log);
    if t.UNKNOWN? || IsAuthFailure(t) {
      NoMutation(t, to, log);
    }
    forall e | StageAfter(t, to, log).value.GONE?
      ensures StageAfter(t, to, log + [e]).None?
    {
      StageSnoc(t, to, log, e);
    }
  }

  lemma {:induction false} NoMutation(t: RequestType, to: Target, log: seq<Event>)
    requires StageAfter(t, to, log).Some? && (t.UNKNOWN? || IsAuthFailure(t))
    ensures Count(log, IsMutation) == 0
  {
    if log != [] {
      NoMutation(t, to, log[..|log| - 1]);
    }
  }
}
