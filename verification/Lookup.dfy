/** Looking an IRS up: in the local store, in the remote ones if it is not there, and by way
    of an associated IMPU. */
module Lookup {
  import opened Types
  import opened StateMap
  import opened Stores
  import opened IrsModel
  import opened IrsUpdate
  import opened Consistency

  /** What one store answers to one read, and how long it worked on it. */
  datatype Read<T> = Read(status: Status, found: Option<T>, time: nat)

  ghost predicate Sane<T>(r: Read<T>) {
    r.status == OK <==> r.found.Some?
  }

  /** The first store of a list that has it. */
  function FirstOk<T>(rs: seq<Read<T>>): (r: Option<nat>)
    ensures r.Some? ==>
              r.value < |rs| && rs[r.value].status == OK && forall n :: 0 <= n < r.value ==> rs[n].status != OK
    ensures r.None? ==> forall n :: 0 <= n < |rs| ==> rs[n].status != OK
  {
    if rs == [] then None
    else
      var before := FirstOk(rs[..|rs| - 1]);
      assert forall n :: 0 <= n < |rs| - 1 ==> rs[n] == rs[..|rs| - 1][n];
      if before.Some? then before else if rs[|rs| - 1].status == OK then Some(|rs| - 1) else None
  }

  /** A sequential scan: the local answer unless it is NOT_FOUND, else the first remote OK,
      else NOT_FOUND; a remote error never shows. */
  function GeoRead<T>(local: Read<T>, remotes: seq<Read<T>>): (r: (Status, Option<T>)) {
    if local.status != NOT_FOUND then (local.status, local.found)
    else match FirstOk(remotes)
      case None => (NOT_FOUND, local.found)
      case Some(n) => (OK, remotes[n].found)
  }

  /** The local store does not have it, and no remote one says that it does. */
  ghost predicate Nowhere<T>(local: Read<T>, remotes: seq<Read<T>>) {
    local.status == NOT_FOUND && forall n :: 0 <= n < |remotes| ==> remotes[n].status != OK
  }

  /** The local store has v; or it has nothing, and v is what the first remote one that has
      something has. */
  ghost predicate Says<T>(local: Read<T>, remotes: seq<Read<T>>, v: T) {
    || (local.status == OK && local.found == Some(v))
    || (local.status == NOT_FOUND &&
        exists n :: 0 <= n < |remotes| && remotes[n].status == OK && remotes[n].found == Some(v) &&
          forall m :: 0 <= m < n ==> remotes[m].status != OK)
  }

  /** The local read has gone wrong. */
  predicate Fails<T>(local: Read<T>) { local.status != OK && local.status != NOT_FOUND }

  /** What comes of reading the stores, in terms of what each of them answered: a local error is
      the error, a remote one is none, and all cases are here. */
  lemma GeoReadMeaning<T>(local: Read<T>, remotes: seq<Read<T>>)
    requires Sane(local) && forall n :: 0 <= n < |remotes| ==> Sane(remotes[n])
    ensures local.status !in {OK, NOT_FOUND} ==> Fails(local) && GeoRead(local, remotes) == (local.status, None)
    ensures Nowhere(local, remotes) ==> GeoRead(local, remotes) == (NOT_FOUND, None)
    ensures forall v :: Says(local, remotes, v) ==> GeoRead(local, remotes) == (OK, Some(v))
    ensures Fails(local) || Nowhere(local, remotes) || exists v :: Says(local, remotes, v)
  {
    if local.status == OK {
      assert Says(local, remotes, local.found.value);
    } else if local.status == NOT_FOUND && !Nowhere(local, remotes) {
      var n := FirstOk(remotes).value;
      assert Says(local, remotes, remotes[n].found.value);
    }
  }

  /** The same, seen from the answer. */
  lemma GeoReadAnswers<T>(local: Read<T>, remotes: seq<Read<T>>)
    requires Sane(local) && forall n :: 0 <= n < |remotes| ==> Sane(remotes[n])
    ensures var (status, found) := GeoRead(local, remotes);
            && (local.status != NOT_FOUND ==> status == local.status)
            && (status == NOT_FOUND <==> Nowhere(local, remotes))
            && (forall v :: found == Some(v) <==> Says(local, remotes, v))
  {
    hide GeoRead, FirstOk;
    GeoReadMeaning(local, remotes);
    var (status, found) := GeoRead(local, remotes);
    forall v ensures found == Some(v) <==> Says(local, remotes, v) {
    }
  }

  function MaxTime<T>(rs: seq<Read<T>>): (t: nat)
    ensures forall n :: 0 <= n < |rs| ==> rs[n].time <= t
    ensures t == 0 || exists n :: 0 <= n < |rs| && rs[n].time == t
  {
    if rs == [] then 0
    else
      var before := MaxTime(rs[..|rs| - 1]);
      assert forall n :: 0 <= n < |rs| - 1 ==> rs[n] == rs[..|rs| - 1][n];
      if rs[|rs| - 1].time > before then rs[|rs| - 1].time else before
  }

  /** The stores whose records are not returned. */
  function Unchosen<T>(rs: seq<Read<T>>): (r: seq<nat>) {
    if rs == [] then []
    else
      var k := |rs| - 1;
      Unchosen(rs[..k]) + if rs[k].found.Some? && !(rs[k].status == OK && FirstOk(rs[..k]).None?) then [k] else []
  }

  /** Each record but the chosen one is freed, and none twice. */
  lemma {:induction false} UnchosenMeaning<T>(rs: seq<Read<T>>)
    ensures forall n: nat :: n in Unchosen(rs) <==> n < |rs| && rs[n].found.Some? && FirstOk(rs) != Some(n)
    ensures forall m, n :: 0 <= m < n < |Unchosen(rs)| ==> Unchosen(rs)[m] < Unchosen(rs)[n]
  {
    if rs != [] {
      var k := |rs| - 1;
      var before := rs[..k];
      UnchosenMeaning(before);
      assert forall n :: 0 <= n < k ==> before[n] == rs[n];
      assert forall m :: 0 <= m < |Unchosen(before)| ==> Unchosen(before)[m] in Unchosen(before);
      forall n: nat
        ensures n in Unchosen(rs) <==> n < |rs| && rs[n].found.Some? && FirstOk(rs) != Some(n)
      {
        assert n in Unchosen(rs) <==> n in Unchosen(before) || (n == k && n !in Unchosen(before) && k in Unchosen(rs));
      }
    }
  }

  /** The remote reads fulfil their promises in any order. */
  method Fulfil<T>(remotes: seq<Read<T>>, order: seq<nat>) returns (promises: seq<Option<Read<T>>>)
    requires forall n :: 0 <= n < |remotes| ==> n in order
    requires forall k :: 0 <= k < |order| ==> order[k] < |remotes|
    ensures |promises| == |remotes| && forall n :: 0 <= n < |remotes| ==> promises[n] == Some(remotes[n])
  {
    promises := seq(|remotes|, _ => None);
    for k := 0 to |order|
      invariant |promises| == |remotes|
      invariant forall n :: 0 <= n < |remotes| ==> promises[n] == if n in order[..k] then Some(remotes[n]) else None
    {
      assert order[..k + 1] == order[..k] + [order[k]];
      promises := promises[order[k] := Some(remotes[order[k]])];
    }
    assert order[..|order|] == order;
  }

  /** `get_impu_for_impu_gr`: reads all remote stores in parallel, and takes the promises in
      store order.  For every order of completion that is the sequential scan; it frees each
      record it does not return once, and adds the longest remote time. */
  method GetImpuGr<T>(local: Read<T>, remotes: seq<Read<T>>, order: seq<nat>)
    returns (status: Status, found: Option<T>, freed: seq<nat>, time: nat)
    requires Sane(local) && forall n :: 0 <= n < |remotes| ==> Sane(remotes[n])
    requires forall n :: 0 <= n < |remotes| ==> n in order
    requires forall k :: 0 <= k < |order| ==> order[k] < |remotes|
    ensures (status, found) == GeoRead(local, remotes) && (status == OK <==> found.Some?)
    ensures local.status != NOT_FOUND ==> status == local.status
    ensures status == NOT_FOUND <==> Nowhere(local, remotes)
    ensures forall v :: found == Some(v) <==> Says(local, remotes, v)
    ensures local.status == NOT_FOUND ==>
              time == MaxTime(remotes) && freed == Unchosen(remotes)
    ensures local.status != NOT_FOUND ==> freed == [] && time == 0
  {
    status, found, freed, time := local.status, local.found, [], 0;
    hide Says, Nowhere, Fails;
    if status == NOT_FOUND {
      var promises := Fulfil(remotes, order);
      for k := 0 to |promises|
        invariant (status, found) == GeoRead(local, remotes[..k]) && time == MaxTime(remotes[..k])
        invariant freed == Unchosen(remotes[..k])
      {
        var result := promises[k].value;
        assert remotes[..k + 1][..k] == remotes[..k] && remotes[..k + 1][k] == result;
        if result.time > time {
          time := result.time;
        }
        if status != OK && result.status == OK {
          found, status := result.found, OK;
        } else if result.found.Some? {
          freed := freed + [k];
        }
      }
      assert remotes[..|remotes|] == remotes;
    }
    hide GeoRead, Unchosen, MaxTime, FirstOk;
    GeoReadAnswers(local, remotes);
  }

  /** `get_impi_mapping_gr`: reads one remote store after the other, and stops at the first
      that has it. */
  method GetMappingGr<T>(local: Read<T>, remotes: seq<Read<T>>) returns (status: Status, found: Option<T>)
    requires Sane(local) && forall n :: 0 <= n < |remotes| ==> Sane(remotes[n])
    ensures (status, found) == GeoRead(local, remotes)
    ensures local.status != NOT_FOUND ==> status == local.status
    ensures status == NOT_FOUND <==> Nowhere(local, remotes)
    ensures forall v :: found == Some(v) <==> Says(local, remotes, v)
  {
    status, found := local.status, local.found;
    hide Says, Nowhere;
    GeoReadAnswers(local, remotes);
    if status == NOT_FOUND {
      for k := 0 to |remotes|
        invariant FirstOk(remotes[..k]) == None && status == NOT_FOUND && found == local.found
      {
        assert remotes[..k + 1][..k] == remotes[..k];
        if remotes[k].status == OK {
          status, found := OK, remotes[k].found;
          FirstOkIs(remotes, k);
          return;
        }
      }
      assert remotes[..|remotes|] == remotes;
    }
  }

  lemma FirstOkIs<T>(rs: seq<Read<T>>, k: nat)
    requires k < |rs| && rs[k].status == OK && FirstOk(rs[..k]) == None
    ensures FirstOk(rs) == Some(k)
  {
  }

  // -------------------------------------------------------------------------- IRSs

  /** All the answers to one read across the sites. */
  datatype Sites = Sites(local: Read<Versioned<Record>>, remotes: seq<Read<Versioned<Record>>>)

  ghost predicate SaneSites(s: Sites) {
    Sane(s.local) && forall n :: 0 <= n < |s.remotes| ==> Sane(s.remotes[n])
  }

  /** What a lookup comes to: the default record under the IMPU itself, or under the default
      IMPU its own record points to, if that lists it.  No second pointer is followed. */
  function IrsFound(impu: string, first: Sites, second: string -> Sites, now: int): (r: (Status, Option<Irs>)) {
    var (st, found) := GeoRead(first.local, first.remotes);
    if found.None? then (st, None)
    else if found.value.value.Default? then (OK, Some(FromRecord(impu, found.value, now)))
    else
      var d := found.value.value.defaultImpu;
      var (st2, found2) := GeoRead(second(d).local, second(d).remotes);
      if found2.None? then (st2, None)
      else if found2.value.value.Default? && impu in found2.value.value.associated
      then (OK, Some(FromRecord(d, found2.value, now))) else (NOT_FOUND, None)
  }

  /** When each answer comes out.  An error of the local store is the answer, on the first read
      as on the followed one.  NOT_FOUND comes out if the IMPU has no record, or the record that
      its pointer leads to is missing, or is no default one that lists it.  In all other cases
      it is the default record. */
  lemma LookupOutcome(impu: string, first: Sites, second: string -> Sites, now: int)
    requires SaneSites(first) && forall k :: SaneSites(second(k))
    ensures var r := IrsFound(impu, first, second, now);
            && (Fails(first.local) ==> r == (first.local.status, None))
            && (Nowhere(first.local, first.remotes) ==> r == (NOT_FOUND, None))
            && (forall v :: Says(first.local, first.remotes, v) && v.value.Default? ==>
                  r == (OK, Some(FromRecord(impu, v, now))))
            && (forall v :: Says(first.local, first.remotes, v) && v.value.Associated? ==>
                  var s := second(v.value.defaultImpu);
                  && (Fails(s.local) ==> r == (s.local.status, None))
                  && (Nowhere(s.local, s.remotes) ==> r == (NOT_FOUND, None))
                  && (forall w :: Says(s.local, s.remotes, w) ==>
                        if w.value.Default? && impu in w.value.associated
                        then r == (OK, Some(FromRecord(v.value.defaultImpu, w, now))) else r == (NOT_FOUND, None)))
  {
    hide GeoRead, Says, Nowhere, FromRecord;
    var r := IrsFound(impu, first, second, now);
    GeoReadMeaning(first.local, first.remotes);
    forall v | Says(first.local, first.remotes, v) && v.value.Associated?
      ensures var s := second(v.value.defaultImpu);
        && (Fails(s.local) ==> r == (s.local.status, None))
        && (Nowhere(s.local, s.remotes) ==> r == (NOT_FOUND, None))
        && (forall w :: Says(s.local, s.remotes, w) ==>
              if w.value.Default? && impu in w.value.associated
              then r == (OK, Some(FromRecord(v.value.defaultImpu, w, now))) else r == (NOT_FOUND, None))
    {
      var s := second(v.value.defaultImpu);
      GeoReadMeaning(s.local, s.remotes);
    }
  }

  /** `get_implicit_registration_set_for_impu`: whatever the stores hold, the IRS it finds has
      the IMPU as its default or lists it, and is as it was read. */
  method GetIrsForImpu(impu: string, first: Sites, second: string -> Sites, now: int, order: seq<nat>)
    returns (status: Status, irs: Option<Irs>)
    requires SaneSites(first) && forall k :: SaneSites(second(k)) && |second(k).remotes| == |first.remotes|
    requires forall n :: 0 <= n < |first.remotes| ==> n in order
    requires forall k :: 0 <= k < |order| ==> order[k] < |first.remotes|
    ensures (status, irs) == IrsFound(impu, first, second, now)
    ensures status == OK <==> irs.Some?
    ensures irs.Some? ==>
              && (irs.value.defaultImpu == impu || impu in Live(irs.value.associated))
              && irs.value.existing && !HasChanged(irs.value)
  {
    hide GeoRead, FirstOk, Unchosen, MaxTime;
    irs := None;
    var st, found, _, _ := GetImpuGr(first.local, first.remotes, order);
    status := st;
    var key := impu;
    if status == OK && found.value.value.Associated? {
      key := found.value.value.defaultImpu;
      var st2, found2, _, _ := GetImpuGr(second(key).local, second(key).remotes, order);
      status, found := st2, found2;
      if status == OK {
        var isDefault := found.value.value.Default?;
        var isAssociated := isDefault && impu in found.value.value.associated;
        if !isDefault || !isAssociated {
          status := NOT_FOUND;
        }
      }
    }
    if status == OK {
      irs := Some(FromRecord(key, found.value, now));
    }
  }

  /** The first of some IMPUs that a lookup does not fail to find. */
  function FirstHit(impus: seq<string>, lookup: string -> (Status, Option<Irs>)): (r: Option<string>)
    ensures r.Some? ==> exists n ::
              && 0 <= n < |impus| && impus[n] == r.value && lookup(r.value).0 != NOT_FOUND
              && forall m :: 0 <= m < n ==> lookup(impus[m]).0 == NOT_FOUND
    ensures r.None? ==> forall k :: k in impus ==> lookup(k).0 == NOT_FOUND
  {
    if impus == [] then None
    else if lookup(impus[0]).0 != NOT_FOUND then assert impus[0] == impus[0]; Some(impus[0])
    else
      var rest := FirstHit(impus[1..], lookup);
      assert forall m :: 1 <= m < |impus| ==> impus[1..][m - 1] == impus[m];
      rest
  }

  /** `get_implicit_registration_sets_for_impus`: stops at the first IMPU with an IRS, so that it
      never finds more than one, and at the first one whose lookup goes wrong. */
  method GetIrssForImpus(impus: seq<string>, lookup: string -> (Status, Option<Irs>))
    returns (status: Status, found: seq<Irs>)
    requires forall k :: lookup(k).0 == OK <==> lookup(k).1.Some?
    ensures |found| <= 1
    ensures match FirstHit(impus, lookup)
            case None => status == OK && found == []
            case Some(k) => status == lookup(k).0 && found == if status == OK then [lookup(k).1.value] else []
  {
    status, found := OK, [];
    for n := 0 to |impus|
      invariant status == OK && found == [] && FirstHit(impus[n..], lookup) == FirstHit(impus, lookup)
    {
      assert impus[n..][0] == impus[n] && impus[n..][1..] == impus[n + 1..];
      var (inner, irs) := lookup(impus[n]);
      if inner == OK {
        found := found + [irs.value];
        return;
      } else if inner != NOT_FOUND {
        status := inner;
        return;
      }
    }
    assert impus[|impus|..] == [];
  }

  // -------------------------------------------------------------------- one table

  type Table = map<string, Versioned<Record>>

  /** The store answers with what the table has, or not at all. */
  ghost predicate Knows(r: Read<Versioned<Record>>, table: Table, k: string) {
    r.status == OK ==> k in table && r.found == Some(table[k])
  }

  /** The sites answer from one table: each says what it has or nothing, each record is known
      to one of them, and the local store does not fail. */
  ghost predicate FromTable(s: Sites, table: Table, k: string) {
    && SaneSites(s) && s.local.status in {OK, NOT_FOUND}
    && Knows(s.local, table, k) && (forall n :: 0 <= n < |s.remotes| ==> Knows(s.remotes[n], table, k))
    && (k in table ==> s.local.status == OK || exists n :: 0 <= n < |s.remotes| && s.remotes[n].status == OK)
  }

  lemma TableRead(s: Sites, table: Table, k: string)
    requires FromTable(s, table, k)
    ensures GeoRead(s.local, s.remotes) == if k in table then (OK, Some(table[k])) else (NOT_FOUND, None)
  {
  }

  /** The default IMPU of the IRS that an IMPU belongs to, if the records say so. */
  function DefaultOf(impus: Impus, x: string): (r: Option<string>)
    ensures r.Some? ==> r.value in impus && impus[r.value].Default?
  {
    if x !in impus then None
    else if impus[x].Default? then Some(x)
    else
      var d := impus[x].defaultImpu;
      if d in impus && impus[d].Default? && x in impus[d].associated then Some(d) else None
  }

  /** If the sites answer from one table, wherever its records are, a lookup is a lookup in
      that table. */
  lemma LookupInTable(x: string, first: Sites, second: string -> Sites, table: Table, now: int)
    requires FromTable(first, table, x) && forall k :: FromTable(second(k), table, k)
    ensures IrsFound(x, first, second, now) ==
              match DefaultOf(Values(table), x)
              case None => (NOT_FOUND, None)
              case Some(d) => (OK, Some(FromRecord(d, table[d], now)))
  {
    hide GeoRead, FromTable, FromRecord;
    TableRead(first, table, x);
    if x in table && table[x].value.Associated? {
      TableRead(second(table[x].value.defaultImpu), table, table[x].value.defaultImpu);
    }
  }

  /** And if that table is consistent, the lookup succeeds exactly for the IMPUs of the
      abstract map, and finds the one IRS that has the IMPU as its default or lists it. */
  lemma LookupIsAbstract(x: string, first: Sites, second: string -> Sites, table: Table, now: int, d: string)
    requires FromTable(first, table, x) && (forall k :: FromTable(second(k), table, k)) && AgreeOnImpus(Values(table))
    ensures var (status, irs), whole := IrsFound(x, first, second, now), Abstract(Values(table));
            && status == (if irs.Some? then OK else NOT_FOUND)
            && (irs.Some? && irs.value.defaultImpu == d <==> d in whole && (x == d || x in whole[d].associated))
            && (irs.Some? && irs.value.defaultImpu == d ==> AsSubscriber(AsRecord(irs.value, now)) == whole[d])
  {
    hide IrsFound, FromTable, AgreeOnImpus;
    LookupInTable(x, first, second, table, now);
    DefaultOfAbstract(Values(table), x, d);
    assert forall keys :: Live(AllIn(keys, UNCHANGED)) == keys;
  }

  lemma DefaultOfAbstract(impus: Impus, x: string, d: string)
    requires AgreeOnImpus(impus)
    ensures DefaultOf(impus, x) == Some(d) <==>
              d in Abstract(impus) && (x == d || x in Abstract(impus)[d].associated)
  {
    assert Points(impus, x, d) <==> x in Listed(impus, d);
    if x in impus && impus[x].Associated? {
      assert Points(impus, x, impus[x].defaultImpu);
    }
  }
}
