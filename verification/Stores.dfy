/** The IMPU store: two tables of versioned records with compare-and-swap writes, and
    the turns that other Homesteads take between the accesses of this one. */
module Stores {
  import opened Types

  /** A value with the non-zero CAS of the write that put it there. */
  datatype Versioned<+T> = Versioned(value: T, cas: nat)

  datatype Store = Store(impus: map<string, Versioned<Record>>,
                         mappings: map<string, Versioned<Mapping>>,
                         lastCas: nat)

  /** Every CAS was handed out by an earlier write. */
  ghost predicate ValidStore(s: Store) {
    && (forall k :: k in s.impus ==> 0 < s.impus[k].cas <= s.lastCas)
    && (forall i :: i in s.mappings ==> 0 < s.mappings[i].cas <= s.lastCas)
  }

  /** A CAS of zero asks for an absent key; any other one for that very version. */
  predicate CasMatches<T>(table: map<string, Versioned<T>>, k: string, cas: nat) {
    if cas == 0 then k !in table else k in table && table[k].cas == cas
  }

  /** The stored form of a record keeps one bit of registration state. */
  function Encoded(r: Record): (e: Record)
    ensures r.Associated? ==> e == r
    ensures r.Default? ==> e.Default? && e == r.(state := e.state)
    ensures r.Default? ==> (e.state == REGISTERED <==> r.state == REGISTERED)
    ensures e.Default? ==> e.state in {REGISTERED, UNREGISTERED}
  {
    if r.Default? && r.state != REGISTERED then r.(state := UNREGISTERED) else r
  }

  function PutImpu(s: Store, k: string, r: Record): (t: Store)
    ensures ValidStore(s) ==> ValidStore(t)
  {
    Store(s.impus[k := Versioned(Encoded(r), s.lastCas + 1)], s.mappings, s.lastCas + 1)
  }

  function DropImpu(s: Store, k: string): (t: Store)
    ensures ValidStore(s) ==> ValidStore(t)
  {
    s.(impus := s.impus - {k})
  }

  function PutMapping(s: Store, i: string, m: Mapping): (t: Store)
    ensures ValidStore(s) ==> ValidStore(t)
  {
    Store(s.impus, s.mappings[i := Versioned(m, s.lastCas + 1)], s.lastCas + 1)
  }

  function DropMapping(s: Store, i: string): (t: Store)
    ensures ValidStore(s) ==> ValidStore(t)
  {
    s.(mappings := s.mappings - {i})
  }

  // ------------------------------------------------------------- foreign turns

  /** A write by another Homestead, or the expiry of a record. */
  datatype Foreign =
    | WriteImpu(k: string, r: Record)
    | LoseImpu(k: string)
    | WriteMapping(i: string, m: Mapping)
    | LoseMapping(i: string)

  /** What happens before one access: other writes, and whether the access then fails. */
  datatype Turn = Turn(writes: seq<Foreign>, fault: bool)

  function ForeignWrite(s: Store, f: Foreign): (t: Store)
    ensures ValidStore(s) ==> ValidStore(t)
  {
    match f
    case WriteImpu(k, r) => PutImpu(s, k, r)
    case LoseImpu(k) => DropImpu(s, k)
    case WriteMapping(i, m) => PutMapping(s, i, m)
    case LoseMapping(i) => DropMapping(s, i)
  }

  function ForeignWrites(s: Store, fs: seq<Foreign>): (t: Store)
    decreases |fs|
  {
    if fs == [] then s else ForeignWrites(ForeignWrite(s, fs[0]), fs[1..])
  }

  /** The store after some turns in which this Homestead wrote nothing. */
  function AfterTurns(s: Store, turns: seq<Turn>): (t: Store)
    decreases |turns|
  {
    if turns == [] then s else AfterTurns(ForeignWrites(s, turns[0].writes), turns[1..])
  }

  predicate Touches(f: Foreign, k: string) {
    (f.WriteImpu? || f.LoseImpu?) && f.k == k
  }

  /** The turns that can upset a read followed by a write of the record under k. */
  predicate Disturbs(t: Turn, k: string) {
    t.fault || exists f :: f in t.writes && Touches(f, k)
  }

  function Disturbances(turns: seq<Turn>, k: string): (n: nat) {
    if turns == [] then 0
    else (if Disturbs(turns[0], k) then 1 else 0) + Disturbances(turns[1..], k)
  }

  lemma {:induction false} DisturbancesConcat(a: seq<Turn>, b: seq<Turn>, k: string)
    ensures Disturbances(a + b, k) == Disturbances(a, k) + Disturbances(b, k)
  {
    if a == [] {
      assert a + b == b;
    } else {
      assert (a + b)[1..] == a[1..] + b;
      DisturbancesConcat(a[1..], b, k);
    }
  }

  lemma {:induction false} AfterTurnsConcat(s: Store, a: seq<Turn>, b: seq<Turn>)
    ensures AfterTurns(s, a + b) == AfterTurns(AfterTurns(s, a), b)
    decreases |a|
  {
    if a == [] {
      assert a + b == b;
    } else {
      assert (a + b)[1..] == a[1..] + b;
      AfterTurnsConcat(ForeignWrites(s, a[0].writes), a[1..], b);
    }
  }

  /** What became of the record under k: it was left alone, or it is newer or gone. */
  ghost predicate Fresh(s: Store, t: Store, k: string) {
    && ValidStore(t) && s.lastCas <= t.lastCas
    && (k in t.impus && t.impus[k].cas <= s.lastCas ==> k in s.impus && s.impus[k] == t.impus[k])
  }

  ghost predicate Alike(s: Store, t: Store, k: string) {
    (k in t.impus <==> k in s.impus) && (k in t.impus ==> t.impus[k] == s.impus[k])
  }

  lemma ForeignWriteFresh(s: Store, f: Foreign, k: string)
    requires ValidStore(s)
    ensures Fresh(s, ForeignWrite(s, f), k) && (!Touches(f, k) ==> Alike(s, ForeignWrite(s, f), k))
  {
  }

  /** Foreign writes keep a store valid, never reuse a CAS, and leave a record alone
      that they do not name. */
  lemma {:induction false} ForeignWritesFresh(s: Store, fs: seq<Foreign>, k: string)
    requires ValidStore(s)
    ensures Fresh(s, ForeignWrites(s, fs), k)
    ensures (forall f :: f in fs ==> !Touches(f, k)) ==> Alike(s, ForeignWrites(s, fs), k)
    decreases |fs|
  {
    hide ForeignWrite;
    if fs != [] {
      ForeignWriteFresh(s, fs[0], k);
      ForeignWritesFresh(ForeignWrite(s, fs[0]), fs[1..], k);
      assert fs[0] in fs && forall f :: f in fs[1..] ==> f in fs;
    }
  }

  /** The same over whole turns. */
  lemma {:induction false} AfterTurnsFresh(s: Store, turns: seq<Turn>, k: string)
    requires ValidStore(s)
    ensures Fresh(s, AfterTurns(s, turns), k)
    decreases |turns|
  {
    if turns != [] {
      ForeignWritesFresh(s, turns[0].writes, k);
      AfterTurnsFresh(ForeignWrites(s, turns[0].writes), turns[1..], k);
    }
  }

  // ------------------------------------------------------------- the store object

  class ImpuStore {
    var impus: map<string, Versioned<Record>>
    var mappings: map<string, Versioned<Mapping>>
    var lastCas: nat
    /** What the rest of the world does before each of the coming accesses. */
    var turns: seq<Turn>

    constructor ()
      ensures View() == Store(map[], map[], 0) && ValidStore(View()) && turns == []
    {
      impus, mappings, lastCas, turns := map[], map[], 0, [];
    }

    function View(): (s: Store)
      reads this
    {
      Store(impus, mappings, lastCas)
    }

    /** The turn the world takes before the next access. */
    ghost function Turns1(): (r: seq<Turn>)
      reads this
      ensures r <= turns && |r| <= 1
    {
      if turns == [] then [] else turns[..1]
    }

    ghost function Now(): (s: Store)
      reads this
    {
      AfterTurns(View(), Turns1())
    }

    ghost predicate Faulty()
      reads this
    {
      turns != [] && turns[0].fault
    }

    /** One write by somebody else. */
    method Suffer(f: Foreign)
      modifies this
      ensures View() == ForeignWrite(old(View()), f) && turns == old(turns)
    {
      match f
      case WriteImpu(k, r) =>
        impus, lastCas := impus[k := Versioned(Encoded(r), lastCas + 1)], lastCas + 1;
      case LoseImpu(k) =>
        impus := impus - {k};
      case WriteMapping(i, m) =>
        mappings, lastCas := mappings[i := Versioned(m, lastCas + 1)], lastCas + 1;
      case LoseMapping(i) =>
        mappings := mappings - {i};
    }

    /** Let the world take its turn. */
    method Wait() returns (fault: bool)
      modifies this
      ensures View() == old(Now()) && fault == old(Faulty())
      ensures turns == old(turns)[|old(Turns1())|..]
    {
      fault := false;
      if turns != [] {
        var fs := turns[0].writes;
        fault := turns[0].fault;
        ghost var s := View();
        assert AfterTurns(s, turns[..1]) == ForeignWrites(s, fs) by {
          assert turns[..1][1..] == [];
        }
        var n := 0;
        while n < |fs|
          invariant 0 <= n <= |fs| && turns == old(turns)
          invariant ForeignWrites(View(), fs[n..]) == ForeignWrites(s, fs)
        {
          assert fs[n..][0] == fs[n] && fs[n..][1..] == fs[n + 1..];
          Suffer(fs[n]);
          n := n + 1;
        }
        turns := turns[1..];
      }
    }

    method GetImpu(k: string) returns (status: Status, found: Option<Versioned<Record>>)
      modifies this
      ensures View() == old(Now()) && turns == old(turns)[|old(Turns1())|..]
      ensures found == if !old(Faulty()) && k in impus then Some(impus[k]) else None
      ensures status == if old(Faulty()) then ERROR else if k in impus then OK else NOT_FOUND
    {
      var fault := Wait();
      if fault {
        status, found := ERROR, None;
      } else if k in impus {
        status, found := OK, Some(impus[k]);
      } else {
        status, found := NOT_FOUND, None;
      }
    }

    method SetImpu(k: string, r: Record, cas: nat) returns (status: Status)
      modifies this
      ensures turns == old(turns)[|old(Turns1())|..]
      ensures status == if old(Faulty()) then ERROR
                        else if CasMatches(old(Now()).impus, k, cas) then OK else DATA_CONTENTION
      ensures View() == if status == OK then PutImpu(old(Now()), k, r) else old(Now())
    {
      var fault := Wait();
      if fault {
        status := ERROR;
      } else if CasMatches(impus, k, cas) {
        impus, lastCas := impus[k := Versioned(Encoded(r), lastCas + 1)], lastCas + 1;
        status := OK;
      } else {
        status := DATA_CONTENTION;
      }
    }

    /** `add_impu`: a CAS write that asks for an absent key. */
    method AddImpu(k: string, r: Record) returns (status: Status)
      modifies this
      ensures turns == old(turns)[|old(Turns1())|..]
      ensures status == if old(Faulty()) then ERROR
                        else if k !in old(Now()).impus then OK else DATA_CONTENTION
      ensures View() == if status == OK then PutImpu(old(Now()), k, r) else old(Now())
    {
      status := SetImpu(k, r, 0);
    }

    method SetImpuWithoutCas(k: string, r: Record) returns (status: Status)
      modifies this
      ensures turns == old(turns)[|old(Turns1())|..]
      ensures status == if old(Faulty()) then ERROR else OK
      ensures View() == if status == OK then PutImpu(old(Now()), k, r) else old(Now())
    {
      var fault := Wait();
      if fault {
        status := ERROR;
      } else {
        impus, lastCas := impus[k := Versioned(Encoded(r), lastCas + 1)], lastCas + 1;
        status := OK;
      }
    }

    method DeleteImpu(k: string) returns (status: Status)
      modifies this
      ensures turns == old(turns)[|old(Turns1())|..]
      ensures status == if old(Faulty()) then ERROR else OK
      ensures View() == if status == OK then DropImpu(old(Now()), k) else old(Now())
    {
      var fault := Wait();
      if fault {
        status := ERROR;
      } else {
        impus := impus - {k};
        status := OK;
      }
    }

    method GetImpiMapping(i: string) returns (status: Status, found: Option<Versioned<Mapping>>)
      modifies this
      ensures View() == old(Now()) && turns == old(turns)[|old(Turns1())|..]
      ensures found == if !old(Faulty()) && i in mappings then Some(mappings[i]) else None
      ensures status == if old(Faulty()) then ERROR else if i in mappings then OK else NOT_FOUND
    {
      var fault := Wait();
      if fault {
        status, found := ERROR, None;
      } else if i in mappings {
        status, found := OK, Some(mappings[i]);
      } else {
        status, found := NOT_FOUND, None;
      }
    }

    method SetImpiMapping(i: string, m: Mapping, cas: nat) returns (status: Status)
      modifies this
      ensures turns == old(turns)[|old(Turns1())|..]
      ensures status == if old(Faulty()) then ERROR
                        else if CasMatches(old(Now()).mappings, i, cas) then OK else DATA_CONTENTION
      ensures View() == if status == OK then PutMapping(old(Now()), i, m) else old(Now())
    {
      var fault := Wait();
      if fault {
        status := ERROR;
      } else if CasMatches(mappings, i, cas) {
        mappings, lastCas := mappings[i := Versioned(m, lastCas + 1)], lastCas + 1;
        status := OK;
      } else {
        status := DATA_CONTENTION;
      }
    }

    method DeleteImpiMapping(i: string) returns (status: Status)
      modifies this
      ensures turns == old(turns)[|old(Turns1())|..]
      ensures status == if old(Faulty()) then ERROR else OK
      ensures View() == if status == OK then DropMapping(old(Now()), i) else old(Now())
    {
      var fault := Wait();
      if fault {
        status := ERROR;
      } else {
        mappings := mappings - {i};
        status := OK;
      }
    }
  }
}
