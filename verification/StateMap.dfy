/** The change-tracking maps of an in-memory implicit registration set: every identity
    seen so far, marked ADDED, UNCHANGED or DELETED, and the two ways such a map is
    brought up to date. */
module StateMap {
  import opened Types

  datatype State = ADDED | UNCHANGED | DELETED

  type Data = map<string, State>

  function InState(data: Data, s: State): (r: set<string>)
    ensures forall k :: k in r <==> k in data && data[k] == s
  {
    set k | k in data && data[k] == s
  }

  /** What the getters report: everything not marked DELETED. */
  function Live(data: Data): (r: set<string>)
    ensures forall k :: k in r <==> k in data && data[k] != DELETED
  {
    set k | k in data && data[k] != DELETED
  }

  function AllIn(keys: set<string>, s: State): (r: Data) {
    map k | k in keys :: s
  }

  /** Tracks identities just read from a store. */
  method TrackAll(keys: set<string>) returns (r: Data)
    ensures r == AllIn(keys, UNCHANGED)
  {
    r := map[];
    var todo := keys;
    while todo != {}
      invariant todo <= keys && r == AllIn(keys - todo, UNCHANGED)
    {
      var k :| k in todo;
      r := r[k := UNCHANGED];
      todo := todo - {k};
    }
  }

  /** Marks everything tracked as DELETED. */
  method DeleteTracked(data: Data) returns (r: Data)
    ensures r == AllIn(data.Keys, DELETED)
  {
    r := data;
    var todo := data.Keys;
    while todo != {}
      invariant todo <= data.Keys && r == data + AllIn(data.Keys - todo, DELETED)
    {
      var k :| k in todo;
      r := r[k := DELETED];
      todo := todo - {k};
    }
  }

  // ---------------------------------------------------------------- set_elements

  /** Closed form of `SetElements`. */
  function Replaced(data: Data, updated: set<string>, ignore: string): (r: Data) {
    map k | k in data.Keys + (updated - {ignore}) ::
      if k !in data then ADDED
      else if k !in updated then DELETED
      else if data[k] == DELETED && k != ignore then ADDED
      else data[k]
  }

  method SetElements(updated: seq<string>, data: Data, ignore: string) returns (r: Data)
    ensures r == Replaced(data, Elements(updated), ignore)
  {
    r := data;
    var todo := data.Keys;
    while todo != {}
      invariant todo <= data.Keys && r.Keys == data.Keys
      invariant forall k :: k in data ==>
        r[k] == if k in todo || k in updated then data[k] else DELETED
    {
      var k :| k in todo;
      if k !in updated {
        r := r[k := DELETED];
      }
      todo := todo - {k};
    }
    var marked := r;
    for n := 0 to |updated|
      invariant forall k :: k in r <==> k in data || (k in updated[..n] && k != ignore)
      invariant forall k :: k in r ==>
        r[k] == if k != ignore && k in updated[..n] && (k !in marked || marked[k] == DELETED)
                then ADDED else marked[k]
    {
      var k := updated[n];
      assert updated[..n + 1] == updated[..n] + [k];
      if k != ignore && (k !in r || r[k] == DELETED) {
        r := r[k := ADDED];
      }
    }
    assert updated[..|updated|] == updated;
  }

  /** The live set becomes the update minus the ignored element, except that an ignored
      element which is itself tracked as live stays live.  What was live and stays so keeps its
      mark, what comes to be live is added, and nothing else is newly tracked. */
  lemma ReplacedLive(data: Data, updated: set<string>, ignore: string)
    ensures var r := Replaced(data, updated, ignore);
            && r.Keys == data.Keys + (updated - {ignore})
            && InState(r, UNCHANGED) == InState(data, UNCHANGED) * updated
            && InState(r, ADDED) == InState(data, ADDED) * updated + (updated - {ignore} - Live(data))
            && (Live(r) == updated - {ignore} <==> !(ignore in updated && ignore in Live(data)))
            && (ignore in updated && ignore in Live(data) ==> Live(r) == updated)
  {
  }

  // ------------------------------------------------------------- merge_data_sets

  /** Closed form of `MergeDataSets`. */
  function Merged(data: Data, stored: set<string>): (r: Data) {
    map k | k in data.Keys + stored ::
      if k !in data then UNCHANGED
      else if data[k] == UNCHANGED && k !in stored then DELETED
      else data[k]
  }

  method MergeDataSets(data: Data, stored: set<string>) returns (r: Data)
    ensures r == Merged(data, stored)
  {
    r := data;
    var todo := stored;
    while todo != {}
      invariant todo <= stored
      invariant r == data + map k | k in stored - todo && k !in data :: UNCHANGED
    {
      var k :| k in todo;
      if k !in r {
        r := r[k := UNCHANGED];
      }
      todo := todo - {k};
    }
    var grown := r;
    todo := r.Keys;
    while todo != {}
      invariant todo <= grown.Keys && r.Keys == grown.Keys
      invariant forall k :: k in grown ==>
        r[k] == if k !in todo && grown[k] == UNCHANGED && k !in stored then DELETED else grown[k]
    {
      var k :| k in todo;
      if r[k] == UNCHANGED && k !in stored {
        r := r[k := DELETED];
      }
      todo := todo - {k};
    }
  }

  /** Adding the stored elements of a refreshed set: unknown ones are marked DELETED,
      known ones keep their state. */
  function Superseded(data: Data, stored: set<string>): (r: Data)
    ensures Live(r) == Live(data) && InState(r, ADDED) == InState(data, ADDED)
    ensures InState(r, UNCHANGED) == InState(data, UNCHANGED)
    ensures r.Keys == data.Keys + stored
  {
    map k | k in data.Keys + stored :: if k in data then data[k] else DELETED
  }

  method EmplaceDeleted(data: Data, stored: set<string>) returns (r: Data)
    ensures r == Superseded(data, stored)
  {
    r := data;
    var todo := stored;
    while todo != {}
      invariant todo <= stored
      invariant r == Superseded(data, stored - todo)
    {
      var k :| k in todo;
      if k !in r {
        r := r[k := DELETED];
      }
      todo := todo - {k};
    }
  }

  // ------------------------------------------------- sequences of store snapshots

  /** A retry loop merges one snapshot of the store after the other. */
  function MergedAll(data: Data, snaps: seq<set<string>>): (r: Data)
    decreases |snaps|
  {
    if snaps == [] then data else MergedAll(Merged(data, snaps[0]), snaps[1..])
  }

  lemma {:induction false} MergedAllSnoc(data: Data, snaps: seq<set<string>>, last: set<string>)
    ensures MergedAll(data, snaps + [last]) == Merged(MergedAll(data, snaps), last)
    decreases |snaps|
  {
    if snaps == [] {
      assert [last][1..] == [];
      assert snaps + [last] == [last];
    } else {
      assert (snaps + [last])[1..] == snaps[1..] + [last];
      MergedAllSnoc(Merged(data, snaps[0]), snaps[1..], last);
    }
  }

  /** Once an identity is in a snapshot, it is in every later one. */
  ghost predicate Steady(k: string, snaps: seq<set<string>>) {
    forall m, n :: 0 <= m < n < |snaps| && k in snaps[m] ==> k in snaps[n]
  }

  /** When an identity survives a whole sequence of merges. */
  ghost predicate Survives(data: Data, k: string, snaps: seq<set<string>>) {
    if k !in data then snaps != [] && k in snaps[|snaps| - 1] && Steady(k, snaps)
    else match data[k]
      case ADDED => true
      case DELETED => false
      case UNCHANGED => forall n :: 0 <= n < |snaps| ==> k in snaps[n]
  }

  /** ADDED never changes, DELETED only grows, nothing tracked is dropped, and the exact
      live set after any sequence of snapshots is known. */
  lemma {:induction false} MergedAllLive(data: Data, snaps: seq<set<string>>)
    ensures var r := MergedAll(data, snaps);
            && InState(r, ADDED) == InState(data, ADDED)
            && InState(data, DELETED) <= InState(r, DELETED)
            && data.Keys <= r.Keys
            && forall k :: k in Live(r) <==> Survives(data, k, snaps)
    decreases |snaps|
  {
    if snaps != [] {
      var one := Merged(data, snaps[0]);
      MergedAllLive(one, snaps[1..]);
      forall k
        ensures Survives(one, k, snaps[1..]) <==> Survives(data, k, snaps)
      {
        SurvivesStep(data, k, snaps);
      }
    }
  }

  lemma SurvivesStep(data: Data, k: string, snaps: seq<set<string>>)
    requires snaps != []
    ensures Survives(Merged(data, snaps[0]), k, snaps[1..]) <==> Survives(data, k, snaps)
  {
  }

  /** After the last snapshot, the live set is the caller's additions plus that snapshot
      less everything marked DELETED before it was merged; merging it again is a no-op. */
  lemma MergedAllLast(data: Data, snaps: seq<set<string>>, last: set<string>)
    ensures var before, after := MergedAll(data, snaps), MergedAll(data, snaps + [last]);
            && Live(after) == InState(data, ADDED) + (last - InState(before, DELETED))
            && MergedAll(data, snaps + [last, last]) == after
  {
    MergedAllLive(data, snaps);
    MergedAllSnoc(data, snaps, last);
    MergedAllSnoc(data, snaps + [last], last);
    assert snaps + [last] + [last] == snaps + [last, last];
    var before := MergedAll(data, snaps);
    assert Merged(Merged(before, last), last) == Merged(before, last);
  }

  /** The merge is not lossless: an identity that other Homesteads remove and add back
      while this one keeps retrying is dropped although the last snapshot lists it. */
  lemma ReaddedIdentityIsLost(k: string)
    ensures var r := MergedAll(map[], [{k}, {}, {k}]); k !in Live(r) && k in InState(r, DELETED)
  {
    var snaps: seq<set<string>> := [{k}, {}, {k}];
    MergedAllLive(map[], snaps);
    assert k in snaps[0] && k !in snaps[1];
    assert !Steady(k, snaps);
    assert snaps == ([{k}, {}] + [{k}]);
    MergedAllSnoc(map[], [{k}, {}], {k});
    var empty: set<string> := {};
    assert [{k}, {}] == [{k}] + [empty];
    MergedAllSnoc(map[], [{k}], empty);
  }

  /** Of an identity the caller did not touch, none is lost to the merges exactly when
      the snapshots never saw it go: the exact condition for losslessness. */
  lemma ForeignAdditionKept(data: Data, k: string, snaps: seq<set<string>>, last: set<string>)
    requires k !in data && k in last
    ensures k in Live(MergedAll(data, snaps + [last])) <==> Steady(k, snaps)
  {
    var all := snaps + [last];
    MergedAllLive(data, all);
    assert all[|all| - 1] == last;
    assert forall n :: 0 <= n < |snaps| ==> all[n] == snaps[n];
    if Steady(k, snaps) {
      assert Steady(k, all);
    } else {
      var m, n :| 0 <= m < n < |snaps| && k in snaps[m] && k !in snaps[n];
      assert k in all[m] && k !in all[n];
    }
  }
}
