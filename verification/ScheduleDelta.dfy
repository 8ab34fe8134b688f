/** `applyScheduleDelta` of the contract package: its checks, and its loops over an insertion-ordered Map. */
module ScheduleDelta {
  import opened Wrappers
  import opened Schedules
  import opened ScheduleStore
  import opened ScheduleRuns

  function IdOf(s: Schedule): string { s.intent.scheduleId }

  // ----- The Map, as the list of its entries in insertion order -----

  function Replace(entries: seq<Schedule>, s: Schedule): seq<Schedule>
  {
    if entries == [] then [] else
      var n := |entries| - 1;
      Replace(entries[..n], s) + [if IdOf(entries[n]) == IdOf(s) then s else entries[n]]
  }

  /** `Map.prototype.set`: a known id keeps its place. */
  ghost function Put(entries: seq<Schedule>, s: Schedule): seq<Schedule>
  {
    if IdOf(s) in Ids(entries) then Replace(entries, s) else entries + [s]
  }

  /** `Map.prototype.delete`. */
  function Delete(entries: seq<Schedule>, id: string): seq<Schedule>
  {
    if entries == [] then [] else
      var n := |entries| - 1;
      Delete(entries[..n], id) + if IdOf(entries[n]) == id then [] else [entries[n]]
  }

  // ----- What a list of records says -----

  /** The last record of every id. */
  function Latest(records: seq<Schedule>): map<string, Schedule>
  {
    if records == [] then map[] else
      var n := |records| - 1;
      Latest(records[..n])[IdOf(records[n]) := records[n]]
  }

  /** The ids, in the order in which they first occur. */
  function FirstIds(records: seq<Schedule>): seq<string>
  {
    if records == [] then [] else
      var n := |records| - 1;
      FirstIds(records[..n]) + if IdOf(records[n]) in Latest(records[..n]) then [] else [IdOf(records[n])]
  }

  function Without(ids: seq<string>, gone: set<string>): seq<string>
  {
    if ids == [] then [] else
      var n := |ids| - 1;
      Without(ids[..n], gone) + if ids[n] in gone then [] else [ids[n]]
  }

  lemma WithoutSnoc(ids: seq<string>, id: string, gone: set<string>)
    ensures Without(ids + [id], gone) == Without(ids, gone) + if id in gone then [] else [id]
  {
    assert (ids + [id])[..|ids|] == ids;
  }

  lemma {:induction false} WithoutTwice(ids: seq<string>, a: set<string>, b: set<string>)
    ensures Without(Without(ids, a), b) == Without(ids, a + b)
  {
    if ids != [] {
      var n := |ids| - 1;
      WithoutTwice(ids[..n], a, b);
      WithoutSnoc(Without(ids[..n], a), ids[n], b);
      assert Without(ids[..n], a) + [] == Without(ids[..n], a);
    }
  }

  lemma {:induction false} WithoutNone(ids: seq<string>)
    ensures Without(ids, {}) == ids
  {
    if ids != [] {
      WithoutNone(ids[..|ids| - 1]);
      assert ids == ids[..|ids| - 1] + [ids[|ids| - 1]];
    }
  }

  lemma {:induction false} LatestIds(records: seq<Schedule>)
    ensures Latest(records).Keys == Ids(records)
    ensures forall id :: id in Latest(records) ==> Latest(records)[id] in records && IdOf(Latest(records)[id]) == id
  {
    if records != [] {
      var n := |records| - 1;
      LatestIds(records[..n]);
      IdsNext(records, n);
      assert records[..n + 1] == records && records[n] in records;
    }
  }

  lemma SnocParts(entries: seq<Schedule>, s: Schedule)
    ensures (entries + [s])[..|entries|] == entries && (entries + [s])[|entries|] == s
    ensures Latest(entries + [s]) == Latest(entries)[IdOf(s) := s]
    ensures FirstIds(entries + [s]) == FirstIds(entries) + if IdOf(s) in Latest(entries) then [] else [IdOf(s)]
  {
    assert (entries + [s])[..|entries|] == entries;
  }

  lemma Unsnoc(entries: seq<Schedule>)
    requires entries != []
    ensures entries == entries[..|entries| - 1] + [entries[|entries| - 1]]
  {
  }

  lemma {:induction false} ReplaceIds(entries: seq<Schedule>, s: Schedule)
    ensures |Replace(entries, s)| == |entries|
    ensures forall i :: 0 <= i < |entries| ==> IdOf(Replace(entries, s)[i]) == IdOf(entries[i])
  {
    if entries != [] {
      var n := |entries| - 1;
      ReplaceIds(entries[..n], s);
      assert forall i :: 0 <= i < n ==> entries[..n][i] == entries[i];
    }
  }

  lemma NothingYet()
    ensures Latest([]) == map[] && FirstIds([]) == [] && forall gone :: Without([], gone) == []
  {
  }

  function Updated(m: map<string, Schedule>, k: string, s: Schedule): map<string, Schedule>
  {
    if k in m then m[k := s] else m
  }

  lemma UpdateThenSet(m: map<string, Schedule>, k: string, s: Schedule, j: string, t: Schedule)
    ensures Updated(m, k, s)[j := if j == k then s else t] == Updated(m[j := t], k, s)
    ensures Updated(m, k, s).Keys == m.Keys
  {
    assert Updated(m, k, s)[j := if j == k then s else t].Keys == Updated(m[j := t], k, s).Keys;
  }

  lemma SetThenRemove(m: map<string, Schedule>, k: string, s: Schedule, gone: string)
    ensures m[k := s] - {gone} == if k == gone then m - {gone} else (m - {gone})[k := s]
  {
  }

  lemma MergeThenSet(m: map<string, Schedule>, n: map<string, Schedule>, k: string, s: Schedule)
    ensures (m + n)[k := s] == m + n[k := s]
  {
  }

  lemma {:induction false} ReplaceFacts(entries: seq<Schedule>, s: Schedule)
    ensures Latest(Replace(entries, s)) == Updated(Latest(entries), IdOf(s), s)
    ensures FirstIds(Replace(entries, s)) == FirstIds(entries)
  {
    hide Latest, FirstIds, Updated;
    if entries == [] {
      NothingYet();
      EmptyUpdate(IdOf(s), s);
    } else {
      var n := |entries| - 1;
      var last := if IdOf(entries[n]) == IdOf(s) then s else entries[n];
      ReplaceFacts(entries[..n], s);
      Unsnoc(entries);
      SnocParts(entries[..n], entries[n]);
      SnocParts(Replace(entries[..n], s), last);
      UpdateThenSet(Latest(entries[..n]), IdOf(s), s, IdOf(entries[n]), entries[n]);
    }
  }

  lemma EmptyUpdate(k: string, s: Schedule)
    ensures Updated(map[], k, s) == map[]
  {
  }

  lemma PutFacts(entries: seq<Schedule>, s: Schedule)
    requires UniqueIds(entries)
    ensures UniqueIds(Put(entries, s)) && Latest(Put(entries, s)) == Latest(entries)[IdOf(s) := s]
    ensures FirstIds(Put(entries, s)) == FirstIds(entries) + if IdOf(s) in Latest(entries) then [] else [IdOf(s)]
  {
    hide Latest, FirstIds, Replace;
    LatestIds(entries);
    ReplaceIds(entries, s);
    ReplaceFacts(entries, s);
    SnocParts(entries, s);
    if IdOf(s) in Latest(entries) { assert FirstIds(entries) + [] == FirstIds(entries); }
    if IdOf(s) !in Ids(entries) {
      forall i | 0 <= i < |entries| ensures IdOf(entries[i]) != IdOf(s) {
        assert entries[i].intent.scheduleId in Ids(entries);
      }
    }
  }

  lemma {:induction false} DeleteKeeps(entries: seq<Schedule>, id: string)
    requires UniqueIds(entries)
    ensures UniqueIds(Delete(entries, id)) && forall s :: s in Delete(entries, id) ==> s in entries
  {
    if entries != [] {
      var n := |entries| - 1;
      var kept := Delete(entries[..n], id);
      DeleteKeeps(entries[..n], id);
      forall i | 0 <= i < |kept| ensures IdOf(kept[i]) != IdOf(entries[n]) {
        assert kept[i] in entries[..n];
        var j :| 0 <= j < n && entries[..n][j] == kept[i];
        assert entries[j] == kept[i];
      }
    }
  }

  lemma {:induction false} DeleteFacts(entries: seq<Schedule>, id: string)
    ensures Latest(Delete(entries, id)) == Latest(entries) - {id}
    ensures FirstIds(Delete(entries, id)) == Without(FirstIds(entries), {id})
  {
    hide Latest, FirstIds, Without;
    if entries == [] {
      NothingYet();
    } else {
      var n := |entries| - 1;
      var was, last := entries[..n], entries[n];
      DeleteFacts(was, id);
      Unsnoc(entries);
      SnocParts(was, last);
      SnocParts(Delete(was, id), last);
      SetThenRemove(Latest(was), IdOf(last), last, id);
      WithoutSnoc(FirstIds(was), IdOf(last), {id});
      var w := Without(FirstIds(was), {id});
      assert w + [] == w && Delete(was, id) + [] == Delete(was, id) && FirstIds(was) + [] == FirstIds(was);
    }
  }

  // ----- The checks of the schema -----

  method CheckDelta(d: Delta) returns (ok: bool)
    ensures ok <==> SchemaAllows(d)
  {
    if d.toRevision < d.fromRevision { return false; }
    var upserted: set<string> := {};
    for n := 0 to |d.upserts|
      invariant upserted == set i | 0 <= i < n :: d.upserts[i].intent.scheduleId
      invariant forall i, j :: 0 <= i < j < n ==> d.upserts[i].intent.scheduleId != d.upserts[j].intent.scheduleId
    {
      if IdOf(d.upserts[n]) in upserted { return false; }
      upserted := upserted + {IdOf(d.upserts[n])};
    }
    assert upserted == Ids(d.upserts);
    var removed: set<string> := {};
    for n := 0 to |d.removed|
      invariant removed == set i | 0 <= i < n :: d.removed[i]
      invariant forall i :: 0 <= i < n ==> d.removed[i] !in upserted
      invariant forall i, j :: 0 <= i < j < n ==> d.removed[i] != d.removed[j]
    {
      if d.removed[n] in removed || d.removed[n] in upserted { return false; }
      removed := removed + {d.removed[n]};
    }
    ok := true;
  }

  // ----- The loops -----

  /** Setting one more record, seen from the entries the loop began with. */
  lemma SetStep(entries: seq<Schedule>, done: seq<Schedule>, r: seq<Schedule>, s: Schedule)
    requires UniqueIds(r) && Latest(r) == Latest(entries) + Latest(done)
    requires FirstIds(r) == FirstIds(entries) + Without(FirstIds(done), Latest(entries).Keys)
    ensures UniqueIds(Put(r, s)) && Latest(Put(r, s)) == Latest(entries) + Latest(done + [s])
    ensures FirstIds(Put(r, s)) == FirstIds(entries) + Without(FirstIds(done + [s]), Latest(entries).Keys)
  {
    hide Latest, FirstIds, Without, Put;
    PutFacts(r, s);
    SnocParts(done, s);
    MergeThenSet(Latest(entries), Latest(done), IdOf(s), s);
    WithoutSnoc(FirstIds(done), IdOf(s), Latest(entries).Keys);
    var f, w := FirstIds(entries), Without(FirstIds(done), Latest(entries).Keys);
    assert f + w + [] == f + w && w + [] == w && FirstIds(done) + [] == FirstIds(done);
    assert f + w + [IdOf(s)] == f + (w + [IdOf(s)]);
  }

  method SetAll(entries: seq<Schedule>, records: seq<Schedule>) returns (r: seq<Schedule>)
    requires UniqueIds(entries)
    ensures UniqueIds(r) && Latest(r) == Latest(entries) + Latest(records)
    ensures FirstIds(r) == FirstIds(entries) + Without(FirstIds(records), Latest(entries).Keys)
  {
    hide Replace, Latest, FirstIds, Without;
    r := entries;
    NothingYet();
    assert FirstIds(entries) + [] == FirstIds(entries) && records[..0] == [];
    assert Latest(entries) + map[] == Latest(entries);
    for n := 0 to |records|
      invariant UniqueIds(r) && Latest(r) == Latest(entries) + Latest(records[..n])
      invariant FirstIds(r) == FirstIds(entries) + Without(FirstIds(records[..n]), Latest(entries).Keys)
    {
      SetStep(entries, records[..n], r, records[n]);
      assert records[..n + 1] == records[..n] + [records[n]];
      var known := exists i :: 0 <= i < |r| && IdOf(r[i]) == IdOf(records[n]);
      assert known <==> IdOf(records[n]) in Ids(r);
      if known { r := Replace(r, records[n]); } else { r := r + [records[n]]; }
    }
    assert records[..|records|] == records;
  }

  method DeleteAll(entries: seq<Schedule>, ids: seq<string>) returns (r: seq<Schedule>)
    requires UniqueIds(entries)
    ensures UniqueIds(r) && Latest(r) == Latest(entries) - (set i | 0 <= i < |ids| :: ids[i])
    ensures FirstIds(r) == Without(FirstIds(entries), set i | 0 <= i < |ids| :: ids[i])
  {
    hide Latest, FirstIds, Without, Delete;
    r := entries;
    WithoutNone(FirstIds(entries));
    ghost var gone: set<string> := {};
    for n := 0 to |ids|
      invariant gone == set i | 0 <= i < n :: ids[i]
      invariant UniqueIds(r) && Latest(r) == Latest(entries) - gone && FirstIds(r) == Without(FirstIds(entries), gone)
    {
      DeleteKeeps(r, ids[n]);
      DeleteFacts(r, ids[n]);
      WithoutTwice(FirstIds(entries), gone, {ids[n]});
      assert Latest(entries) - gone - {ids[n]} == Latest(entries) - (gone + {ids[n]});
      r := Delete(r, ids[n]);
      gone := gone + {ids[n]};
    }
  }

  /** The records of the result, and their order, in terms of the snapshot's and the delta's. */
  ghost predicate Applied(current: seq<Schedule>, d: Delta, result: seq<Schedule>)
  {
    UniqueIds(result)
    && Latest(result) == (Latest(current) - Removed(d)) + Latest(d.upserts)
    && FirstIds(result)
    == Without(FirstIds(current), Removed(d)) + Without(FirstIds(d.upserts), Latest(current).Keys - Removed(d))
  }

  /**
   `applyScheduleDelta`: nothing for a delta the schema refuses or that starts elsewhere; otherwise the removals are
   gone, an upsert keeps the place of the record it replaces, and new records follow in the delta's order.
   */
  method ApplyScheduleDelta(snapshot: Snapshot, d: Delta) returns (r: Option<Snapshot>)
    ensures r.Some? <==> SchemaAllows(d) && d.fromRevision == snapshot.revision
    ensures r.Some? ==> r.value.revision == d.toRevision && Applied(snapshot.schedules, d, r.value.schedules)
  {
    hide Latest, FirstIds, Without;
    var ok := CheckDelta(d);
    if !ok || snapshot.revision != d.fromRevision { return None; }
    NothingYet();
    assert Latest([]).Keys == {};
    var schedules := SetAll([], snapshot.schedules);
    assert Latest(schedules) == Latest(snapshot.schedules);
    WithoutNone(FirstIds(snapshot.schedules));
    assert FirstIds(schedules) == FirstIds(snapshot.schedules);
    schedules := DeleteAll(schedules, d.removed);
    assert Latest(schedules).Keys == Latest(snapshot.schedules).Keys - Removed(d);
    schedules := SetAll(schedules, d.upserts);
    r := Some(Snapshot(d.toRevision, schedules));
  }

  // ----- The control plane's states -----

  ghost function IntentsOf(m: map<string, Schedule>): Intents { map id | id in m :: m[id].intent }

  lemma LatestContent(records: seq<Schedule>)
    requires UniqueIds(records)
    ensures Content(records) == IntentsOf(Latest(records))
  {
    hide Latest;
    LatestIds(records);
    forall id | id in Ids(records) ensures Latest(records)[id] == Find(records, id) {
      var s := Latest(records)[id];
      var i :| 0 <= i < |records| && records[i] == s;
      FindAt(records, i);
    }
  }

  lemma IntentsEdited(m: map<string, Schedule>, gone: set<string>, n: map<string, Schedule>)
    ensures IntentsOf((m - gone) + n) == (IntentsOf(m) - gone) + IntentsOf(n)
  {
  }

  /** On states, which do not see order or leases, the loops are the edit that publishing makes. */
  lemma AppliedPublishes(current: seq<Schedule>, d: Delta, result: seq<Schedule>)
    requires UniqueIds(current) && SchemaAllows(d) && Applied(current, d, result)
    ensures Publish(ServerState(d.fromRevision, Content(current)), d)
         == Some(ServerState(d.toRevision, Content(result)))
  {
    hide Latest, FirstIds, Without, UniqueIds, Content, IntentsOf;
    LatestContent(current);
    LatestContent(d.upserts);
    LatestContent(result);
    IntentsEdited(Latest(current), Removed(d), Latest(d.upserts));
  }
}
