/** Tagging the entries of a snapshot, as in clients/typescript/src/satellite/process.ts. */
module Snapshot {
  import opened Types
  import opened Sets
  import opened Oplog
  import opened OplogFold
  import opened Transactions
  import opened Database

  function TagsOf(shadow: Shadow, k: RowKey): seq<Tag> {
    if k in shadow then shadow[k] else []
  }

  predicate Seen(batch: Log, n: nat, k: RowKey)
    requires n <= |batch|
  {
    exists j :: 0 <= j < n && batch[j].key == k
  }

  /** The first entry of a row clears the tags the row had before; later entries clear nothing. */
  function ClearedBy(batch: Log, i: nat, shadow: Shadow): seq<Tag>
    requires i < |batch|
  {
    if Seen(batch, i, batch[i].key) then [] else TagsOf(shadow, batch[i].key)
  }

  function Tagged(batch: Log, shadow: Shadow): (r: Log)
    ensures |r| == |batch|
    ensures forall i :: 0 <= i < |r| ==> r[i] == batch[i].(clearTags := ClearedBy(batch, i, shadow))
  {
    seq(|batch|, i requires 0 <= i < |batch| => batch[i].(clearTags := ClearedBy(batch, i, shadow)))
  }

  /** What the last entry of row `k` does, if the batch touches the row. */
  function LastKind(batch: Log, k: RowKey): Option<ChangesOpType> {
    if batch == [] then None
    else if Last(batch).key == k then Some(KindOf(Last(batch)))
    else LastKind(Front(batch), k)
  }

  function TouchedRows(batch: Log): (s: set<RowKey>)
    ensures forall k :: k in s <==> LastKind(batch, k).Some?
  {
    if batch == [] then {} else TouchedRows(Front(batch)) + {Last(batch).key}
  }

  /** A row last written holds the new tag alone, a row last deleted holds none, others are as before. */
  function ShadowAfter(batch: Log, shadow: Shadow, tag: Tag): Shadow {
    map k | k in shadow.Keys + TouchedRows(batch) && LastKind(batch, k) != Some(REMOVE) ::
      if LastKind(batch, k) == Some(UPSERT) then [tag] else TagsOf(shadow, k)
  }

  lemma {:induction false} TouchedHasLastKind(batch: Log, k: RowKey)
    ensures LastKind(batch, k).Some? <==> Seen(batch, |batch|, k)
  {
    if batch != [] {
      TouchedHasLastKind(Front(batch), k);
      if Seen(batch, |batch|, k) && Last(batch).key != k {
        var j :| 0 <= j < |batch| && batch[j].key == k;
        assert Front(batch)[j].key == k;
      }
    }
  }

  /** The tags that the cache of the snapshot loop holds for a row. */
  function CacheTags(kind: ChangesOpType, tag: Tag): seq<Tag> {
    if kind.REMOVE? then [] else [tag]
  }

  /** Tags one entry: a row that is cached already was read in this same snapshot, so its own tag is
      taken out; any other row clears what the database holds for it. */
  method TagEntry(e: OplogEntry, cache: Shadow, shadow: Shadow, tag: Tag) returns (entry: OplogEntry, tags: seq<Tag>)
    ensures entry == e.(clearTags := if e.key in cache then Difference(cache[e.key], [tag]) else TagsOf(shadow, e.key))
    ensures tags == CacheTags(KindOf(e), tag)
  {
    if e.key in cache {
      entry := e.(clearTags := Difference(cache[e.key], [tag]));
    } else {
      entry := e.(clearTags := TagsOf(shadow, e.key));
    }
    if e.optype == DELETE {
      tags := [];
    } else {
      tags := [tag];
    }
  }

  method TagBatch(batch: Log, shadow: Shadow, tag: Tag) returns (tagged: Log, written: Shadow)
    ensures tagged == Tagged(batch, shadow)
    ensures written == ShadowAfter(batch, shadow, tag)
  {
    var cache: Shadow := map[];
    tagged := [];
    for i := 0 to |batch|
      invariant |tagged| == i && forall j :: 0 <= j < i ==>
        tagged[j] == batch[j].(clearTags := ClearedBy(batch, j, shadow))
      invariant CacheOf(batch[..i], cache, tag)
    {
      CacheStep(batch, i, cache, tag);
      var entry, tags := TagEntry(batch[i], cache, shadow, tag);
      tagged := tagged + [entry];
      cache := cache[entry.key := tags];
    }
    assert batch[..|batch|] == batch;
    written := WriteShadow(cache, shadow);
    CacheIsShadowAfter(batch, cache, shadow, tag);
  }

  /** The cache holds exactly the touched rows, with the tags their last entry left. */
  ghost predicate CacheOf(batch: Log, cache: Shadow, tag: Tag) {
    (forall k :: k in cache <==> LastKind(batch, k).Some?) &&
    forall k :: k in cache ==> cache[k] == CacheTags(LastKind(batch, k).value, tag)
  }

  /** One round of the loop: a cached row has nothing left to clear but the tag of this snapshot. */
  lemma CacheStep(batch: Log, i: nat, cache: Shadow, tag: Tag)
    requires i < |batch| && CacheOf(batch[..i], cache, tag)
    ensures batch[i].key in cache <==> Seen(batch, i, batch[i].key)
    ensures batch[i].key in cache ==> Difference(cache[batch[i].key], [tag]) == []
    ensures CacheOf(batch[..i + 1], cache[batch[i].key := CacheTags(KindOf(batch[i]), tag)], tag)
  {
    var k := batch[i].key;
    assert Front(batch[..i + 1]) == batch[..i];
    TouchedHasLastKind(batch[..i], k);
    SeenInPrefix(batch, i, k);
  }

  function Written(cache: Shadow, shadow: Shadow): Shadow {
    map k | k in shadow.Keys + cache.Keys && !(k in cache && cache[k] == []) ::
      if k in cache then cache[k] else shadow[k]
  }

  /** Deletes the shadow rows whose cached tags are empty and replaces the others. */
  method WriteShadow(cache: Shadow, shadow: Shadow) returns (written: Shadow)
    ensures written == Written(cache, shadow)
  {
    written := shadow;
    var keys := cache.Keys;
    while keys != {}
      invariant keys <= cache.Keys
      invariant written == Written(cache - keys, shadow)
      decreases keys
    {
      var k :| k in keys;
      if cache[k] == [] {
        written := written - {k};
      } else {
        written := written[k := cache[k]];
      }
      keys := keys - {k};
    }
    assert cache - {} == cache;
  }

  lemma CacheIsShadowAfter(batch: Log, cache: Shadow, shadow: Shadow, tag: Tag)
    requires CacheOf(batch, cache, tag)
    ensures Written(cache, shadow) == ShadowAfter(batch, shadow, tag)
  {
    assert cache.Keys == TouchedRows(batch);
  }

  lemma SeenInPrefix(batch: Log, i: nat, k: RowKey)
    requires i <= |batch|
    ensures Seen(batch[..i], i, k) <==> Seen(batch, i, k)
  {
    assert forall j :: 0 <= j < i ==> batch[..i][j] == batch[j];
  }

  // ---- The effect on the oplog table ----

  /** Tags as the oplog holds them after the snapshot, entry by entry. */
  function EntryAfter(oplog: Log, i: nat, since: int, ts: int, shadow: Shadow): OplogEntry
    requires i < |oplog|
  {
    if !Selected(oplog[i], since, Some(ts)) then oplog[i]
    else if exists j :: 0 <= j < i && oplog[j].key == oplog[i].key && Selected(oplog[j], since, Some(ts))
    then oplog[i].(clearTags := [])
    else oplog[i].(clearTags := TagsOf(shadow, oplog[i].key))
  }

  lemma {:induction false} SelectSees(oplog: Log, since: int, stamp: Option<int>, k: RowKey)
    ensures var batch := Select(oplog, since, stamp);
      Seen(batch, |batch|, k) <==> exists j :: 0 <= j < |oplog| && oplog[j].key == k && Selected(oplog[j], since, stamp)
  {
    if oplog != [] {
      SelectSees(Front(oplog), since, stamp, k);
      var batch, front := Select(oplog, since, stamp), Select(Front(oplog), since, stamp);
      if Seen(front, |front|, k) {
        var j :| 0 <= j < |Front(oplog)| && Front(oplog)[j].key == k && Selected(Front(oplog)[j], since, stamp);
        assert oplog[j].key == k;
        var m :| 0 <= m < |front| && front[m].key == k;
        assert batch[m].key == k;
      } else if Last(oplog).key == k && Selected(Last(oplog), since, stamp) {
        assert batch[|batch| - 1].key == k;
      } else {
        assert forall m :: 0 <= m < |front| ==> batch[m] == front[m];
        assert forall j :: 0 <= j < |oplog| - 1 ==> Front(oplog)[j] == oplog[j];
      }
    }
  }

  lemma {:induction false} SelectFromOplog(oplog: Log, since: int, stamp: Option<int>)
    ensures forall e :: e in Select(oplog, since, stamp) <==> e in oplog && Selected(e, since, stamp)
    ensures Ascending(oplog) ==> Ascending(Select(oplog, since, stamp))
  {
    if oplog != [] {
      var front, e := Front(oplog), Last(oplog);
      SelectFromOplog(front, since, stamp);
      assert oplog == front + [e];
      if Ascending(oplog) {
        var before := Select(front, since, stamp);
        forall m | 0 <= m < |before|
          ensures before[m].rowid < e.rowid
        {
          assert before[m] in front;
        }
      }
    }
  }

  /** Tagging one more selected entry does not touch the earlier ones. */
  lemma TaggedGrows(before: Log, e: OplogEntry, shadow: Shadow)
    ensures Tagged(before + [e], shadow) ==
            Tagged(before, shadow) +
            [e.(clearTags := if Seen(before, |before|, e.key) then [] else TagsOf(shadow, e.key))]
  {
    var batch := before + [e];
    forall m | 0 <= m < |batch|
      ensures Seen(batch, m, batch[m].key) <==> Seen(before, m, batch[m].key)
    {
      assert forall j :: 0 <= j < m ==> batch[j] == before[j];
    }
  }

  lemma LastEntryTagged(front: Log, e: OplogEntry, since: int, ts: int, shadow: Shadow)
    requires Ascending(front + [e])
    ensures WithTags(e, Tagged(Select(front + [e], since, Some(ts)), shadow)) ==
            EntryAfter(front + [e], |front|, since, ts, shadow)
  {
    var oplog, before := front + [e], Select(front, since, Some(ts));
    assert Front(oplog) == front;
    assert forall j :: 0 <= j < |front| ==> front[j] == oplog[j];
    SelectSees(front, since, Some(ts), e.key);
    if Selected(e, since, Some(ts)) {
      TaggedGrows(before, e, shadow);
    } else {
      SelectFromOplog(front, since, Some(ts));
      forall m | 0 <= m < |before|
        ensures before[m].rowid != e.rowid
      {
        assert before[m] in front;
        var x :| 0 <= x < |front| && front[x] == before[m];
        assert oplog[x].rowid < oplog[|front|].rowid;
      }
      UntouchedByTags(e, Tagged(before, shadow));
    }
  }

  lemma EarlierEntryTagged(front: Log, e: OplogEntry, since: int, ts: int, shadow: Shadow, i: nat)
    requires Ascending(front + [e]) && i < |front|
    ensures WithTags(front[i], Tagged(Select(front + [e], since, Some(ts)), shadow)) ==
            WithTags(front[i], Tagged(Select(front, since, Some(ts)), shadow))
    ensures EntryAfter(front + [e], i, since, ts, shadow) == EntryAfter(front, i, since, ts, shadow)
  {
    var oplog, before := front + [e], Select(front, since, Some(ts));
    assert Front(oplog) == front;
    assert forall j :: 0 <= j < |front| ==> front[j] == oplog[j];
    if Selected(e, since, Some(ts)) {
      TaggedGrows(before, e, shadow);
      assert Front(Tagged(before + [e], shadow)) == Tagged(before, shadow);
      assert oplog[i].rowid < oplog[|front|].rowid;
    }
  }

  /** The tags written back by rowid are, entry by entry, those of the rule above. */
  lemma {:induction false} TagsReachOplog(oplog: Log, since: int, ts: int, shadow: Shadow, i: nat)
    requires Ascending(oplog) && i < |oplog|
    ensures WithTags(oplog[i], Tagged(Select(oplog, since, Some(ts)), shadow)) ==
            EntryAfter(oplog, i, since, ts, shadow)
  {
    var front, e := Front(oplog), Last(oplog);
    assert oplog == front + [e];
    if i < |front| {
      assert forall j :: 0 <= j < |front| ==> front[j] == oplog[j];
      TagsReachOplog(front, since, ts, shadow, i);
      EarlierEntryTagged(front, e, since, ts, shadow, i);
    } else {
      LastEntryTagged(front, e, since, ts, shadow);
    }
  }

  lemma {:induction false} UntouchedByTags(e: OplogEntry, tagged: Log)
    requires forall m :: 0 <= m < |tagged| ==> tagged[m].rowid != e.rowid
    ensures WithTags(e, tagged) == e
  {
    if tagged != [] {
      UntouchedByTags(e, Front(tagged));
    }
  }
}
