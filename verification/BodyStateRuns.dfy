/** Many producers, each reloading, merging and rewriting one snapshot file under a lock, against one bridge
    in memory. */
module BodyStateRuns {
  import opened Basics
  import opened BodyStateSpec

  /** The shared files: the snapshot, if there is one, and the journal. An unreadable snapshot is an empty document. */
  datatype Store = Store(document: Option<seq<Input>>, journal: seq<Record>)

  function TableOf(limit: nat, store: Store): Table {
    Load(limit, Bare, if store.document.Some? then store.document.value else [])
  }

  /** The end of `publish_many`: the snapshot is rewritten unless the loop raised or had nothing to do. */
  ghost function Written(store: Store, p: Progress): Store {
    Store(if p.ok && (p.applied > 0 || store.document.None?) then Some(Snapshot(p.table)) else store.document,
          p.journal)
  }

  /** `LockedBodyStateSnapshotBridge.publish_many`, and whether it returned. */
  ghost function LockedPublish(limit: nat, store: Store, batch: seq<Input>): (Store, bool) {
    var p := Publish(limit, TableOf(limit, store), store.journal, batch);
    (Written(store, p), p.ok)
  }

  /** One long-lived bridge: its table in memory beside the files. */
  datatype Bridge = Bridge(table: Table, store: Store)

  ghost function MemoryPublish(limit: nat, b: Bridge, batch: seq<Input>): (Bridge, bool) {
    var p := Publish(limit, b.table, b.store.journal, batch);
    (Bridge(p.table, Written(b.store, p)), p.ok)
  }

  /** Batches in the order in which their producers got the lock. */
  ghost function LockedRun(limit: nat, store: Store, batches: seq<seq<Input>>): Store
    decreases |batches|
  {
    if batches == [] then store else LockedRun(limit, LockedPublish(limit, store, batches[0]).0, batches[1..])
  }

  ghost function MemoryRun(limit: nat, b: Bridge, batches: seq<seq<Input>>): Bridge
    decreases |batches|
  {
    if batches == [] then b else MemoryRun(limit, MemoryPublish(limit, b, batches[0]).0, batches[1..])
  }

  /** Each batch counts entirely or, when it raises, not at all. */
  function AtomicFold(limit: nat, t: Table, batches: seq<seq<Input>>): Table
    decreases |batches|
  {
    if batches == [] then t
    else
      var p := Publish(limit, t, [], batches[0]);
      AtomicFold(limit, if p.ok then p.table else t, batches[1..])
  }

  // ----- the table behind the file -----

  lemma {:induction false} JournalIsOnlyWritten(limit: nat, t: Table, journal: seq<Record>, batch: seq<Input>)
    ensures var p, q := Publish(limit, t, journal, batch), Publish(limit, t, [], batch);
            p == q.(journal := journal + q.journal)
    decreases |batch|
  {
    if batch != [] && batch[0].Valid? {
      var r := batch[0].record;
      assert [] + [r] == [r];
      if Apply(limit, t, r).Some? {
        var next := Apply(limit, t, r).value;
        JournalIsOnlyWritten(limit, next, journal + [r], batch[1..]);
        JournalIsOnlyWritten(limit, next, [r], batch[1..]);
      }
    }
  }

  lemma TableOfIsWellFiled(limit: nat, store: Store)
    ensures WellFiled(limit, TableOf(limit, store))
  {
    LoadIsWellFiled(limit, Bare, if store.document.Some? then store.document.value else []);
  }

  /** The records of the first n things handed over. */
  function Records(batch: seq<Input>, n: nat): seq<Record>
    requires n <= |batch|
  {
    if n == 0 then []
    else Records(batch, n - 1) + (if batch[n - 1].Valid? then [batch[n - 1].record] else [])
  }

  lemma {:induction false} RecordsLater(batch: seq<Input>, n: nat)
    requires n < |batch|
    ensures Records(batch, n + 1) == Records(batch, 1) + Records(batch[1..], n)
  {
    if n > 0 {
      RecordsLater(batch, n - 1);
    }
  }

  /** A batch journals what it applied, and the record that found no room. */
  lemma {:induction false} WhatABatchJournals(limit: nat, t: Table, journal: seq<Record>, batch: seq<Input>)
    ensures var p := Publish(limit, t, journal, batch);
            p.journal == journal + Records(batch, if p.ok then |batch| else p.applied + 1)
    decreases |batch|
  {
    hide Apply;
    if batch != [] {
      assert Records(batch, 1) == if batch[0].Valid? then [batch[0].record] else [];
      if batch[0].Valid? && Apply(limit, t, batch[0].record).Some? {
        var next := Apply(limit, t, batch[0].record).value;
        WhatABatchJournals(limit, next, journal + [batch[0].record], batch[1..]);
        var p := Publish(limit, next, journal + [batch[0].record], batch[1..]);
        RecordsLater(batch, if p.ok then |batch| - 1 else p.applied + 1);
      }
    }
  }

  /** What a batch does to the files: the journal gets what was tried; the snapshot is rewritten from the table when the
      batch went through and there was something to write or no snapshot yet, and is left alone otherwise. */
  lemma FilesAfterABatch(limit: nat, t: Table, store: Store, batch: seq<Input>)
    ensures var p := Publish(limit, t, store.journal, batch);
            var after := Written(store, p);
            && after.journal == store.journal + Records(batch, if p.ok then |batch| else p.applied + 1)
            && (p.ok && batch != [] ==> after.document == Some(Snapshot(p.table)))
            && (batch == [] ==> after.document == (if store.document.None? then Some(Snapshot(t)) else store.document))
            && (!p.ok ==> after.document == store.document)
  {
    hide Snapshot, Apply;
    WhatABatchJournals(limit, t, store.journal, batch);
  }

  /** After one locked batch the file holds the batch's table, or what it held before. */
  lemma LockedBatchIsAtomic(limit: nat, store: Store, batch: seq<Input>)
    ensures var t := TableOf(limit, store);
            var p := Publish(limit, t, store.journal, batch);
            TableOf(limit, LockedPublish(limit, store, batch).0) == if p.ok then p.table else t
  {
    hide Load, WellFiled, Snapshot;
    var t := TableOf(limit, store);
    var p := Publish(limit, t, store.journal, batch);
    TableOfIsWellFiled(limit, store);
    PublishKeepsFiling(limit, t, store.journal, batch);
    SnapshotReadsBack(limit, p.table);
  }

  /** Whatever the producers publish, the file is the fold of the batches in lock order, a raising batch counting for
      nothing. */
  lemma {:induction false} LockedRunIsAtomicFold(limit: nat, store: Store, batches: seq<seq<Input>>)
    ensures TableOf(limit, LockedRun(limit, store, batches)) == AtomicFold(limit, TableOf(limit, store), batches)
    decreases |batches|
  {
    hide TableOf, LockedPublish, Publish;
    if batches != [] {
      LockedBatchIsAtomic(limit, store, batches[0]);
      JournalIsOnlyWritten(limit, TableOf(limit, store), store.journal, batches[0]);
      LockedRunIsAtomicFold(limit, LockedPublish(limit, store, batches[0]).0, batches[1..]);
    }
  }

  // ----- the same as one bridge in memory -----

  function Concat(batches: seq<seq<Input>>): seq<Input>
    decreases |batches|
  {
    if batches == [] then [] else batches[0] + Concat(batches[1..])
  }

  lemma {:induction false} PublishJoin(limit: nat, t: Table, journal: seq<Record>, a: seq<Input>, b: seq<Input>)
    ensures var p := Publish(limit, t, journal, a);
            Publish(limit, t, journal, a + b) ==
              if !p.ok then p
              else var q := Publish(limit, p.table, p.journal, b); q.(applied := p.applied + q.applied)
    decreases |a|
  {
    if a == [] {
      assert a + b == b;
    } else {
      assert (a + b)[1..] == a[1..] + b;
      if a[0].Valid? && Apply(limit, t, a[0].record).Some? {
        PublishJoin(limit, Apply(limit, t, a[0].record).value, journal + [a[0].record], a[1..], b);
      }
    }
  }

  /** While no batch raises, the locked producers write exactly what one bridge fed all batches would: the same files
      and the same table, that of all the records in lock order. */
  lemma {:induction false} ManyProducersActAsOne(limit: nat, store: Store, batches: seq<seq<Input>>)
    requires Fits(limit, TableOf(limit, store), Concat(batches))
    ensures var one := MemoryRun(limit, Bridge(TableOf(limit, store), store), batches);
            && LockedRun(limit, store, batches) == one.store
            && TableOf(limit, one.store) == one.table
            && one.table == Publish(limit, TableOf(limit, store), store.journal, Concat(batches)).table
    decreases |batches|
  {
    hide TableOf, Written, Fits, WellFiled, Publish;
    var t := TableOf(limit, store);
    TableOfIsWellFiled(limit, store);
    if batches == [] {
      PublishNothing(limit, t, store.journal);
    } else {
      var first, rest := batches[0], Concat(batches[1..]);
      var p := Publish(limit, t, store.journal, first);
      var next := LockedPublish(limit, store, first).0;
      BatchSucceedsExactlyWhenItFits(limit, t, store.journal, first + rest);
      PublishJoin(limit, t, store.journal, first, rest);
      assert p.ok;
      LockedBatchIsAtomic(limit, store, first);
      PublishKeepsFiling(limit, t, store.journal, first);
      BatchSucceedsExactlyWhenItFits(limit, p.table, p.journal, rest);
      assert next.journal == p.journal by { WrittenJournal(store, p); }
      ManyProducersActAsOne(limit, next, batches[1..]);
    }
  }

  lemma PublishNothing(limit: nat, t: Table, journal: seq<Record>)
    ensures Publish(limit, t, journal, []) == Progress(t, journal, 0, true)
  {
  }

  lemma WrittenJournal(store: Store, p: Progress)
    ensures Written(store, p).journal == p.journal
  {
  }

  /** With room for every module and ties only between repetitions, the file depends on which records were published,
      not on who published them, in which batches, or in which order. */
  lemma ProducersMayInterleaveFreely(limit: nat, store: Store, a: seq<seq<Input>>, b: seq<seq<Input>>)
    requires Fits(limit, TableOf(limit, store), Concat(a)) && Unambiguous(Concat(a)) && SameInputs(Concat(a), Concat(b))
    ensures TableOf(limit, LockedRun(limit, store, a)) == TableOf(limit, LockedRun(limit, store, b))
  {
    hide TableOf, Fits, Unambiguous, SameInputs, LockedRun, MemoryRun, Publish;
    var t := TableOf(limit, store);
    TableOfIsWellFiled(limit, store);
    SameInputsFit(limit, t, Concat(a), Concat(b));
    OrderDoesNotMatter(limit, t, store.journal, Concat(a), Concat(b));
    ManyProducersActAsOne(limit, store, a);
    ManyProducersActAsOne(limit, store, b);
  }

  // ----- a batch that raises -----

  /** The first `n` records fit, and no more of them. */
  ghost predicate LongestFitting(limit: nat, t: Table, batch: seq<Input>, n: nat) {
    && n <= |batch| && Fits(limit, t, batch[..n])
    && (n < |batch| ==> !Fits(limit, t, batch[..n + 1]))
  }

  lemma {:induction false} PrefixSucceeds(limit: nat, t: Table, journal: seq<Record>, batch: seq<Input>, k: nat)
    requires k <= |batch|
    ensures Publish(limit, t, journal, batch[..k]).ok <==> k <= Publish(limit, t, journal, batch).applied
    decreases k
  {
    if k > 0 {
      assert batch[..k][1..] == batch[1..][..k - 1];
      if batch[0].Valid? && Apply(limit, t, batch[0].record).Some? {
        PrefixSucceeds(limit, Apply(limit, t, batch[0].record).value, journal + [batch[0].record], batch[1..], k - 1);
      }
    }
  }

  /** The loop of a batch gets exactly as far as its records fit. */
  lemma AppliedIsLongestFitting(limit: nat, t: Table, journal: seq<Record>, batch: seq<Input>, n: nat)
    requires WellFiled(limit, t)
    ensures LongestFitting(limit, t, batch, n) <==> n == Publish(limit, t, journal, batch).applied
  {
    hide Publish, WellFiled, Fits;
    var applied := Publish(limit, t, journal, batch).applied;
    forall k | 0 <= k <= |batch|
      ensures Fits(limit, t, batch[..k]) <==> k <= applied
    {
      PrefixSucceeds(limit, t, journal, batch, k);
      BatchSucceedsExactlyWhenItFits(limit, t, journal, batch[..k]);
    }
  }

  /** Applying the records leaves every slot as it was: they are older than what it holds, or end in the same record. */
  ghost predicate KeepsEverySlot(t: Table, batch: seq<Input>) {
    forall sensor, m :: Wins(Lookup(t, sensor, m), Lookup(t, sensor, m), batch, sensor, m)
  }

  /** A batch leaves the file and the bridge in memory with one table exactly when all of it fits, or the records before
      the first that does not leave every slot as it was. */
  lemma FileAndMemoryAgreeExactlyWhen(limit: nat, store: Store, batch: seq<Input>, n: nat)
    requires LongestFitting(limit, TableOf(limit, store), batch, n)
    ensures var t := TableOf(limit, store);
            var memory := MemoryPublish(limit, Bridge(t, store), batch).0.table;
            TableOf(limit, LockedPublish(limit, store, batch).0) == memory <==>
                n == |batch| || KeepsEverySlot(t, batch[..n])
  {
    hide TableOf, Publish, Wins, Lookup, LongestFitting;
    var t := TableOf(limit, store);
    var p := Publish(limit, t, store.journal, batch);
    LockedBatchIsAtomic(limit, store, batch);
    TableOfIsWellFiled(limit, store);
    AppliedIsLongestFitting(limit, t, store.journal, batch, n);
    forall sensor, m
      ensures Wins(Lookup(p.table, sensor, m), Lookup(t, sensor, m), batch[..n], sensor, m)
    {
      GreatestTimestampIsKept(limit, t, store.journal, batch, sensor, m);
    }
    if KeepsEverySlot(t, batch[..n]) {
      forall sensor, m
        ensures Lookup(p.table, sensor, m) == Lookup(t, sensor, m)
      {
        WinnerIsUnique(Lookup(p.table, sensor, m), Lookup(t, sensor, m), Lookup(t, sensor, m), batch[..n], sensor, m);
      }
      SameLookups(p.table, t);
    }
  }

  /** Such a number of records always exists, and only one. */
  lemma SomeRecordsFit(limit: nat, store: Store, batch: seq<Input>)
    ensures exists n: nat :: LongestFitting(limit, TableOf(limit, store), batch, n)
    ensures var t := TableOf(limit, store);
            forall m: nat, n: nat :: LongestFitting(limit, t, batch, m) && LongestFitting(limit, t, batch, n) ==> m == n
  {
    hide TableOf, Publish, LongestFitting;
    var t := TableOf(limit, store);
    TableOfIsWellFiled(limit, store);
    forall n: nat
      ensures LongestFitting(limit, t, batch, n) <==> n == Publish(limit, t, [], batch).applied
    {
      AppliedIsLongestFitting(limit, t, [], batch, n);
    }
    assert LongestFitting(limit, t, batch, Publish(limit, t, [], batch).applied);
  }

  /** A malformed record after a good one: the bridge in memory keeps the good one, the shared file does not, and both
      have journalled it. */
  lemma RaisingBatchIsNotTheFold(limit: nat, m: Id)
    requires limit >= 1
    ensures var r := Record(Sensor, m, 1.0, 0);
            var store := Store(None, []);
            var batch := [Valid(r), Malformed];
            var memory := MemoryPublish(limit, Bridge(TableOf(limit, store), store), batch).0;
            var file := LockedPublish(limit, store, batch).0;
            && Lookup(memory.table, true, m) == Some(r)
            && Lookup(TableOf(limit, file), true, m) == None
            && memory.store.journal == file.journal == [r]
  {
    var r := Record(Sensor, m, 1.0, 0);
    var batch := [Valid(r), Malformed];
    assert batch[1..] == [Malformed];
    assert Apply(limit, Bare, r) == Some(Put(Bare, r));
    assert Publish(limit, Bare, [], batch) == Progress(Put(Bare, r), [r], 1, false);
    LockedBatchIsAtomic(limit, Store(None, []), batch);
  }

  // ----- the journal -----

  function Recorded(journal: seq<Record>): seq<Input> {
    seq(|journal|, i requires 0 <= i < |journal| => Valid(journal[i]))
  }

  lemma {:induction false} BatchReplays(limit: nat, t: Table, batch: seq<Input>)
    ensures var p := Publish(limit, t, [], batch); p.table == Load(limit, t, Recorded(p.journal))
    decreases |batch|
  {
    if batch != [] && batch[0].Valid? {
      var r := batch[0].record;
      assert [] + [r] == [r];
      var p := Publish(limit, t, [], batch);
      if Apply(limit, t, r).Some? {
        var next := Apply(limit, t, r).value;
        JournalIsOnlyWritten(limit, next, [r], batch[1..]);
        BatchReplays(limit, next, batch[1..]);
        var q := Publish(limit, next, [], batch[1..]);
        assert Recorded(p.journal)[1..] == Recorded(q.journal);
      } else {
        assert Recorded(p.journal)[1..] == [];
      }
    }
  }

  /** Replaying the journal rebuilds the table of a bridge in memory, whether or not its batches raised. */
  lemma {:induction false} JournalReplaysTheBridge(limit: nat, b: Bridge, batches: seq<seq<Input>>)
    requires b.table == Load(limit, Bare, Recorded(b.store.journal))
    ensures var after := MemoryRun(limit, b, batches);
            after.table == Load(limit, Bare, Recorded(after.store.journal))
    decreases |batches|
  {
    hide Load, Publish, Recorded;
    if batches != [] {
      var p, q := Publish(limit, b.table, b.store.journal, batches[0]), Publish(limit, b.table, [], batches[0]);
      JournalIsOnlyWritten(limit, b.table, b.store.journal, batches[0]);
      BatchReplays(limit, b.table, batches[0]);
      RecordedJoin(b.store.journal, q.journal);
      LoadJoin(limit, Bare, Recorded(b.store.journal), Recorded(q.journal));
      JournalReplaysTheBridge(limit, MemoryPublish(limit, b, batches[0]).0, batches[1..]);
    }
  }

  lemma RecordedJoin(a: seq<Record>, b: seq<Record>)
    ensures Recorded(a + b) == Recorded(a) + Recorded(b)
  {
  }
}
