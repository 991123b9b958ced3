/** The body-state bridge and its locked wrapper as mutable objects over shared files. */
module BodyState {
  import opened Basics
  import opened BodyStateSpec
  import opened BodyStateRuns

  /** The snapshot file and the journal file. */
  class BodyFiles {
    var document: Option<seq<Input>>
    var journal: seq<Record>

    constructor ()
      ensures document == None && journal == []
    {
      document, journal := None, [];
    }

    function Abs(): Store
      reads this
    {
      Store(document, journal)
    }
  }

  class BodyStateSnapshotBridge {
    const limit: nat
    const files: BodyFiles
    var sensors: map<Id, Record>
    var health: map<Id, Record>

    /** Opening a bridge loads the existing snapshot, skipping what it refuses. */
    constructor (files: BodyFiles, limit: nat)
      ensures this.files == files && this.limit == limit
      ensures Abs() == Bridge(TableOf(limit, files.Abs()), files.Abs())
    {
      this.limit, this.files := limit, files;
      sensors, health := map[], map[];
      new;
      if files.document.Some? {
        var document := files.document.value;
        for i := 0 to |document|
          invariant files.Abs() == old(files.Abs())
          invariant Load(limit, Bare, document) == Load(limit, TableNow(), document[i..])
        {
          assert document[i..][0] == document[i] && document[i..][1..] == document[i + 1..];
          if document[i].Valid? {
            var _ := Insert(document[i].record);
          }
        }
      }
    }

    function TableNow(): Table
      reads this
    {
      Table(sensors, health)
    }

    function Abs(): Bridge
      reads this, files
    {
      Bridge(TableNow(), files.Abs())
    }

    /** `_apply`; false when it raises. */
    method Insert(r: Record) returns (ok: bool)
      modifies this
      ensures Apply(limit, old(TableNow()), r) == if ok then Some(TableNow()) else None
      ensures !ok ==> TableNow() == old(TableNow())
    {
      var target := if FiledAsSensor(r) then sensors else health;
      if r.moduleId in target {
        if r.timestamp < target[r.moduleId].timestamp {
          return true;
        }
      }
      if r.moduleId !in target && |target| >= limit {
        return false;
      }
      if FiledAsSensor(r) {
        sensors := sensors[r.moduleId := r];
      } else {
        health := health[r.moduleId := r];
      }
      return true;
    }

    /** Journal and apply record by record; a refused record leaves what came before it. */
    method PublishMany(batch: seq<Input>) returns (ok: bool)
      modifies this, files
      ensures (Abs(), ok) == MemoryPublish(limit, old(Abs()), batch)
    {
      hide Apply, Snapshot;
      ghost var t, journal := TableNow(), files.journal;
      for i := 0 to |batch|
        invariant files.document == old(files.document)
        invariant Publish(limit, t, journal, batch)
               == Publish(limit, TableNow(), files.journal, batch[i..]).(
                    applied := i + Publish(limit, TableNow(), files.journal, batch[i..]).applied)
      {
        assert batch[i..][0] == batch[i] && batch[i..][1..] == batch[i + 1..];
        if batch[i].Malformed? {
          return false;
        }
        ghost var before := TableNow();
        files.journal := files.journal + [batch[i].record];
        var inserted := Insert(batch[i].record);
        if !inserted {
          return false;
        }
      }
      assert batch[|batch|..] == [];
      var document := TakeSnapshot();
      if batch != [] || files.document.None? {
        files.document := Some(document);
      }
      return true;
    }

    method TakeSnapshot() returns (document: seq<Input>)
      ensures document == Snapshot(TableNow())
    {
      var first := ListShelf(sensors);
      var second := ListShelf(health);
      return first + second;
    }

    static method ListShelf(shelf: map<Id, Record>) returns (document: seq<Input>)
      ensures document == Listing(shelf, Sorted(shelf.Keys))
    {
      hide Ascending;
      var keys := SortedKeys(shelf.Keys);
      document := ListKeys(shelf, keys);
    }

    static method ListKeys(shelf: map<Id, Record>, keys: seq<Id>) returns (document: seq<Input>)
      requires forall k :: k in keys ==> k in shelf
      ensures document == Listing(shelf, keys)
    {
      document := [];
      for i := 0 to |keys|
        invariant |document| == i
        invariant forall j :: 0 <= j < i ==> document[j] == Valid(shelf[keys[j]])
      {
        document := document + [Valid(shelf[keys[i]])];
      }
    }
  }

  class LockedBodyStateSnapshotBridge {
    const limit: nat
    const files: BodyFiles

    constructor (files: BodyFiles, limit: nat)
      ensures this.files == files && this.limit == limit
    {
      this.files, this.limit := files, limit;
    }

    /** Under the lock: reload, merge, write. */
    method PublishMany(batch: seq<Input>) returns (ok: bool)
      modifies files
      ensures (files.Abs(), ok) == LockedPublish(limit, old(files.Abs()), batch)
    {
      hide Publish, Load;
      var bridge := new BodyStateSnapshotBridge(files, limit);
      ok := bridge.PublishMany(batch);
    }

    /** A reader sees the table the file holds. */
    method ReadSnapshot() returns (document: seq<Input>)
      ensures document == Snapshot(TableOf(limit, files.Abs()))
    {
      hide Publish, Load;
      var bridge := new BodyStateSnapshotBridge(files, limit);
      document := bridge.TakeSnapshot();
    }
  }
}
