/** The body-state table: the newest record of every module, rebuilt from a snapshot file that several
    producers share. */
module BodyStateSpec {
  import opened Basics

  /** A family text with surrounding blanks validates as its trimmed self, but is filed untrimmed. */
  datatype Family = Sensor | PaddedSensor | Health

  datatype Record = Record(family: Family, moduleId: Id, timestamp: real, body: Id)

  /** What a producer hands over: something `validate_body_record` refuses, or a record. */
  datatype Input = Malformed | Valid(record: Record)

  datatype Table = Table(sensors: map<Id, Record>, health: map<Id, Record>)

  const Bare: Table := Table(map[], map[])

  /** The shelf a record is filed on: sensors or health. */
  predicate FiledAsSensor(r: Record) { r.family.Sensor? }

  function Shelf(t: Table, sensor: bool): map<Id, Record> { if sensor then t.sensors else t.health }

  function Lookup(t: Table, sensor: bool, m: Id): Option<Record> {
    if m in Shelf(t, sensor) then Some(Shelf(t, sensor)[m]) else None
  }

  function Put(t: Table, r: Record): Table {
    if FiledAsSensor(r) then t.(sensors := t.sensors[r.moduleId := r]) else t.(health := t.health[r.moduleId := r])
  }

  /** `_apply`: None when the module limit is reached. */
  function Apply(limit: nat, t: Table, r: Record): Option<Table> {
    var shelf := Shelf(t, FiledAsSensor(r));
    if r.moduleId in shelf && r.timestamp < shelf[r.moduleId].timestamp then Some(t)
    else if r.moduleId !in shelf && |shelf| >= limit then None
    else Some(Put(t, r))
  }

  /** How far a batch got: the table, the journal, how many records were applied, and whether all were. */
  datatype Progress = Progress(table: Table, journal: seq<Record>, applied: nat, ok: bool)

  /** The loop of `publish_many`. A record is journalled before it is applied. */
  function Publish(limit: nat, t: Table, journal: seq<Record>, batch: seq<Input>): (p: Progress)
    ensures p.applied <= |batch| && (p.ok <==> p.applied == |batch|)
    decreases |batch|
  {
    if batch == [] then Progress(t, journal, 0, true)
    else if batch[0].Malformed? then Progress(t, journal, 0, false)
    else
      var r := batch[0].record;
      match Apply(limit, t, r)
      case None => Progress(t, journal + [r], 0, false)
      case Some(next) =>
        var p := Publish(limit, next, journal + [r], batch[1..]);
        p.(applied := p.applied + 1)
  }

  /** `_load_existing_snapshot`: what is refused is skipped. */
  function Load(limit: nat, t: Table, document: seq<Input>): Table
    decreases |document|
  {
    if document == [] then t
    else
      var next := if document[0].Malformed? then None else Apply(limit, t, document[0].record);
      Load(limit, if next.Some? then next.value else t, document[1..])
  }

  ghost function Listing(shelf: map<Id, Record>, keys: seq<Id>): seq<Input>
    requires forall k :: k in keys ==> k in shelf
  {
    seq(|keys|, i requires 0 <= i < |keys| => Valid(shelf[keys[i]]))
  }

  /** `snapshot`: sensors by module, then health by module. */
  ghost function Snapshot(t: Table): seq<Input> {
    Listing(t.sensors, Sorted(t.sensors.Keys)) + Listing(t.health, Sorted(t.health.Keys))
  }

  /** Every record stands under its own module on its own shelf, and no shelf is over the limit. */
  ghost predicate WellFiled(limit: nat, t: Table) {
    && |t.sensors| <= limit && |t.health| <= limit
    && (forall m :: m in t.sensors ==> t.sensors[m].moduleId == m && FiledAsSensor(t.sensors[m]))
    && (forall m :: m in t.health ==> t.health[m].moduleId == m && !FiledAsSensor(t.health[m]))
  }

  lemma ApplyKeepsFiling(limit: nat, t: Table, r: Record)
    requires WellFiled(limit, t)
    ensures Apply(limit, t, r).Some? ==> WellFiled(limit, Apply(limit, t, r).value)
  {
    var shelf := Shelf(t, FiledAsSensor(r));
    assert shelf[r.moduleId := r].Keys == shelf.Keys + {r.moduleId};
    assert |shelf.Keys| == |shelf|;
    assert |shelf[r.moduleId := r].Keys| == |shelf[r.moduleId := r]|;
  }

  lemma {:induction false} LoadIsWellFiled(limit: nat, t: Table, document: seq<Input>)
    requires WellFiled(limit, t)
    ensures WellFiled(limit, Load(limit, t, document))
    decreases |document|
  {
    if document != [] {
      if document[0].Valid? {
        ApplyKeepsFiling(limit, t, document[0].record);
      }
      var next := if document[0].Malformed? then None else Apply(limit, t, document[0].record);
      LoadIsWellFiled(limit, if next.Some? then next.value else t, document[1..]);
    }
  }

  lemma {:induction false} PublishKeepsFiling(limit: nat, t: Table, journal: seq<Record>, batch: seq<Input>)
    requires WellFiled(limit, t)
    ensures WellFiled(limit, Publish(limit, t, journal, batch).table)
    decreases |batch|
  {
    if batch != [] && batch[0].Valid? {
      var r := batch[0].record;
      ApplyKeepsFiling(limit, t, r);
      if Apply(limit, t, r).Some? {
        PublishKeepsFiling(limit, Apply(limit, t, r).value, journal + [r], batch[1..]);
      }
    }
  }

  // ----- the snapshot is read back exactly -----

  lemma {:induction false} LoadJoin(limit: nat, t: Table, a: seq<Input>, b: seq<Input>)
    ensures Load(limit, t, a + b) == Load(limit, Load(limit, t, a), b)
    decreases |a|
  {
    if a == [] {
      assert a + b == b;
    } else {
      assert (a + b)[1..] == a[1..] + b;
      var next := if a[0].Malformed? then None else Apply(limit, t, a[0].record);
      LoadJoin(limit, if next.Some? then next.value else t, a[1..], b);
    }
  }

  function Extended(t: Table, sensor: bool, more: map<Id, Record>): Table {
    if sensor then t.(sensors := t.sensors + more) else t.(health := t.health + more)
  }

  function Restricted(shelf: map<Id, Record>, keys: seq<Id>): map<Id, Record>
    requires forall k :: k in keys ==> k in shelf
  {
    map k | k in keys :: shelf[k]
  }

  /** The listed modules have their own records, and belong to this shelf. */
  ghost predicate Listed(shelf: map<Id, Record>, sensor: bool, keys: seq<Id>) {
    forall k :: k in keys ==> k in shelf && shelf[k].moduleId == k && FiledAsSensor(shelf[k]) == sensor
  }

  lemma RestrictedStep(before: map<Id, Record>, shelf: map<Id, Record>, keys: seq<Id>)
    requires keys != [] && Ascending(keys) && forall k :: k in keys ==> k in shelf
    ensures forall k :: k in keys[1..] ==> k in shelf
    ensures before[keys[0] := shelf[keys[0]]] + Restricted(shelf, keys[1..]) == before + Restricted(shelf, keys)
  {
    forall j ensures j in keys[1..] <==> j in keys && j != keys[0] { MemberOfTail(keys, j); }
    var all, tail := Restricted(shelf, keys), Restricted(shelf, keys[1..]);
    assert all.Keys == tail.Keys + {keys[0]};
  }

  lemma PutGrows(limit: nat, t: Table, sensor: bool, r: Record)
    requires FiledAsSensor(r) == sensor && r.moduleId !in Shelf(t, sensor) && |Shelf(t, sensor)| < limit
    ensures Apply(limit, t, r) == Some(Put(t, r))
    ensures Shelf(Put(t, r), sensor) == Shelf(t, sensor)[r.moduleId := r]
    ensures |Shelf(Put(t, r), sensor)| == |Shelf(t, sensor)| + 1
  {
    assert Shelf(Put(t, r), sensor).Keys == Shelf(t, sensor).Keys + {r.moduleId};
    assert |Shelf(Put(t, r), sensor).Keys| == |Shelf(Put(t, r), sensor)|
        && |Shelf(t, sensor).Keys| == |Shelf(t, sensor)|;
  }

  /** Reading a listing of modules that are not there yet adds exactly them. */
  lemma {:induction false} LoadListing(limit: nat, t: Table, sensor: bool, shelf: map<Id, Record>, keys: seq<Id>)
    requires Ascending(keys) && Listed(shelf, sensor, keys)
    requires forall k :: k in keys ==> k !in Shelf(t, sensor)
    requires |Shelf(t, sensor)| + |keys| <= limit
    ensures Load(limit, t, Listing(shelf, keys)) == Extended(t, sensor, Restricted(shelf, keys))
    decreases |keys|
  {
    hide Apply, Put, Restricted;
    if keys == [] {
      RestrictedToNothing(t, sensor, shelf);
    } else {
      var k, rest := keys[0], keys[1..];
      assert k in keys;
      forall j | j in rest ensures j in keys && j != k { MemberOfTail(keys, j); }
      var document := Listing(shelf, keys);
      assert document[0] == Valid(shelf[k]) && document[1..] == Listing(shelf, rest);
      PutGrows(limit, t, sensor, shelf[k]);
      LoadListing(limit, Put(t, shelf[k]), sensor, shelf, rest);
      RestrictedStep(Shelf(t, sensor), shelf, keys);
      PutElsewhere(t, shelf[k]);
    }
  }

  lemma PutElsewhere(t: Table, r: Record)
    ensures Shelf(Put(t, r), !FiledAsSensor(r)) == Shelf(t, !FiledAsSensor(r))
  {
  }

  lemma RestrictedToNothing(t: Table, sensor: bool, shelf: map<Id, Record>)
    ensures Extended(t, sensor, Restricted(shelf, [])) == t
  {
    assert Restricted(shelf, []) == map[];
  }

  lemma RestrictedToAll(shelf: map<Id, Record>, keys: seq<Id>)
    requires Enumerates(keys, shelf.Keys)
    ensures Restricted(shelf, keys) == shelf
  {
  }

  lemma ExtendBare(t: Table, sensor: bool, shelf: map<Id, Record>)
    requires Shelf(t, sensor) == map[]
    ensures Extended(t, sensor, shelf) == if sensor then t.(sensors := shelf) else t.(health := shelf)
  {
    assert map[] + shelf == shelf;
  }

  /** A whole listing read onto an empty shelf. */
  lemma LoadShelf(limit: nat, t: Table, sensor: bool, shelf: map<Id, Record>, keys: seq<Id>)
    requires Shelf(t, sensor) == map[] && |shelf| <= limit
    requires Enumerates(keys, shelf.Keys) && |keys| == |shelf| && Listed(shelf, sensor, keys)
    ensures Load(limit, t, Listing(shelf, keys)) == if sensor then t.(sensors := shelf) else t.(health := shelf)
  {
    hide Load, Listing, Restricted, Extended, Listed;
    assert forall k :: k in keys ==> k !in Shelf(t, sensor);
    LoadListing(limit, t, sensor, shelf, keys);
    RestrictedToAll(shelf, keys);
    ExtendBare(t, sensor, shelf);
  }

  /** Reloading the snapshot gives back the table it was taken of. */
  lemma SnapshotReadsBack(limit: nat, t: Table)
    requires WellFiled(limit, t)
    ensures Load(limit, Bare, Snapshot(t)) == t
  {
    hide Load, Listing;
    LoadJoin(limit, Bare, Listing(t.sensors, Sorted(t.sensors.Keys)), Listing(t.health, Sorted(t.health.Keys)));
    assert |t.sensors.Keys| == |t.sensors| && |t.health.Keys| == |t.health|;
    LoadShelf(limit, Bare, true, t.sensors, Sorted(t.sensors.Keys));
    LoadShelf(limit, Table(t.sensors, map[]), false, t.health, Sorted(t.health.Keys));
  }

  // ----- which record is kept -----

  ghost predicate InSlot(x: Input, sensor: bool, m: Id) {
    x.Valid? && FiledAsSensor(x.record) == sensor && x.record.moduleId == m
  }

  /** The i-th record is at least as new as everything in its slot and newer than everything that arrived later. */
  ghost predicate WinsAt(start: Option<Record>, batch: seq<Input>, sensor: bool, m: Id, i: nat) {
    && i < |batch| && InSlot(batch[i], sensor, m)
    && (start.Some? ==> start.value.timestamp <= batch[i].record.timestamp)
    && (forall j :: 0 <= j < |batch| && InSlot(batch[j], sensor, m) ==>
          if j > i then batch[j].record.timestamp < batch[i].record.timestamp
          else batch[j].record.timestamp <= batch[i].record.timestamp)
  }

  ghost predicate StartWins(start: Option<Record>, batch: seq<Input>, sensor: bool, m: Id) {
    forall j :: 0 <= j < |batch| && InSlot(batch[j], sensor, m) ==>
      start.Some? && batch[j].record.timestamp < start.value.timestamp
  }

  /** Among what a slot held and the records that arrived for it, `w` has the greatest timestamp, and on ties
      came last. */
  ghost predicate Wins(w: Option<Record>, start: Option<Record>, batch: seq<Input>, sensor: bool, m: Id) {
    || (w == start && StartWins(start, batch, sensor, m))
    || (exists i: nat :: WinsAt(start, batch, sensor, m, i) && w == Some(batch[i].record))
  }

  lemma WinnerIsUnique(a: Option<Record>, b: Option<Record>, start: Option<Record>, batch: seq<Input>, sensor: bool,
                       m: Id)
    requires Wins(a, start, batch, sensor, m) && Wins(b, start, batch, sensor, m)
    ensures a == b
  {
    if StartWins(start, batch, sensor, m) {
      assert forall i: nat :: !WinsAt(start, batch, sensor, m, i);
    } else {
      var i: nat :| WinsAt(start, batch, sensor, m, i) && a == Some(batch[i].record);
      var j: nat :| WinsAt(start, batch, sensor, m, j) && b == Some(batch[j].record);
      assert InSlot(batch[i], sensor, m) && InSlot(batch[j], sensor, m);
    }
  }

  lemma WinsStep(w: Option<Record>, limit: nat, t: Table, batch: seq<Input>, sensor: bool, m: Id)
    requires batch != [] && batch[0].Valid? && Apply(limit, t, batch[0].record).Some?
    requires WellFiled(limit, t)
    requires Wins(w, Lookup(Apply(limit, t, batch[0].record).value, sensor, m), batch[1..], sensor, m)
    ensures Wins(w, Lookup(t, sensor, m), batch, sensor, m)
  {
    var r, rest, start := batch[0].record, batch[1..], Lookup(t, sensor, m);
    var next := Lookup(Apply(limit, t, r).value, sensor, m);
    assert next ==
        if InSlot(batch[0], sensor, m) && (start.None? || r.timestamp >= start.value.timestamp) then Some(r) else start;
    assert forall j :: 0 <= j < |rest| ==> rest[j] == batch[j + 1];
    assert forall j :: 0 < j < |batch| ==> batch[j] == rest[j - 1];
    if w == next && StartWins(next, rest, sensor, m) {
      if next != start {
        assert WinsAt(start, batch, sensor, m, 0);
      } else if InSlot(batch[0], sensor, m) && start == Some(r) {
        assert WinsAt(start, batch, sensor, m, 0);
      } else {
        assert StartWins(start, batch, sensor, m);
      }
    } else {
      var i: nat :| WinsAt(next, rest, sensor, m, i) && w == Some(rest[i].record);
      assert WinsAt(start, batch, sensor, m, i + 1);
    }
  }

  /** Per shelf and module the greatest timestamp is kept, the later arrival on ties: over what was there before and
      all records applied, whether or not the batch then raised. */
  lemma {:induction false} GreatestTimestampIsKept(
      limit: nat, t: Table, journal: seq<Record>, batch: seq<Input>, sensor: bool, m: Id)
    requires WellFiled(limit, t)
    ensures var p := Publish(limit, t, journal, batch);
            Wins(Lookup(p.table, sensor, m), Lookup(t, sensor, m), batch[..p.applied], sensor, m)
    decreases |batch|
  {
    var p := Publish(limit, t, journal, batch);
    if p.applied == 0 {
      assert StartWins(Lookup(t, sensor, m), batch[..0], sensor, m);
    } else {
      var r := batch[0].record;
      var next := Apply(limit, t, r).value;
      ApplyKeepsFiling(limit, t, r);
      GreatestTimestampIsKept(limit, next, journal + [r], batch[1..], sensor, m);
      assert batch[..p.applied][1..] == batch[1..][..p.applied - 1];
      WinsStep(Lookup(p.table, sensor, m), limit, t, batch[..p.applied], sensor, m);
    }
  }

  /** The family after trimming, as validation sees it. */
  predicate ValidatedAsSensor(r: Record) { !r.family.Health? }

  /** Two records compete for one slot: putting the second displaces the first whatever the table. */
  ghost predicate Compete(a: Record, b: Record) {
    forall t :: Put(Put(t, a), b) == Put(t, b)
  }

  /** Records that validate into different families compete exactly when they have one module and one of them is a
      padded sensor record, the other a health record. */
  lemma FamiliesCompeteExactlyWhen(a: Record, b: Record)
    requires ValidatedAsSensor(a) != ValidatedAsSensor(b)
    ensures Compete(a, b) <==> a.moduleId == b.moduleId && (a.family == PaddedSensor || b.family == PaddedSensor)
  {
    if a.moduleId == b.moduleId && FiledAsSensor(a) == FiledAsSensor(b) {
      forall t: Table ensures Put(Put(t, a), b) == Put(t, b) {
        var shelf, m := Shelf(t, FiledAsSensor(a)), a.moduleId;
        assert shelf[m := a][m := b] == shelf[m := b];
      }
    } else {
      assert Lookup(Put(Put(Bare, a), b), FiledAsSensor(a), a.moduleId) == Some(a);
      assert Lookup(Put(Bare, b), FiledAsSensor(a), a.moduleId) == None;
    }
  }

  /** A padded sensor record and a health record of one module compete for one slot: the newer displaces the older. */
  lemma PaddedSensorCompetesWithHealth(limit: nat, m: Id, padded: Record, health: Record)
    requires limit >= 1 && padded.family == PaddedSensor && health.family == Health
    requires padded.moduleId == health.moduleId == m && padded.timestamp < health.timestamp
    ensures Lookup(Publish(limit, Bare, [], [Valid(padded), Valid(health)]).table, false, m) == Some(health)
    ensures Lookup(Publish(limit, Bare, [], [Valid(health), Valid(padded)]).table, false, m) == Some(health)
    ensures Lookup(Publish(limit, Bare, [], [Valid(padded)]).table, true, m) == None
  {
    assert [Valid(padded), Valid(health)][1..] == [Valid(health)]
        && [Valid(health), Valid(padded)][1..] == [Valid(padded)];
    assert [Valid(health)][1..] == [] && [Valid(padded)][1..] == [];
    var first, only := Put(Bare, padded), Put(Bare, health);
    assert Apply(limit, Bare, padded) == Some(first) && Apply(limit, Bare, health) == Some(only);
    assert Apply(limit, first, health) == Some(Put(first, health)) && Apply(limit, only, padded) == Some(only);
    PublishTwo(limit, Bare, [], padded, health);
    PublishTwo(limit, Bare, [], health, padded);
  }

  lemma PublishTwo(limit: nat, t: Table, journal: seq<Record>, a: Record, b: Record)
    ensures Apply(limit, t, a).Some? && Apply(limit, Apply(limit, t, a).value, b).Some? ==>
        Publish(limit, t, journal, [Valid(a), Valid(b)]).table == Apply(limit, Apply(limit, t, a).value, b).value
  {
    hide Apply;
    assert [Valid(a), Valid(b)][1..] == [Valid(b)] && [Valid(b)][1..] == [];
    if Apply(limit, t, a).Some? {
      var next := Apply(limit, t, a).value;
      assert Publish(limit, t, journal, [Valid(a), Valid(b)]).table
          == Publish(limit, next, journal + [a], [Valid(b)]).table;
      if Apply(limit, next, b).Some? {
        assert Publish(limit, next, journal + [a], [Valid(b)]).table
            == Publish(limit, Apply(limit, next, b).value, journal + [a] + [b], []).table;
      }
    }
  }

  // ----- when a batch raises -----

  function Modules(batch: seq<Input>, sensor: bool): set<Id> {
    set i | 0 <= i < |batch| && batch[i].Valid? && FiledAsSensor(batch[i].record) == sensor :: batch[i].record.moduleId
  }

  ghost predicate Room(limit: nat, t: Table, batch: seq<Input>, sensor: bool) {
    |Shelf(t, sensor).Keys + Modules(batch, sensor)| <= limit
  }

  /** Every record is well formed and every module has room, counting those already there. */
  ghost predicate Fits(limit: nat, t: Table, batch: seq<Input>) {
    Malformed !in batch && Room(limit, t, batch, true) && Room(limit, t, batch, false)
  }

  lemma ModulesOfFirst(batch: seq<Input>, sensor: bool)
    requires batch != []
    ensures Modules(batch, sensor) == Modules(batch[1..], sensor)
      + (if batch[0].Valid? && FiledAsSensor(batch[0].record) == sensor then {batch[0].record.moduleId} else {})
  {
    var rest := batch[1..];
    assert forall i :: 0 <= i < |rest| ==> rest[i] == batch[i + 1];
    forall m | m in Modules(batch, sensor) && !(InSlot(batch[0], sensor, m))
      ensures m in Modules(rest, sensor)
    {
      var i :| 0 <= i < |batch| && InSlot(batch[i], sensor, m);
      assert InSlot(rest[i - 1], sensor, m);
    }
  }

  lemma KeysAfter(limit: nat, t: Table, r: Record, sensor: bool)
    requires Apply(limit, t, r).Some?
    ensures Shelf(Apply(limit, t, r).value, sensor).Keys
         == Shelf(t, sensor).Keys + if FiledAsSensor(r) == sensor then {r.moduleId} else {}
  {
  }

  lemma RoomStep(limit: nat, t: Table, batch: seq<Input>, sensor: bool)
    requires batch != [] && batch[0].Valid? && Apply(limit, t, batch[0].record).Some?
    ensures Room(limit, Apply(limit, t, batch[0].record).value, batch[1..], sensor) <==> Room(limit, t, batch, sensor)
  {
    hide Modules, Apply, Shelf;
    var r := batch[0].record;
    ModulesOfFirst(batch, sensor);
    KeysAfter(limit, t, r, sensor);
    SetSwap(Shelf(t, sensor).Keys, if FiledAsSensor(r) == sensor then {r.moduleId} else {},
            Modules(batch[1..], sensor));
  }

  lemma SetSwap(a: set<Id>, x: set<Id>, b: set<Id>)
    ensures a + x + b == a + (b + x)
  {
  }

  lemma NoRoomStep(limit: nat, t: Table, batch: seq<Input>)
    requires batch != [] && batch[0].Valid? && Apply(limit, t, batch[0].record).None?
    ensures !Room(limit, t, batch, FiledAsSensor(batch[0].record))
  {
    hide Modules;
    var r := batch[0].record;
    var keys := Shelf(t, FiledAsSensor(r)).Keys;
    ModulesOfFirst(batch, FiledAsSensor(r));
    assert |keys| == |Shelf(t, FiledAsSensor(r))|;
    assert |keys + {r.moduleId}| == |keys| + 1;
    SubsetSize(keys + {r.moduleId}, keys + Modules(batch, FiledAsSensor(r)));
  }

  lemma RoomForNothing(limit: nat, t: Table, sensor: bool)
    ensures Room(limit, t, [], sensor) <==> |Shelf(t, sensor)| <= limit
  {
    assert Shelf(t, sensor).Keys + Modules([], sensor) == Shelf(t, sensor).Keys;
    assert |Shelf(t, sensor).Keys| == |Shelf(t, sensor)|;
  }

  lemma {:induction false} BatchSucceedsExactlyWhenItFits(limit: nat, t: Table, journal: seq<Record>, batch: seq<Input>)
    requires WellFiled(limit, t)
    ensures Publish(limit, t, journal, batch).ok <==> Fits(limit, t, batch)
    decreases |batch|
  {
    hide Apply, Room;
    if batch == [] {
      RoomForNothing(limit, t, true);
      RoomForNothing(limit, t, false);
    } else if batch[0].Valid? {
      var r, rest := batch[0].record, batch[1..];
      if Apply(limit, t, r).None? {
        NoRoomStep(limit, t, batch);
      } else {
        ApplyKeepsFiling(limit, t, r);
        BatchSucceedsExactlyWhenItFits(limit, Apply(limit, t, r).value, journal + [r], rest);
        RoomStep(limit, t, batch, true);
        RoomStep(limit, t, batch, false);
        assert batch == [batch[0]] + rest;
      }
    }
  }

  // ----- order does not matter -----

  /** Two records for one slot with one timestamp are the same record. */
  ghost predicate Unambiguous(batch: seq<Input>) {
    forall i, j :: 0 <= i < |batch| && 0 <= j < |batch| && batch[i].Valid? && batch[j].Valid? ==>
      SameIfTied(batch[i].record, batch[j].record)
  }

  ghost predicate SameIfTied(a: Record, b: Record) {
    FiledAsSensor(a) == FiledAsSensor(b) && a.moduleId == b.moduleId && a.timestamp == b.timestamp ==> a == b
  }

  ghost predicate SameInputs(a: seq<Input>, b: seq<Input>) {
    forall x :: x in a <==> x in b
  }

  /** A winner depends on which records arrived, not on their order or how often. */
  lemma WinnerIgnoresOrder(v: Option<Record>, w: Option<Record>, t: Table, a: seq<Input>, b: seq<Input>, sensor: bool,
                           m: Id)
    requires Unambiguous(a) && SameInputs(a, b)
    requires Wins(v, Lookup(t, sensor, m), a, sensor, m) && Wins(w, Lookup(t, sensor, m), b, sensor, m)
    ensures v == w
  {
    var start := Lookup(t, sensor, m);
    if StartWins(start, a, sensor, m) {
      StartWinsElsewhere(start, a, b, sensor, m);
      assert forall i: nat :: !WinsAt(start, a, sensor, m, i) && !WinsAt(start, b, sensor, m, i);
    } else {
      if StartWins(start, b, sensor, m) {
        StartWinsElsewhere(start, b, a, sensor, m);
        assert false;
      }
      var i: nat :| WinsAt(start, a, sensor, m, i) && v == Some(a[i].record);
      var j: nat :| WinsAt(start, b, sensor, m, j) && w == Some(b[j].record);
      assert a[i] in b && b[j] in a;
      var k: nat :| k < |b| && b[k] == a[i];
      var l: nat :| l < |a| && a[l] == b[j];
      assert InSlot(b[k], sensor, m) && InSlot(a[l], sensor, m);
      assert SameIfTied(a[i].record, a[l].record);
    }
  }

  lemma StartWinsElsewhere(start: Option<Record>, a: seq<Input>, b: seq<Input>, sensor: bool, m: Id)
    requires SameInputs(a, b) && StartWins(start, a, sensor, m)
    ensures StartWins(start, b, sensor, m)
  {
    forall j | 0 <= j < |b| && InSlot(b[j], sensor, m)
      ensures start.Some? && b[j].record.timestamp < start.value.timestamp
    {
      assert b[j] in a;
      var i :| 0 <= i < |a| && a[i] == b[j];
      assert InSlot(a[i], sensor, m);
    }
  }

  lemma SameModules(a: seq<Input>, b: seq<Input>, sensor: bool)
    requires SameInputs(a, b)
    ensures Modules(b, sensor) <= Modules(a, sensor)
  {
    forall m | m in Modules(b, sensor)
      ensures m in Modules(a, sensor)
    {
      var j :| 0 <= j < |b| && InSlot(b[j], sensor, m);
      assert b[j] in a;
      var i :| 0 <= i < |a| && a[i] == b[j];
      assert InSlot(a[i], sensor, m);
    }
  }

  lemma SameInputsFit(limit: nat, t: Table, a: seq<Input>, b: seq<Input>)
    requires SameInputs(a, b) && Fits(limit, t, a)
    ensures Fits(limit, t, b)
  {
    hide Modules;
    forall sensor: bool
      ensures Room(limit, t, a, sensor) ==> Room(limit, t, b, sensor)
    {
      SameModules(a, b, sensor);
      SubsetSize(Shelf(t, sensor).Keys + Modules(b, sensor), Shelf(t, sensor).Keys + Modules(a, sensor));
    }
  }

  lemma SameLookups(a: Table, b: Table)
    requires forall sensor, m :: Lookup(a, sensor, m) == Lookup(b, sensor, m)
    ensures a == b
  {
    forall m
      ensures m in a.sensors <==> m in b.sensors
      ensures m in a.sensors ==> a.sensors[m] == b.sensors[m]
      ensures m in a.health <==> m in b.health
      ensures m in a.health ==> a.health[m] == b.health[m]
    {
      assert Lookup(a, true, m) == Lookup(b, true, m);
      assert Lookup(a, false, m) == Lookup(b, false, m);
    }
    assert a.sensors == b.sensors && a.health == b.health;
  }

  /** When the limit is not reached and ties are only repetitions, every order of the same records gives one table. */
  lemma OrderDoesNotMatter(limit: nat, t: Table, journal: seq<Record>, a: seq<Input>, b: seq<Input>)
    requires WellFiled(limit, t) && Fits(limit, t, a) && Unambiguous(a) && SameInputs(a, b)
    ensures Publish(limit, t, journal, a).ok && Publish(limit, t, journal, b).ok
    ensures Publish(limit, t, journal, a).table == Publish(limit, t, journal, b).table
  {
    hide Publish, WellFiled, Fits, Unambiguous, SameInputs, Lookup, Wins;
    var p, q := Publish(limit, t, journal, a), Publish(limit, t, journal, b);
    SameInputsFit(limit, t, a, b);
    BatchSucceedsExactlyWhenItFits(limit, t, journal, a);
    BatchSucceedsExactlyWhenItFits(limit, t, journal, b);
    assert a[..p.applied] == a && b[..q.applied] == b;
    forall sensor, m
      ensures Lookup(p.table, sensor, m) == Lookup(q.table, sensor, m)
    {
      GreatestTimestampIsKept(limit, t, journal, a, sensor, m);
      GreatestTimestampIsKept(limit, t, journal, b, sensor, m);
      WinnerIgnoresOrder(Lookup(p.table, sensor, m), Lookup(q.table, sensor, m), t, a, b, sensor, m);
    }
    SameLookups(p.table, q.table);
  }
}
