/**
 * The stamping loop that API/Data/AppDbContext.cs and API/Data/DbContext.cs
 * both run before saving: every tracked entity deriving from Common gets an
 * Id if it has none, a CreatedAt if it is being added, and an UpdatedAt.
 *
 * Entities are objects updated in place. `DateTime.UtcNow` is a `Clock` that
 * answers the k-th reading with `time(k)`; `Guid.NewGuid().ToString()` is a
 * `GuidSource` that answers the k-th draw with `guid(k)`.
 */
module AuditStamping {
  import opened Wrappers

  /** EF Core's `EntityState`. */
  datatype EntityState = Detached | Unchanged | Deleted | Modified | Added

  /** A tracked entity; `isCommon` says whether its class derives from `Common` (Id, CreatedAt, UpdatedAt). */
  class Entity {
    var id: Option<string>
    var createdAt: int
    var updatedAt: int
    const isCommon: bool

    constructor (id: Option<string>, createdAt: int, updatedAt: int, isCommon: bool)
      ensures this.id == id && this.createdAt == createdAt && this.updatedAt == updatedAt && this.isCommon == isCommon
    {
      this.id := id;
      this.createdAt := createdAt;
      this.updatedAt := updatedAt;
      this.isCommon := isCommon;
    }
  }

  /** An `EntityEntry` of `ChangeTracker.Entries()`. */
  datatype Entry = Entry(state: EntityState, entity: Entity)

  class Clock {
    /** How many readings were taken. */
    var readings: nat
    const time: nat -> int

    constructor (time: nat -> int)
      ensures readings == 0 && this.time == time
    {
      readings := 0;
      this.time := time;
    }

    /** `DateTime.UtcNow`. */
    method UtcNow() returns (t: int)
      modifies this
      ensures t == time(old(readings)) && readings == old(readings) + 1
    {
      t := time(readings);
      readings := readings + 1;
    }
  }

  class GuidSource {
    /** How many GUIDs were drawn. */
    var drawn: nat
    const guid: nat -> string

    constructor (guid: nat -> string)
      ensures drawn == 0 && this.guid == guid
    {
      drawn := 0;
      this.guid := guid;
    }

    /** `Guid.NewGuid().ToString()`. */
    method NewGuid() returns (s: string)
      modifies this
      ensures s == guid(old(drawn)) && drawn == old(drawn) + 1
    {
      s := guid(drawn);
      drawn := drawn + 1;
    }
  }

  /** A clock that never goes back. */
  ghost predicate Monotone(time: nat -> int) {
    forall k, l :: k <= l ==> time(k) <= time(l)
  }

  /** `Guid.ToString()` is never empty (it has 36 chars). */
  ghost predicate NonEmptyGuids(guid: nat -> string) {
    forall k :: guid(k) != ""
  }

  // ---------------------------------------------------------------------------
  // The stamping, on values

  /** The three stamped fields of an entity. */
  datatype Stamps = Stamps(id: Option<string>, createdAt: int, updatedAt: int)

  /** What the loop sees of an entry before it runs. */
  datatype Tracked = Tracked(state: EntityState, isCommon: bool, stamps: Stamps)

  /** Clock readings the loop takes for one entry: one for UpdatedAt, one more for CreatedAt of an added entry. */
  function Readings(t: Tracked): nat {
    if !t.isCommon then 0 else if t.state == Added then 2 else 1
  }

  /** GUIDs the loop draws for one entry: one when its Id is null or empty. */
  function Draws(t: Tracked): nat {
    if t.isCommon && IsNullOrEmpty(t.stamps.id) then 1 else 0
  }

  function ClockReadings(ts: seq<Tracked>): nat {
    if ts == [] then 0 else ClockReadings(ts[..|ts| - 1]) + Readings(ts[|ts| - 1])
  }

  function GuidDraws(ts: seq<Tracked>): nat {
    if ts == [] then 0 else GuidDraws(ts[..|ts| - 1]) + Draws(ts[|ts| - 1])
  }

  /** One entry stamped with the clock at reading `c` and the GUID source at draw `g`. */
  function Stamp(t: Tracked, time: nat -> int, c: nat, guid: nat -> string, g: nat): Stamps {
    if !t.isCommon then t.stamps
    else
      var id := if IsNullOrEmpty(t.stamps.id) then Some(guid(g)) else t.stamps.id;
      var createdAt := if t.state == Added then time(c) else t.stamps.createdAt;
      var updatedAt := if t.state == Added then time(c + 1) else time(c);
      Stamps(id, createdAt, updatedAt)
  }

  /** Entry `i` after the loop, which reaches it after the readings and draws of the entries before it. */
  function StampedAt(ts: seq<Tracked>, i: nat, time: nat -> int, c0: nat, guid: nat -> string, g0: nat): Stamps
    requires i < |ts|
  {
    Stamp(ts[i], time, c0 + ClockReadings(ts[..i]), guid, g0 + GuidDraws(ts[..i]))
  }

  /** Every entry after the loop. */
  function Stamped(ts: seq<Tracked>, time: nat -> int, c0: nat, guid: nat -> string, g0: nat): (r: seq<Stamps>)
    ensures |r| == |ts|
    ensures forall i :: 0 <= i < |ts| ==> r[i] == StampedAt(ts, i, time, c0, guid, g0)
  {
    seq(|ts|, i requires 0 <= i < |ts| => StampedAt(ts, i, time, c0, guid, g0))
  }

  // ---------------------------------------------------------------------------
  // The loop

  function EntitiesOf(entries: seq<Entry>): set<Entity> {
    set i | 0 <= i < |entries| :: entries[i].entity
  }

  /** The change tracker tracks each entity once. */
  predicate Distinct(entries: seq<Entry>) {
    forall i, j :: 0 <= i < j < |entries| ==> entries[i].entity != entries[j].entity
  }

  function StampsOf(e: Entity): Stamps
    reads e
  {
    Stamps(e.id, e.createdAt, e.updatedAt)
  }

  function Tracking(entries: seq<Entry>): (ts: seq<Tracked>)
    reads EntitiesOf(entries)
    ensures |ts| == |entries|
    ensures forall i :: 0 <= i < |entries| ==>
      ts[i] == Tracked(entries[i].state, entries[i].entity.isCommon, StampsOf(entries[i].entity))
  {
    seq(|entries|, i requires 0 <= i < |entries| reads EntitiesOf(entries) =>
      Tracked(entries[i].state, entries[i].entity.isCommon, StampsOf(entries[i].entity)))
  }

  function Snapshot(entries: seq<Entry>): (r: seq<Stamps>)
    reads EntitiesOf(entries)
    ensures |r| == |entries|
    ensures forall i :: 0 <= i < |entries| ==> r[i] == StampsOf(entries[i].entity)
  {
    seq(|entries|, i requires 0 <= i < |entries| reads EntitiesOf(entries) => StampsOf(entries[i].entity))
  }

  /** The body of the loop, for one entry. */
  method StampEntry(entry: Entry, clock: Clock, guids: GuidSource)
    modifies entry.entity, clock, guids
    ensures StampsOf(entry.entity) ==
      Stamp(Tracked(entry.state, entry.entity.isCommon, old(StampsOf(entry.entity))), clock.time, old(clock.readings), guids.guid, old(guids.drawn))
    ensures clock.readings == old(clock.readings) + Readings(Tracked(entry.state, entry.entity.isCommon, old(StampsOf(entry.entity))))
    ensures guids.drawn == old(guids.drawn) + Draws(Tracked(entry.state, entry.entity.isCommon, old(StampsOf(entry.entity))))
  {
    var entity := entry.entity;
    if entity.isCommon {
      if IsNullOrEmpty(entity.id) {
        var id := guids.NewGuid();
        entity.id := Some(id);
      }
      if entry.state == Added {
        var now := clock.UtcNow();
        entity.createdAt := now;
      }
      var now := clock.UtcNow();
      entity.updatedAt := now;
    }
  }

  /** The loop after `i` entries: those before `i` stamped, the rest as they were. */
  function PartlyStamped(ts: seq<Tracked>, i: nat, time: nat -> int, c0: nat, guid: nat -> string, g0: nat): (r: seq<Stamps>)
    requires i <= |ts|
    ensures |r| == |ts|
    ensures forall j :: 0 <= j < |ts| ==> r[j] == if j < i then StampedAt(ts, j, time, c0, guid, g0) else ts[j].stamps
  {
    seq(|ts|, j requires 0 <= j < |ts| => if j < i then StampedAt(ts, j, time, c0, guid, g0) else ts[j].stamps)
  }

  /** One more entry stamped: the prefix grows by one stamp, one entry's readings and one entry's draws. */
  lemma StampStep(ts: seq<Tracked>, i: nat, time: nat -> int, c0: nat, guid: nat -> string, g0: nat)
    requires i < |ts|
    ensures PartlyStamped(ts, i, time, c0, guid, g0)[i := StampedAt(ts, i, time, c0, guid, g0)] ==
      PartlyStamped(ts, i + 1, time, c0, guid, g0)
    ensures ClockReadings(ts[..i + 1]) == ClockReadings(ts[..i]) + Readings(ts[i])
    ensures GuidDraws(ts[..i + 1]) == GuidDraws(ts[..i]) + Draws(ts[i])
  {
    assert ts[..i + 1][..i] == ts[..i];
  }

  /** All entries stamped is `Stamped`, after all readings and draws. */
  lemma StampDone(ts: seq<Tracked>, time: nat -> int, c0: nat, guid: nat -> string, g0: nat)
    ensures PartlyStamped(ts, |ts|, time, c0, guid, g0) == Stamped(ts, time, c0, guid, g0)
    ensures ts[..|ts|] == ts
  {
  }

  /** Entry `i` of the tracked entries, stamped in place; every other entry is left alone. */
  method StampEntryAt(entries: seq<Entry>, i: nat, clock: Clock, guids: GuidSource, ghost t: Tracked)
    requires i < |entries| && Distinct(entries)
    requires t == Tracked(entries[i].state, entries[i].entity.isCommon, StampsOf(entries[i].entity))
    modifies entries[i].entity, clock, guids
    ensures Snapshot(entries) == old(Snapshot(entries))[i := Stamp(t, clock.time, old(clock.readings), guids.guid, old(guids.drawn))]
    ensures clock.readings == old(clock.readings) + Readings(t)
    ensures guids.drawn == old(guids.drawn) + Draws(t)
  {
    ghost var before := Snapshot(entries);
    StampEntry(entries[i], clock, guids);
    forall j | 0 <= j < |entries| && j != i
      ensures StampsOf(entries[j].entity) == before[j]
    {
      assert entries[j].entity != entries[i].entity;
    }
  }

  /**
   * The loop invariant after `i` of the entries `ts` describes: the entries
   * before `i` are stamped, the rest are as they were, and the clock and GUID
   * source have answered the calls made for the entries before `i`.
   */
  ghost predicate Progress(entries: seq<Entry>, ts: seq<Tracked>, i: nat, clock: Clock, guids: GuidSource, c0: nat, g0: nat)
    reads EntitiesOf(entries), clock, guids
  {
    i <= |ts| == |entries| &&
    (forall j :: 0 <= j < |ts| ==> ts[j].state == entries[j].state && ts[j].isCommon == entries[j].entity.isCommon) &&
    clock.readings == c0 + ClockReadings(ts[..i]) &&
    guids.drawn == g0 + GuidDraws(ts[..i]) &&
    Snapshot(entries) == PartlyStamped(ts, i, clock.time, c0, guids.guid, g0)
  }

  /** One iteration of the loop. */
  method StampNext(entries: seq<Entry>, i: nat, clock: Clock, guids: GuidSource, ghost ts: seq<Tracked>, ghost c0: nat, ghost g0: nat)
    requires Distinct(entries) && i < |entries|
    requires Progress(entries, ts, i, clock, guids, c0, g0)
    modifies entries[i].entity, clock, guids
    ensures Progress(entries, ts, i + 1, clock, guids, c0, g0)
  {
    ghost var time, guid := clock.time, guids.guid;
    ghost var before := Snapshot(entries);
    assert StampsOf(entries[i].entity) == before[i];
    ghost var stamped := StampedAt(ts, i, time, c0, guid, g0);
    assert stamped == Stamp(ts[i], time, clock.readings, guid, guids.drawn);
    StampStep(ts, i, time, c0, guid, g0);
    StampEntryAt(entries, i, clock, guids, ts[i]);
    assert Snapshot(entries) == before[i := stamped];
  }

  /** The `foreach (var entry in ChangeTracker.Entries())` loop. */
  method StampEntries(entries: seq<Entry>, clock: Clock, guids: GuidSource)
    requires Distinct(entries)
    modifies EntitiesOf(entries), clock, guids
    ensures Snapshot(entries) == Stamped(old(Tracking(entries)), clock.time, old(clock.readings), guids.guid, old(guids.drawn))
    ensures clock.readings == old(clock.readings) + ClockReadings(old(Tracking(entries)))
    ensures guids.drawn == old(guids.drawn) + GuidDraws(old(Tracking(entries)))
  {
    ghost var ts := Tracking(entries);
    ghost var c0, g0 := clock.readings, guids.drawn;
    assert Snapshot(entries) == PartlyStamped(ts, 0, clock.time, c0, guids.guid, g0);
    for i := 0 to |entries|
      invariant Progress(entries, ts, i, clock, guids, c0, g0)
    {
      assert entries[i].entity in EntitiesOf(entries);
      StampNext(entries, i, clock, guids, ts, c0, g0);
    }
    StampDone(ts, clock.time, c0, guids.guid, g0);
  }

  /** Entry states that the base `SaveChanges` writes to the database. */
  predicate Writes(state: EntityState) {
    state == Added || state == Modified || state == Deleted
  }

  /** The base `SaveChanges` result for entries in these states: the number of entries it writes. */
  function WriteCount(states: seq<EntityState>): (n: nat)
    ensures n <= |states|
    ensures n == 0 <==> forall i :: 0 <= i < |states| ==> !Writes(states[i])
  {
    if states == [] then 0 else (if Writes(states[0]) then 1 else 0) + WriteCount(states[1..])
  }

  function States(entries: seq<Entry>): (r: seq<EntityState>)
    ensures |r| == |entries| && forall i :: 0 <= i < |entries| ==> r[i] == entries[i].state
  {
    seq(|entries|, i requires 0 <= i < |entries| => entries[i].state)
  }

  /**
   * The state the base save finds once `DetectChanges` has compared an entity
   * with the values the change tracker last saw (those before the stamping,
   * since `ChangeTracker.Entries()` detects changes itself): an Unchanged
   * entity whose stamped fields now differ is Modified.
   */
  function DetectedState(t: Tracked, now: Stamps): EntityState {
    if t.state == Unchanged && now != t.stamps then Modified else t.state
  }

  function DetectedStates(ts: seq<Tracked>, now: seq<Stamps>): (r: seq<EntityState>)
    requires |ts| == |now|
    ensures |r| == |ts| && forall i :: 0 <= i < |ts| ==> r[i] == DetectedState(ts[i], now[i])
  {
    seq(|ts|, i requires 0 <= i < |ts| => DetectedState(ts[i], now[i]))
  }

  /** Detection only adds writes: every entry in a writing state still writes. */
  lemma {:induction false} WriteCountMonotone(a: seq<EntityState>, b: seq<EntityState>)
    requires |a| == |b|
    requires forall i :: 0 <= i < |a| ==> Writes(a[i]) ==> Writes(b[i])
    ensures WriteCount(a) <= WriteCount(b)
  {
    if a != [] {
      WriteCountMonotone(a[1..], b[1..]);
    }
  }

  // ---------------------------------------------------------------------------
  // Properties of the stamping

  /** Every Common entity ends with a non-empty Id, and an Id that was non-empty is kept. */
  lemma StampedIds(ts: seq<Tracked>, time: nat -> int, c0: nat, guid: nat -> string, g0: nat)
    requires NonEmptyGuids(guid)
    ensures var r := Stamped(ts, time, c0, guid, g0);
      forall i :: 0 <= i < |ts| && ts[i].isCommon ==>
        !IsNullOrEmpty(r[i].id) && (!IsNullOrEmpty(ts[i].stamps.id) ==> r[i].id == ts[i].stamps.id)
  {
  }

  /**
   * An added Common entry's CreatedAt is the clock reading taken for it; every
   * other entry keeps its CreatedAt. Every Common entry, whatever its state,
   * gets the next reading as UpdatedAt.
   */
  lemma StampedTimes(ts: seq<Tracked>, time: nat -> int, c0: nat, guid: nat -> string, g0: nat)
    ensures var r := Stamped(ts, time, c0, guid, g0);
      forall i :: 0 <= i < |ts| ==>
        var c := c0 + ClockReadings(ts[..i]);
        (ts[i].isCommon && ts[i].state == Added ==> r[i].createdAt == time(c) && r[i].updatedAt == time(c + 1)) &&
        (ts[i].isCommon && ts[i].state != Added ==> r[i].createdAt == ts[i].stamps.createdAt && r[i].updatedAt == time(c))
  {
  }

  /** Entities that do not derive from Common are left as they were. */
  lemma NonCommonUntouched(ts: seq<Tracked>, time: nat -> int, c0: nat, guid: nat -> string, g0: nat)
    ensures var r := Stamped(ts, time, c0, guid, g0);
      forall i :: 0 <= i < |ts| && !ts[i].isCommon ==> r[i] == ts[i].stamps
  {
  }

  /** With a clock that never goes back, an added entry is not updated before it is created. */
  lemma CreatedNotAfterUpdated(ts: seq<Tracked>, time: nat -> int, c0: nat, guid: nat -> string, g0: nat)
    requires Monotone(time)
    ensures var r := Stamped(ts, time, c0, guid, g0);
      forall i :: 0 <= i < |ts| && ts[i].isCommon && ts[i].state == Added ==> r[i].createdAt <= r[i].updatedAt
  {
    var r := Stamped(ts, time, c0, guid, g0);
    forall i | 0 <= i < |ts| && ts[i].isCommon && ts[i].state == Added
      ensures r[i].createdAt <= r[i].updatedAt
    {
      var c := c0 + ClockReadings(ts[..i]);
      assert time(c) <= time(c + 1);
    }
  }

  /** The readings taken for the entries before `j` include those taken for entry `i < j` and everything before it. */
  lemma {:induction false} ReadingsGrow(ts: seq<Tracked>, i: nat, j: nat)
    requires i < j <= |ts|
    ensures ClockReadings(ts[..i]) + Readings(ts[i]) <= ClockReadings(ts[..j])
  {
    assert ts[..j][..j - 1] == ts[..j - 1];
    if j - 1 > i {
      ReadingsGrow(ts, i, j - 1);
    }
  }

  /** With a clock that never goes back, Common entries are stamped in order: UpdatedAt never decreases along the entries. */
  lemma StampedInOrder(ts: seq<Tracked>, time: nat -> int, c0: nat, guid: nat -> string, g0: nat)
    requires Monotone(time)
    ensures var r := Stamped(ts, time, c0, guid, g0);
      forall i, j :: 0 <= i < j < |ts| && ts[i].isCommon && ts[j].isCommon ==> r[i].updatedAt <= r[j].updatedAt
  {
    var r := Stamped(ts, time, c0, guid, g0);
    forall i, j | 0 <= i < j < |ts| && ts[i].isCommon && ts[j].isCommon
      ensures r[i].updatedAt <= r[j].updatedAt
    {
      ReadingsGrow(ts, i, j);
      var ci := c0 + ClockReadings(ts[..i]);
      var cj := c0 + ClockReadings(ts[..j]);
      assert ci + Readings(ts[i]) - 1 <= cj;
    }
  }

  /**
   * After the stamping, the base save writes an entry exactly when it was
   * added, modified or deleted, or it is an unchanged Common entry whose Id was
   * null or empty or whose UpdatedAt differs from the clock reading it is given.
   */
  lemma StampedWrites(ts: seq<Tracked>, time: nat -> int, c0: nat, guid: nat -> string, g0: nat)
    requires NonEmptyGuids(guid)
    ensures var states := DetectedStates(ts, Stamped(ts, time, c0, guid, g0));
      forall i :: 0 <= i < |ts| ==>
        (Writes(states[i]) <==>
           (Writes(ts[i].state) ||
            (ts[i].state == Unchanged && ts[i].isCommon &&
             (IsNullOrEmpty(ts[i].stamps.id) || ts[i].stamps.updatedAt != time(c0 + ClockReadings(ts[..i]))))))
  {
    var r := Stamped(ts, time, c0, guid, g0);
    forall i | 0 <= i < |ts| && ts[i].state == Unchanged && ts[i].isCommon
      ensures r[i] != ts[i].stamps <==>
        IsNullOrEmpty(ts[i].stamps.id) || ts[i].stamps.updatedAt != time(c0 + ClockReadings(ts[..i]))
    {
      var g := g0 + GuidDraws(ts[..i]);
      assert guid(g) != "";
    }
  }

  /** One unchanged Common entry whose UpdatedAt moves is written: the save reports 1, not 0. */
  lemma UnchangedCommonWritten(t: Tracked, time: nat -> int, c0: nat, guid: nat -> string, g0: nat)
    requires t.state == Unchanged && t.isCommon && t.stamps.updatedAt != time(c0)
    ensures WriteCount(DetectedStates([t], Stamped([t], time, c0, guid, g0))) == 1
  {
    var states := DetectedStates([t], Stamped([t], time, c0, guid, g0));
    assert [t][..0] == [];
    assert states == [Modified];
  }
}
