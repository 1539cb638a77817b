/**
 * API/Data/AppDbContext.cs: the context the API uses. `SaveChanges()` and
 * `SaveChangesAsync(bool, CancellationToken)` stamp the tracked entities
 * before delegating to the base implementation; `SaveChanges(bool)` delegates
 * at once.
 */
module AppDb {
  import opened AuditStamping

  class AppDbContext {
    /** `ChangeTracker.Entries()`. */
    var tracked: seq<Entry>
    const clock: Clock
    const guids: GuidSource

    constructor (tracked: seq<Entry>, clock: Clock, guids: GuidSource)
      ensures this.tracked == tracked && this.clock == clock && this.guids == guids
    {
      this.tracked := tracked;
      this.clock := clock;
      this.guids := guids;
    }

    /** `SaveChanges()`: stamp every Common entity, then save. */
    method SaveChanges() returns (written: nat)
      requires Distinct(tracked)
      modifies EntitiesOf(tracked), clock, guids
      ensures Snapshot(tracked) == Stamped(old(Tracking(tracked)), clock.time, old(clock.readings), guids.guid, old(guids.drawn))
      ensures clock.readings == old(clock.readings) + ClockReadings(old(Tracking(tracked)))
      ensures guids.drawn == old(guids.drawn) + GuidDraws(old(Tracking(tracked)))
      ensures written == WriteCount(DetectedStates(old(Tracking(tracked)), Snapshot(tracked)))
      ensures WriteCount(States(tracked)) <= written <= |tracked|
    {
      var before := Tracking(tracked);
      StampEntries(tracked, clock, guids);
      var detected := DetectedStates(before, Snapshot(tracked));
      WriteCountMonotone(States(tracked), detected);
      written := WriteCount(detected);
    }

    /** `SaveChanges(bool acceptAllChangesOnSuccess)`: saves without stamping; no entity, clock or GUID source changes. */
    method SaveChangesAccepting(acceptAllChangesOnSuccess: bool) returns (written: nat)
      ensures written == WriteCount(States(tracked))
    {
      written := WriteCount(States(tracked));
    }

    /** `SaveChangesAsync(bool, CancellationToken)`: the same stamping as `SaveChanges()`, then save. */
    method SaveChangesAsync(acceptAllChangesOnSuccess: bool) returns (written: nat)
      requires Distinct(tracked)
      modifies EntitiesOf(tracked), clock, guids
      ensures Snapshot(tracked) == Stamped(old(Tracking(tracked)), clock.time, old(clock.readings), guids.guid, old(guids.drawn))
      ensures clock.readings == old(clock.readings) + ClockReadings(old(Tracking(tracked)))
      ensures guids.drawn == old(guids.drawn) + GuidDraws(old(Tracking(tracked)))
      ensures written == WriteCount(DetectedStates(old(Tracking(tracked)), Snapshot(tracked)))
      ensures WriteCount(States(tracked)) <= written <= |tracked|
    {
      var before := Tracking(tracked);
      StampEntries(tracked, clock, guids);
      var detected := DetectedStates(before, Snapshot(tracked));
      WriteCountMonotone(States(tracked), detected);
      written := WriteCount(detected);
    }
  }
}
