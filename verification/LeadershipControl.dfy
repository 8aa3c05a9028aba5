/** The process-local view of leadership: readiness, the renewal loop and the installed fence. */
module LeadershipControl {
  import opened Prelude
  import opened ControlPlane
  import opened ControlRuns
  import opened ControlStore
  import opened ControlLeadership

  datatype LeaderState = Starting | Leader | Lost | ShuttingDown

  class LeadershipController {
    const store: Store
    const instance: string
    const epoch: nat
    const lease: int
    var state: LeaderState
    var ready: bool
    var deadline: int
    var working: bool

    constructor (s: Store, held: Leadership, duration: int)
      ensures store == s && instance == held.instance && epoch == held.epoch && lease == duration
      ensures state == Starting && !ready && deadline == held.deadline && !working
    {
      store, instance, epoch, lease := s, held.instance, held.epoch, duration;
      state, ready, deadline, working := Starting, false, held.deadline, false;
    }

    /** Refuses an interval that is not positive or not shorter than the lease. */
    static method New(s: Store, held: Leadership, duration: int, interval: int)
        returns (r: Result<LeadershipController, StoreError>)
      ensures r.Ok? <==> 0 < interval < duration
      ensures r.Ok? ==> fresh(r.value) && r.value.store == s && r.value.epoch == held.epoch && !r.value.ready
    {
      if interval <= 0 || duration <= interval {
        return Err(InvalidArgument);
      }
      var c := new LeadershipController(s, held, duration);
      return Ok(c);
    }

    method SetReady(value: bool)
      modifies this`ready, this`state
      ensures ready == value && state == if value then Leader else old(state)
    {
      ready := value;
      if value {
        state := Leader;
      }
    }

    method Start()
      modifies this`working
      ensures working
    {
      working := true;
    }

    /** Local readiness is never enough: the row decides. */
    method Assert(ms: int) returns (ok: bool)
      ensures ok <==> ready && state == Leader && Leads(store.db.leader, instance, epoch, ms)
    {
      if !ready || state != Leader {
        return false;
      }
      ok := store.AssertLeadership(instance, epoch, ms);
    }

    /** One pass of the renewal loop. A failed renewal ends the loop and cancels the work. */
    method Tick(ms: int)
      modifies this, store.db
      ensures if !old(working) then store.db.Rows() == old(store.db.Rows()) && state == old(state)
              else store.db.Rows() == ControlPlane.RenewLeadership(old(store.db.Rows()), instance, epoch, lease, ms)
      ensures old(working) ==> (working <==> Leads(old(store.db.leader), instance, epoch, ms))
      ensures old(working) && !working ==> state == Lost && !ready
      ensures working ==>
          state == old(state) && ready == old(ready) && deadline == store.db.leader.deadline == ms + Millis(lease)
    {
      if !working {
        return;
      }
      var renewed := store.RenewLeadership(instance, epoch, lease, ms);
      if renewed.Err? {
        state, ready, working := Lost, false, false;
        return;
      }
      deadline := renewed.value;
    }

    /**
     Shuts down: a renewal that is in flight when the work is canceled fails and
     still sets LOST; the epoch is released in either case.
     */
    method Stop(inFlight: bool) returns (released: bool)
      modifies this, store.db
      ensures !ready && !working && state == if old(working) && inFlight then Lost else ShuttingDown
      ensures store.db.Rows() == Release(old(store.db.Rows()), instance, epoch)
      ensures released <==>
          old(store.db.leader).active && old(store.db.leader).instance == instance &&
              old(store.db.leader).epoch == epoch
    {
      SetReady(false);
      state := ShuttingDown;
      if working && inFlight {
        state, ready := Lost, false;
      }
      working := false;
      released := store.ReleaseLeadership(instance, epoch);
    }

    /** Setting the local flag after the lease was lost to a newer epoch does not bring leadership back. */
    method ReadyAgain(ms: int) returns (ok: bool)
      requires store.db.leader.epoch > epoch
      modifies this`ready, this`state
      ensures ready && state == Leader && !ok
    {
      SetReady(true);
      ok := Assert(ms);
    }
  }

  /**
   A process keeps its first fence, so once the row carries a newer epoch (its
   own or another master's) every write of that process is refused for ever.
   */
  lemma FirstFenceStays(db: Db, es: seq<Event>, fence: Fence, ms: int, after: Db)
    requires fence.epoch < db.leader.epoch
    ensures Guarded(Some(fence), ms, Execute(db, es), after) == Execute(db, es)
  {
    hide Execute;
    EpochHasOneOwner(db, es);
  }

  /** Taking leadership again in the same process therefore leaves it unable to write. */
  lemma ReacquiredEpochCannotWrite(db: Db, instance: string, lease: int, ms: int, fence: Fence, es: seq<Event>,
      at: int, after: Db)
    requires MayAcquire(db.leader, instance, lease, ms) && fence.epoch <= db.leader.epoch
    ensures var taken := Acquire(db, instance, lease, ms);
            Guarded(Some(fence), at, Execute(taken, es), after) == Execute(taken, es)
  {
    hide Execute;
    FirstFenceStays(Acquire(db, instance, lease, ms), es, fence, at, after);
  }

  /** What a fenced transaction of the store does to the tables is the write event of that master. */
  lemma GuardedIsWrite(db: Db, fence: Fence, ms: int, op: Op)
    ensures Guarded(Some(fence), ms, db, Apply(db, op)) == Exec(db, Write(fence.instance, fence.epoch, ms, op))
  {
    hide Apply;
  }
}
