/** The confirmed snapshot that demand workers read: StaticSnapshotState in prc/pkg/controller/static_snapshot_controller.go. */
module SnapshotState {
  import opened Wrappers
  import opened StaticCache

  datatype Status = Status(snapshotId: Option<SnapshotId>, bootId: nat, nodeCount: nat, syncedAt: int, lastError: string, lastAttemptedAt: int)

  // The value of the shared state; boot ids are numbered and 0 is the empty id.
  datatype Shared = Shared(status: Status, ready: bool)

  const Initial := Shared(Status(None, 0, 0, 0, "", 0), false)

  function Confirmed(id: SnapshotId, boot: nat, count: nat, now: int): Shared {
    Shared(Status(Some(id), boot, count, now, "", now), true)
  }

  // Not ready, whatever was confirmed before; the old identity stays readable but unusable.
  function Syncing(s: Shared, now: int): Shared {
    Shared(s.status.(lastAttemptedAt := now, lastError := ""), false)
  }

  // A failure leaves readiness as it is.
  function Failed(s: Shared, error: Option<string>, now: int): Shared {
    s.(status := s.status.(lastAttemptedAt := now, lastError := if error.Some? then error.value else s.status.lastError))
  }

  class StaticSnapshotState {
    var status: Status
    var ready: bool

    ghost function View(): Shared
      reads this
    {
      Shared(status, ready)
    }

    constructor ()
      ensures View() == Initial
    {
      status, ready := Status(None, 0, 0, 0, "", 0), false;
    }

    method Current() returns (s: Status, ok: bool)
      ensures Shared(s, ok) == View()
    {
      s, ok := status, ready;
    }

    method Confirm(id: SnapshotId, boot: nat, count: nat, now: int)
      modifies this
      ensures View() == Confirmed(id, boot, count, now)
    {
      status := Status(Some(id), boot, count, now, "", now);
      ready := true;
    }

    method Sync(now: int)
      modifies this
      ensures View() == Syncing(old(View()), now)
    {
      status := status.(lastAttemptedAt := now);
      status := status.(lastError := "");
      ready := false;
    }

    method Fail(error: Option<string>, now: int)
      modifies this
      ensures View() == Failed(old(View()), error, now)
    {
      status := status.(lastAttemptedAt := now);
      if error.Some? {
        status := status.(lastError := error.value);
      }
    }
  }
}
