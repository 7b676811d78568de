/** The logout barrier: an epoch, an in-progress flag, and a sticky flag kept in session storage. */
module LogoutBarrier {
  import opened Options

  /** Whether session storage works during one step; a failing call is swallowed by the barrier. */
  datatype Storage = Storage(readable: bool, writable: bool, removable: bool)

  datatype Barrier = Barrier(epoch: nat, inProgress: bool, sticky: bool) {
    function Begun(storage: Storage): Barrier {
      Barrier(epoch + 1, true, sticky || storage.writable)
    }

    function Ended(since: Option<nat>): Barrier {
      if since.Some? && since.value != epoch then this else this.(inProgress := false)
    }

    function Cleared(storage: Storage): Barrier {
      if storage.removable then this.(sticky := false) else this
    }

    predicate Accepts(storage: Storage) {
      !inProgress && !(storage.readable && sticky)
    }

    predicate IsStale(epochAtStart: nat) {
      epochAtStart != epoch
    }
  }

  const OPEN := Barrier(0, false, false)

  /** The module's variables and the functions that read and write them. */
  class LogoutGate {
    var logoutEpoch: nat
    var logoutInProgress: bool
    var intentionalLogout: bool   // the sticky flag as stored

    function View(): Barrier
      reads this
    {
      Barrier(logoutEpoch, logoutInProgress, intentionalLogout)
    }

    constructor (intentionalLogout: bool)
      ensures View() == Barrier(0, false, intentionalLogout)
    {
      logoutEpoch, logoutInProgress := 0, false;
      this.intentionalLogout := intentionalLogout;
    }

    method BeginLogout(storage: Storage) returns (epoch: nat)
      modifies this
      ensures View() == old(View()).Begun(storage)
      ensures logoutInProgress && logoutEpoch == old(logoutEpoch) + 1
      ensures intentionalLogout == (old(intentionalLogout) || storage.writable)
      ensures epoch == View().epoch && !View().IsStale(epoch) && !View().Accepts(storage)
      ensures old(View()).IsStale(epoch)
    {
      logoutInProgress := true;
      logoutEpoch := logoutEpoch + 1;
      if storage.writable {
        intentionalLogout := true;
      }
      return logoutEpoch;
    }

    method EndLogout(epoch: Option<nat>)
      modifies this
      ensures View() == old(View()).Ended(epoch)
      ensures logoutEpoch == old(logoutEpoch) && intentionalLogout == old(intentionalLogout)
      ensures logoutInProgress == (old(logoutInProgress) && epoch !in {None, Some(logoutEpoch)})
    {
      if epoch.Some? && epoch.value != logoutEpoch {
        return;
      }
      logoutInProgress := false;
    }

    method ClearIntentionalLogout(storage: Storage)
      modifies this
      ensures View() == old(View()).Cleared(storage)
      ensures logoutEpoch == old(logoutEpoch) && logoutInProgress == old(logoutInProgress)
      ensures intentionalLogout == (old(intentionalLogout) && !storage.removable)
    {
      if storage.removable {
        intentionalLogout := false;
      }
    }

    method CanAcceptAuthSession(storage: Storage) returns (accepts: bool)
      ensures accepts == View().Accepts(storage)
      ensures accepts <==> !logoutInProgress && !(intentionalLogout && storage.readable)
    {
      accepts := !logoutInProgress;
      if accepts && storage.readable && intentionalLogout {
        accepts := false;
      }
    }

    method IsStaleLogoutEpoch(epochAtStart: nat) returns (stale: bool)
      ensures stale == View().IsStale(epochAtStart)
    {
      stale := epochAtStart != logoutEpoch;
    }
  }
}
