/**
 * The registration notifier. The bound implementation is a stub that
 * returns true; the model keeps only the log of users it was called with.
 */
module RegisterAlert {
  import opened Users

  class RegisterAlertService {
    var notified: seq<User>

    constructor ()
      ensures notified == []
    {
      notified := [];
    }

    method NotifyRegisteredUser(u: User) returns (ok: bool)
      modifies this
      ensures notified == old(notified) + [u]
      ensures ok
    {
      notified := notified + [u];
      ok := true;
    }
  }
}
