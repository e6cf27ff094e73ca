/** The set of administrator ids and the channel transactions are logged to. */
module Admins {
  import opened BotConfig

  /** No id occurs twice in `s`. */
  predicate NoDuplicates(s: seq<int>) {
    forall i, j :: 0 <= i < j < |s| ==> s[i] != s[j]
  }

  lemma NonEmptyHasMember(s: set<int>)
    requires s != {}
    ensures exists x :: x in s
  {
    if forall x :: x !in s {
      assert false;
    }
  }

  class AdminManager {
    var admins: set<int>
    var logChannel: Option<int>

    /** Start-up without an admin file: no admins and no log channel. */
    constructor ()
      ensures admins == {} && logChannel == None
    {
      admins := {};
      logChannel := None;
    }

    /** Membership in the admin set. */
    function IsAdmin(user: int): bool
      reads this
    {
      user in admins
    }

    /** `admins.add(user)`: afterwards `user` is an admin; adding an existing
        admin changes nothing. */
    method AddAdmin(user: int)
      modifies this
      ensures admins == old(admins) + {user}
      ensures IsAdmin(user)
      ensures user in old(admins) ==> admins == old(admins)
      ensures logChannel == old(logChannel)
    {
      admins := admins + {user};
    }

    /** Removes `user` when it is an admin and reports whether it was; every
        other admin stays. */
    method RemoveAdmin(user: int) returns (removed: bool)
      modifies this
      ensures removed <==> user in old(admins)
      ensures admins == old(admins) - {user}
      ensures !IsAdmin(user)
      ensures !removed ==> admins == old(admins)
      ensures logChannel == old(logChannel)
    {
      if user in admins {
        admins := admins - {user};
        return true;
      }
      return false;
    }

    /** `list(self.admins)`: every admin exactly once, in some order. */
    method GetAdmins() returns (list: seq<int>)
      ensures forall u :: u in list <==> u in admins
      ensures NoDuplicates(list)
      ensures |list| == |admins|
    {
      list := [];
      var remaining := admins;
      while remaining != {}
        invariant remaining <= admins
        invariant forall u :: u in list <==> u in admins && u !in remaining
        invariant NoDuplicates(list)
        invariant |list| + |remaining| == |admins|
        decreases |remaining|
      {
        NonEmptyHasMember(remaining);
        var next :| next in remaining;
        list := list + [next];
        remaining := remaining - {next};
      }
    }

    /** Records the log channel; the admin set is untouched. */
    method SetLogChannel(channel: int)
      modifies this
      ensures logChannel == Some(channel)
      ensures GetLogChannel() == Some(channel)
      ensures admins == old(admins)
    {
      logChannel := Some(channel);
    }

    function GetLogChannel(): Option<int>
      reads this
    {
      logChannel
    }
  }
}
