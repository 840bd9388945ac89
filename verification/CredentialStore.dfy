/**
 * The rows of users, sessions and email challenges, and the guarded writes on them (api/users_db.py,
 * api/auth_sessions.py, api/auth_lifecycle.py, api/auth.py).
 */
module CredentialStore {
  import opened Options
  import opened CredentialRules

  class CredentialStore {
    var users: map<nat, User>
    var sessions: map<string, nat>
    var challenges: map<nat, Challenge>
    ghost var used: set<nat>
    ghost var issued: map<string, nat>
    ghost var checked: map<nat, (Link, Snapshot)>
    ghost var resets: seq<Link>

    ghost function View(): State
      reads this
    {
      State(users, used, sessions, issued, challenges, checked, resets)
    }

    constructor ()
      ensures View() == START
    {
      users, sessions, challenges := map[], map[], map[];
      used, issued, checked, resets := {}, map[], map[], [];
    }

    /** A snapshot, which is as old as the time that passes before it is used. */
    method Get(id: nat) returns (user: Option<Snapshot>)
      ensures user == Read(View(), id)
    {
      if id !in users {
        return None;
      }
      return Some(Snapshot(id, users[id].email, users[id].hash, users[id].active, users[id].revision));
    }

    /** A new id, at revision 0. */
    method Create(id: nat, user: User) returns (created: bool)
      requires id !in used
      modifies this
      ensures View() == Step(old(View()), Registered(id, user))
      ensures created <==> !EmailTaken(old(users), user.email, id)
    {
      hide EmailTaken, Lower;
      if EmailTaken(users, user.email, id) {
        return false;
      }
      users := users[id := user.(revision := 0)];
      used := used + {id};
      return true;
    }

    method RevokeUserSessions(id: nat)
      modifies this`sessions, this`issued
      ensures View() == Revoke(old(View()), id)
    {
      issued := map t | t in issued && t in sessions && sessions[t] != id :: issued[t];
      sessions := map t | t in sessions && sessions[t] != id :: sessions[t];
    }

    /** An unconditional write; a new email or hash raises the revision and ends sessions in the same transaction. */
    method Update(id: nat, email: Option<string>, hash: Option<Option<string>>, active: Option<bool>)
      modifies this
      ensures View() == Step(old(View()), Updated(id, email, hash, active))
    {
      hide EmailTaken, Lower, Revoke;
      if email.None? && hash.None? && active.None? {
        return;
      }
      if email.Some? && id in users && EmailTaken(users, email.value, id) {
        return;
      }
      var credentialsChanged := email.Some? || hash.Some?;
      if id in users {
        var user := users[id];
        if email.Some? {
          user := user.(email := email.value);
        }
        if hash.Some? {
          user := user.(hash := hash.value);
        }
        if active.Some? {
          user := user.(active := active.value);
        }
        if credentialsChanged {
          user := user.(revision := user.revision + 1);
        }
        users := users[id := user];
      }
      if credentialsChanged {
        RevokeUserSessions(id);
        challenges := challenges - {id};
      }
    }

    /** Compare-and-set on the credential that was authenticated; the revision stays. */
    method UpgradePasswordHash(snap: Snapshot, hash: string) returns (user: Option<Snapshot>)
      modifies this
      ensures View() == Step(old(View()), Rehashed(snap, hash))
      ensures user.Some? ==> user == Read(View(), snap.id)
      ensures user.Some? <==> snap.hash.Some? && Current(old(View()), snap)
    {
      if snap.id !in users || !users[snap.id].active || snap.hash.None? || users[snap.id].hash != snap.hash
         || users[snap.id].email != snap.email || users[snap.id].revision != snap.revision {
        return None;
      }
      users := users[snap.id := users[snap.id].(hash := Some(hash))];
      user := Get(snap.id);
    }

    /**
     * A password login from the user it read earlier: nobody without a user, a password or a match; the user as read
     * when the hash is up to date; and otherwise the rehashed user, or nobody if the row has changed since.
     */
    method Authenticate(read: Option<Snapshot>, matches: bool, upgraded: Option<string>)
      returns (user: Option<Snapshot>)
      modifies this
      ensures read.None? || read.value.hash.None? || !matches ==> user.None? && View() == old(View())
      ensures read.Some? && read.value.hash.Some? && matches && upgraded.None? ==>
                user == read && View() == old(View())
      ensures read.Some? && read.value.hash.Some? && matches && upgraded.Some? ==>
                && View() == Step(old(View()), Rehashed(read.value, upgraded.value))
                && (user.Some? <==> Current(old(View()), read.value))
                && (user.Some? ==> user == Read(View(), read.value.id))
    {
      hide Current;
      if read.None? || read.value.hash.None? {
        return None;
      }
      if !matches {
        return None;
      }
      if upgraded.Some? {
        user := UpgradePasswordHash(read.value, upgraded.value);
        return user;
      }
      return read;
    }

    /** The user's row lock, then the session's. */
    method LockAccountSession(snap: Snapshot, session: string) returns (locked: bool)
      ensures locked <==> Locked(View(), snap, session)
    {
      if snap.id !in users || users[snap.id].email != snap.email || users[snap.id].hash != snap.hash
         || !users[snap.id].active || users[snap.id].revision != snap.revision {
        return false;
      }
      return session in sessions && sessions[session] == snap.id;
    }

    /** Consumes the old credential and ends every session, or does nothing. */
    method ReplacePassword(snap: Snapshot, hash: string) returns (user: Option<Snapshot>)
      modifies this`users, this`sessions, this`issued, this`challenges
      ensures View() == Replace(old(View()), snap, hash)
      ensures user.Some? <==> Current(old(View()), snap)
      ensures user.Some? ==> user == Read(View(), snap.id)
    {
      hide Revoke;
      if snap.id !in users || users[snap.id].hash != snap.hash || users[snap.id].email != snap.email
         || !users[snap.id].active || users[snap.id].revision != snap.revision {
        return None;
      }
      users := users[snap.id := users[snap.id].(hash := Some(hash), revision := users[snap.id].revision + 1)];
      user := Get(snap.id);
      RevokeUserSessions(snap.id);
      challenges := challenges - {snap.id};
    }

    method ChangePassword(snap: Snapshot, session: string, hash: string) returns (changed: bool)
      modifies this
      ensures View() == Step(old(View()), PasswordChanged(snap, session, hash))
      ensures changed <==> Locked(old(View()), snap, session)
    {
      hide Current;
      var locked := LockAccountSession(snap, session);
      if !locked {
        return false;
      }
      var user := ReplacePassword(snap, hash);
      return user.Some?;
    }

    /** The first half of a reset: the link against the user as stored now. */
    method CheckLink(ghost worker: nat, link: Link) returns (user: Option<Snapshot>)
      modifies this`checked
      ensures View() == Step(old(View()), ResetBegun(worker, link))
      ensures user.Some? <==> Read(View(), link.user).Some? && Opens(link, Read(View(), link.user).value)
      ensures user.Some? ==> user == Read(View(), link.user) && worker in checked && checked[worker] == (link, user.value)
    {
      var snap := Get(link.user);
      if snap.None? {
        return None;
      }
      if link.email != snap.value.email {
        return None;
      }
      if link.revision != snap.value.revision {
        return None;
      }
      if snap.value.hash.None? || snap.value.hash.value == "" {
        return None;
      }
      if snap.value.hash.value != link.hash {
        return None;
      }
      if !snap.value.active {
        return None;
      }
      checked := checked[worker := (link, snap.value)];
      return snap;
    }

    /** The second half, any time later: compare-and-set from the snapshot that the check read. */
    method FinishReset(ghost worker: nat, ghost link: Link, snap: Snapshot, hash: string) returns (done: bool)
      requires worker in checked && checked[worker] == (link, snap)
      modifies this
      ensures View() == Step(old(View()), ResetFinished(worker, hash))
      ensures done <==> |resets| > |old(resets)|
    {
      hide ChangeCredential;
      checked := checked - {worker};
      ghost var s := View();
      var user := ReplacePassword(snap, hash);
      if user.None? {
        return false;
      }
      ghost var t := Replace(s, snap, hash);
      ChangeTells(s, snap.id, s.users[snap.id].(hash := Some(hash)));
      resets := resets + [link];
      return true;
    }

    /** Guarded by the credential that was authenticated. False when it has changed, or the token is taken. */
    method CreateSession(snap: Snapshot, token: string) returns (created: bool)
      modifies this
      ensures View() == Step(old(View()), LoggedIn(snap, token))
      ensures created <==> MayIssue(old(View()), snap) && token !in old(sessions)
    {
      hide Lower;
      if snap.id !in users || !users[snap.id].active || users[snap.id].hash != snap.hash
         || Lower(users[snap.id].email) != Lower(snap.email) || users[snap.id].revision != snap.revision
         || token in sessions {
        return false;
      }
      sessions := sessions[token := snap.id];
      issued := issued[token := users[snap.id].revision];
      return true;
    }

    method DeleteSession(token: string, id: nat)
      modifies this
      ensures View() == Step(old(View()), LoggedOut(token, id))
    {
      if token in sessions && sessions[token] == id {
        sessions := sessions - {token};
        issued := issued - {token};
      }
    }

    method Delete(id: nat)
      modifies this
      ensures View() == Step(old(View()), Deleted(id))
    {
      hide Revoke;
      users := users - {id};
      RevokeUserSessions(id);
      challenges := challenges - {id};
    }

    method RequestEmailChange(snap: Snapshot, session: string, token: string, email: string) returns (asked: bool)
      modifies this
      ensures View() == Step(old(View()), EmailAsked(snap, session, token, email))
    {
      hide EmailTaken, Lower, Locked;
      var locked := LockAccountSession(snap, session);
      if !locked || EmailTaken(users, email, snap.id) {
        return false;
      }
      challenges := challenges[snap.id := Challenge(token, email)];
      return true;
    }

    /** `id` is the user of the token's row. */
    method ConfirmEmail(id: nat, token: string) returns (confirmed: bool)
      modifies this
      ensures View() == Step(old(View()), EmailConfirmed(id, token))
      ensures confirmed <==>
                && id in old(challenges) && old(challenges)[id].token == token
                && id in old(users) && old(users)[id].active
                && !EmailTaken(old(users), old(challenges)[id].email, id)
      ensures confirmed ==> Ended(old(View()), View(), id)
    {
      hide EmailTaken, Lower;
      if id !in challenges || challenges[id].token != token || id !in users || !users[id].active {
        return false;
      }
      var email := challenges[id].email;
      if EmailTaken(users, email, id) {
        return false;
      }
      ChangeEnds(View(), id, users[id].(email := email));
      users := users[id := users[id].(email := email, revision := users[id].revision + 1)];
      challenges := challenges - {id};
      RevokeUserSessions(id);
      return true;
    }
  }
}
