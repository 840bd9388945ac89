/**
 * Credentials, sessions and reset links (api/users_db.py, api/auth_sessions.py, api/auth_lifecycle.py): every
 * statement or transaction as one step. A step works from a snapshot of the user that may be as old as it likes.
 */
module CredentialRules {
  import opened Options

  /** `revision` counts the changes of the credential; `hash` is None for a user without a password. */
  datatype User = User(email: string, hash: Option<string>, active: bool, revision: nat)

  /** A user as some request once read it. */
  datatype Snapshot = Snapshot(id: nat, email: string, hash: Option<string>, active: bool, revision: nat)

  /** What a reset link carries; `hash` is the password hash that its fingerprint fits. */
  datatype Link = Link(user: nat, email: string, hash: string, revision: nat)

  datatype Challenge = Challenge(token: string, email: string)

  /**
   * `used` holds every user id ever given out; ids are not given out twice. `issued` is the revision at which each
   * session was created, and `resets` lists the links that have succeeded; neither is stored. `checked` holds, for
   * each worker between the check of a link and its compare-and-set, the link and the snapshot it has read.
   */
  datatype State = State(users: map<nat, User>, used: set<nat>, sessions: map<string, nat>, issued: map<string, nat>,
                         challenges: map<nat, Challenge>, checked: map<nat, (Link, Snapshot)>, resets: seq<Link>)

  const START: State := State(map[], {}, map[], map[], map[], map[], [])

  function LowerChar(c: char): char {
    if 'A' <= c <= 'Z' then (c as int + 32) as char else c
  }

  function Lower(s: string): string {
    seq(|s|, i requires 0 <= i < |s| => LowerChar(s[i]))
  }

  /** The unique index on the lower-case address. */
  predicate EmailTaken(users: map<nat, User>, email: string, except: nat) {
    exists id :: id in users && id != except && Lower(users[id].email) == Lower(email)
  }

  function Read(s: State, id: nat): Option<Snapshot> {
    if id in s.users
    then Some(Snapshot(id, s.users[id].email, s.users[id].hash, s.users[id].active, s.users[id].revision)) else None
  }

  // -- the statements

  /** Ends every session of the user. */
  function Revoke(s: State, id: nat): State {
    s.(sessions := map t | t in s.sessions && s.sessions[t] != id :: s.sessions[t],
       issued := map t | t in s.issued && t in s.sessions && s.sessions[t] != id :: s.issued[t])
  }

  function Forget(s: State, id: nat): State {
    s.(challenges := s.challenges - {id})
  }

  /** The new credential: the revision rises, the sessions end, and the open challenge is void. */
  function ChangeCredential(s: State, id: nat, user: User): State
    requires id in s.users
  {
    Forget(Revoke(s.(users := s.users[id := user.(revision := s.users[id].revision + 1)]), id), id)
  }

  function Register(s: State, id: nat, user: User): State {
    if id in s.used || EmailTaken(s.users, user.email, id) then s
    else s.(users := s.users[id := user.(revision := 0)], used := s.used + {id})
  }

  /** An unconditional write of the given columns. */
  function Update(s: State, id: nat, email: Option<string>, hash: Option<Option<string>>, active: Option<bool>): State {
    if email.Some? && id in s.users && EmailTaken(s.users, email.value, id) then s
    else if id !in s.users then (if email.Some? || hash.Some? then Forget(Revoke(s, id), id) else s)
    else
      var was := s.users[id];
      var user := User(if email.Some? then email.value else was.email, if hash.Some? then hash.value else was.hash,
                       if active.Some? then active.value else was.active, was.revision);
      if email.Some? || hash.Some? then ChangeCredential(s, id, user) else s.(users := s.users[id := user])
  }

  /** The stored row is active and still the one the snapshot shows. */
  predicate Current(s: State, snap: Snapshot) {
    && snap.id in s.users
    && s.users[snap.id].active
    && s.users[snap.id].email == snap.email
    && s.users[snap.id].hash == snap.hash
    && s.users[snap.id].revision == snap.revision
  }

  /** A stronger hash of the same password, if the row is still the one that was authenticated. */
  function Rehash(s: State, snap: Snapshot, hash: string): State {
    if snap.hash.Some? && Current(s, snap)
    then s.(users := s.users[snap.id := s.users[snap.id].(hash := Some(hash))]) else s
  }

  /** The compare-and-set behind resets and password changes. */
  function Replace(s: State, snap: Snapshot, hash: string): State {
    if Current(s, snap) then ChangeCredential(s, snap.id, s.users[snap.id].(hash := Some(hash))) else s
  }

  /** The recheck under the user's lock: the row is unchanged and the acting session is still there. */
  predicate Locked(s: State, snap: Snapshot, session: string) {
    Current(s, snap) && session in s.sessions && s.sessions[session] == snap.id
  }

  /** The row that may issue a session: here the email's case does not matter. */
  predicate MayIssue(s: State, snap: Snapshot) {
    && snap.id in s.users
    && s.users[snap.id].active
    && s.users[snap.id].hash == snap.hash
    && Lower(s.users[snap.id].email) == Lower(snap.email)
    && s.users[snap.id].revision == snap.revision
  }

  function Issue(s: State, snap: Snapshot, token: string): State {
    if MayIssue(s, snap) && token !in s.sessions
    then s.(sessions := s.sessions[token := snap.id], issued := s.issued[token := s.users[snap.id].revision]) else s
  }

  function Logout(s: State, token: string, id: nat): State {
    if token in s.sessions && s.sessions[token] == id
    then s.(sessions := s.sessions - {token}, issued := s.issued - {token}) else s
  }

  /** The row goes, and with it by cascade all that refers to it. */
  function Delete(s: State, id: nat): State {
    Forget(Revoke(s.(users := s.users - {id}), id), id)
  }

  /** The link that a request for a forgotten password sends; none to a user without a password. */
  function LinkOf(snap: Snapshot): Option<Link> {
    if snap.active && snap.hash.Some? then Some(Link(snap.id, snap.email, snap.hash.value, snap.revision)) else None
  }

  /** The checks of a link against the user just read, in their order. */
  predicate Opens(link: Link, snap: Snapshot) {
    if link.email != snap.email then false
    else if link.revision != snap.revision then false
    else if snap.hash.None? || snap.hash.value == "" then false
    else if snap.hash.value != link.hash then false
    else snap.active
  }

  function BeginReset(s: State, worker: nat, link: Link): State {
    var snap := Read(s, link.user);
    if snap.Some? && Opens(link, snap.value) then s.(checked := s.checked[worker := (link, snap.value)]) else s
  }

  function FinishReset(s: State, worker: nat, hash: string): State {
    if worker !in s.checked then s
    else
      var (link, snap) := s.checked[worker];
      var t := s.(checked := s.checked - {worker});
      if Current(t, snap) then Replace(t, snap, hash).(resets := t.resets + [link]) else t
  }

  function AskEmail(s: State, snap: Snapshot, session: string, token: string, email: string): State {
    if Locked(s, snap, session) && !EmailTaken(s.users, email, snap.id)
    then s.(challenges := s.challenges[snap.id := Challenge(token, email)]) else s
  }

  /** The challenge is consumed and its address written in one transaction; a taken address undoes both. */
  function ConfirmEmail(s: State, id: nat, token: string): State {
    if id in s.challenges && s.challenges[id].token == token && id in s.users && s.users[id].active
       && !EmailTaken(s.users, s.challenges[id].email, id)
    then ChangeCredential(s, id, s.users[id].(email := s.challenges[id].email)) else s
  }

  datatype Op =
    | Registered(id: nat, user: User)
    | Updated(id: nat, email: Option<string>, hash: Option<Option<string>>, active: Option<bool>)
    | Rehashed(snap: Snapshot, newHash: string)
    | PasswordChanged(snap: Snapshot, session: string, newHash: string)
    | ResetBegun(worker: nat, link: Link)
    | ResetFinished(worker: nat, newHash: string)
    | LoggedIn(snap: Snapshot, token: string)
    | LoggedOut(token: string, id: nat)
    | LoggedOutEverywhere(id: nat)
    | EmailAsked(snap: Snapshot, session: string, token: string, newEmail: string)
    | EmailConfirmed(id: nat, token: string)
    | Deleted(id: nat)

  function Step(s: State, op: Op): State {
    match op
    case Registered(id, user) => Register(s, id, user)
    case Updated(id, email, hash, active) => Update(s, id, email, hash, active)
    case Rehashed(snap, hash) => Rehash(s, snap, hash)
    case PasswordChanged(snap, session, hash) => if Locked(s, snap, session) then Replace(s, snap, hash) else s
    case ResetBegun(worker, link) => BeginReset(s, worker, link)
    case ResetFinished(worker, hash) => FinishReset(s, worker, hash)
    case LoggedIn(snap, token) => Issue(s, snap, token)
    case LoggedOut(token, id) => Logout(s, token, id)
    case LoggedOutEverywhere(id) => Revoke(s, id)
    case EmailAsked(snap, session, token, email) => AskEmail(s, snap, session, token, email)
    case EmailConfirmed(id, token) => ConfirmEmail(s, id, token)
    case Deleted(id) => Delete(s, id)
  }

  function Run(s: State, ops: seq<Op>): State
    decreases ops
  {
    if ops == [] then s else Run(Step(s, ops[0]), ops[1..])
  }

  // -- sessions belong to the present credential

  /** Each stored session was issued at its user's present revision. */
  ghost predicate SessionsCurrent(s: State) {
    && s.issued.Keys == s.sessions.Keys
    && (forall t :: t in s.sessions ==> s.sessions[t] in s.users && s.issued[t] == s.users[s.sessions[t]].revision)
    && (forall id :: id in s.users ==> id in s.used)
  }

  lemma RevokeLeavesNone(s: State, id: nat)
    ensures Revoke(s, id) == s.(sessions := Revoke(s, id).sessions, issued := Revoke(s, id).issued)
    ensures forall t :: t in Revoke(s, id).sessions ==> t in s.sessions && s.sessions[t] != id
    ensures s.issued.Keys == s.sessions.Keys ==> Revoke(s, id).issued.Keys == Revoke(s, id).sessions.Keys
    ensures forall t :: t in Revoke(s, id).sessions ==> Revoke(s, id).sessions[t] == s.sessions[t]
    ensures s.issued.Keys == s.sessions.Keys ==>
      forall t :: t in Revoke(s, id).sessions ==> Revoke(s, id).issued[t] == s.issued[t]
  {
  }

  lemma ChangeTells(s: State, id: nat, user: User)
    requires id in s.users
    ensures var t := ChangeCredential(s, id, user);
            && t.users == s.users[id := user.(revision := s.users[id].revision + 1)]
            && t.used == s.used && t.checked == s.checked && t.resets == s.resets
  {
    hide Revoke;
    RevokeLeavesNone(s.(users := s.users[id := user.(revision := s.users[id].revision + 1)]), id);
  }

  lemma ChangeKeepsCurrent(s: State, id: nat, user: User)
    requires SessionsCurrent(s) && id in s.users
    ensures SessionsCurrent(ChangeCredential(s, id, user))
  {
    RevokeLeavesNone(s.(users := s.users[id := user.(revision := s.users[id].revision + 1)]), id);
    hide Revoke;
  }

  lemma {:induction false} StepKeepsCurrent(s: State, op: Op)
    requires SessionsCurrent(s)
    ensures SessionsCurrent(Step(s, op))
  {
    hide Lower, ChangeCredential, Revoke, Opens, EmailTaken;
    match op
    case Updated(id, email, hash, active) => UpdateKeepsCurrent(s, id, email, hash, active);
    case PasswordChanged(snap, session, hash) => ReplaceKeepsCurrent(s, snap, hash);
    case ResetFinished(worker, hash) => FinishKeepsCurrent(s, worker, hash);
    case EmailConfirmed(id, token) =>
      if id in s.users && id in s.challenges {
        ChangeKeepsCurrent(s, id, s.users[id].(email := s.challenges[id].email));
      }
    case LoggedOutEverywhere(id) => RevokeLeavesNone(s, id);
    case Deleted(id) => RevokeLeavesNone(s.(users := s.users - {id}), id);
    case _ =>
  }

  lemma UpdateKeepsCurrent(s: State, id: nat, email: Option<string>, hash: Option<Option<string>>, active: Option<bool>)
    requires SessionsCurrent(s)
    ensures SessionsCurrent(Update(s, id, email, hash, active))
  {
    hide Lower, ChangeCredential, Revoke, EmailTaken;
    RevokeLeavesNone(s, id);
    if id in s.users {
      var was := s.users[id];
      ChangeKeepsCurrent(s, id, User(if email.Some? then email.value else was.email,
                                     if hash.Some? then hash.value else was.hash,
                                     if active.Some? then active.value else was.active, was.revision));
    }
  }

  lemma ReplaceKeepsCurrent(s: State, snap: Snapshot, hash: string)
    requires SessionsCurrent(s)
    ensures SessionsCurrent(Replace(s, snap, hash))
  {
    hide ChangeCredential;
    if Current(s, snap) {
      ChangeKeepsCurrent(s, snap.id, s.users[snap.id].(hash := Some(hash)));
    }
  }

  lemma FinishKeepsCurrent(s: State, worker: nat, hash: string)
    requires SessionsCurrent(s)
    ensures SessionsCurrent(FinishReset(s, worker, hash))
  {
    hide Replace;
    if worker in s.checked {
      var t := s.(checked := s.checked - {worker});
      ReplaceKeepsCurrent(t, s.checked[worker].1, hash);
    }
  }

  /** In every state that any interleaving reaches, each session was issued at its user's present revision. */
  lemma {:induction false} RunKeepsCurrent(s: State, ops: seq<Op>)
    requires SessionsCurrent(s)
    ensures SessionsCurrent(Run(s, ops))
    decreases ops
  {
    hide Step, SessionsCurrent;
    if ops != [] {
      StepKeepsCurrent(s, ops[0]);
      RunKeepsCurrent(Step(s, ops[0]), ops[1..]);
    }
  }

  // -- a credential that has changed is spent

  /** The user's credential of that revision is history: a later one is stored, or the user is gone. */
  predicate Spent(s: State, id: nat, revision: nat) {
    id in s.used && (id in s.users ==> s.users[id].revision > revision)
  }

  /** No step lowers a revision, takes an id back, or gives one out again. */
  /** A user is still who was there before, and no older revision is stored. */
  predicate Lasts(s: State, t: State, id: nat) {
    && id in t.used
    && (id in t.users ==> id in s.users && s.users[id].revision <= t.users[id].revision)
  }

  lemma {:induction false} StepNeverLowers(s: State, op: Op, id: nat)
    requires id in s.used
    ensures Lasts(s, Step(s, op), id)
  {
    hide Lower, Opens, EmailTaken, MayIssue, Update, Replace;
    match op
    case Updated(i, email, hash, active) => UpdateLasts(s, i, email, hash, active, id);
    case PasswordChanged(snap, session, hash) => ReplaceLasts(s, snap, hash, id);
    case ResetFinished(worker, hash) =>
      if worker in s.checked {
        ReplaceLasts(s.(checked := s.checked - {worker}), s.checked[worker].1, hash, id);
      }
    case _ =>
  }

  lemma UpdateLasts(s: State, i: nat, email: Option<string>, hash: Option<Option<string>>, active: Option<bool>, id: nat)
    requires id in s.used
    ensures Lasts(s, Update(s, i, email, hash, active), id)
  {
    hide EmailTaken;
  }

  lemma ReplaceLasts(s: State, snap: Snapshot, hash: string, id: nat)
    requires id in s.used
    ensures Lasts(s, Replace(s, snap, hash), id)
  {
  }

  lemma {:induction false} RunNeverLowers(s: State, ops: seq<Op>, id: nat)
    requires id in s.used
    ensures Lasts(s, Run(s, ops), id)
    decreases ops
  {
    hide Step;
    if ops != [] {
      StepNeverLowers(s, ops[0], id);
      RunNeverLowers(Step(s, ops[0]), ops[1..], id);
    }
  }

  /** The operations that work from a snapshot or a link of that revision. */
  predicate WorksFrom(s: State, op: Op, id: nat, revision: nat) {
    match op
    case Rehashed(snap, _) => snap.id == id && snap.revision == revision
    case PasswordChanged(snap, _, _) => snap.id == id && snap.revision == revision
    case LoggedIn(snap, _) => snap.id == id && snap.revision == revision
    case EmailAsked(snap, _, _, _) => snap.id == id && snap.revision == revision
    case ResetBegun(_, link) => link.user == id && link.revision == revision
    case ResetFinished(worker, _) =>
      worker in s.checked && s.checked[worker].1.id == id && s.checked[worker].1.revision == revision
    case _ => false
  }

  /** The tables alone. */
  predicate SameTables(s: State, t: State) {
    t.users == s.users && t.sessions == s.sessions && t.challenges == s.challenges && t.resets == s.resets
  }

  lemma SpentDoesNothing(s: State, op: Op, id: nat, revision: nat)
    requires Spent(s, id, revision) && WorksFrom(s, op, id, revision)
    ensures SameTables(s, Step(s, op))
  {
    hide Lower, EmailTaken, Replace;
  }

  /**
   * A snapshot or link older than a credential change never does anything again, over all runs: no session, no
   * rehash, no password change and no reset comes of it.
   */
  lemma {:induction false} StaleForEver(s: State, ops: seq<Op>, id: nat, revision: nat, op: Op)
    requires Spent(s, id, revision) && WorksFrom(Run(s, ops), op, id, revision)
    ensures Spent(Run(s, ops), id, revision)
    ensures SameTables(Run(s, ops), Step(Run(s, ops), op))
  {
    hide Step, Run;
    RunNeverLowers(s, ops, id);
    SpentDoesNothing(Run(s, ops), op, id, revision);
  }

  /** A change of credential spends the old one and leaves the user no session and no challenge. */
  predicate Ended(s: State, t: State, id: nat) {
    && id in s.users && id in t.users && t.users[id].revision == s.users[id].revision + 1
    && id !in t.challenges && forall token :: token in t.sessions ==> t.sessions[token] != id
  }

  lemma ChangeEnds(s: State, id: nat, user: User)
    requires id in s.users
    ensures Ended(s, ChangeCredential(s, id, user), id)
    ensures ChangeCredential(s, id, user).users == s.users[id := user.(revision := s.users[id].revision + 1)]
  {
    RevokeLeavesNone(s.(users := s.users[id := user.(revision := s.users[id].revision + 1)]), id);
  }

  /**
   * Whatever step gives a user another email or hash spends the credential, unless it is the rehash of the very
   * snapshot that is stored.
   */
  lemma {:induction false} ChangeSpends(s: State, op: Op, id: nat)
    requires id in s.users && id in Step(s, op).users
    requires s.users[id].email != Step(s, op).users[id].email || s.users[id].hash != Step(s, op).users[id].hash
    requires id in s.used
    ensures Ended(s, Step(s, op), id) || (op.Rehashed? && op.snap.id == id && Current(s, op.snap))
    ensures !op.Rehashed? ==> forall revision: nat :: revision <= s.users[id].revision ==> Spent(Step(s, op), id, revision)
  {
    hide Lower, Opens, EmailTaken, MayIssue, ChangeCredential;
    StepNeverLowers(s, op, id);
    match op
    case Updated(other, email, hash, active) =>
      if other in s.users {
        var was := s.users[other];
        ChangeEnds(s, other, User(if email.Some? then email.value else was.email,
                                  if hash.Some? then hash.value else was.hash,
                                  if active.Some? then active.value else was.active, was.revision));
      }
    case PasswordChanged(snap, session, hash) =>
      if Current(s, snap) {
        ChangeEnds(s, snap.id, s.users[snap.id].(hash := Some(hash)));
      }
    case ResetFinished(worker, hash) =>
      if worker in s.checked && Current(s, s.checked[worker].1) {
        var snap := s.checked[worker].1;
        ChangeEnds(s.(checked := s.checked - {worker}), snap.id, s.users[snap.id].(hash := Some(hash)));
      }
    case EmailConfirmed(other, token) =>
      if other in s.users && other in s.challenges {
        ChangeEnds(s, other, s.users[other].(email := s.challenges[other].email));
      }
    case _ =>
  }

  // -- reset links

  /** All links that have succeeded are spent, no two of them are of one revision, and checks read their revision. */
  ghost predicate LinksOnce(s: State) {
    && (forall id :: id in s.users ==> id in s.used)
    && (forall link :: link in s.resets ==> Spent(s, link.user, link.revision))
    && (forall i, j :: 0 <= i < j < |s.resets| ==> !SameRevision(s.resets[i], s.resets[j]))
    && (forall w :: w in s.checked ==> Reads(s.checked[w]))
  }

  predicate SameRevision(a: Link, b: Link) {
    a.user == b.user && a.revision == b.revision
  }

  predicate Reads(c: (Link, Snapshot)) {
    c.0.user == c.1.id && c.0.revision == c.1.revision
  }

  lemma FinishKeepsLinks(s: State, worker: nat, hash: string)
    requires LinksOnce(s)
    ensures LinksOnce(FinishReset(s, worker, hash))
  {
    hide ChangeCredential;
    var t := FinishReset(s, worker, hash);
    if worker in s.checked && Current(s, s.checked[worker].1) {
      var (link, snap) := s.checked[worker];
      assert Reads(s.checked[worker]);
      ChangeTells(s.(checked := s.checked - {worker}), snap.id, s.users[snap.id].(hash := Some(hash)));
      assert t.users[snap.id].revision == s.users[snap.id].revision + 1 && t.resets == s.resets + [link];
      forall done | done in s.resets ensures Spent(t, done.user, done.revision) && !SameRevision(done, link) {
        assert Spent(s, done.user, done.revision);
      }
      assert Spent(t, link.user, link.revision);
    }
  }

  lemma StepKeepsLinks(s: State, op: Op)
    requires LinksOnce(s)
    ensures LinksOnce(Step(s, op))
  {
    hide Lower, EmailTaken, FinishReset, Spent, BeginReset, Register, Update, Rehash, Replace, Locked, Issue, Logout,
      Revoke, AskEmail, ConfirmEmail, Delete;
    if op.ResetFinished? {
      FinishKeepsLinks(s, op.worker, op.newHash);
    } else {
      var t := Step(s, op);
      OthersResetNothing(s, op);
      if op.ResetBegun? {
        BeginTells(s, op.worker, op.link);
      } else if op.Registered? {
        RegisterTells(s, op.id, op.user);
      }
      forall link | link in t.resets ensures Spent(t, link.user, link.revision) {
        assert Spent(s, link.user, link.revision);
        SpentStays(s, op, link.user, link.revision);
      }
    }
  }

  lemma SpentStays(s: State, op: Op, id: nat, revision: nat)
    requires Spent(s, id, revision)
    ensures Spent(Step(s, op), id, revision)
  {
    hide Step;
    StepNeverLowers(s, op, id);
  }

  /** Every other step leaves the list of resets alone; all but the check of a link leave the checks alone. */
  lemma {:induction false} OthersResetNothing(s: State, op: Op)
    requires !op.ResetFinished?
    ensures Step(s, op).resets == s.resets
    ensures !op.ResetBegun? ==> Step(s, op).checked == s.checked
    ensures !op.Registered? ==> Step(s, op).used == s.used && Step(s, op).users.Keys <= s.users.Keys
  {
    hide Lower, EmailTaken, MayIssue, FinishReset, ChangeCredential, Revoke, BeginReset, Register;
    match op
    case Updated(id, email, hash, active) =>
      RevokeLeavesNone(s, id);
      if id in s.users {
        var was := s.users[id];
        ChangeTells(s, id, User(if email.Some? then email.value else was.email,
                                if hash.Some? then hash.value else was.hash,
                                if active.Some? then active.value else was.active, was.revision));
      }
    case PasswordChanged(snap, session, hash) =>
      if Current(s, snap) {
        ChangeTells(s, snap.id, s.users[snap.id].(hash := Some(hash)));
      }
    case EmailConfirmed(id, token) =>
      if id in s.users && id in s.challenges {
        ChangeTells(s, id, s.users[id].(email := s.challenges[id].email));
      }
    case LoggedOutEverywhere(id) => RevokeLeavesNone(s, id);
    case Deleted(id) => RevokeLeavesNone(s.(users := s.users - {id}), id);
    case ResetBegun(worker, link) => BeginTells(s, worker, link);
    case Registered(id, user) => RegisterTells(s, id, user);
    case _ =>
  }

  lemma BeginTells(s: State, worker: nat, link: Link)
    ensures var t := BeginReset(s, worker, link);
            && t == s.(checked := t.checked)
            && ((forall w :: w in s.checked ==> Reads(s.checked[w])) ==> forall w :: w in t.checked ==> Reads(t.checked[w]))
  {
  }

  lemma RegisterTells(s: State, id: nat, user: User)
    ensures var t := Register(s, id, user);
            && t == s.(users := t.users, used := t.used)
            && ((forall i :: i in s.users ==> i in s.used) ==> forall i :: i in t.users ==> i in t.used)
  {
    hide EmailTaken;
  }

  /**
   * Over every run, with any number of concurrent uses, at most one of all links issued at one revision of a user
   * succeeds, and so no link succeeds twice.
   */
  lemma {:induction false} EachLinkOnce(s: State, ops: seq<Op>)
    requires LinksOnce(s)
    ensures LinksOnce(Run(s, ops))
    decreases ops
  {
    hide Step, LinksOnce;
    if ops != [] {
      StepKeepsLinks(s, ops[0]);
      EachLinkOnce(Step(s, ops[0]), ops[1..]);
    }
  }

  /** A used link stays dead, whatever happens to the password: in particular no rehash revives it. */
  lemma UsedLinkIsDead(s: State, ops: seq<Op>, link: Link, worker: nat)
    requires LinksOnce(s) && link in s.resets
    ensures BeginReset(Run(s, ops), worker, link) == Run(s, ops)
  {
    hide Step, Run;
    RunNeverLowers(s, ops, link.user);
  }

  /** A link used before anything else changes the row succeeds, and ends the old credential. */
  lemma FreshLinkSucceeds(s: State, snap: Snapshot, worker: nat, hash: string)
    requires Read(s, snap.id) == Some(snap) && snap.active && snap.hash.Some? && snap.hash.value != ""
    ensures LinkOf(snap).Some?
    ensures var t := FinishReset(BeginReset(s, worker, LinkOf(snap).value), worker, hash);
            && t.resets == s.resets + [LinkOf(snap).value]
            && Ended(s, t, snap.id) && t.users[snap.id].hash == Some(hash)
  {
    hide ChangeCredential;
    var t := BeginReset(s, worker, LinkOf(snap).value);
    ChangeEnds(t.(checked := t.checked - {worker}), snap.id, s.users[snap.id].(hash := Some(hash)));
  }

  // -- what each step stores

  /** The hash that a step gives the user, when it gives one. */
  function NewHash(s: State, op: Op, id: nat): Option<Option<string>> {
    match op
    case Updated(i, email, hash, _) => if i == id && (email.None? || !EmailTaken(s.users, email.value, id)) then hash else None
    case Rehashed(snap, hash) => if snap.id == id && snap.hash.Some? && Current(s, snap) then Some(Some(hash)) else None
    case PasswordChanged(snap, session, hash) =>
      if snap.id == id && Locked(s, snap, session) then Some(Some(hash)) else None
    case ResetFinished(worker, hash) =>
      if worker in s.checked && s.checked[worker].1.id == id && Current(s, s.checked[worker].1) then Some(Some(hash)) else None
    case _ => None
  }

  /** The address that a step gives the user. */
  function NewEmail(s: State, op: Op, id: nat): Option<string> {
    match op
    case Updated(i, email, _, _) => if i == id && (email.None? || !EmailTaken(s.users, email.value, id)) then email else None
    case EmailConfirmed(i, token) =>
      if i == id && id in s.challenges && s.challenges[id].token == token && id in s.users && s.users[id].active
         && !EmailTaken(s.users, s.challenges[id].email, id)
      then Some(s.challenges[id].email) else None
    case _ => None
  }

  function NewActive(s: State, op: Op, id: nat): Option<bool> {
    match op
    case Updated(i, email, _, active) =>
      if i == id && (email.None? || !EmailTaken(s.users, email.value, id)) then active else None
    case _ => None
  }

  function Given<T>(now: Option<T>, was: T): T {
    if now.Some? then now.value else was
  }

  /** Each column of a user that stays holds what the step gives it, and otherwise what it held. */
  lemma {:induction false} StepStores(s: State, op: Op, id: nat)
    requires id in s.users && id in s.used && op != Deleted(id)
    ensures id in Step(s, op).users
    ensures var was, now := s.users[id], Step(s, op).users[id];
            && now.email == Given(NewEmail(s, op, id), was.email)
            && now.hash == Given(NewHash(s, op, id), was.hash)
            && now.active == Given(NewActive(s, op, id), was.active)
            && now.revision == was.revision
                               + if NewEmail(s, op, id).Some? || (NewHash(s, op, id).Some? && !op.Rehashed?) then 1 else 0
  {
    hide Lower, EmailTaken, MayIssue, Opens, ChangeCredential;
    match op
    case Updated(i, email, hash, active) => UpdateStores(s, i, email, hash, active, id);
    case PasswordChanged(snap, session, hash) =>
      if Current(s, snap) {
        ChangeTells(s, snap.id, s.users[snap.id].(hash := Some(hash)));
      }
    case ResetFinished(worker, hash) => ResetStores(s, worker, hash, id);
    case EmailConfirmed(i, token) =>
      if i in s.users && i in s.challenges {
        ChangeTells(s, i, s.users[i].(email := s.challenges[i].email));
      }
    case _ =>
  }

  lemma UpdateStores(s: State, i: nat, email: Option<string>, hash: Option<Option<string>>, active: Option<bool>, id: nat)
    requires id in s.users
    ensures id in Update(s, i, email, hash, active).users
    ensures var was, now := s.users[id], Update(s, i, email, hash, active).users[id];
            var given := i == id && (email.None? || !EmailTaken(s.users, email.value, id));
            && now.email == (if given then Given(email, was.email) else was.email)
            && now.hash == (if given then Given(hash, was.hash) else was.hash)
            && now.active == (if given then Given(active, was.active) else was.active)
            && now.revision == was.revision + if given && (email.Some? || hash.Some?) then 1 else 0
  {
    hide EmailTaken, ChangeCredential;
    RevokeLeavesNone(s, i);
    if i in s.users {
      var was := s.users[i];
      ChangeTells(s, i, User(if email.Some? then email.value else was.email, if hash.Some? then hash.value else was.hash,
                             if active.Some? then active.value else was.active, was.revision));
    }
  }

  lemma ResetStores(s: State, worker: nat, hash: string, id: nat)
    requires id in s.users
    ensures id in FinishReset(s, worker, hash).users
    ensures var was, now := s.users[id], FinishReset(s, worker, hash).users[id];
            if worker in s.checked && s.checked[worker].1.id == id && Current(s, s.checked[worker].1)
            then now == was.(hash := Some(hash), revision := was.revision + 1) else now == was
  {
    hide ChangeCredential;
    if worker in s.checked && Current(s, s.checked[worker].1) {
      var snap := s.checked[worker].1;
      ChangeTells(s.(checked := s.checked - {worker}), snap.id, s.users[snap.id].(hash := Some(hash)));
    }
  }

  /** A registered user is stored as given, at revision 0, unless the id or the address is taken. */
  lemma RegisterStores(s: State, id: nat, user: User)
    requires id !in s.used && id !in s.users
    ensures var t := Step(s, Registered(id, user));
            if EmailTaken(s.users, user.email, id) then t == s
            else id in t.users && t.users[id].email == user.email && t.users[id].hash == user.hash
                 && t.users[id].active == user.active && t.users[id].revision == 0 && t.users - {id} == s.users - {id}
  {
    hide EmailTaken;
  }

  /** A login stores a session of the user it authenticated, and a request for another address a challenge for it. */
  lemma TokensAreStored(s: State, snap: Snapshot, session: string, token: string, email: string)
    ensures MayIssue(s, snap) && token !in s.sessions ==>
              Step(s, LoggedIn(snap, token)).sessions == s.sessions[token := snap.id]
    ensures !(MayIssue(s, snap) && token !in s.sessions) ==> Step(s, LoggedIn(snap, token)) == s
    ensures Locked(s, snap, session) && !EmailTaken(s.users, email, snap.id) ==>
              Step(s, EmailAsked(snap, session, token, email)).challenges
              == s.challenges[snap.id := Challenge(token, email)]
    ensures !(Locked(s, snap, session) && !EmailTaken(s.users, email, snap.id)) ==>
              Step(s, EmailAsked(snap, session, token, email)) == s
  {
    hide MayIssue, Locked, EmailTaken;
  }

  /** The step makes the user's credential another one. */
  predicate Changes(s: State, op: Op, id: nat) {
    NewEmail(s, op, id).Some? || (NewHash(s, op, id).Some? && !op.Rehashed?)
  }

  lemma ChangeSessions(s: State, id: nat, user: User, t: string)
    requires id in s.users && t in s.sessions
    ensures var after := ChangeCredential(s, id, user);
            && (t in after.sessions <==> s.sessions[t] != id)
            && (t in after.sessions ==> after.sessions[t] == s.sessions[t])
            && after.challenges == s.challenges - {id}
  {
  }

  lemma ChangeChallenges(s: State, id: nat, user: User)
    requires id in s.users
    ensures ChangeCredential(s, id, user).challenges == s.challenges - {id}
  {
    hide Revoke;
    RevokeLeavesNone(s.(users := s.users[id := user.(revision := s.users[id].revision + 1)]), id);
  }

  /** The operations that may make a credential another one. */
  predicate MayChange(op: Op) {
    op.Updated? || op.PasswordChanged? || op.ResetFinished? || op.EmailConfirmed?
  }

  lemma ChangesEnd(s: State, op: Op, t: string)
    requires SessionsCurrent(s) && t in s.sessions && MayChange(op)
    ensures t !in Step(s, op).sessions <==> Changes(s, op, s.sessions[t])
    ensures t in Step(s, op).sessions ==> Step(s, op).sessions[t] == s.sessions[t]
  {
    LockedIsCurrent(s, op);
    hide Lower, EmailTaken, ChangeCredential, Locked;
    match op
    case Updated(i, email, hash, active) => UpdateEnds(s, i, email, hash, active, t);
    case PasswordChanged(snap, session, hash) =>
      if Current(s, snap) {
        ChangeSessions(s, snap.id, s.users[snap.id].(hash := Some(hash)), t);
      }
    case ResetFinished(worker, hash) =>
      if worker in s.checked && Current(s, s.checked[worker].1) {
        var snap := s.checked[worker].1;
        ChangeSessions(s.(checked := s.checked - {worker}), snap.id, s.users[snap.id].(hash := Some(hash)), t);
      }
    case EmailConfirmed(i, token) =>
      if i in s.users && i in s.challenges {
        ChangeSessions(s, i, s.users[i].(email := s.challenges[i].email), t);
      }
  }

  lemma {:induction false} OthersEnd(s: State, op: Op, t: string)
    requires SessionsCurrent(s) && t in s.sessions && !MayChange(op)
    ensures var owner := s.sessions[t];
            t !in Step(s, op).sessions
            <==> op == LoggedOut(t, owner) || op == LoggedOutEverywhere(owner) || op == Deleted(owner)
    ensures t in Step(s, op).sessions ==> Step(s, op).sessions[t] == s.sessions[t]
    ensures !Changes(s, op, s.sessions[t])
  {
    hide Lower, EmailTaken, MayIssue, Opens, Locked, Current;
  }

  /** A session ends exactly when its user logs it out, logs out everywhere, is deleted, or gets another credential. */
  lemma SessionEndsIff(s: State, op: Op, t: string)
    requires SessionsCurrent(s) && t in s.sessions
    ensures var owner := s.sessions[t];
            t !in Step(s, op).sessions
            <==> op == LoggedOut(t, owner) || op == LoggedOutEverywhere(owner) || op == Deleted(owner) || Changes(s, op, owner)
    ensures t in Step(s, op).sessions ==> Step(s, op).sessions[t] == s.sessions[t]
  {
    hide Step, SessionsCurrent, Changes;
    if MayChange(op) {
      ChangesEnd(s, op, t);
    } else {
      OthersEnd(s, op, t);
    }
  }

  lemma LockedIsCurrent(s: State, op: Op)
    ensures op.PasswordChanged? && Locked(s, op.snap, op.session) ==> Current(s, op.snap)
  {
  }

  lemma UpdateEnds(s: State, i: nat, email: Option<string>, hash: Option<Option<string>>, active: Option<bool>, t: string)
    requires SessionsCurrent(s) && t in s.sessions
    ensures var owner := s.sessions[t];
            var ends := i == owner && (email.None? || !EmailTaken(s.users, email.value, owner)) && (email.Some? || hash.Some?);
            && (t !in Update(s, i, email, hash, active).sessions <==> ends)
            && (!ends ==> Update(s, i, email, hash, active).sessions[t] == owner)
  {
    hide EmailTaken, Lower, ChangeCredential;
    if i in s.users {
      var was := s.users[i];
      ChangeSessions(s, i, User(if email.Some? then email.value else was.email, if hash.Some? then hash.value else was.hash,
                                if active.Some? then active.value else was.active, was.revision), t);
    }
  }

  /** Nothing comes of a user who is not active: no login, rehash, change or reset of the password, and no change of the
      address. */
  lemma InactiveIsRefused(s: State, op: Op, id: nat)
    requires id in s.users && !s.users[id].active
    requires match op
             case LoggedIn(snap, _) => snap.id == id
             case Rehashed(snap, _) => snap.id == id
             case PasswordChanged(snap, _, _) => snap.id == id
             case EmailAsked(snap, _, _, _) => snap.id == id
             case EmailConfirmed(i, _) => i == id
             case ResetBegun(_, link) => link.user == id
             case ResetFinished(worker, _) => worker in s.checked && s.checked[worker].1.id == id
             case _ => false
    ensures Step(s, op) == s || (op.ResetFinished? && Step(s, op) == s.(checked := s.checked - {op.worker}))
    ensures LinkOf(Snapshot(id, s.users[id].email, s.users[id].hash, s.users[id].active, s.users[id].revision)).None?
  {
    hide Lower, EmailTaken;
  }

  /** A login succeeds exactly for the stored credential, up to the case of the address, under a token that is free. */
  lemma LoginIff(s: State, snap: Snapshot, token: string)
    ensures token in Step(s, LoggedIn(snap, token)).sessions && token !in s.sessions
            <==> token !in s.sessions && snap.id in s.users
                 && (var user := s.users[snap.id];
                     user.active && user.hash == snap.hash && user.revision == snap.revision
                     && Lower(user.email) == Lower(snap.email))
  {
    hide Lower;
  }

  /** A change of the password or a request for another address takes the stored credential and a session of that user. */
  lemma ActingIff(s: State, snap: Snapshot, session: string, hash: string, token: string, email: string)
    ensures var acts := session in s.sessions && s.sessions[session] == snap.id && snap.id in s.users
                        && (var user := s.users[snap.id];
                            user.active && user.email == snap.email && user.hash == snap.hash
                            && user.revision == snap.revision);
            && (!acts ==> Step(s, PasswordChanged(snap, session, hash)) == s
                          && Step(s, EmailAsked(snap, session, token, email)) == s)
            && (acts ==> snap.id in Step(s, PasswordChanged(snap, session, hash)).users
                         && Step(s, PasswordChanged(snap, session, hash)).users[snap.id].revision == snap.revision + 1)
  {
    hide EmailTaken, ChangeCredential;
    if snap.id in s.users {
      ChangeTells(s, snap.id, s.users[snap.id].(hash := Some(hash)));
    }
  }

  lemma ChangesVoid(s: State, op: Op, id: nat)
    requires id in s.users && id in s.challenges && MayChange(op)
    ensures id in Step(s, op).challenges <==> !Changes(s, op, id)
    ensures id in Step(s, op).challenges ==> Step(s, op).challenges[id] == s.challenges[id]
  {
    LockedIsCurrent(s, op);
    hide Lower, EmailTaken, ChangeCredential, Revoke, Locked;
    match op
    case Updated(i, email, hash, active) =>
      RevokeLeavesNone(s, i);
      if i in s.users {
        var was := s.users[i];
        ChangeChallenges(s, i, User(if email.Some? then email.value else was.email,
                                    if hash.Some? then hash.value else was.hash,
                                    if active.Some? then active.value else was.active, was.revision));
      }
    case PasswordChanged(snap, session, hash) =>
      if Current(s, snap) {
        ChangeChallenges(s, snap.id, s.users[snap.id].(hash := Some(hash)));
      }
    case ResetFinished(worker, hash) =>
      if worker in s.checked && Current(s, s.checked[worker].1) {
        var snap := s.checked[worker].1;
        ChangeChallenges(s.(checked := s.checked - {worker}), snap.id, s.users[snap.id].(hash := Some(hash)));
      }
    case EmailConfirmed(i, token) =>
      if i in s.users && i in s.challenges {
        ChangeChallenges(s, i, s.users[i].(email := s.challenges[i].email));
      }
  }

  lemma {:induction false} OthersVoid(s: State, op: Op, id: nat)
    requires id in s.users && id in s.challenges && !MayChange(op)
    ensures id in Step(s, op).challenges <==> op != Deleted(id)
    ensures id in Step(s, op).challenges ==>
              Step(s, op).challenges[id]
              == if op.EmailAsked? && op.snap.id == id && Locked(s, op.snap, op.session) && !EmailTaken(s.users, op.newEmail, id)
                 then Challenge(op.token, op.newEmail) else s.challenges[id]
    ensures !Changes(s, op, id)
  {
    hide Lower, EmailTaken, MayIssue, Opens, Revoke, Locked, Current;
    if op.LoggedOutEverywhere? {
      RevokeLeavesNone(s, op.id);
    } else if op.Deleted? {
      RevokeLeavesNone(s.(users := s.users - {op.id}), op.id);
    }
  }

  /** A challenge stays exactly until its user gets another credential or is deleted, or another one takes its place. */
  lemma ChallengeStaysIff(s: State, op: Op, id: nat)
    requires id in s.users && id in s.challenges
    ensures id in Step(s, op).challenges <==> op != Deleted(id) && !Changes(s, op, id)
    ensures id in Step(s, op).challenges ==>
              Step(s, op).challenges[id]
              == if op.EmailAsked? && op.snap.id == id && Locked(s, op.snap, op.session) && !EmailTaken(s.users, op.newEmail, id)
                 then Challenge(op.token, op.newEmail) else s.challenges[id]
  {
    hide Step, Changes, Locked, EmailTaken;
    if MayChange(op) {
      ChangesVoid(s, op, id);
    } else {
      OthersVoid(s, op, id);
    }
  }

  // -- one user for each address

  /** No two users have the same address in whatever case. */
  ghost predicate AddressesDiffer(users: map<nat, User>) {
    forall i, j :: i in users && j in users && i != j ==> Lower(users[i].email) != Lower(users[j].email)
  }

  lemma FreeAddress(users: map<nat, User>, id: nat, user: User)
    requires AddressesDiffer(users) && (!EmailTaken(users, user.email, id) || (id in users && users[id].email == user.email))
    ensures AddressesDiffer(users[id := user])
  {
    hide Lower;
  }

  lemma {:induction false} StepKeepsAddresses(s: State, op: Op)
    requires AddressesDiffer(s.users)
    ensures AddressesDiffer(Step(s, op).users)
  {
    hide Lower, EmailTaken, MayIssue, Opens, ChangeCredential, Revoke, AddressesDiffer;
    match op
    case Registered(id, user) =>
      if !EmailTaken(s.users, user.email, id) {
        FreeAddress(s.users, id, user.(revision := 0));
      }
    case Updated(i, email, hash, active) =>
      RevokeLeavesNone(s, i);
      if i in s.users {
        var was := s.users[i];
        var now := User(if email.Some? then email.value else was.email, if hash.Some? then hash.value else was.hash,
                        if active.Some? then active.value else was.active, was.revision);
        ChangeTells(s, i, now);
        if email.None? || !EmailTaken(s.users, email.value, i) {
          FreeAddress(s.users, i, now);
          FreeAddress(s.users, i, now.(revision := was.revision + 1));
        }
      }
    case Rehashed(snap, hash) =>
      if Current(s, snap) {
        FreeAddress(s.users, snap.id, s.users[snap.id].(hash := Some(hash)));
      }
    case PasswordChanged(snap, session, hash) => ReplaceKeepsAddresses(s, snap, hash);
    case ResetFinished(worker, hash) =>
      if worker in s.checked {
        ReplaceKeepsAddresses(s.(checked := s.checked - {worker}), s.checked[worker].1, hash);
      }
    case EmailConfirmed(i, token) =>
      if i in s.users && i in s.challenges && !EmailTaken(s.users, s.challenges[i].email, i) {
        var now := s.users[i].(email := s.challenges[i].email);
        ChangeTells(s, i, now);
        FreeAddress(s.users, i, now.(revision := s.users[i].revision + 1));
      }
    case LoggedOutEverywhere(i) => RevokeLeavesNone(s, i);
    case Deleted(i) =>
      RevokeLeavesNone(s.(users := s.users - {i}), i);
      FewerAddresses(s.users, i);
    case _ =>
  }

  lemma ReplaceKeepsAddresses(s: State, snap: Snapshot, hash: string)
    requires AddressesDiffer(s.users)
    ensures AddressesDiffer(Replace(s, snap, hash).users)
  {
    hide Lower, EmailTaken, ChangeCredential, AddressesDiffer;
    if Current(s, snap) {
      var now := s.users[snap.id].(hash := Some(hash));
      ChangeTells(s, snap.id, now);
      FreeAddress(s.users, snap.id, now.(revision := s.users[snap.id].revision + 1));
    }
  }

  lemma FewerAddresses(users: map<nat, User>, id: nat)
    requires AddressesDiffer(users)
    ensures AddressesDiffer(users - {id})
  {
    hide Lower;
  }

  /** Over every run no two users come to have the same address in whatever case. */
  lemma {:induction false} RunKeepsAddresses(s: State, ops: seq<Op>)
    requires AddressesDiffer(s.users)
    ensures AddressesDiffer(Run(s, ops).users)
    decreases ops
  {
    hide Step, AddressesDiffer;
    if ops != [] {
      StepKeepsAddresses(s, ops[0]);
      RunKeepsAddresses(Step(s, ops[0]), ops[1..]);
    }
  }

  // -- runs from the empty tables

  /**
   * In every state that can be reached, every stored session belongs to a user and was issued at the user's present
   * revision, no two resets that succeeded were of one revision of one user, and no two users have one address.
   */
  lemma EveryRunIsSound(ops: seq<Op>)
    ensures SessionsCurrent(Run(START, ops)) && LinksOnce(Run(START, ops)) && AddressesDiffer(Run(START, ops).users)
    ensures var s := Run(START, ops);
            && (forall t :: t in s.sessions ==>
                  s.sessions[t] in s.users && t in s.issued && s.issued[t] == s.users[s.sessions[t]].revision)
            && (forall i, j :: 0 <= i < j < |s.resets| ==> !SameRevision(s.resets[i], s.resets[j]))
  {
    hide Run, SameRevision;
    RunKeepsCurrent(START, ops);
    EachLinkOnce(START, ops);
    RunKeepsAddresses(START, ops);
  }
}
