/** The handlers by which administrators review, promote, deactivate and delete users. */
module Admin {
  import opened Text

  datatype Approval = Pending | Approved | Rejected

  datatype User = User(admin: bool, active: bool, approval: Approval, locked: bool, failures: nat)

  datatype Action = Approve | Reject | ToggleAdmin | ToggleActive | Delete

  datatype Audit = Audit(author: string, action: Action, target: string)

  /** The users by id, the user of every session cookie, and the audit log of the last three actions. */
  datatype State = State(users: map<string, User>, sessions: map<string, string>, audit: seq<Audit>)

  /** An administrator the middleware lets through. */
  predicate Usable(u: User) { u.admin && u.active && u.approval.Approved? }

  /** Who acts: the session's user, if the database holds them as a usable administrator right now. */
  function AdminOf(s: State, cookie: string): Option<string> {
    if cookie in s.sessions && s.sessions[cookie] in s.users && Usable(s.users[s.sessions[cookie]])
    then Some(s.sessions[cookie]) else None
  }

  datatype Reply = Done | Forbidden | OwnAccount | NotFound

  predicate Review(a: Action) { a.Approve? || a.Reject? }

  function Changed(u: User, a: Action): User {
    match a
    case Approve => u.(approval := Approved)
    case Reject => u.(approval := Rejected)
    case ToggleAdmin => u.(admin := !u.admin)
    case ToggleActive => u.(active := !u.active, locked := false, failures := 0)
    case Delete => u
  }

  function WithoutSessions(sessions: map<string, string>, user: string): map<string, string> {
    map c | c in sessions && sessions[c] != user :: sessions[c]
  }

  /** reached tells whether the session store could be reached; the handlers swallow it when it could not. */
  function Handle(s: State, cookie: string, a: Action, target: string, reached: bool): (State, Reply) {
    match AdminOf(s, cookie)
    case None => (s, Forbidden)
    case Some(me) =>
      if !Review(a) && me == target then (s, OwnAccount)
      else if target !in s.users then (s, NotFound)
      else
        var users := if a.Delete? then s.users - {target} else s.users[target := Changed(s.users[target], a)];
        if Review(a) then (s.(users := users), Done)
        else (State(users, if reached then WithoutSessions(s.sessions, target) else s.sessions, s.audit + [Audit(me, a, target)]), Done)
  }

  class Board {
    var users: map<string, User>
    var sessions: map<string, string>
    var audit: seq<Audit>

    function Held(): State
      reads this
    {
      State(users, sessions, audit)
    }

    /** _require_admin behind the middleware. */
    method RequireAdmin(cookie: string) returns (me: Option<string>)
      ensures me == AdminOf(Held(), cookie)
    {
      me := None;
      if cookie in sessions {
        var id := sessions[cookie];
        if id in users && users[id].active && users[id].approval.Approved? && users[id].admin {
          me := Some(id);
        }
      }
    }

    method InvalidateSessions(user: string, reached: bool)
      modifies this`sessions
      ensures sessions == if reached then WithoutSessions(old(sessions), user) else old(sessions)
    {
      if reached {
        sessions := map c | c in sessions && sessions[c] != user :: sessions[c];
      }
    }

    method ReviewUser(cookie: string, target: string, approve: bool) returns (r: Reply)
      modifies this`users
      ensures (Held(), r) == Handle(old(Held()), cookie, if approve then Approve else Reject, target, true)
    {
      var me := RequireAdmin(cookie);
      if me.None? {
        return Forbidden;
      }
      if target !in users {
        return NotFound;
      }
      users := users[target := users[target].(approval := if approve then Approved else Rejected)];
      return Done;
    }

    method ToggleAdminOf(cookie: string, target: string, reached: bool) returns (r: Reply)
      modifies this
      ensures (Held(), r) == Handle(old(Held()), cookie, ToggleAdmin, target, reached)
    {
      var me := RequireAdmin(cookie);
      if me.None? {
        return Forbidden;
      }
      if me.value == target {
        return OwnAccount;
      }
      if target !in users {
        return NotFound;
      }
      users := users[target := users[target].(admin := !users[target].admin)];
      audit := audit + [Audit(me.value, ToggleAdmin, target)];
      InvalidateSessions(target, reached);
      return Done;
    }

    method ToggleActiveOf(cookie: string, target: string, reached: bool) returns (r: Reply)
      modifies this
      ensures (Held(), r) == Handle(old(Held()), cookie, ToggleActive, target, reached)
    {
      var me := RequireAdmin(cookie);
      if me.None? {
        return Forbidden;
      }
      if me.value == target {
        return OwnAccount;
      }
      if target !in users {
        return NotFound;
      }
      users := users[target := users[target].(active := !users[target].active, locked := false, failures := 0)];
      audit := audit + [Audit(me.value, ToggleActive, target)];
      InvalidateSessions(target, reached);
      return Done;
    }

    method DeleteUser(cookie: string, target: string, reached: bool) returns (r: Reply)
      modifies this
      ensures (Held(), r) == Handle(old(Held()), cookie, Delete, target, reached)
    {
      var me := RequireAdmin(cookie);
      if me.None? {
        return Forbidden;
      }
      if me.value == target {
        return OwnAccount;
      }
      if target !in users {
        return NotFound;
      }
      audit := audit + [Audit(me.value, Delete, target)];
      users := users - {target};
      InvalidateSessions(target, reached);
      return Done;
    }
  }

  /** Toggling twice gives the user back, but for the lock and the failed logins that toggling the account clears. */
  lemma TogglesUndo(s: State, cookie: string, a: Action, target: string, reached: bool)
    requires a.ToggleAdmin? || a.ToggleActive?
    requires Handle(s, cookie, a, target, reached).1.Done?
    ensures var (t, r) := Handle(Handle(s, cookie, a, target, reached).0, cookie, a, target, reached);
            && r.Done? && t.users.Keys == s.users.Keys && t.audit == s.audit + [Audit(s.sessions[cookie], a, target)] + [Audit(s.sessions[cookie], a, target)]
            && forall id | id in s.users :: t.users[id] ==
                 if id == target && a.ToggleActive? then s.users[id].(locked := false, failures := 0) else s.users[id]
  {
    var u := Handle(s, cookie, a, target, reached).0;
    var me := s.sessions[cookie];
    assert me != target && u.users[me] == s.users[me] && cookie in u.sessions && u.sessions[cookie] == me;
  }

  // ---- runs ------------------------------------------------------------------------------------------------------

  datatype Event =
    | SignUp(id: string)                     // the first user is an approved administrator, later ones wait
    | LogIn(cookie: string, id: string)
    | LogOut(cookie: string)
    | Act(cookie: string, action: Action, target: string, reached: bool)

  predicate Enabled(s: State, e: Event) {
    match e
    case SignUp(id) => id !in s.users
    case LogIn(cookie, id) => cookie !in s.sessions && id in s.users && s.users[id].approval.Approved?
    case _ => true
  }

  function Next(s: State, e: Event): State
    requires Enabled(s, e)
  {
    match e
    case SignUp(id) =>
      var first := s.users == map[];
      s.(users := s.users[id := User(first, true, if first then Approved else Pending, false, 0)])
    case LogIn(cookie, id) => s.(sessions := s.sessions[cookie := id])
    case LogOut(cookie) => s.(sessions := s.sessions - {cookie})
    case Act(cookie, a, target, reached) => Handle(s, cookie, a, target, reached).0
  }

  const EMPTY := State(map[], map[], [])

  ghost predicate IsRun(states: seq<State>, events: seq<Event>) {
    && |states| == |events| + 1 && states[0] == EMPTY
    && forall i | 0 <= i < |events| :: Enabled(states[i], events[i]) && states[i + 1] == Next(states[i], events[i])
  }

  ghost predicate HasAdmin(s: State) { exists id :: id in s.users && s.users[id].admin }

  ghost predicate HasUsable(s: State) { exists id :: id in s.users && Usable(s.users[id]) }

  lemma ActorStays(s: State, cookie: string, a: Action, target: string, reached: bool)
    requires Handle(s, cookie, a, target, reached).1.Done?
    ensures var me, t := s.sessions[cookie], Handle(s, cookie, a, target, reached).0;
            && AdminOf(s, cookie) == Some(me) && me in t.users && t.users[me].admin
            && (Usable(t.users[me]) <==> !(a.Reject? && me == target))
  {
  }

  lemma SignUpKeeps(s: State, id: string)
    requires id !in s.users
    ensures HasUsable(Next(s, SignUp(id))) <==> s.users == map[] || HasUsable(s)
    ensures HasAdmin(Next(s, SignUp(id))) <==> s.users == map[] || HasAdmin(s)
  {
    var t := Next(s, SignUp(id));
    assert id in t.users;
    forall k | k in s.users ensures k in t.users && t.users[k] == s.users[k] {}
    if HasUsable(t) && s.users != map[] {
      var k :| k in t.users && Usable(t.users[k]);
      assert k in s.users;
    }
    if HasAdmin(t) && s.users != map[] {
      var k :| k in t.users && t.users[k].admin;
      assert k in s.users;
    }
  }

  /** An action takes effect only when the session's user is, at that moment, a usable administrator. */
  lemma OnlyAdminsAct(s: State, cookie: string, a: Action, target: string, reached: bool)
    ensures var (t, r) := Handle(s, cookie, a, target, reached);
            && (r.Done? ==> cookie in s.sessions && s.sessions[cookie] in s.users && Usable(s.users[s.sessions[cookie]]))
            && (!r.Done? ==> t == s)
            && (r.Done? && reached && !Review(a) ==> target !in t.sessions.Values)
            && forall id | id != target :: (id in t.users <==> id in s.users) && (id in s.users ==> t.users[id] == s.users[id])
  {
    assert target !in WithoutSessions(s.sessions, target).Values;
  }

  /** Who is answered what: the order of the checks, told from the state. */
  lemma Replies(s: State, cookie: string, a: Action, target: string, reached: bool)
    ensures var r := Handle(s, cookie, a, target, reached).1;
            var acting := cookie in s.sessions && s.sessions[cookie] in s.users && Usable(s.users[s.sessions[cookie]]);
            && (r == Forbidden <==> !acting)
            && (r == OwnAccount <==> acting && s.sessions[cookie] == target && a !in {Approve, Reject})
            && (r == NotFound <==> acting && target !in s.users)
  {
  }

  /** What an action that takes effect makes of the account, field by field, and of the audit log. */
  lemma ActionEffect(s: State, cookie: string, a: Action, target: string, reached: bool)
    requires Handle(s, cookie, a, target, reached).1.Done?
    ensures var t := Handle(s, cookie, a, target, reached).0;
            && target in s.users && (a == Delete <==> target !in t.users)
            && (a != Delete ==>
                  var u, v := s.users[target], t.users[target];
                  && (v.approval == if a == Approve then Approved else if a == Reject then Rejected else u.approval)
                  && (v.admin != u.admin <==> a == ToggleAdmin)
                  && (v.active != u.active <==> a == ToggleActive)
                  && (v.locked == (a != ToggleActive && u.locked))
                  && (v.failures == if a == ToggleActive then 0 else u.failures))
            && t.audit == s.audit + (if a in {Approve, Reject} then [] else [Audit(s.sessions[cookie], a, target)])
            && (a in {Approve, Reject} || !reached ==> t.sessions == s.sessions)
            && (a !in {Approve, Reject} && reached ==>
                  forall c :: (c in t.sessions <==> c in s.sessions && s.sessions[c] != target)
                              && (c in t.sessions ==> t.sessions[c] == s.sessions[c]))
  {
  }

  /** An approved account can log in, a rejected one cannot, and an approved, active administrator can act. */
  lemma ApprovalOpens(s: State, cookie: string, a: Action, target: string, reached: bool, fresh_: string)
    requires Handle(s, cookie, a, target, reached).1.Done? && fresh_ !in s.sessions && (a == Approve || a == Reject)
    ensures var t := Handle(s, cookie, a, target, reached).0;
            && (Enabled(t, LogIn(fresh_, target)) <==> a == Approve)
            && (a == Approve ==>
                  (AdminOf(Next(t, LogIn(fresh_, target)), fresh_) == Some(target) <==> s.users[target].admin && s.users[target].active))
  {
    ActionEffect(s, cookie, a, target, reached);
  }

  /** Whoever was deleted, rejected, demoted or deactivated cannot act any more, with whatever cookie is left over. */
  lemma NoLongerActs(s: State, cookie: string, a: Action, target: string, reached: bool)
    requires Handle(s, cookie, a, target, reached).1.Done?
    requires a == Delete || a == Reject || (a == ToggleAdmin && s.users[target].admin) || (a == ToggleActive && s.users[target].active)
    ensures forall c :: AdminOf(Handle(s, cookie, a, target, reached).0, c) != Some(target)
  {
    ActionEffect(s, cookie, a, target, reached);
  }

  /** No step takes the last administrator away, whether or not sessions could be invalidated. */
  lemma StepKeepsAdmin(s: State, e: Event)
    requires Enabled(s, e) && (s.users == map[] || HasAdmin(s))
    ensures Next(s, e).users == map[] || HasAdmin(Next(s, e))
  {
    match e
    case SignUp(id) => SignUpKeeps(s, id);
    case Act(cookie, a, target, reached) =>
      hide Handle;
      OnlyAdminsAct(s, cookie, a, target, reached);
      if Handle(s, cookie, a, target, reached).1.Done? { ActorStays(s, cookie, a, target, reached); }
    case _ =>
  }

  /** As soon as there are users there is an administrator among them, in every reachable state. */
  lemma {:induction false} AlwaysAdmin(states: seq<State>, events: seq<Event>, k: nat)
    requires IsRun(states, events) && k <= |events|
    ensures states[k].users == map[] || HasAdmin(states[k])
  {
    hide Next, Enabled, HasAdmin;
    if k > 0 {
      AlwaysAdmin(states, events, k - 1);
      StepKeepsAdmin(states[k - 1], events[k - 1]);
    }
  }

  /** Administrators may reject any account, their own included. */
  ghost predicate RejectsLast(s: State, e: Event) {
    && e.Act? && e.action.Reject? && AdminOf(s, e.cookie) == Some(e.target)
    && forall id | id in s.users && Usable(s.users[id]) :: id == e.target
  }

  /** A step leaves no usable administrator exactly when the only one rejects their own account. */
  lemma LastUsableLost(s: State, e: Event)
    requires Enabled(s, e) && HasUsable(s)
    ensures !HasUsable(Next(s, e)) <==> RejectsLast(s, e)
  {
    match e
    case SignUp(id) => SignUpKeeps(s, id);
    case Act(cookie, a, target, reached) =>
      hide Handle, Usable;
      OnlyAdminsAct(s, cookie, a, target, reached);
      var (t, r) := Handle(s, cookie, a, target, reached);
      if r.Done? {
        ActorStays(s, cookie, a, target, reached);
        if a.Reject? && s.sessions[cookie] == target { RejectedSelf(s, cookie, target, reached); }
      } else if RejectsLast(s, e) {
        SelfRejectDone(s, cookie, target, reached);
      }
    case _ =>
  }

  lemma SelfRejectDone(s: State, cookie: string, me: string, reached: bool)
    requires AdminOf(s, cookie) == Some(me)
    ensures Handle(s, cookie, Reject, me, reached).1.Done?
  {
  }

  lemma RejectedSelf(s: State, cookie: string, me: string, reached: bool)
    requires AdminOf(s, cookie) == Some(me)
    ensures HasUsable(Handle(s, cookie, Reject, me, reached).0) <==> exists id :: id in s.users && id != me && Usable(s.users[id])
  {
    var t := Handle(s, cookie, Reject, me, reached).0;
    assert forall id | id in s.users && id != me :: t.users[id] == s.users[id];
    if id :| id in s.users && id != me && Usable(s.users[id]) { assert Usable(t.users[id]); }
  }

  lemma LockedOutStep(s: State, e: Event)
    requires Enabled(s, e) && s.users != map[] && !HasUsable(s)
    ensures Next(s, e).users != map[] && !HasUsable(Next(s, e))
    ensures e.Act? ==> Next(s, e) == s
  {
    match e
    case SignUp(id) => SignUpKeeps(s, id); assert id in Next(s, e).users;
    case Act(cookie, a, target, reached) => assert AdminOf(s, cookie).None?;
    case _ =>
  }

  /** Once there are users but no usable administrator, that is so in every later state of the run. */
  lemma {:induction false} LockedOut(states: seq<State>, events: seq<Event>, k: nat, n: nat)
    requires IsRun(states, events) && k <= n <= |events|
    requires states[k].users != map[] && !HasUsable(states[k])
    ensures states[n].users != map[] && !HasUsable(states[n])
    decreases n
  {
    hide Next, Enabled, HasUsable;
    if k < n {
      LockedOut(states, events, k, n - 1);
      LockedOutStep(states[n - 1], events[n - 1]);
    }
  }

  /** On a new server: somebody signs up, logs in and rejects their own account. */
  const SELF_REJECTION: seq<Event> := [SignUp("ann"), LogIn("cookie", "ann"), Act("cookie", Reject, "ann", true)]

  /** The states of that run: after logging in there is a usable administrator, after the rejection none. */
  lemma SelfRejected() returns (s1: State, s2: State, s3: State)
    ensures Enabled(EMPTY, SELF_REJECTION[0]) && s1 == Next(EMPTY, SELF_REJECTION[0])
    ensures Enabled(s1, SELF_REJECTION[1]) && s2 == Next(s1, SELF_REJECTION[1]) && HasUsable(s2)
    ensures Enabled(s2, SELF_REJECTION[2]) && s3 == Next(s2, SELF_REJECTION[2]) && s3.users != map[] && !HasUsable(s3)
  {
    s1 := Next(EMPTY, SignUp("ann"));
    s2 := Next(s1, LogIn("cookie", "ann"));
    s3 := Next(s2, Act("cookie", Reject, "ann", true));
    assert s1.users == map["ann" := User(true, true, Approved, false, 0)];
    assert "ann" in s2.users && Usable(s2.users["ann"]);
    LastUsableLost(s2, Act("cookie", Reject, "ann", true));
    assert "ann" in s3.users;
  }

  /** It is a run from the empty server. */
  lemma SelfRejectionRuns() returns (states: seq<State>)
    ensures IsRun(states, SELF_REJECTION)
  {
    hide Next, Enabled, HasUsable;
    var s1, s2, s3 := SelfRejected();
    states := [EMPTY, s1, s2, s3];
  }

  /** And whatever follows it, nobody can administer the server again. */
  lemma SelfRejection(states: seq<State>, events: seq<Event>, n: nat)
    requires IsRun(states, events) && SELF_REJECTION <= events && 3 <= n <= |events|
    ensures HasUsable(states[2]) && states[n].users != map[] && !HasUsable(states[n])
  {
    hide HasUsable, Next, Enabled;
    assert forall i | 0 <= i < 3 :: events[i] == SELF_REJECTION[i];
    var _, _, _ := SelfRejected();
    LockedOut(states, events, 3, n);
  }
}
