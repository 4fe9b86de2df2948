/** Role replacement and admin deactivation never remove the last active administrator. */
module LastAdmin {
  import opened Prelude

  type Id = nat

  const ADMIN: string := "admin"

  datatype Account = Account(active: bool, roles: set<string>)

  type Users = map<Id, Account>

  function ActiveAdmins(users: Users): set<Id> {
    set u | u in users && users[u].active && ADMIN in users[u].roles
  }

  lemma Member(s: set<Id>) returns (a: Id)
    requires s != {}
    ensures a in s
  {
    a :| a in s;
  }

  lemma NobodyElse(s: set<Id>, x: Id)
    ensures s - {x} == {} <==> forall v :: v in s ==> v == x
  {
    assert forall v :: v in s - {x} <==> v in s && v != x;
  }

  // ------------------------------------------------------------------ requests one at a time

  /** `catalogue` maps each role to its permission scopes. */
  datatype Request =
    | Replace(actor: Id, actorScopes: set<string>, target: Id, names: seq<string>)
    | Deactivate(actor: Id, target: Id)

  datatype Outcome =
    | Done | SelfTarget | InvalidRoles | UnknownRole | Escalation | WouldRemoveLastAdmin | NotFound | AlreadyDeactivated

  function Names(names: seq<string>): set<string> {
    set n | n in names
  }

  function Granted(catalogue: map<string, set<string>>, names: set<string>): set<string> {
    set n, p | n in names && n in catalogue && p in catalogue[n] :: p
  }

  predicate Distinct(names: seq<string>) {
    forall i, j :: 0 <= i < j < |names| ==> names[i] != names[j]
  }

  predicate OnlyOtherAdminless(users: Users, target: Id) {
    ActiveAdmins(users) - {target} == {}
  }

  function Decide(users: Users, catalogue: map<string, set<string>>, req: Request): Outcome {
    match req
    case Replace(actor, scopes, target, names) =>
      if target == actor then SelfTarget
      else if names == [] || !Distinct(names) then InvalidRoles
      else if !(Names(names) <= catalogue.Keys) then UnknownRole
      else if !(Granted(catalogue, Names(names)) <= scopes) then Escalation
      else if target !in users then NotFound
      else if ADMIN in users[target].roles && ADMIN !in names && OnlyOtherAdminless(users, target)
      then WouldRemoveLastAdmin
      else Done
    case Deactivate(actor, target) =>
      if target == actor then SelfTarget
      else if target !in users then NotFound
      else if ADMIN in users[target].roles && OnlyOtherAdminless(users, target) then WouldRemoveLastAdmin
      else if !users[target].active then AlreadyDeactivated
      else Done
  }

  function Apply(users: Users, catalogue: map<string, set<string>>, req: Request): Users {
    if Decide(users, catalogue, req) != Done then users
    else match req
      case Replace(_, _, target, names) => users[target := Account(users[target].active, Names(names))]
      case Deactivate(_, target) => users[target := Account(false, users[target].roles)]
  }

  /** The target is an administrator and every active administrator is the target. */
  ghost predicate SoleAdmin(users: Users, target: Id) {
    && target in users && "admin" in users[target].roles
    && forall v :: v in users && users[v].active && "admin" in users[v].roles ==> v == target
  }

  /** When a role replacement ends how: the first rule it breaks decides, in the order self-target, list, known names,
      no more scopes than the actor has, existing target, last administrator. */
  ghost predicate ReplaceRules(users: Users, catalogue: map<string, set<string>>, actor: Id, actorScopes: set<string>,
                               target: Id, names: seq<string>, outcome: Outcome) {
    var self := target == actor;
    var listed := names != [] && forall i, j :: 0 <= i < j < |names| ==> names[i] != names[j];
    var known := forall n :: n in names ==> n in catalogue;
    var covered := forall n, p :: n in names && n in catalogue && p in catalogue[n] ==> p in actorScopes;
    var last := "admin" !in names && SoleAdmin(users, target);
    && (outcome == SelfTarget <==> self)
    && (outcome == InvalidRoles <==> !self && !listed)
    && (outcome == UnknownRole <==> !self && listed && !known)
    && (outcome == Escalation <==> !self && listed && known && !covered)
    && (outcome == NotFound <==> !self && listed && known && covered && target !in users)
    && (outcome == WouldRemoveLastAdmin <==> !self && listed && known && covered && last)
    && (outcome == Done <==> !self && listed && known && covered && target in users && !last)
  }

  ghost predicate DeactivateRules(users: Users, actor: Id, target: Id, outcome: Outcome) {
    && (outcome == SelfTarget <==> target == actor)
    && (outcome == NotFound <==> target != actor && target !in users)
    && (outcome == WouldRemoveLastAdmin <==> target != actor && SoleAdmin(users, target))
    && (outcome == AlreadyDeactivated <==>
          target != actor && target in users && !SoleAdmin(users, target) && !users[target].active)
    && (outcome == Done <==> target != actor && target in users && !SoleAdmin(users, target) && users[target].active)
  }

  lemma SoleAdminMeans(users: Users, target: Id)
    requires target in users
    ensures SoleAdmin(users, target) <==> "admin" in users[target].roles && ActiveAdmins(users) - {target} == {}
  {
    NobodyElse(ActiveAdmins(users), target);
    assert forall v :: v in ActiveAdmins(users) <==> v in users && users[v].active && "admin" in users[v].roles;
  }

  lemma GrantedWithin(catalogue: map<string, set<string>>, names: seq<string>, scopes: set<string>)
    ensures Granted(catalogue, Names(names)) <= scopes
            <==> forall n, p :: n in names && n in catalogue && p in catalogue[n] ==> p in scopes
  {
    if Granted(catalogue, Names(names)) <= scopes {
      forall n, p | n in names && n in catalogue && p in catalogue[n] ensures p in scopes {
        assert p in Granted(catalogue, Names(names));
      }
    }
  }

  lemma ReplacementFollowsRules(users: Users, catalogue: map<string, set<string>>, actor: Id, actorScopes: set<string>,
                                target: Id, names: seq<string>)
    ensures ReplaceRules(users, catalogue, actor, actorScopes, target, names,
                         Decide(users, catalogue, Replace(actor, actorScopes, target, names)))
  {
    GrantedWithin(catalogue, names, actorScopes);
    if target in users {
      SoleAdminMeans(users, target);
    }
  }

  lemma DeactivationFollowsRules(users: Users, catalogue: map<string, set<string>>, actor: Id, target: Id)
    ensures DeactivateRules(users, actor, target, Decide(users, catalogue, Deactivate(actor, target)))
  {
    if target in users {
      SoleAdminMeans(users, target);
    }
  }

  /** The scopes a user's roles carry. */
  function ScopesOf(users: Users, catalogue: map<string, set<string>>, u: Id): set<string> {
    if u in users then Granted(catalogue, users[u].roles) else {}
  }

  /** Nobody is given a scope by an actor who does not hold it: over any serial run, a scope a user gains was held by
      the actor of one of the replacements aimed at that user. */
  lemma {:induction false} ScopesComeFromActors(users: Users, catalogue: map<string, set<string>>, reqs: seq<Request>,
                                                u: Id, p: string)
    requires p in ScopesOf(ApplyAll(users, catalogue, reqs), catalogue, u) && p !in ScopesOf(users, catalogue, u)
    ensures exists i ::
              && 0 <= i < |reqs| && reqs[i].Replace? && reqs[i].target == u != reqs[i].actor
              && p in reqs[i].actorScopes
  {
    var next := Apply(users, catalogue, reqs[0]);
    if p in ScopesOf(next, catalogue, u) {
      var r := reqs[0];
      assert r.Replace? && r.target == u;
      ReplacementFollowsRules(users, catalogue, r.actor, r.actorScopes, r.target, r.names);
      var n :| n in next[u].roles && n in catalogue && p in catalogue[n];
      assert n in r.names && p in r.actorScopes;
    } else {
      ScopesComeFromActors(next, catalogue, reqs[1..], u, p);
      var i :| 0 <= i < |reqs[1..]| && reqs[1..][i].Replace? && reqs[1..][i].target == u != reqs[1..][i].actor
        && p in reqs[1..][i].actorScopes;
      assert reqs[i + 1] == reqs[1..][i];
    }
  }

  function ApplyAll(users: Users, catalogue: map<string, set<string>>, reqs: seq<Request>): Users {
    if reqs == [] then users else ApplyAll(Apply(users, catalogue, reqs[0]), catalogue, reqs[1..])
  }

  lemma ApplyKeepsAnAdmin(users: Users, catalogue: map<string, set<string>>, req: Request)
    requires ActiveAdmins(users) != {}
    ensures ActiveAdmins(Apply(users, catalogue, req)) != {}
  {
    var after := Apply(users, catalogue, req);
    if Decide(users, catalogue, req) == Done {
      var others := ActiveAdmins(users) - {req.target};
      if others != {} {
        var a := Member(others);
        assert a in ActiveAdmins(after);
      } else {
        var a := Member(ActiveAdmins(users));
        assert a in others || a == req.target;
        assert a in ActiveAdmins(after);
      }
    }
  }

  /** Serial runs of role replacement and admin deactivation always leave an active administrator. */
  lemma {:induction false} SerialRunsKeepAnAdmin(users: Users, catalogue: map<string, set<string>>, reqs: seq<Request>)
    requires ActiveAdmins(users) != {}
    ensures ActiveAdmins(ApplyAll(users, catalogue, reqs)) != {}
  {
    if reqs != [] {
      ApplyKeepsAnAdmin(users, catalogue, reqs[0]);
      SerialRunsKeepAnAdmin(Apply(users, catalogue, reqs[0]), catalogue, reqs[1..]);
    }
  }

  /** `RoleService` and the admin half of `AdminUserService` over the `users` and `user_roles` tables. */
  class RoleService {
    const catalogue: map<string, set<string>>
    var users: Users

    constructor (catalogue: map<string, set<string>>, users: Users)
      ensures this.catalogue == catalogue && this.users == users
    {
      this.catalogue, this.users := catalogue, users;
    }

    method CountActiveAdminsExcluding(excluded: Id) returns (n: nat)
      ensures n == |set u | u in users && u != excluded && users[u].active && "admin" in users[u].roles|
      ensures n == |ActiveAdmins(users) - {excluded}|
    {
      var admins: set<Id> := {};
      var rows := users.Keys;
      while rows != {}
        invariant rows <= users.Keys
        invariant admins == ActiveAdmins(users) - rows
        decreases rows
      {
        var u :| u in rows;
        rows := rows - {u};
        if users[u].active && ADMIN in users[u].roles {
          admins := admins + {u};
        }
      }
      assert admins - {excluded} == set u | u in users && u != excluded && users[u].active && "admin" in users[u].roles;
      return |admins - {excluded}|;
    }

    /** Deletes every role row of the user, then inserts the new ones. */
    method ReplaceForUser(target: Id, names: seq<string>)
      requires target in users
      modifies this
      ensures users == old(users)[target := Account(old(users)[target].active, Names(names))]
    {
      var account := users[target];
      users := users[target := Account(account.active, {})];
      assert Names(names[..0]) == {};
      for i := 0 to |names|
        invariant users == old(users)[target := Account(account.active, Names(names[..i]))]
      {
        assert names[..i + 1] == names[..i] + [names[i]];
        users := users[target := Account(account.active, users[target].roles + {names[i]})];
        assert Names(names[..i + 1]) == Names(names[..i]) + {names[i]};
      }
      assert names[..|names|] == names;
    }

    method ReplaceUserRoles(actor: Id, actorScopes: set<string>, target: Id, names: seq<string>)
      returns (outcome: Outcome)
      modifies this
      ensures ReplaceRules(old(users), catalogue, actor, actorScopes, target, names, outcome)
      ensures outcome == Done ==>
              target in users && (forall n :: n in users[target].roles <==> n in names)
              && users == old(users)[target := old(users)[target].(roles := users[target].roles)]
      ensures outcome != Done ==> users == old(users)
      ensures outcome == Decide(old(users), catalogue, Replace(actor, actorScopes, target, names))
      ensures users == Apply(old(users), catalogue, Replace(actor, actorScopes, target, names))
      ensures ActiveAdmins(old(users)) != {} ==> ActiveAdmins(users) != {}
    {
      ReplacementFollowsRules(users, catalogue, actor, actorScopes, target, names);
      ghost var before := users;
      if ActiveAdmins(before) != {} {
        ApplyKeepsAnAdmin(before, catalogue, Replace(actor, actorScopes, target, names));
      }
      if target == actor { return SelfTarget; }
      if names == [] || !Distinct(names) { return InvalidRoles; }
      if !(Names(names) <= catalogue.Keys) { return UnknownRole; }
      if !(Granted(catalogue, Names(names)) <= actorScopes) { return Escalation; }
      if target !in users { return NotFound; }
      if ADMIN in users[target].roles && ADMIN !in names {
        var remaining := CountActiveAdminsExcluding(target);
        if remaining == 0 { return WouldRemoveLastAdmin; }
      }
      ReplaceForUser(target, names);
      return Done;
    }

    /** `raise_if_last_admin`: the target is the only active account that holds admin. */
    method IsLastAdmin(target: Id) returns (last: bool)
      requires target in users
      ensures last <==> ADMIN in users[target].roles && forall v :: v in ActiveAdmins(users) ==> v == target
    {
      if ADMIN !in users[target].roles { return false; }
      var remaining := CountActiveAdminsExcluding(target);
      NobodyElse(ActiveAdmins(users), target);
      return remaining == 0;
    }

    method DeactivateUser(actor: Id, target: Id) returns (outcome: Outcome)
      modifies this
      ensures DeactivateRules(old(users), actor, target, outcome)
      ensures users
              == if outcome == Done then old(users)[target := old(users)[target].(active := false)] else old(users)
      ensures outcome == Decide(old(users), catalogue, Deactivate(actor, target))
      ensures users == Apply(old(users), catalogue, Deactivate(actor, target))
      ensures ActiveAdmins(old(users)) != {} ==> ActiveAdmins(users) != {}
    {
      DeactivationFollowsRules(users, catalogue, actor, target);
      ghost var before := users;
      if ActiveAdmins(before) != {} {
        ApplyKeepsAnAdmin(before, catalogue, Deactivate(actor, target));
      }
      if target == actor { return SelfTarget; }
      if target !in users { return NotFound; }
      var last := IsLastAdmin(target);
      NobodyElse(ActiveAdmins(users), target);
      if last { return WouldRemoveLastAdmin; }
      if !users[target].active { return AlreadyDeactivated; }
      users := users[target := Account(false, users[target].roles)];
      return Done;
    }
  }

  // ------------------------------------------------------------------ interleaved requests

  /** What a request that passed its own validation is about to write. */
  datatype Write = SetRoles(target: Id, roles: set<string>) | Switch(target: Id)

  /** Role names are read first; the admin rows are locked only by a request that read `admin` and would drop it. */
  datatype Phase = Fresh(w: Write) | MustLock(w: Write) | Unguarded(w: Write) | Counted(w: Write) | Finished

  datatype System = System(users: Users, lock: Option<nat>, phases: map<nat, Phase>)

  datatype Step = ReadRoles(r: nat) | LockAndCount(r: nat) | Commit(r: nat) | Abort(r: nat)

  predicate Removes(users: Users, w: Write) {
    w.target in users && ADMIN in users[w.target].roles && (w.Switch? || ADMIN !in w.roles)
  }

  function Written(users: Users, w: Write): Users {
    if w.target !in users then users
    else match w
      case SetRoles(t, roles) => users[t := Account(users[t].active, roles)]
      case Switch(t) => if users[t].active then users[t := Account(false, users[t].roles)] else users
  }

  /** A step that is not enabled leaves the system as it is. */
  function Next(s: System, step: Step): System {
    if step.r !in s.phases then s
    else
      var p := s.phases[step.r];
      match step
      case ReadRoles(r) =>
        if !p.Fresh? then s
        else s.(phases := s.phases[r := if Removes(s.users, p.w) then MustLock(p.w) else Unguarded(p.w)])
      case LockAndCount(r) =>
        if !p.MustLock? || s.lock != None then s
        else if OnlyOtherAdminless(s.users, p.w.target) then s.(phases := s.phases[r := Finished])
        else s.(lock := Some(r), phases := s.phases[r := Counted(p.w)])
      case Commit(r) =>
        if p.Unguarded? then System(Written(s.users, p.w), s.lock, s.phases[r := Finished])
        else if p.Counted? then System(Written(s.users, p.w), None, s.phases[r := Finished])
        else s
      case Abort(r) =>
        s.(lock := if s.lock == Some(r) then None else s.lock, phases := s.phases[r := Finished])
  }

  function Run(s: System, steps: seq<Step>): System
    decreases |steps|
  {
    if steps == [] then s else Run(Next(s, steps[0]), steps[1..])
  }

  lemma RunCons(s: System, step: Step, rest: seq<Step>)
    ensures Run(s, [step] + rest) == Run(Next(s, step), rest)
  {
    assert ([step] + rest)[1..] == rest;
  }

  lemma {:induction false} RunConcat(s: System, a: seq<Step>, b: seq<Step>)
    ensures Run(s, a + b) == Run(Run(s, a), b)
    decreases |a|
  {
    if a == [] {
      assert a + b == b;
    } else {
      assert (a + b)[1..] == a[1..] + b;
      RunConcat(Next(s, a[0]), a[1..], b);
    }
  }

  // ------------------------------------------------------------------ which requests can lose every administrator

  /** The write makes `x` an administrator, or keeps it one. */
  predicate Grants(w: Write, x: Id) {
    w.SetRoles? && w.target == x && ADMIN in w.roles
  }

  predicate Demotes(w: Write, x: Id) {
    w.SetRoles? && w.target == x && ADMIN !in w.roles
  }

  /** The write leaves `x` no active administrator. */
  predicate Drops(w: Write, x: Id) {
    w == Switch(x) || Demotes(w, x)
  }

  type Writes = map<nat, Write>

  ghost predicate Grantable(ws: Writes, x: Id) {
    exists a :: a in ws && Grants(ws[a], x)
  }

  ghost predicate Droppable(ws: Writes, x: Id) {
    exists r :: r in ws && Drops(ws[r], x)
  }

  /** Besides `b`, a request demotes `x` while somebody else is an administrator. */
  ghost predicate Redone(users: Users, ws: Writes, x: Id, b: nat) {
    ActiveAdmins(users) - {x} != {} && exists c :: c in ws && c != b && Demotes(ws[c], x)
  }

  /** `b` can read `x` as no administrator, and drop it unguarded after a grant. */
  ghost predicate Pivot(users: Users, ws: Writes, x: Id, b: nat) {
    && x in users && users[x].active && b in ws && Drops(ws[b], x) && Grantable(ws, x)
    && (ADMIN in users[x].roles ==> Redone(users, ws, x, b))
  }

  /** There is a pivot, and every other administrator has a request that drops it. */
  ghost predicate Losable(users: Users, ws: Writes) {
    exists x, b :: Pivot(users, ws, x, b) && forall y :: y in ActiveAdmins(users) - {x} ==> Droppable(ws, y)
  }

  /** Every request is still to start. */
  ghost predicate Starts(s: System, ws: Writes) {
    s.lock == None && s.phases.Keys == ws.Keys && forall r :: r in ws ==> s.phases[r] == Fresh(ws[r])
  }

  lemma DropWritten(users: Users, w: Write, x: Id)
    requires Drops(w, x)
    ensures ActiveAdmins(Written(users, w)) == ActiveAdmins(users) - {x}
  {
  }

  lemma GrantWritten(users: Users, w: Write, x: Id)
    requires Grants(w, x)
    ensures ActiveAdmins(Written(users, w))
            == if x in users && users[x].active then ActiveAdmins(users) + {x} else ActiveAdmins(users)
  {
  }

  // ------------------------------------------------------------------ losing them

  /** A guarded removal that runs undisturbed. */
  lemma DropGuarded(s: System, r: nat, y: Id) returns (steps: seq<Step>)
    requires s.lock == None && r in s.phases && s.phases[r].Fresh? && Drops(s.phases[r].w, y)
    requires y in ActiveAdmins(s.users) && ActiveAdmins(s.users) - {y} != {}
    ensures var end := Run(s, steps);
            && end.lock == None && end.phases == s.phases[r := Finished]
            && end.users == Written(s.users, s.phases[r].w)
            && ActiveAdmins(end.users) == ActiveAdmins(s.users) - {y}
  {
    var w := s.phases[r].w;
    var s1 := Next(s, ReadRoles(r));
    var s2 := Next(s1, LockAndCount(r));
    var s3 := Next(s2, Commit(r));
    steps := [ReadRoles(r)] + ([LockAndCount(r)] + ([Commit(r)] + []));
    RunCons(s, ReadRoles(r), [LockAndCount(r)] + ([Commit(r)] + []));
    RunCons(s1, LockAndCount(r), [Commit(r)] + []);
    RunCons(s2, Commit(r), []);
    assert s3.phases == s.phases[r := Finished];
    DropWritten(s.users, w, y);
  }

  lemma GrantNow(s: System, a: nat, x: Id) returns (steps: seq<Step>)
    requires a in s.phases && s.phases[a].Fresh? && Grants(s.phases[a].w, x) && x in s.users && s.users[x].active
    ensures var end := Run(s, steps);
            && end.lock == s.lock && end.phases == s.phases[a := Finished]
            && ActiveAdmins(end.users) == ActiveAdmins(s.users) + {x}
  {
    var s1 := Next(s, ReadRoles(a));
    var s2 := Next(s1, Commit(a));
    steps := [ReadRoles(a)] + ([Commit(a)] + []);
    RunCons(s, ReadRoles(a), [Commit(a)] + []);
    RunCons(s1, Commit(a), []);
    assert s2.phases == s.phases[a := Finished];
    GrantWritten(s.users, s.phases[a].w, x);
  }

  ghost predicate FreshDrop(s: System, y: Id) {
    exists r :: r in s.phases && s.phases[r].Fresh? && Drops(s.phases[r].w, y)
  }

  /** With `x` in place every other administrator can be removed under the lock. */
  lemma {:induction false} DropAllOthers(s: System, x: Id, b: nat) returns (steps: seq<Step>)
    requires s.lock == None && x in ActiveAdmins(s.users) && b in s.phases && s.phases[b].Unguarded?
    requires forall y :: y in ActiveAdmins(s.users) - {x} ==> FreshDrop(s, y)
    ensures var end := Run(s, steps);
            b in end.phases && end.phases[b] == s.phases[b] && ActiveAdmins(end.users) == {x}
    decreases |ActiveAdmins(s.users) - {x}|
  {
    var others := ActiveAdmins(s.users) - {x};
    if others == {} {
      steps := [];
      assert ActiveAdmins(s.users) == {x};
    } else {
      var y := Member(others);
      assert FreshDrop(s, y);
      var r :| r in s.phases && s.phases[r].Fresh? && Drops(s.phases[r].w, y);
      assert x in ActiveAdmins(s.users) - {y};
      var first := DropGuarded(s, r, y);
      var s1 := Run(s, first);
      assert ActiveAdmins(s1.users) - {x} == others - {y};
      forall z | z in ActiveAdmins(s1.users) - {x} ensures FreshDrop(s1, z) {
        assert FreshDrop(s, z);
        var q :| q in s.phases && s.phases[q].Fresh? && Drops(s.phases[q].w, z);
        assert s1.phases[q] == s.phases[q];
      }
      var rest := DropAllOthers(s1, x, b);
      RunConcat(s, first, rest);
      steps := first + rest;
    }
  }

  /** `b` reads `x` as no administrator, `a` makes it one, everybody else is dropped, and `b` drops `x` unguarded. */
  lemma PivotLoses(s: System, x: Id, a: nat, b: nat) returns (steps: seq<Step>)
    requires s.lock == None && x in s.users && s.users[x].active && ADMIN !in s.users[x].roles
    requires a in s.phases && s.phases[a].Fresh? && Grants(s.phases[a].w, x)
    requires b in s.phases && s.phases[b].Fresh? && Drops(s.phases[b].w, x)
    requires forall y :: y in ActiveAdmins(s.users) ==> FreshDrop(s, y)
    ensures ActiveAdmins(Run(s, steps).users) == {}
  {
    var s1 := Next(s, ReadRoles(b));
    var grant := GrantNow(s1, a, x);
    var s2 := Run(s1, grant);
    forall y | y in ActiveAdmins(s2.users) - {x} ensures FreshDrop(s2, y) {
      assert FreshDrop(s, y);
      var q :| q in s.phases && s.phases[q].Fresh? && Drops(s.phases[q].w, y);
      assert s2.phases[q] == s.phases[q];
    }
    var drops := DropAllOthers(s2, x, b);
    var s3 := Run(s2, drops);
    assert s3.phases[b] == Unguarded(s.phases[b].w);
    DropWritten(s3.users, s.phases[b].w, x);
    RunCons(s3, Commit(b), []);
    RunConcat(s2, drops, [Commit(b)] + []);
    RunConcat(s1, grant, drops + ([Commit(b)] + []));
    RunCons(s, ReadRoles(b), grant + (drops + ([Commit(b)] + [])));
    steps := [ReadRoles(b)] + (grant + (drops + ([Commit(b)] + [])));
  }

  /** An administrator who is demoted in order while another is there becomes a pivot. */
  lemma DemotedPivotLoses(s: System, x: Id, a: nat, b: nat, c: nat) returns (steps: seq<Step>)
    requires s.lock == None && x in ActiveAdmins(s.users) && ActiveAdmins(s.users) - {x} != {}
    requires a in s.phases && s.phases[a].Fresh? && Grants(s.phases[a].w, x)
    requires b in s.phases && s.phases[b].Fresh? && Drops(s.phases[b].w, x)
    requires c in s.phases && s.phases[c].Fresh? && Demotes(s.phases[c].w, x) && c != b
    requires forall y :: y in ActiveAdmins(s.users) - {x} ==> FreshDrop(s, y)
    ensures ActiveAdmins(Run(s, steps).users) == {}
  {
    var first := DropGuarded(s, c, x);
    var s1 := Run(s, first);
    forall y | y in ActiveAdmins(s1.users) ensures FreshDrop(s1, y) {
      assert FreshDrop(s, y);
      var q :| q in s.phases && s.phases[q].Fresh? && Drops(s.phases[q].w, y);
      assert s1.phases[q] == s.phases[q];
    }
    var rest := PivotLoses(s1, x, a, b);
    RunConcat(s, first, rest);
    steps := first + rest;
  }

  lemma LosableLoses(s: System, ws: Writes) returns (steps: seq<Step>)
    requires Starts(s, ws) && Losable(s.users, ws)
    ensures ActiveAdmins(Run(s, steps).users) == {}
  {
    var x, b :| Pivot(s.users, ws, x, b) && forall y :: y in ActiveAdmins(s.users) - {x} ==> Droppable(ws, y);
    var a :| a in ws && Grants(ws[a], x);
    forall y | y in ActiveAdmins(s.users) - {x} ensures FreshDrop(s, y) {
      assert Droppable(ws, y);
      var r :| r in ws && Drops(ws[r], y);
      assert s.phases[r].Fresh? && Drops(s.phases[r].w, y);
    }
    if ADMIN !in s.users[x].roles {
      steps := PivotLoses(s, x, a, b);
    } else {
      var c :| c in ws && c != b && Demotes(ws[c], x);
      steps := DemotedPivotLoses(s, x, a, b, c);
    }
  }

  // ------------------------------------------------------------------ keeping one

  /** Requests stick to what they set out to write. */
  ghost predicate Fits(ws: Writes, s: System) {
    && s.phases.Keys == ws.Keys
    && (forall r :: r in ws ==> s.phases[r].Finished? || s.phases[r].w == ws[r])
    && (forall r :: r in ws && (s.phases[r].MustLock? || s.phases[r].Counted?) ==> Drops(ws[r], ws[r].target))
  }

  /** An administrator nobody is about to drop. */
  ghost predicate Anchored(ws: Writes, s: System) {
    exists y :: y in ActiveAdmins(s.users) && !Droppable(ws, y)
  }

  /** `x` held admin at the start, is still active, and does not hold it now. */
  predicate Lost(start: Users, users: Users, x: Id) {
    x in users && users[x].active && ADMIN !in users[x].roles && x in start && ADMIN in start[x].roles
  }

  /** Nobody appears, nobody is reactivated, and new administrators were granted. */
  ghost predicate Descends(start: Users, ws: Writes, users: Users) {
    && (forall x :: x in users ==> x in start && (users[x].active ==> start[x].active))
    && (forall x :: x in ActiveAdmins(users) && ADMIN !in start[x].roles ==> Grantable(ws, x))
  }

  /** A counted removal holds the lock and leaves somebody; an unguarded one aims at nobody who matters. */
  ghost predicate Covered(ws: Writes, s: System)
    requires Fits(ws, s)
  {
    && ActiveAdmins(s.users) != {}
    && (forall r :: r in ws && s.phases[r].Counted? ==>
          s.lock == Some(r) && ActiveAdmins(s.users) - {ws[r].target} != {})
    && (forall r :: r in ws && s.phases[r].Unguarded? && Drops(ws[r], ws[r].target) ==>
          ws[r].target !in ActiveAdmins(s.users))
  }

  /** Who has lost admin since the start was demoted by a request that is over. */
  ghost predicate Accounted(start: Users, ws: Writes, s: System)
    requires Fits(ws, s)
  {
    && (forall x, r {:trigger Redone(start, ws, x, r)} ::
          r in ws && !s.phases[r].Finished? && Lost(start, s.users, x) ==> Redone(start, ws, x, r))
    && (forall r {:trigger s.phases[r].Unguarded?} ::
          r in ws && s.phases[r].Unguarded? && Drops(ws[r], ws[r].target) ==>
            Spent(start, ws, s.users, ws[r].target, r))
  }

  ghost predicate Spent(start: Users, ws: Writes, users: Users, x: Id, r: nat) {
    x in users && users[x].active && x in start && ADMIN in start[x].roles ==> Redone(start, ws, x, r)
  }

  ghost predicate Kept(start: Users, ws: Writes, s: System)
    requires Fits(ws, s)
  {
    Descends(start, ws, s.users) && Covered(ws, s) && Accounted(start, ws, s)
  }

  ghost predicate NoPivot(start: Users, ws: Writes) {
    forall x, b :: !Pivot(start, ws, x, b)
  }

  lemma StepKeepsFits(ws: Writes, s: System, step: Step)
    requires Fits(ws, s)
    ensures Fits(ws, Next(s, step))
  {
  }

  lemma StepKeepsAnchor(ws: Writes, s: System, step: Step)
    requires Fits(ws, s) && Anchored(ws, s)
    ensures Anchored(ws, Next(s, step))
  {
    var y :| y in ActiveAdmins(s.users) && !Droppable(ws, y);
    assert step.r in ws ==> !Drops(ws[step.r], y);
    assert y in ActiveAdmins(Next(s, step).users);
  }

  lemma ReadKeepsKept(start: Users, ws: Writes, s: System, r: nat)
    requires Fits(ws, s) && Kept(start, ws, s)
    ensures Fits(ws, Next(s, ReadRoles(r))) && Kept(start, ws, Next(s, ReadRoles(r)))
  {
    StepKeepsFits(ws, s, ReadRoles(r));
    if r in ws && s.phases[r].Fresh? {
      var x := ws[r].target;
      assert Lost(start, s.users, x) ==> Redone(start, ws, x, r);
    }
  }

  lemma LockKeepsKept(start: Users, ws: Writes, s: System, r: nat)
    requires Fits(ws, s) && Kept(start, ws, s)
    ensures Fits(ws, Next(s, LockAndCount(r))) && Kept(start, ws, Next(s, LockAndCount(r)))
  {
    StepKeepsFits(ws, s, LockAndCount(r));
    assert Next(s, LockAndCount(r)).users == s.users;
  }

  lemma AbortKeepsKept(start: Users, ws: Writes, s: System, r: nat)
    requires Fits(ws, s) && Kept(start, ws, s)
    ensures Fits(ws, Next(s, Abort(r))) && Kept(start, ws, Next(s, Abort(r)))
  {
    StepKeepsFits(ws, s, Abort(r));
    assert Next(s, Abort(r)).users == s.users;
  }

  /** A grant cannot reach the target of an unguarded removal: that would be a pivot. */
  lemma GrantKeepsKept(start: Users, ws: Writes, s: System, a: nat)
    requires Fits(ws, s) && Kept(start, ws, s) && NoPivot(start, ws)
    requires a in ws && s.phases[a].Unguarded? && Grants(ws[a], ws[a].target)
    ensures Fits(ws, Next(s, Commit(a))) && Kept(start, ws, Next(s, Commit(a)))
  {
    StepKeepsFits(ws, s, Commit(a));
    var x, t := ws[a].target, Next(s, Commit(a));
    GrantWritten(s.users, ws[a], x);
    assert Grantable(ws, x);
    forall r | r in ws && t.phases[r].Unguarded? && Drops(ws[r], ws[r].target)
      ensures ws[r].target !in ActiveAdmins(t.users) && Spent(start, ws, t.users, ws[r].target, r)
    {
      assert s.phases[r].Unguarded? && Spent(start, ws, s.users, ws[r].target, r);
      assert !Pivot(start, ws, x, r);
    }
  }

  lemma UnguardedDropKeepsKept(start: Users, ws: Writes, s: System, b: nat)
    requires Fits(ws, s) && Kept(start, ws, s)
    requires b in ws && s.phases[b].Unguarded? && Drops(ws[b], ws[b].target)
    ensures Fits(ws, Next(s, Commit(b))) && Kept(start, ws, Next(s, Commit(b)))
  {
    StepKeepsFits(ws, s, Commit(b));
    var x, t := ws[b].target, Next(s, Commit(b));
    DropWritten(s.users, ws[b], x);
    assert ActiveAdmins(t.users) == ActiveAdmins(s.users);
    forall y | Lost(start, t.users, y) ensures Lost(start, s.users, y) {
    }
    forall r | r in ws && t.phases[r].Unguarded? && Drops(ws[r], ws[r].target)
      ensures Spent(start, ws, t.users, ws[r].target, r)
    {
      assert s.phases[r].Unguarded? && Spent(start, ws, s.users, ws[r].target, r);
    }
  }

  /** Who is left after a guarded removal was there at the start, or nobody is about to drop them. */
  lemma SurvivorAtStart(start: Users, ws: Writes, s: System, x: Id)
    requires Descends(start, ws, s.users) && NoPivot(start, ws) && ActiveAdmins(s.users) - {x} != {}
    ensures ActiveAdmins(start) - {x} != {} || Anchored(ws, s)
  {
    var z := Member(ActiveAdmins(s.users) - {x});
    if ADMIN in start[z].roles {
      assert z in ActiveAdmins(start) - {x};
    } else {
      assert forall b :: b in ws && Drops(ws[b], z) ==> Pivot(start, ws, z, b);
      assert !Droppable(ws, z);
    }
  }

  lemma GuardedDropKeepsKept(start: Users, ws: Writes, s: System, c: nat)
    requires Fits(ws, s) && Kept(start, ws, s) && c in ws && s.phases[c].Counted?
    requires ActiveAdmins(start) - {ws[c].target} != {}
    ensures Fits(ws, Next(s, Commit(c))) && Kept(start, ws, Next(s, Commit(c)))
  {
    StepKeepsFits(ws, s, Commit(c));
    var x, t := ws[c].target, Next(s, Commit(c));
    DropWritten(s.users, ws[c], x);
    forall y, r | r in ws && !t.phases[r].Finished? && Lost(start, t.users, y) ensures Redone(start, ws, y, r) {
      if !Lost(start, s.users, y) {
        assert y == x && Demotes(ws[c], x) && c != r;
      } else {
        assert Redone(start, ws, y, r);
      }
    }
    forall r | r in ws && t.phases[r].Unguarded? && Drops(ws[r], ws[r].target)
      ensures Spent(start, ws, t.users, ws[r].target, r)
    {
      assert s.phases[r].Unguarded? && Spent(start, ws, s.users, ws[r].target, r);
    }
  }

  lemma StepKeepsAnAdmin(start: Users, ws: Writes, s: System, step: Step)
    requires Fits(ws, s) && (Anchored(ws, s) || Kept(start, ws, s)) && NoPivot(start, ws)
    ensures Fits(ws, Next(s, step)) && (Anchored(ws, Next(s, step)) || Kept(start, ws, Next(s, step)))
  {
    StepKeepsFits(ws, s, step);
    if Anchored(ws, s) {
      StepKeepsAnchor(ws, s, step);
    } else if step.ReadRoles? {
      ReadKeepsKept(start, ws, s, step.r);
    } else if step.LockAndCount? {
      LockKeepsKept(start, ws, s, step.r);
    } else if step.Abort? {
      AbortKeepsKept(start, ws, s, step.r);
    } else if step.r in ws {
      CommitKeepsAnAdmin(start, ws, s, step.r);
    }
  }

  lemma CommitKeepsAnAdmin(start: Users, ws: Writes, s: System, r: nat)
    requires Fits(ws, s) && Kept(start, ws, s) && !Anchored(ws, s) && NoPivot(start, ws) && r in ws
    ensures Fits(ws, Next(s, Commit(r))) && Kept(start, ws, Next(s, Commit(r)))
  {
    if s.phases[r].Counted? {
      SurvivorAtStart(start, ws, s, ws[r].target);
      GuardedDropKeepsKept(start, ws, s, r);
    } else if s.phases[r].Unguarded? {
      if Drops(ws[r], ws[r].target) {
        UnguardedDropKeepsKept(start, ws, s, r);
      } else {
        GrantKeepsKept(start, ws, s, r);
      }
    }
  }

  lemma {:induction false} RunsKeepAnAdmin(start: Users, ws: Writes, s: System, steps: seq<Step>)
    requires Fits(ws, s) && (Anchored(ws, s) || (Kept(start, ws, s) && NoPivot(start, ws)))
    ensures ActiveAdmins(Run(s, steps).users) != {}
    decreases |steps|
  {
    if steps != [] {
      if Anchored(ws, s) {
        StepKeepsFits(ws, s, steps[0]);
        StepKeepsAnchor(ws, s, steps[0]);
      } else {
        StepKeepsAnAdmin(start, ws, s, steps[0]);
      }
      RunsKeepAnAdmin(start, ws, Next(s, steps[0]), steps[1..]);
    }
  }

  /** Some interleaving of the requests leaves no active administrator exactly when they are losable: an active user is
      both granted admin and dropped (if it holds admin already, also demoted once more while another administrator is
      there), and every other administrator is dropped too. */
  lemma AdminsLostIffLosable(s: System, ws: Writes)
    requires Starts(s, ws) && ActiveAdmins(s.users) != {}
    ensures (exists steps :: ActiveAdmins(Run(s, steps).users) == {}) <==> Losable(s.users, ws)
  {
    if Losable(s.users, ws) {
      var steps := LosableLoses(s, ws);
    } else {
      if !Anchored(ws, s) {
        forall x, b ensures !Pivot(s.users, ws, x, b) {
          assert forall y :: y in ActiveAdmins(s.users) - {x} ==> Droppable(ws, y);
        }
      }
      forall steps ensures ActiveAdmins(Run(s, steps).users) != {} {
        RunsKeepAnAdmin(s.users, ws, s, steps);
      }
    }
  }

  /** In particular any interleaving keeps one when no user is both granted admin and dropped. */
  lemma InterleavedRunsKeepAnAdmin(s: System, ws: Writes, steps: seq<Step>)
    requires Starts(s, ws) && ActiveAdmins(s.users) != {}
    requires forall a, b :: a in ws && b in ws && Drops(ws[b], ws[b].target) ==> !Grants(ws[a], ws[b].target)
    ensures ActiveAdmins(Run(s, steps).users) != {}
  {
    AdminsLostIffLosable(s, ws);
    forall x, b ensures !Pivot(s.users, ws, x, b) {
      assert b in ws && Drops(ws[b], x) ==> ws[b].target == x && !Grantable(ws, x);
    }
  }

  /** One administrator, 1, and three requests: set the roles of 2 to what they are, make 2 an administrator, demote
      1. */
  lemma GrantDuringReplacementLosesAdmins() returns (s: System, steps: seq<Step>)
    ensures ActiveAdmins(s.users) != {} && s.lock == None
    ensures forall r :: r in s.phases ==> s.phases[r].Fresh?
    ensures ActiveAdmins(Run(s, steps).users) == {}
  {
    var users := map[1 := Account(true, {ADMIN}), 2 := Account(true, {"customer"})];
    var ws: Writes := map[0 := SetRoles(2, {"customer"}), 1 := SetRoles(2, {ADMIN}), 2 := SetRoles(1, {"customer"})];
    s := System(users, None, map r | r in ws :: Fresh(ws[r]));
    assert 1 in ActiveAdmins(users);
    assert Grants(ws[1], 2) && Drops(ws[0], 2) && Drops(ws[2], 1);
    assert Pivot(users, ws, 2, 0) && Droppable(ws, 1);
    steps := LosableLoses(s, ws);
  }
}
