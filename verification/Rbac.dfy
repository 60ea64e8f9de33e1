/** app/repositories/rbac.py: role assignments that expire, and the permissions
    a user derives from them. */
module Rbac {
  import opened Wrappers

  type Time = real

  datatype Permission = Permission(code: string, active: bool)

  /** The rows of user_roles: expiry by (user, role), a unique pair. */
  type Assignments = map<(int, int), Option<Time>>

  datatype Db = Db(
    roleActive: map<int, bool>,
    permissions: map<int, Permission>,
    granted: set<(int, int)>,        // role_permissions: (role, permission)
    assignments: Assignments)

  /** `expires_at IS NULL OR expires_at > now` */
  predicate Unexpired(expiry: Option<Time>, now: Time) {
    expiry.None? || expiry.value > now
  }

  /** The roles `get_user_roles` returns. */
  function LiveRoles(a: Assignments, userId: int, now: Time): set<int> {
    set k | k in a && k.0 == userId && Unexpired(a[k], now) :: k.1
  }

  /** The codes a set of roles carries through active roles and permissions. */
  function CodesOf(db: Db, roles: set<int>): set<string> {
    set g | g in db.granted && g.0 in roles && g.0 in db.roleActive && db.roleActive[g.0]
            && g.1 in db.permissions && db.permissions[g.1].active :: db.permissions[g.1].code
  }

  function PermissionCodes(db: Db, userId: int, now: Time): set<string> {
    CodesOf(db, LiveRoles(db.assignments, userId, now))
  }

  function Assign(a: Assignments, userId: int, roleId: int, expiresAt: Option<Time>): Assignments {
    if (userId, roleId) in a && expiresAt.None? then a
    else a[(userId, roleId) := expiresAt]
  }

  /** The rows `cleanup_expired` deletes. */
  predicate Lapsed(expiry: Option<Time>, now: Time) {
    expiry.Some? && expiry.value < now
  }

  function CleanupExpired(a: Assignments, now: Time): Assignments {
    map k | k in a && !Lapsed(a[k], now) :: a[k]
  }

  datatype Op =
    | AssignRole(userId: int, roleId: int, expiresAt: Option<Time>)
    | RevokeRole(userId: int, roleId: int)
    | RevokeAllRoles(userId: int)
    | AddPermission(roleId: int, permissionId: int)
    | RemovePermission(roleId: int, permissionId: int)
    | SetRolePermissions(roleId: int, permissionIds: set<int>)
    | Cleanup

  datatype Event = Event(op: Op, now: Time)

  function Step(db: Db, e: Event): Db {
    match e.op
    case AssignRole(u, r, expiresAt) => db.(assignments := Assign(db.assignments, u, r, expiresAt))
    case RevokeRole(u, r) => db.(assignments := db.assignments - {(u, r)})
    case RevokeAllRoles(u) => db.(assignments := map k | k in db.assignments && k.0 != u :: db.assignments[k])
    case AddPermission(r, p) => db.(granted := db.granted + {(r, p)})
    case RemovePermission(r, p) => db.(granted := db.granted - {(r, p)})
    case SetRolePermissions(r, ps) =>
      db.(granted := (set g | g in db.granted && g.0 != r) + set p | p in ps :: (r, p))
    case Cleanup => db.(assignments := CleanupExpired(db.assignments, e.now))
  }

  class UserRoleRepository {
    var db: Db

    constructor (db: Db)
      ensures this.db == db
    {
      this.db := db;
    }

    /** `get_user_permission_codes`, the two nested loops. */
    method GetUserPermissionCodes(userId: int, now: Time) returns (codes: set<string>)
      ensures codes == PermissionCodes(db, userId, now)
    {
      var userRoles := set k | k in db.assignments && k.0 == userId && Unexpired(db.assignments[k], now);
      assert RolesIn(userRoles) == LiveRoles(db.assignments, userId, now);
      codes := {};
      var rest := userRoles;
      assert RolesIn(userRoles - rest) == {};
      while rest != {}
        invariant rest <= userRoles && codes == CodesOf(db, RolesIn(userRoles - rest))
      {
        var ur :| ur in rest;
        ghost var before := codes;
        if ur.1 in db.roleActive && db.roleActive[ur.1] {
          var grants := set g | g in db.granted && g.0 == ur.1;
          var left := grants;
          while left != {}
            invariant left <= grants
            invariant codes == before + ActiveCodes(db, grants - left)
          {
            var g :| g in left;
            AddGrant(db, grants, left, g);
            left := left - {g};
            if g.1 in db.permissions && db.permissions[g.1].active {
              codes := codes + {db.permissions[g.1].code};
            }
          }
        }
        AddRole(db, RolesIn(userRoles - rest), ur.1);
        AddRow(userRoles, rest, ur);
        rest := rest - {ur};
      }
      assert userRoles - rest == userRoles;
    }

    method UserHasAnyPermission(userId: int, wanted: seq<string>, now: Time) returns (b: bool)
      ensures b <==> exists i :: 0 <= i < |wanted| && wanted[i] in PermissionCodes(db, userId, now)
    {
      var perms := GetUserPermissionCodes(userId, now);
      var common := perms * (set c | c in wanted);
      b := common != {};
      assert forall i :: 0 <= i < |wanted| && wanted[i] in perms ==> wanted[i] in common;
      assert forall c :: c in common ==> c in perms && c in wanted;
    }

    method UserHasAllPermissions(userId: int, wanted: seq<string>, now: Time) returns (b: bool)
      ensures b <==> forall i :: 0 <= i < |wanted| ==> wanted[i] in PermissionCodes(db, userId, now)
    {
      var perms := GetUserPermissionCodes(userId, now);
      b := (set c | c in wanted) <= perms;
      assert b ==> forall i :: 0 <= i < |wanted| ==> wanted[i] in set c | c in wanted;
    }

    method AssignRole(userId: int, roleId: int, expiresAt: Option<Time>, ghost now: Time)
      modifies this
      ensures db == Step(old(db), Event(Op.AssignRole(userId, roleId, expiresAt), now))
    {
      var key := (userId, roleId);
      if key in db.assignments {
        if expiresAt.Some? {
          db := db.(assignments := db.assignments[key := expiresAt]);
        }
        return;
      }
      db := db.(assignments := db.assignments[key := expiresAt]);
    }
  }

  /** The codes of one role. */
  function RoleCodes(db: Db, role: int): set<string> {
    set g | g in db.granted && g.0 == role && role in db.roleActive && db.roleActive[role]
            && g.1 in db.permissions && db.permissions[g.1].active :: db.permissions[g.1].code
  }

  /** The codes a set of grants carries through active permissions. */
  function ActiveCodes(db: Db, grants: set<(int, int)>): set<string> {
    set g | g in grants && g.1 in db.permissions && db.permissions[g.1].active :: db.permissions[g.1].code
  }

  lemma AddGrant(db: Db, grants: set<(int, int)>, left: set<(int, int)>, g: (int, int))
    requires g in left && left <= grants
    ensures ActiveCodes(db, grants - (left - {g})) == ActiveCodes(db, grants - left)
            + if g.1 in db.permissions && db.permissions[g.1].active then {db.permissions[g.1].code} else {}
  {
    assert grants - (left - {g}) == grants - left + {g};
  }

  function RolesIn(rows: set<(int, int)>): set<int> {
    set k | k in rows :: k.1
  }

  lemma AddRow(rows: set<(int, int)>, rest: set<(int, int)>, k: (int, int))
    requires k in rest && rest <= rows
    ensures RolesIn(rows - (rest - {k})) == RolesIn(rows - rest) + {k.1}
  {
    assert rows - (rest - {k}) == rows - rest + {k};
  }

  lemma AddRole(db: Db, roles: set<int>, role: int)
    ensures CodesOf(db, roles + {role}) == CodesOf(db, roles) + RoleCodes(db, role)
  {
  }

  // ------------------------------------------------------------ life of a right

  /** A user has a code exactly through one unexpired assignment, one active
      role and one active permission granted to it. */
  lemma HasCodeIff(db: Db, userId: int, code: string, now: Time)
    ensures code in PermissionCodes(db, userId, now) <==>
      exists roleId, permissionId :: Carries(db, userId, roleId, permissionId, code, now)
  {
    forall roleId, permissionId | Carries(db, userId, roleId, permissionId, code, now)
      ensures code in PermissionCodes(db, userId, now)
    {
      assert (userId, roleId) in db.assignments && (roleId, permissionId) in db.granted;
    }
    if code in PermissionCodes(db, userId, now) {
      var g: (int, int) :| g in db.granted && g.0 in LiveRoles(db.assignments, userId, now) && g.0 in db.roleActive
        && db.roleActive[g.0] && g.1 in db.permissions && db.permissions[g.1].active
        && db.permissions[g.1].code == code;
      assert Carries(db, userId, g.0, g.1, code, now);
    }
  }

  predicate Carries(db: Db, userId: int, roleId: int, permissionId: int, code: string, now: Time) {
    && (userId, roleId) in db.assignments
    && (db.assignments[(userId, roleId)].Some? ==> now < db.assignments[(userId, roleId)].value)
    && roleId in db.roleActive && db.roleActive[roleId]
    && (roleId, permissionId) in db.granted
    && permissionId in db.permissions && db.permissions[permissionId].active
    && db.permissions[permissionId].code == code
  }

  /** An assignment gives the role until its expiry, or for ever without one; an
      assigned role keeps the expiry it has unless a new one is given. Nobody
      else's roles change, and no grant. */
  lemma AssignGives(
      db: Db, userId: int, roleId: int, expiresAt: Option<Time>, now: Time, later: Time, other: (int, int))
    ensures var after := Step(db, Event(AssignRole(userId, roleId, expiresAt), now));
      && after.(assignments := db.assignments) == db
      && (other != (userId, roleId) ==>
            (other.1 in LiveRoles(after.assignments, other.0, later)
             <==> other.1 in LiveRoles(db.assignments, other.0, later)))
      && (roleId in LiveRoles(after.assignments, userId, later) <==>
            if expiresAt.Some? then later < expiresAt.value
            else (userId, roleId) in db.assignments ==> roleId in LiveRoles(db.assignments, userId, later))
  {
    var after := Step(db, Event(AssignRole(userId, roleId, expiresAt), now));
    RoleIff(after.assignments, userId, roleId, later);
    RoleIff(db.assignments, userId, roleId, later);
    RoleIff(after.assignments, other.0, other.1, later);
    RoleIff(db.assignments, other.0, other.1, later);
  }

  lemma RoleIff(a: Assignments, userId: int, roleId: int, now: Time)
    ensures roleId in LiveRoles(a, userId, now)
      <==> (userId, roleId) in a && (a[(userId, roleId)].Some? ==> now < a[(userId, roleId)].value)
  {
    if (userId, roleId) in a && Unexpired(a[(userId, roleId)], now) {
      assert roleId in LiveRoles(a, userId, now);
    }
  }

  /** `revoke_all_roles` leaves the user none, and others theirs. */
  lemma RevokeAllTakes(db: Db, userId: int, other: int, now: Time, later: Time)
    ensures var after := Step(db, Event(RevokeAllRoles(userId), now));
      && after.(assignments := db.assignments) == db
      && LiveRoles(after.assignments, userId, later) == {}
      && (other != userId ==> LiveRoles(after.assignments, other, later) == LiveRoles(db.assignments, other, later))
  {
    var after := Step(db, Event(RevokeAllRoles(userId), now));
    if other != userId {
      forall r
        ensures r in LiveRoles(after.assignments, other, later) <==> r in LiveRoles(db.assignments, other, later) {
        RoleIff(after.assignments, other, r, later);
        RoleIff(db.assignments, other, r, later);
      }
    }
  }

  /** Adding, removing and setting permissions change the grants of that role to
      those named, and no other grant or assignment. */
  lemma GrantsAfter(db: Db, roleId: int, permissionId: int, permissionIds: set<int>, now: Time, r: int, p: int)
    ensures var (added, removed, replaced) := (Step(db, Event(AddPermission(roleId, permissionId), now)),
                                              Step(db, Event(RemovePermission(roleId, permissionId), now)),
                                              Step(db, Event(SetRolePermissions(roleId, permissionIds), now)));
      && added.(granted := db.granted) == removed.(granted := db.granted) == replaced.(granted := db.granted) == db
      && ((r, p) in added.granted <==> (r, p) in db.granted || (r == roleId && p == permissionId))
      && ((r, p) in removed.granted <==> (r, p) in db.granted && !(r == roleId && p == permissionId))
      && ((r, p) in replaced.granted <==> if r == roleId then p in permissionIds else (r, p) in db.granted)
  {
    if r == roleId && p in permissionIds {
      assert (roleId, p) in (set q | q in permissionIds :: (roleId, q));
    }
  }

  /** The cleanup deletes exactly the assignments whose expiry is past. */
  lemma CleanupDeletes(db: Db, now: Time, key: (int, int))
    ensures var after := Step(db, Event(Cleanup, now));
      && after.(assignments := db.assignments) == db
      && (key in after.assignments
          <==> key in db.assignments && (db.assignments[key].Some? ==> db.assignments[key].value >= now))
      && (key in after.assignments ==> after.assignments[key] == db.assignments[key])
  {
  }

  /** The operations that can give somebody a right. */
  predicate Gives(op: Op) {
    op.AssignRole? || op.AddPermission? || op.SetRolePermissions?
  }

  /** Nobody gains a right by waiting, or by any run of revocations, removals
      and cleanups. */
  lemma {:induction false} RightsOnlyLapse(db: Db, events: seq<Event>, userId: int, start: Time)
    requires Clocked(start, events)
    requires forall i :: 0 <= i < |events| ==> !Gives(events[i].op)
    ensures PermissionCodes(Run(db, events), userId, EndOf(start, events)) <= PermissionCodes(db, userId, start)
    decreases events
  {
    if events != [] {
      StepTakes(db, events[0], userId, start);
      RightsOnlyLapse(Step(db, events[0]), events[1..], userId, events[0].now);
    }
  }

  lemma StepTakes(db: Db, e: Event, userId: int, before: Time)
    requires before <= e.now && !Gives(e.op)
    ensures PermissionCodes(Step(db, e), userId, e.now) <= PermissionCodes(db, userId, before)
  {
    forall code | code in PermissionCodes(Step(db, e), userId, e.now)
      ensures code in PermissionCodes(db, userId, before)
    {
      HasCodeIff(Step(db, e), userId, code, e.now);
      HasCodeIff(db, userId, code, before);
      var r, p :| Carries(Step(db, e), userId, r, p, code, e.now);
      CarriedBefore(db, e, userId, r, p, code, before);
    }
  }

  lemma CarriedBefore(db: Db, e: Event, userId: int, roleId: int, permissionId: int, code: string, before: Time)
    requires before <= e.now && !Gives(e.op)
    requires Carries(Step(db, e), userId, roleId, permissionId, code, e.now)
    ensures Carries(db, userId, roleId, permissionId, code, before)
  {
  }

  /** Revoking a role takes from its user exactly what that role alone carried,
      and nothing from anyone else. */
  lemma RevokeTakesRole(db: Db, userId: int, roleId: int, other: int, now: Time)
    ensures var after := Step(db, Event(RevokeRole(userId, roleId), now));
      && LiveRoles(after.assignments, userId, now) == LiveRoles(db.assignments, userId, now) - {roleId}
      && PermissionCodes(after, userId, now) == CodesOf(db, LiveRoles(db.assignments, userId, now) - {roleId})
      && (other != userId ==> PermissionCodes(after, other, now) == PermissionCodes(db, other, now))
  {
    var after := Step(db, Event(RevokeRole(userId, roleId), now));
    RolesAfterRevoke(db.assignments, userId, roleId, userId, now);
    RolesAfterRevoke(db.assignments, userId, roleId, other, now);
  }

  lemma RolesAfterRevoke(a: Assignments, userId: int, roleId: int, who: int, now: Time)
    ensures LiveRoles(a - {(userId, roleId)}, who, now)
         == if who == userId then LiveRoles(a, who, now) - {roleId} else LiveRoles(a, who, now)
  {
    var b := a - {(userId, roleId)};
    forall r | r in LiveRoles(a, who, now) && (who, r) != (userId, roleId) ensures r in LiveRoles(b, who, now) {
      assert (who, r) in b;
    }
    forall r | r in LiveRoles(b, who, now) ensures r in LiveRoles(a, who, now) && (who, r) != (userId, roleId) {
      assert (who, r) in b;
    }
  }

  // ----------------------------------------------------------------- cleanup

  function Run(db: Db, events: seq<Event>): Db
    decreases events
  {
    if events == [] then db else Run(Step(db, events[0]), events[1..])
  }

  ghost predicate Clocked(start: Time, events: seq<Event>)
    decreases events
  {
    events == [] || (start <= events[0].now && Clocked(events[0].now, events[1..]))
  }

  function EndOf(start: Time, events: seq<Event>): Time
    decreases events
  {
    if events == [] then start else EndOf(events[0].now, events[1..])
  }

  /** Assigning without an expiry a role whose row has lapsed. */
  predicate Revives(a: Assignments, e: Event) {
    e.op.AssignRole? && e.op.expiresAt.None?
    && (e.op.userId, e.op.roleId) in a && Lapsed(a[(e.op.userId, e.op.roleId)], e.now)
  }

  /** ... and that the cleaned database `a` has lost. */
  predicate Diverges(a: Db, b: Db, e: Event) {
    Revives(b.assignments, e) && (e.op.userId, e.op.roleId) !in a.assignments
  }

  /** The step of a run from which the cleanups are deleted. */
  function StepUncleaned(db: Db, e: Event): Db {
    if e.op.Cleanup? then db else Step(db, e)
  }

  function RunUncleaned(db: Db, events: seq<Event>): Db
    decreases events
  {
    if events == [] then db else RunUncleaned(StepUncleaned(db, events[0]), events[1..])
  }

  ghost predicate NeverDiverges(a: Db, b: Db, events: seq<Event>)
    decreases events
  {
    events == [] ||
    (!Diverges(a, b, events[0]) && NeverDiverges(Step(a, events[0]), StepUncleaned(b, events[0]), events[1..]))
  }

  /** `pruned` is `full` without some lapsed rows. */
  ghost predicate Pruned(pruned: Db, full: Db, now: Time) {
    && pruned.(assignments := full.assignments) == full
    && (forall k :: k in pruned.assignments ==> k in full.assignments && pruned.assignments[k] == full.assignments[k])
    && (forall k :: k in full.assignments && !Lapsed(full.assignments[k], now) ==> k in pruned.assignments)
  }

  lemma PrunedRoles(a: Db, b: Db, userId: int, now: Time)
    requires Pruned(a, b, now)
    ensures LiveRoles(a.assignments, userId, now) == LiveRoles(b.assignments, userId, now)
    ensures PermissionCodes(a, userId, now) == PermissionCodes(b, userId, now)
  {
    var x, y := LiveRoles(a.assignments, userId, now), LiveRoles(b.assignments, userId, now);
    forall r | r in y ensures r in x {
      var k :| k in b.assignments && k.0 == userId && Unexpired(b.assignments[k], now) && k.1 == r;
      assert k in a.assignments;
    }
    forall r | r in x ensures r in y {
      var k :| k in a.assignments && k.0 == userId && Unexpired(a.assignments[k], now) && k.1 == r;
      assert k in b.assignments;
    }
    assert x == y;
  }

  /** Two sets of rows give every user the same roles from `now` on. */
  ghost predicate SameRoles(a: Assignments, b: Assignments, now: Time) {
    forall userId, later :: later >= now ==> LiveRoles(a, userId, later) == LiveRoles(b, userId, later)
  }

  /** Every user has the same roles after every event with and without cleanups. */
  ghost predicate AlwaysSameRoles(a: Db, b: Db, events: seq<Event>)
    decreases events
  {
    events == [] ||
    (SameRoles(Step(a, events[0]).assignments, StepUncleaned(b, events[0]).assignments, events[0].now)
     && AlwaysSameRoles(Step(a, events[0]), StepUncleaned(b, events[0]), events[1..]))
  }

  lemma PrunedSameRoles(a: Db, b: Db, now: Time)
    requires Pruned(a, b, now)
    ensures SameRoles(a.assignments, b.assignments, now)
  {
    forall userId, later | later >= now
      ensures LiveRoles(a.assignments, userId, later) == LiveRoles(b.assignments, userId, later)
    {
      SameUnexpired(a.assignments, b.assignments, userId, later);
    }
  }

  lemma StepStaysPruned(a: Db, b: Db, e: Event)
    requires Pruned(a, b, e.now) && !Diverges(a, b, e)
    ensures Pruned(Step(a, e), StepUncleaned(b, e), e.now)
  {
  }

  /** A divergence shows at once: the row is permanent with the cleanups and
      keeps its old expiry without. */
  lemma DivergenceShows(a: Db, b: Db, e: Event)
    requires Diverges(a, b, e)
    ensures !SameRoles(Step(a, e).assignments, StepUncleaned(b, e).assignments, e.now)
  {
    var x, y := Step(a, e).assignments, StepUncleaned(b, e).assignments;
    assert x[(e.op.userId, e.op.roleId)] == None;
    assert e.op.roleId in LiveRoles(x, e.op.userId, e.now);
    assert e.op.roleId !in LiveRoles(y, e.op.userId, e.now);
  }

  /** Deleting every cleanup from a run leaves all roles alone after every event,
      and from then on, if and only if no lapsed assignment that a cleanup has
      removed is renewed without an expiry. */
  lemma {:induction false} CleanupUnobservableIff(a: Db, b: Db, events: seq<Event>, start: Time)
    requires Pruned(a, b, start) && Clocked(start, events)
    ensures AlwaysSameRoles(a, b, events) <==> NeverDiverges(a, b, events)
    ensures NeverDiverges(a, b, events) ==> Pruned(Run(a, events), RunUncleaned(b, events), EndOf(start, events))
    decreases events
  {
    if events != [] {
      var e := events[0];
      assert Pruned(a, b, e.now);
      if Diverges(a, b, e) {
        DivergenceShows(a, b, e);
      } else {
        StepStaysPruned(a, b, e);
        PrunedSameRoles(Step(a, e), StepUncleaned(b, e), e.now);
        CleanupUnobservableIff(Step(a, e), StepUncleaned(b, e), events[1..], e.now);
      }
    }
  }

  /** So cleanups change no user's permission codes in such a run. */
  lemma CleanupUnobservable(db: Db, events: seq<Event>, userId: int, start: Time)
    requires Clocked(start, events) && NeverDiverges(db, db, events)
    ensures PermissionCodes(Run(db, events), userId, EndOf(start, events))
         == PermissionCodes(RunUncleaned(db, events), userId, EndOf(start, events))
  {
    CleanupUnobservableIff(db, db, events, start);
    PrunedRoles(Run(db, events), RunUncleaned(db, events), userId, EndOf(start, events));
  }

  /** One assignment shows whether a cleanup ran just before it if and only if
      it renews a lapsed row without an expiry: the row keeps its old expiry if
      it is still there, and is permanent if it is not. */
  lemma AssignSeesCleanupIff(a: Assignments, userId: int, roleId: int, expiresAt: Option<Time>, now: Time)
    ensures SameRoles(Assign(CleanupExpired(a, now), userId, roleId, expiresAt),
                Assign(a, userId, roleId, expiresAt), now)
      <==> !Revives(a, Event(AssignRole(userId, roleId, expiresAt), now))
  {
    var key := (userId, roleId);
    var x, y := Assign(CleanupExpired(a, now), userId, roleId, expiresAt), Assign(a, userId, roleId, expiresAt);
    if key in a && expiresAt.None? && Lapsed(a[key], now) {
      assert x[key] == None && key in x;
      assert roleId in LiveRoles(x, userId, now);
      assert roleId !in LiveRoles(y, userId, now);
    } else {
      forall u, later | later >= now ensures LiveRoles(x, u, later) == LiveRoles(y, u, later) {
        SameUnexpired(x, y, u, later);
      }
    }
  }

  lemma SameUnexpired(x: Assignments, y: Assignments, userId: int, now: Time)
    requires forall k :: k in x && Unexpired(x[k], now) ==> k in y && Unexpired(y[k], now)
    requires forall k :: k in y && Unexpired(y[k], now) ==> k in x && Unexpired(x[k], now)
    ensures LiveRoles(x, userId, now) == LiveRoles(y, userId, now)
  {
    forall r | r in LiveRoles(x, userId, now) ensures r in LiveRoles(y, userId, now) {
      var k :| k in x && k.0 == userId && Unexpired(x[k], now) && k.1 == r;
      assert k in y;
    }
    forall r | r in LiveRoles(y, userId, now) ensures r in LiveRoles(x, userId, now) {
      var k :| k in y && k.0 == userId && Unexpired(y[k], now) && k.1 == r;
      assert k in x;
    }
  }
}
