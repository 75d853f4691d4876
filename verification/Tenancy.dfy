/** Tenant-scoped user and tenant administration (internal/tenancy, internal/service/user_service.go,
    internal/service/tenant_service.go, internal/repository/user_repository.go). */
module Tenancy {
  import opened Text
  import opened Analyzer
  import opened Pages

  datatype Scope = Scope(tenant: string, user: string, role: string)
  {
    predicate Valid() { tenant != "" }
  }

  datatype Failure = Unauthenticated | Forbidden | Invalid | BadRequest | NotFound | Conflict | Internal

  datatype Result<+T> = Ok(value: T) | Err(failure: Failure)

  /** Rows are in order of creation; a listing shows the newest first. */
  datatype User = User(id: string, tenant: string, role: string, active: bool, deleted: bool)

  datatype Tenant = Tenant(name: string, plan: string, active: bool, deleted: bool)

  const ADMIN: string := "admin"

  predicate ValidRole(role: string) { role in {"admin", "developer", "viewer"} }

  predicate IsBlankText(s: string) { forall k :: 0 <= k < |s| ==> IsSpace(s[k]) }

  // ---- Guard ------------------------------------------------------------------------------

  function Guard(scope: Scope, owner: string): (r: Option<Failure>)
    ensures r.None? <==> scope.Valid() && owner == scope.tenant
    ensures r == Some(Unauthenticated) <==> !scope.Valid()
    ensures r == Some(NotFound) <==> scope.Valid() && owner != scope.tenant
  {
    if !scope.Valid() then Some(Unauthenticated)
    else if owner == "" || owner != scope.tenant then Some(NotFound)
    else None
  }

  // ---- what the SQL statements do to the users table -------------------------------------------

  predicate Matches(u: User, tenant: string, id: string) { u.id == id && u.tenant == tenant && !u.deleted }

  function Find(rows: seq<User>, tenant: string, id: string): (r: Option<User>)
    ensures r.Some? ==> Matches(r.value, tenant, id) && r.value in rows
    ensures r.None? ==> forall k :: 0 <= k < |rows| ==> !Matches(rows[k], tenant, id)
  {
    if rows == [] then None
    else if Matches(rows[0], tenant, id) then Some(rows[0])
    else Find(rows[1..], tenant, id)
  }

  datatype Change = NewRole(role: string) | NewStatus(active: bool)

  function Changed(u: User, c: Change): User {
    match c
    case NewRole(role) => u.(role := role)
    case NewStatus(active) => u.(active := active)
  }

  /** UPDATE ... WHERE id AND tenant_id AND deleted_at IS NULL. */
  function Update(rows: seq<User>, tenant: string, id: string, c: Change): (r: seq<User>)
    ensures |r| == |rows|
    ensures forall k :: 0 <= k < |rows| ==> r[k] == if Matches(rows[k], tenant, id) then Changed(rows[k], c) else rows[k]
  {
    if rows == [] then []
    else [if Matches(rows[0], tenant, id) then Changed(rows[0], c) else rows[0]] + Update(rows[1..], tenant, id, c)
  }

  predicate IsActiveAdmin(u: User, tenant: string) {
    u.tenant == tenant && u.role == ADMIN && u.active && !u.deleted
  }

  function CountAdmins(rows: seq<User>, tenant: string): nat {
    if rows == [] then 0 else (if IsActiveAdmin(rows[0], tenant) then 1 else 0) + CountAdmins(rows[1..], tenant)
  }

  /** A tenant's live users, newest first. */
  function Listing(rows: seq<User>, tenant: string): seq<User> {
    if rows == [] then []
    else if rows[0].tenant == tenant && !rows[0].deleted then Listing(rows[1..], tenant) + [rows[0]]
    else Listing(rows[1..], tenant)
  }

  function PageOf(all: seq<User>, page: int, pageSize: int): Result<seq<User>> {
    var r := Slice(all, page, pageSize);
    if r.None? then Err(Internal) else Ok(r.value)
  }

  class UserRepository {
    var rows: seq<User>

    constructor (rows: seq<User>)
      ensures this.rows == rows
    {
      this.rows := rows;
    }

    method GetByIDInTenant(tenant: string, id: string) returns (r: Option<User>)
      ensures r == Find(rows, tenant, id)
    {
      var i := 0;
      while i < |rows|
        invariant i <= |rows| && Find(rows, tenant, id) == Find(rows[i..], tenant, id)
      {
        if Matches(rows[i], tenant, id) {
          return Some(rows[i]);
        }
        i := i + 1;
      }
      return None;
    }

    method ListByTenant(tenant: string, page: int, pageSize: int) returns (r: Result<seq<User>>, total: nat)
      ensures total == |Listing(rows, tenant)| && r == PageOf(Listing(rows, tenant), page, pageSize)
    {
      var all: seq<User> := [];
      var i := |rows|;
      while i > 0
        invariant 0 <= i <= |rows| && all == Listing(rows[i..], tenant)
      {
        i := i - 1;
        assert rows[i..][1..] == rows[i + 1..];
        if rows[i].tenant == tenant && !rows[i].deleted {
          all := all + [rows[i]];
        }
      }
      assert rows[0..] == rows;
      total := |all|;
      r := PageOf(all, page, pageSize);
    }

    /** UpdateRoleInTenant and SetActiveInTenant; false is ErrNotFound. */
    method UpdateInTenant(tenant: string, id: string, c: Change) returns (found: bool)
      modifies this
      ensures rows == Update(old(rows), tenant, id, c)
      ensures found <==> exists k :: 0 <= k < |old(rows)| && Matches(old(rows)[k], tenant, id)
    {
      found := false;
      ghost var before := rows;
      for i := 0 to |rows|
        invariant |rows| == |before|
        invariant forall k :: 0 <= k < i ==>
                    rows[k] == if Matches(before[k], tenant, id) then Changed(before[k], c) else before[k]
        invariant forall k :: i <= k < |rows| ==> rows[k] == before[k]
        invariant found <==> exists k :: 0 <= k < i && Matches(before[k], tenant, id)
      {
        if Matches(rows[i], tenant, id) {
          rows := rows[i := Changed(rows[i], c)];
          found := true;
        }
      }
      assert rows == Update(before, tenant, id, c);
    }

    method CountAdminsInTenant(tenant: string) returns (n: nat)
      ensures n == CountAdmins(rows, tenant)
    {
      n := 0;
      var i := 0;
      while i < |rows|
        invariant i <= |rows| && CountAdmins(rows, tenant) == n + CountAdmins(rows[i..], tenant)
      {
        if IsActiveAdmin(rows[i], tenant) {
          n := n + 1;
        }
        i := i + 1;
      }
    }
  }

  // ---- the user service ---------------------------------------------------------------------------

  function GetUser(rows: seq<User>, scope: Scope, id: string): Result<User> {
    if !scope.Valid() then Err(Unauthenticated)
    else if IsBlankText(id) then Err(BadRequest)
    else
      var u := Find(rows, scope.tenant, id);
      if u.None? then Err(NotFound) else Ok(u.value)
  }

  datatype RoleChange = RoleChange(user: User, previous: string, current: string)

  /** Why a role change is refused, if it is. */
  function RoleRefusal(rows: seq<User>, scope: Scope, id: string, role: string): Option<Failure> {
    if !ValidRole(role) then Some(Invalid)
    else if scope.role != ADMIN then Some(Forbidden)
    else if scope.user != "" && scope.user == id then Some(Forbidden)
    else
      var target := GetUser(rows, scope, id);
      if target.Err? then Some(target.failure)
      else if target.value.role == ADMIN && role != ADMIN && CountAdmins(rows, scope.tenant) <= 1 then Some(Conflict)
      else None
  }

  function StatusRefusal(rows: seq<User>, scope: Scope, id: string, active: bool): Option<Failure> {
    if scope.role != ADMIN then Some(Forbidden)
    else if scope.user != "" && scope.user == id then Some(Forbidden)
    else
      var target := GetUser(rows, scope, id);
      if target.Err? then Some(target.failure)
      else if !active && target.value.role == ADMIN && CountAdmins(rows, scope.tenant) <= 1 then Some(Conflict)
      else None
  }

  class UserService {
    const repo: UserRepository

    constructor (repo: UserRepository)
      ensures this.repo == repo
    {
      this.repo := repo;
    }

    method Get(scope: Scope, id: string) returns (r: Result<User>)
      ensures r == GetUser(repo.rows, scope, id)
    {
      if !scope.Valid() {
        return Err(Unauthenticated);
      }
      if IsBlankText(id) {
        return Err(BadRequest);
      }
      var user := repo.GetByIDInTenant(scope.tenant, id);
      if user.None? {
        return Err(NotFound);
      }
      return Ok(user.value);
    }

    method List(scope: Scope, page: int, pageSize: int) returns (r: Result<seq<User>>, total: nat)
      ensures !scope.Valid() ==> r == Err(Unauthenticated)
      ensures scope.Valid() ==> r == PageOf(Listing(repo.rows, scope.tenant), page, pageSize)
      ensures r.Ok? ==> total == |Listing(repo.rows, scope.tenant)|
    {
      if !scope.Valid() {
        return Err(Unauthenticated), 0;
      }
      r, total := repo.ListByTenant(scope.tenant, page, pageSize);
    }

    method UpdateRole(scope: Scope, id: string, role: string) returns (r: Result<RoleChange>)
      modifies repo
      ensures r.Err? <==> RoleRefusal(old(repo.rows), scope, id, role).Some?
      ensures r.Err? ==> RoleRefusal(old(repo.rows), scope, id, role) == Some(r.failure)
      ensures r.Ok? ==> var target := Find(old(repo.rows), scope.tenant, id).value;
                        r.value == RoleChange(Changed(target, NewRole(role)), target.role, role)
      ensures repo.rows == if r.Ok? && r.value.previous != role
                           then Update(old(repo.rows), scope.tenant, id, NewRole(role)) else old(repo.rows)
    {
      if !ValidRole(role) {
        return Err(Invalid);
      }
      if scope.role != ADMIN {
        return Err(Forbidden);
      }
      if scope.user != "" && scope.user == id {
        return Err(Forbidden);
      }
      var got := Get(scope, id);
      if got.Err? {
        return Err(got.failure);
      }
      var target := got.value;
      var previous := target.role;
      if target.role == role {
        return Ok(RoleChange(target, role, role));
      }
      if target.role == ADMIN && role != ADMIN {
        var admins := repo.CountAdminsInTenant(scope.tenant);
        if admins <= 1 {
          return Err(Conflict);
        }
      }
      var found := repo.UpdateInTenant(scope.tenant, id, NewRole(role));
      assert found;
      return Ok(RoleChange(target.(role := role), previous, role));
    }

    method SetActive(scope: Scope, id: string, active: bool) returns (r: Result<User>)
      modifies repo
      ensures r.Err? <==> StatusRefusal(old(repo.rows), scope, id, active).Some?
      ensures r.Err? ==> StatusRefusal(old(repo.rows), scope, id, active) == Some(r.failure)
      ensures r.Ok? ==> r.value == Changed(Find(old(repo.rows), scope.tenant, id).value, NewStatus(active))
      ensures repo.rows == if r.Ok? then Update(old(repo.rows), scope.tenant, id, NewStatus(active)) else old(repo.rows)
    {
      if scope.role != ADMIN {
        return Err(Forbidden);
      }
      if scope.user != "" && scope.user == id {
        return Err(Forbidden);
      }
      var got := Get(scope, id);
      if got.Err? {
        return Err(got.failure);
      }
      var target := got.value;
      if !active && target.role == ADMIN {
        var admins := repo.CountAdminsInTenant(scope.tenant);
        if admins <= 1 {
          return Err(Conflict);
        }
      }
      var found := repo.UpdateInTenant(scope.tenant, id, NewStatus(active));
      assert found;
      return Ok(target.(active := active));
    }
  }

  // ---- the tenant service ------------------------------------------------------------------------

  type Tenants = map<string, Tenant>

  function CurrentTenant(rows: Tenants, scope: Scope): Result<Tenant> {
    if !scope.Valid() then Err(Unauthenticated)
    else if scope.tenant in rows && !rows[scope.tenant].deleted then Ok(rows[scope.tenant])
    else Err(NotFound)
  }

  predicate ValidName(name: string) { name != "" && ByteLength(name) <= 255 }

  /** The tenant UpdateForScope stores. A missing name changes nothing; the plan is not settable. */
  function RenamedTenant(rows: Tenants, scope: Scope, id: string, name: Option<string>): Result<Tenant> {
    if Guard(scope, id).Some? then Err(Guard(scope, id).value)
    else if scope.role != ADMIN then Err(Forbidden)
    else
      var t := CurrentTenant(rows, scope);
      if t.Err? then t
      else if name.None? then t
      else if !ValidName(Trim(name.value)) then Err(Invalid)
      else Ok(t.value.(name := Trim(name.value)))
  }

  class TenantService {
    var rows: Tenants

    constructor (rows: Tenants)
      ensures this.rows == rows
    {
      this.rows := rows;
    }

    method Current(scope: Scope) returns (r: Result<Tenant>)
      ensures r == CurrentTenant(rows, scope)
    {
      if !scope.Valid() {
        return Err(Unauthenticated);
      }
      if scope.tenant !in rows || rows[scope.tenant].deleted {
        return Err(NotFound);
      }
      return Ok(rows[scope.tenant]);
    }

    method GetForScope(scope: Scope, id: string) returns (r: Result<Tenant>)
      ensures scope.Valid() && id == scope.tenant ==> r == CurrentTenant(rows, scope)
      ensures scope.Valid() && id != scope.tenant ==> r == Err(NotFound)
      ensures !scope.Valid() ==> r == Err(Unauthenticated)
    {
      var refused := Guard(scope, id);
      if refused.Some? {
        return Err(refused.value);
      }
      r := Current(scope);
    }

    method UpdateForScope(scope: Scope, id: string, name: Option<string>) returns (r: Result<Tenant>)
      modifies this
      ensures r == RenamedTenant(old(rows), scope, id, name)
      ensures rows == if r.Ok? then old(rows)[scope.tenant := r.value] else old(rows)
      ensures r.Ok? ==> scope.tenant in old(rows) && r.value.plan == old(rows)[scope.tenant].plan
    {
      var refused := Guard(scope, id);
      if refused.Some? {
        return Err(refused.value);
      }
      if scope.role != ADMIN {
        return Err(Forbidden);
      }
      var got := Current(scope);
      if got.Err? {
        return got;
      }
      var t := got.value;
      if name.Some? {
        var trimmed := Trim(name.value);
        if !ValidName(trimmed) {
          return Err(Invalid);
        }
        t := t.(name := trimmed);
      }
      rows := rows[scope.tenant := t];
      return Ok(t);
    }
  }
}

/** Runs of tenant-scoped calls by any number of tenants, one after another. */
module TenantRuns {
  import opened Text
  import opened Tenancy

  datatype Db = Db(users: seq<User>, tenants: Tenants)

  datatype Call =
    | Get(scope: Scope, id: string)
    | List(scope: Scope, page: int, pageSize: int)
    | UpdateRole(scope: Scope, id: string, role: string)
    | SetActive(scope: Scope, id: string, active: bool)
    | Current(scope: Scope)
    | GetTenant(scope: Scope, id: string)
    | UpdateTenant(scope: Scope, id: string, name: Option<string>)

  datatype Answer =
    | Refused(failure: Failure)
    | OneUser(user: User)
    | Users(page: seq<User>, total: nat)
    | Role(change: RoleChange)
    | OneTenant(tenant: Tenant)

  function UserAnswer(r: Result<User>): Answer { if r.Err? then Refused(r.failure) else OneUser(r.value) }

  function TenantAnswer(r: Result<Tenant>): Answer { if r.Err? then Refused(r.failure) else OneTenant(r.value) }

  /** The answer and the next database, as the services' contracts give them. */
  function Serve(db: Db, c: Call): (Answer, Db) {
    match c
    case Get(scope, id) => (UserAnswer(GetUser(db.users, scope, id)), db)
    case List(scope, page, pageSize) =>
      (if !scope.Valid() then Refused(Unauthenticated)
       else
         var r := PageOf(Listing(db.users, scope.tenant), page, pageSize);
         if r.Err? then Refused(r.failure) else Users(r.value, |Listing(db.users, scope.tenant)|), db)
    case UpdateRole(scope, id, role) =>
      var refusal := RoleRefusal(db.users, scope, id, role);
      if refusal.Some? then (Refused(refusal.value), db)
      else
        var target := Find(db.users, scope.tenant, id).value;
        (Role(RoleChange(Changed(target, NewRole(role)), target.role, role)),
         if target.role == role then db else db.(users := Update(db.users, scope.tenant, id, NewRole(role))))
    case SetActive(scope, id, active) =>
      var refusal := StatusRefusal(db.users, scope, id, active);
      if refusal.Some? then (Refused(refusal.value), db)
      else
        (OneUser(Changed(Find(db.users, scope.tenant, id).value, NewStatus(active))),
         db.(users := Update(db.users, scope.tenant, id, NewStatus(active))))
    case Current(scope) => (TenantAnswer(CurrentTenant(db.tenants, scope)), db)
    case GetTenant(scope, id) =>
      (if Guard(scope, id).Some? then Refused(Guard(scope, id).value) else TenantAnswer(CurrentTenant(db.tenants, scope)), db)
    case UpdateTenant(scope, id, name) =>
      var r := RenamedTenant(db.tenants, scope, id, name);
      (TenantAnswer(r), if r.Err? then db else db.(tenants := db.tenants[scope.tenant := r.value]))
  }

  /** The services, called one after another, do what Serve says. */
  method Execute(users: UserService, tenants: TenantService, c: Call) returns (a: Answer)
    modifies users.repo, tenants
    ensures (a, Db(users.repo.rows, tenants.rows)) == Serve(Db(old(users.repo.rows), old(tenants.rows)), c)
  {
    match c
    case Get(scope, id) =>
      var r := users.Get(scope, id);
      a := UserAnswer(r);
    case List(scope, page, pageSize) =>
      var r, total := users.List(scope, page, pageSize);
      a := if r.Err? then Refused(r.failure) else Users(r.value, total);
    case UpdateRole(scope, id, role) =>
      var r := users.UpdateRole(scope, id, role);
      a := if r.Err? then Refused(r.failure) else Role(r.value);
    case SetActive(scope, id, active) =>
      var r := users.SetActive(scope, id, active);
      a := UserAnswer(r);
    case Current(scope) =>
      var r := tenants.Current(scope);
      a := TenantAnswer(r);
    case GetTenant(scope, id) =>
      var r := tenants.GetForScope(scope, id);
      a := TenantAnswer(r);
    case UpdateTenant(scope, id, name) =>
      var r := tenants.UpdateForScope(scope, id, name);
      a := TenantAnswer(r);
  }

  // ---- what a tenant can see ------------------------------------------------------------------

  /** The rows of one tenant, in table order. */
  function OfTenant(rows: seq<User>, tenant: string): seq<User> {
    if rows == [] then []
    else if rows[0].tenant == tenant then [rows[0]] + OfTenant(rows[1..], tenant)
    else OfTenant(rows[1..], tenant)
  }

  datatype View = View(users: seq<User>, tenant: Option<Tenant>)

  function ViewOf(db: Db, tenant: string): View {
    View(OfTenant(db.users, tenant), if tenant in db.tenants then Some(db.tenants[tenant]) else None)
  }

  lemma {:induction false} FindInView(rows: seq<User>, tenant: string, id: string)
    ensures Find(rows, tenant, id) == Find(OfTenant(rows, tenant), tenant, id)
  {
    if rows != [] {
      FindInView(rows[1..], tenant, id);
      if rows[0].tenant == tenant { assert OfTenant(rows, tenant)[1..] == OfTenant(rows[1..], tenant); }
    }
  }

  lemma {:induction false} CountInView(rows: seq<User>, tenant: string)
    ensures CountAdmins(rows, tenant) == CountAdmins(OfTenant(rows, tenant), tenant)
  {
    if rows != [] {
      CountInView(rows[1..], tenant);
      if rows[0].tenant == tenant { assert OfTenant(rows, tenant)[1..] == OfTenant(rows[1..], tenant); }
    }
  }

  lemma {:induction false} ListingInView(rows: seq<User>, tenant: string)
    ensures Listing(rows, tenant) == Listing(OfTenant(rows, tenant), tenant)
  {
    if rows != [] {
      ListingInView(rows[1..], tenant);
      if rows[0].tenant == tenant { assert OfTenant(rows, tenant)[1..] == OfTenant(rows[1..], tenant); }
    }
  }

  /** An update is seen by the actor's tenant as the same update ... */
  lemma {:induction false} UpdateSeen(rows: seq<User>, tenant: string, id: string, c: Change)
    ensures OfTenant(Update(rows, tenant, id, c), tenant) == Update(OfTenant(rows, tenant), tenant, id, c)
  {
    if rows != [] {
      UpdateSeen(rows[1..], tenant, id, c);
      assert Update(rows, tenant, id, c)[1..] == Update(rows[1..], tenant, id, c);
      if rows[0].tenant == tenant { assert OfTenant(rows, tenant)[1..] == OfTenant(rows[1..], tenant); }
    }
  }

  /** ... and by the other tenants not at all. */
  lemma {:induction false} UpdateUnseen(rows: seq<User>, actor: string, id: string, c: Change, tenant: string)
    requires actor != tenant
    ensures OfTenant(Update(rows, actor, id, c), tenant) == OfTenant(rows, tenant)
  {
    if rows != [] {
      UpdateUnseen(rows[1..], actor, id, c, tenant);
      assert Update(rows, actor, id, c)[1..] == Update(rows[1..], actor, id, c);
    }
  }

  /** Other tenants' calls do not change what a tenant sees. */
  lemma OthersInvisible(db: Db, c: Call, tenant: string)
    requires c.scope.tenant != tenant
    ensures ViewOf(Serve(db, c).1, tenant) == ViewOf(db, tenant)
  {
    match c
    case UpdateRole(scope, id, role) => UpdateUnseen(db.users, scope.tenant, id, NewRole(role), tenant);
    case SetActive(scope, id, active) => UpdateUnseen(db.users, scope.tenant, id, NewStatus(active), tenant);
    case _ =>
  }

  /** Reads and their checks depend on the view alone. */
  lemma ReadsAlike(db: Db, db': Db, scope: Scope, id: string)
    requires ViewOf(db, scope.tenant) == ViewOf(db', scope.tenant)
    ensures GetUser(db.users, scope, id) == GetUser(db'.users, scope, id)
    ensures Find(db.users, scope.tenant, id) == Find(db'.users, scope.tenant, id)
    ensures CountAdmins(db.users, scope.tenant) == CountAdmins(db'.users, scope.tenant)
    ensures Listing(db.users, scope.tenant) == Listing(db'.users, scope.tenant)
    ensures CurrentTenant(db.tenants, scope) == CurrentTenant(db'.tenants, scope)
  {
    var tenant := scope.tenant;
    FindInView(db.users, tenant, id);
    FindInView(db'.users, tenant, id);
    CountInView(db.users, tenant);
    CountInView(db'.users, tenant);
    ListingInView(db.users, tenant);
    ListingInView(db'.users, tenant);
  }

  lemma RefusalsAlike(db: Db, db': Db, c: Call)
    requires ViewOf(db, c.scope.tenant) == ViewOf(db', c.scope.tenant)
    ensures c.UpdateRole? ==> RoleRefusal(db.users, c.scope, c.id, c.role) == RoleRefusal(db'.users, c.scope, c.id, c.role)
    ensures c.SetActive? ==> StatusRefusal(db.users, c.scope, c.id, c.active) == StatusRefusal(db'.users, c.scope, c.id, c.active)
  {
    if c.UpdateRole? || c.SetActive? { ReadsAlike(db, db', c.scope, c.id); }
  }

  lemma UpdatesAlike(db: Db, db': Db, tenant: string, id: string, c: Change)
    requires ViewOf(db, tenant) == ViewOf(db', tenant)
    ensures ViewOf(db.(users := Update(db.users, tenant, id, c)), tenant)
            == ViewOf(db'.(users := Update(db'.users, tenant, id, c)), tenant)
  {
    UpdateSeen(db.users, tenant, id, c);
    UpdateSeen(db'.users, tenant, id, c);
  }

  lemma RoleChangesAlike(db: Db, db': Db, c: Call)
    requires ViewOf(db, c.scope.tenant) == ViewOf(db', c.scope.tenant) && c.UpdateRole?
    ensures Serve(db, c).0 == Serve(db', c).0
    ensures ViewOf(Serve(db, c).1, c.scope.tenant) == ViewOf(Serve(db', c).1, c.scope.tenant)
  {
    ReadsAlike(db, db', c.scope, c.id);
    RefusalsAlike(db, db', c);
    UpdatesAlike(db, db', c.scope.tenant, c.id, NewRole(c.role));
  }

  lemma StatusChangesAlike(db: Db, db': Db, c: Call)
    requires ViewOf(db, c.scope.tenant) == ViewOf(db', c.scope.tenant) && c.SetActive?
    ensures Serve(db, c).0 == Serve(db', c).0
    ensures ViewOf(Serve(db, c).1, c.scope.tenant) == ViewOf(Serve(db', c).1, c.scope.tenant)
  {
    ReadsAlike(db, db', c.scope, c.id);
    RefusalsAlike(db, db', c);
    UpdatesAlike(db, db', c.scope.tenant, c.id, NewStatus(c.active));
  }

  /** A tenant's own call depends only on what the tenant sees. */
  lemma OwnCallsLocal(db: Db, db': Db, c: Call)
    requires ViewOf(db, c.scope.tenant) == ViewOf(db', c.scope.tenant)
    ensures Serve(db, c).0 == Serve(db', c).0
    ensures ViewOf(Serve(db, c).1, c.scope.tenant) == ViewOf(Serve(db', c).1, c.scope.tenant)
  {
    if c.UpdateRole? {
      RoleChangesAlike(db, db', c);
    } else if c.SetActive? {
      StatusChangesAlike(db, db', c);
    } else {
      ReadsAlike(db, db', c.scope, if c.Get? then c.id else "");
    }
  }

  // ---- noninterference -------------------------------------------------------------------------

  function Final(db: Db, calls: seq<Call>): Db
    decreases |calls|
  {
    if calls == [] then db else Final(Serve(db, calls[0]).1, calls[1..])
  }

  /** The answers a tenant receives in a run. */
  function AnswersTo(db: Db, calls: seq<Call>, tenant: string): seq<Answer>
    decreases |calls|
  {
    if calls == [] then []
    else
      var (answer, next) := Serve(db, calls[0]);
      if calls[0].scope.tenant == tenant then [answer] + AnswersTo(next, calls[1..], tenant)
      else AnswersTo(next, calls[1..], tenant)
  }

  function CallsOf(calls: seq<Call>, tenant: string): seq<Call>
    decreases |calls|
  {
    if calls == [] then []
    else if calls[0].scope.tenant == tenant then [calls[0]] + CallsOf(calls[1..], tenant)
    else CallsOf(calls[1..], tenant)
  }

  lemma {:induction false} RunsAlike(db: Db, db': Db, calls: seq<Call>, tenant: string)
    requires ViewOf(db, tenant) == ViewOf(db', tenant)
    ensures AnswersTo(db, calls, tenant) == AnswersTo(db', CallsOf(calls, tenant), tenant)
    ensures ViewOf(Final(db, calls), tenant) == ViewOf(Final(db', CallsOf(calls, tenant)), tenant)
    decreases |calls|
  {
    if calls != [] {
      var c, own := calls[0], CallsOf(calls[1..], tenant);
      if c.scope.tenant == tenant {
        OwnCallsLocal(db, db', c);
        assert CallsOf(calls, tenant) == [c] + own && ([c] + own)[1..] == own;
        RunsAlike(Serve(db, c).1, Serve(db', c).1, calls[1..], tenant);
      } else {
        OthersInvisible(db, c, tenant);
        assert CallsOf(calls, tenant) == own;
        RunsAlike(Serve(db, c).1, db', calls[1..], tenant);
      }
    }
  }

  /** Noninterference: deleting all other tenants' calls from any sequential run leaves every
      answer and every row the tenant sees unchanged. */
  lemma Noninterference(db: Db, calls: seq<Call>, tenant: string)
    ensures AnswersTo(db, calls, tenant) == AnswersTo(db, CallsOf(calls, tenant), tenant)
    ensures ViewOf(Final(db, calls), tenant) == ViewOf(Final(db, CallsOf(calls, tenant)), tenant)
  {
    RunsAlike(db, db, calls, tenant);
  }

  // ---- the last admin ---------------------------------------------------------------------------

  /** The primary key. */
  predicate UniqueIds(rows: seq<User>) {
    forall i, j :: 0 <= i < j < |rows| ==> rows[i].id != rows[j].id
  }

  lemma {:induction false} AdminsElsewhere(rows: seq<User>, actor: string, id: string, c: Change, tenant: string)
    requires forall k :: 0 <= k < |rows| ==> rows[k].id != id || rows[k].tenant != tenant || actor != tenant
    ensures CountAdmins(Update(rows, actor, id, c), tenant) == CountAdmins(rows, tenant)
  {
    if rows != [] {
      AdminsElsewhere(rows[1..], actor, id, c, tenant);
      assert Update(rows, actor, id, c)[1..] == Update(rows[1..], actor, id, c);
    }
  }

  /** One update changes the number of a tenant's active admins by at most one, and not at all
      unless it takes the role or the status from an active admin of the actor's tenant. */
  lemma {:induction false} AdminsAfterUpdate(rows: seq<User>, actor: string, id: string, c: Change, tenant: string)
    requires UniqueIds(rows)
    ensures CountAdmins(Update(rows, actor, id, c), tenant) + 1 >= CountAdmins(rows, tenant)
    ensures actor != tenant || c == NewRole(ADMIN) || c == NewStatus(true)
            || (Find(rows, tenant, id).Some? && Find(rows, tenant, id).value.role != ADMIN)
            ==> CountAdmins(Update(rows, actor, id, c), tenant) >= CountAdmins(rows, tenant)
  {
    if rows != [] {
      assert Update(rows, actor, id, c)[1..] == Update(rows[1..], actor, id, c);
      if rows[0].id == id {
        forall k | 0 <= k < |rows[1..]| ensures rows[1..][k].id != id { assert rows[1..][k] == rows[k + 1]; }
        AdminsElsewhere(rows[1..], actor, id, c, tenant);
      } else {
        AdminsAfterUpdate(rows[1..], actor, id, c, tenant);
      }
    }
  }

  predicate Allowed(rows: seq<User>, scope: Scope, id: string, c: Change) {
    match c
    case NewRole(role) => RoleRefusal(rows, scope, id, role).None?
    case NewStatus(active) => StatusRefusal(rows, scope, id, active).None?
  }

  /** Taking an admin's role or status away is allowed only beside a second admin. */
  lemma AllowedOnlyBesideAnother(rows: seq<User>, scope: Scope, id: string, c: Change)
    requires Allowed(rows, scope, id, c)
    ensures c == NewRole(ADMIN) || c == NewStatus(true) || CountAdmins(rows, scope.tenant) >= 2
            || (Find(rows, scope.tenant, id).Some? && Find(rows, scope.tenant, id).value.role != ADMIN)
  {
    match c
    case NewRole(role) => assert GetUser(rows, scope, id).Ok?;
    case NewStatus(active) => assert GetUser(rows, scope, id).Ok?;
  }

  /** An update the service does not refuse leaves an admin. */
  lemma AllowedUpdateKeepsAdmin(rows: seq<User>, scope: Scope, id: string, c: Change, tenant: string)
    requires UniqueIds(rows) && CountAdmins(rows, tenant) >= 1 && Allowed(rows, scope, id, c)
    ensures CountAdmins(Update(rows, scope.tenant, id, c), tenant) >= 1
  {
    AllowedOnlyBesideAnother(rows, scope, id, c);
    AdminsAfterUpdate(rows, scope.tenant, id, c, tenant);
    var before, after := CountAdmins(rows, tenant), CountAdmins(Update(rows, scope.tenant, id, c), tenant);
    assert after + 1 >= before;
    if scope.tenant == tenant && before == 1 { assert after >= before; }
  }

  lemma UpdateKeepsIds(rows: seq<User>, tenant: string, id: string, c: Change)
    requires UniqueIds(rows)
    ensures UniqueIds(Update(rows, tenant, id, c))
  {
  }

  /** The users table changes only by an update the service allowed. */
  lemma UsersAfter(db: Db, call: Call) returns (id: string, c: Change)
    ensures var users := Serve(db, call).1.users;
            users == db.users || (Allowed(db.users, call.scope, id, c) && users == Update(db.users, call.scope.tenant, id, c))
  {
    id, c := "", NewStatus(true);
    if call.UpdateRole? { id, c := call.id, NewRole(call.role); }
    if call.SetActive? { id, c := call.id, NewStatus(call.active); }
  }

  lemma ServeKeepsAdmin(db: Db, call: Call, tenant: string)
    requires UniqueIds(db.users) && CountAdmins(db.users, tenant) >= 1
    ensures UniqueIds(Serve(db, call).1.users) && CountAdmins(Serve(db, call).1.users, tenant) >= 1
  {
    var users := Serve(db, call).1.users;
    var id, c := UsersAfter(db, call);
    if users != db.users {
      UpdateKeepsIds(db.users, call.scope.tenant, id, c);
      AllowedUpdateKeepsAdmin(db.users, call.scope, id, c, tenant);
    }
  }

  lemma {:induction false} CountSurvives(db: Db, calls: seq<Call>, tenant: string)
    requires UniqueIds(db.users) && CountAdmins(db.users, tenant) >= 1
    ensures CountAdmins(Final(db, calls).users, tenant) >= 1
    decreases |calls|
  {
    if calls != [] {
      ServeKeepsAdmin(db, calls[0], tenant);
      CountSurvives(Serve(db, calls[0]).1, calls[1..], tenant);
    }
  }

  /** Row k is a live, active admin of the tenant. */
  predicate AdminAt(rows: seq<User>, tenant: string, k: int) {
    0 <= k < |rows| && rows[k].tenant == tenant && rows[k].role == "admin" && rows[k].active && !rows[k].deleted
  }

  lemma AdminBehind(rows: seq<User>, tenant: string, k: int)
    requires rows != [] && k >= 1
    ensures AdminAt(rows, tenant, k) <==> AdminAt(rows[1..], tenant, k - 1)
  {
  }

  lemma {:induction false} AdminsCounted(rows: seq<User>, tenant: string)
    ensures CountAdmins(rows, tenant) >= 1 <==> exists k :: AdminAt(rows, tenant, k)
  {
    if rows != [] {
      AdminsCounted(rows[1..], tenant);
      if AdminAt(rows, tenant, 0) {
      } else if k :| AdminAt(rows, tenant, k) {
        AdminBehind(rows, tenant, k);
      } else if k :| AdminAt(rows[1..], tenant, k) {
        AdminBehind(rows, tenant, k + 1);
      }
    }
  }

  lemma {:induction false} TwoAdminsCounted(rows: seq<User>, tenant: string)
    ensures CountAdmins(rows, tenant) >= 2 <==> exists j, k :: j < k && AdminAt(rows, tenant, j) && AdminAt(rows, tenant, k)
  {
    if rows != [] {
      TwoAdminsCounted(rows[1..], tenant);
      AdminsCounted(rows[1..], tenant);
      if CountAdmins(rows, tenant) >= 2 {
        if AdminAt(rows, tenant, 0) {
          var k :| AdminAt(rows[1..], tenant, k);
          AdminBehind(rows, tenant, k + 1);
          assert 0 < k + 1 && AdminAt(rows, tenant, 0) && AdminAt(rows, tenant, k + 1);
        } else {
          var j, k :| j < k && AdminAt(rows[1..], tenant, j) && AdminAt(rows[1..], tenant, k);
          AdminBehind(rows, tenant, j + 1);
          AdminBehind(rows, tenant, k + 1);
          assert j + 1 < k + 1 && AdminAt(rows, tenant, j + 1) && AdminAt(rows, tenant, k + 1);
        }
      } else if j, k :| j < k && AdminAt(rows, tenant, j) && AdminAt(rows, tenant, k) {
        AdminBehind(rows, tenant, k);
        if j > 0 {
          AdminBehind(rows, tenant, j);
          assert j - 1 < k - 1 && AdminAt(rows[1..], tenant, j - 1) && AdminAt(rows[1..], tenant, k - 1);
        }
      }
    }
  }

  /** Last admin survives: in every sequential run of calls by any callers, a tenant with a live,
      active admin always has one. */
  lemma LastAdminSurvives(db: Db, calls: seq<Call>, tenant: string)
    requires UniqueIds(db.users) && exists k :: AdminAt(db.users, tenant, k)
    ensures exists k :: AdminAt(Final(db, calls).users, tenant, k)
  {
    AdminsCounted(db.users, tenant);
    CountSurvives(db, calls, tenant);
    AdminsCounted(Final(db, calls).users, tenant);
  }
}
