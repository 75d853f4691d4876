/** Who may change what in user and tenant administration, said by the rows before and after a
    call and by the caller's scope. */
module Authority {
  import opened Text
  import opened Analyzer
  import opened Pages
  import opened Tenancy
  import opened TenantRuns

  /** Row k is the live user with this id in this tenant. */
  predicate UserAt(rows: seq<User>, tenant: string, id: string, k: int) {
    0 <= k < |rows| && rows[k].id == id && rows[k].tenant == tenant && !rows[k].deleted
  }

  predicate Mutates(c: Call) { c.UpdateRole? || c.SetActive? || c.UpdateTenant? }

  // ---- nothing changes without authority ---------------------------------------------------

  /** A call changes a user's row only for an admin of the row's tenant who is somebody else, and
      then exactly as asked: to one of the three roles, or the status. */
  lemma UserChangesAreAuthorized(db: Db, c: Call, k: nat)
    requires k < |db.users|
    ensures var users := Serve(db, c).1.users;
            && |users| == |db.users|
            && (users[k] != db.users[k] ==>
                  && c.scope.role == "admin" && c.scope.tenant != "" && (c.UpdateRole? || c.SetActive?)
                  && UserAt(db.users, c.scope.tenant, c.id, k) && c.id != c.scope.user
                  && (c.UpdateRole? ==> c.role in {"admin", "developer", "viewer"} && users[k] == db.users[k].(role := c.role))
                  && (c.SetActive? ==> users[k] == db.users[k].(active := c.active)))
  {
  }

  /** A call changes a tenant's row only for an admin of that tenant, and then only its name. */
  lemma TenantChangesAreAuthorized(db: Db, c: Call, id: string)
    requires id in db.tenants
    ensures var tenants := Serve(db, c).1.tenants;
            && tenants.Keys == db.tenants.Keys
            && (tenants[id] != db.tenants[id] ==>
                  && c.UpdateTenant? && c.scope.role == "admin" && id == c.scope.tenant == c.id && id != ""
                  && c.name.Some? && tenants[id] == db.tenants[id].(name := Trim(c.name.value))
                  && 1 <= ByteLength(tenants[id].name) <= 255 && !db.tenants[id].deleted)
  {
    var tenants := Serve(db, c).1.tenants;
    if c.UpdateTenant? { assert tenants[id].name != "" ==> ByteLength(tenants[id].name) >= 1; }
  }

  /** Whoever is no admin is refused every change, in every state. */
  lemma OthersAreRefused(db: Db, c: Call)
    requires Mutates(c) && c.scope.role != "admin"
    ensures Serve(db, c).0.Refused? && Serve(db, c).1 == db
  {
  }

  /** The calls of admins. */
  function OfAdmins(calls: seq<Call>): seq<Call>
    decreases |calls|
  {
    if calls == [] then []
    else (if calls[0].scope.role == "admin" then [calls[0]] else []) + OfAdmins(calls[1..])
  }

  /** In every run, the calls of everybody but admins leave no trace in the database. */
  lemma {:induction false} OnlyAdminsChange(db: Db, calls: seq<Call>)
    ensures Final(db, calls) == Final(db, OfAdmins(calls))
    decreases |calls|
  {
    if calls != [] {
      var rest := OfAdmins(calls[1..]);
      OnlyAdminsChange(Serve(db, calls[0]).1, calls[1..]);
      if calls[0].scope.role == "admin" {
        assert OfAdmins(calls) == [calls[0]] + rest && ([calls[0]] + rest)[1..] == rest;
      } else {
        assert OfAdmins(calls) == rest;
        if Mutates(calls[0]) { OthersAreRefused(db, calls[0]); }
      }
    }
  }

  // ---- the answers ----------------------------------------------------------------------------

  lemma FindsRow(rows: seq<User>, tenant: string, id: string, k: int)
    requires UniqueIds(rows) && UserAt(rows, tenant, id, k)
    ensures Find(rows, tenant, id) == Some(rows[k])
  {
    var found := Find(rows, tenant, id);
    assert Matches(rows[k], tenant, id);
    var j :| 0 <= j < |rows| && rows[j] == found.value;
    assert rows[j].id == rows[k].id;
  }

  lemma FindGivesRow(rows: seq<User>, tenant: string, id: string)
    ensures Find(rows, tenant, id).Some? ==> exists k :: UserAt(rows, tenant, id, k)
  {
    var found := Find(rows, tenant, id);
    if found.Some? {
      var k :| 0 <= k < |rows| && rows[k] == found.value;
      assert UserAt(rows, tenant, id, k);
    }
  }

  lemma FindsNone(rows: seq<User>, tenant: string, id: string)
    requires forall k :: !UserAt(rows, tenant, id, k)
    ensures Find(rows, tenant, id) == None
  {
    FindGivesRow(rows, tenant, id);
  }

  /** The caller's scope names a tenant and the id is not blank. */
  predicate WellAddressed(scope: Scope, id: string) { scope.tenant != "" && !AllSpace(id) }

  /** A user is read exactly by callers of the user's own tenant, while the user is live. */
  lemma GetAnswers(db: Db, scope: Scope, id: string)
    requires UniqueIds(db.users)
    ensures var a := Serve(db, Call.Get(scope, id)).0;
            && (scope.tenant == "" ==> a == Refused(Unauthenticated))
            && (scope.tenant != "" && AllSpace(id) ==> a == Refused(BadRequest))
            && (WellAddressed(scope, id) ==>
                  && (forall k :: UserAt(db.users, scope.tenant, id, k) ==> a == OneUser(db.users[k]))
                  && ((forall k :: !UserAt(db.users, scope.tenant, id, k)) ==> a == Refused(NotFound)))
  {
    forall k | UserAt(db.users, scope.tenant, id, k) ensures Find(db.users, scope.tenant, id) == Some(db.users[k]) {
      FindsRow(db.users, scope.tenant, id, k);
    }
    if forall k :: !UserAt(db.users, scope.tenant, id, k) { FindsNone(db.users, scope.tenant, id); }
  }

  /** An admin who is not the target, in a scope that names a tenant. */
  predicate ActsOnOther(scope: Scope, id: string) {
    scope.role == "admin" && (scope.user == "" || scope.user != id)
  }

  /** At least two live, active admins. */
  ghost predicate TwoAdmins(rows: seq<User>, tenant: string) {
    exists j, k :: j < k && AdminAt(rows, tenant, j) && AdminAt(rows, tenant, k)
  }

  lemma OneRowChanges(rows: seq<User>, tenant: string, id: string, c: Change, k: int)
    requires UniqueIds(rows) && UserAt(rows, tenant, id, k)
    ensures Update(rows, tenant, id, c) == rows[k := Changed(rows[k], c)]
  {
    assert forall j :: 0 <= j < |rows| && j != k ==> rows[j].id != rows[k].id;
  }

  lemma RoleByCount(db: Db, scope: Scope, id: string, role: string, target: User)
    requires role in {"admin", "developer", "viewer"} && ActsOnOther(scope, id) && WellAddressed(scope, id)
    requires Find(db.users, scope.tenant, id) == Some(target)
    ensures var (a, after) := Serve(db, UpdateRole(scope, id, role));
            if target.role == "admin" && role != "admin" && CountAdmins(db.users, scope.tenant) < 2 then a == Refused(Conflict)
            else
              && a == Role(RoleChange(target.(role := role), target.role, role))
              && after.users == if target.role == role then db.users else Update(db.users, scope.tenant, id, NewRole(role))
  {
  }

  lemma StatusByCount(db: Db, scope: Scope, id: string, active: bool, target: User)
    requires ActsOnOther(scope, id) && WellAddressed(scope, id) && Find(db.users, scope.tenant, id) == Some(target)
    ensures var (a, after) := Serve(db, SetActive(scope, id, active));
            if target.role == "admin" && !active && CountAdmins(db.users, scope.tenant) < 2 then a == Refused(Conflict)
            else
              && a == OneUser(target.(active := active))
              && after.users == Update(db.users, scope.tenant, id, NewStatus(active))
  {
  }

  /** The count decides as the rows do. */
  lemma CountTwo(rows: seq<User>, tenant: string)
    ensures TwoAdmins(rows, tenant) <==> CountAdmins(rows, tenant) >= 2
  {
    TwoAdminsCounted(rows, tenant);
  }

  lemma RoleOfFound(db: Db, scope: Scope, id: string, role: string, k: int)
    requires UniqueIds(db.users) && role in {"admin", "developer", "viewer"} && ActsOnOther(scope, id)
    requires WellAddressed(scope, id) && UserAt(db.users, scope.tenant, id, k)
    ensures var (a, after) := Serve(db, UpdateRole(scope, id, role));
            if db.users[k].role == "admin" && role != "admin" && !TwoAdmins(db.users, scope.tenant)
            then a == Refused(Conflict)
            else a == Role(RoleChange(db.users[k].(role := role), db.users[k].role, role))
                 && after.users == db.users[k := db.users[k].(role := role)]
  {
    FindsRow(db.users, scope.tenant, id, k);
    OneRowChanges(db.users, scope.tenant, id, NewRole(role), k);
    CountTwo(db.users, scope.tenant);
    RoleByCount(db, scope, id, role, db.users[k]);
  }

  /** What a role change is answered: the first rule it breaks, in this order, or the change. */
  lemma RoleAnswers(db: Db, scope: Scope, id: string, role: string)
    requires UniqueIds(db.users)
    ensures var a, users := Serve(db, UpdateRole(scope, id, role)).0, Serve(db, UpdateRole(scope, id, role)).1.users;
            if role !in {"admin", "developer", "viewer"} then a == Refused(Invalid)
            else if !ActsOnOther(scope, id) then a == Refused(Forbidden)
            else if scope.tenant == "" then a == Refused(Unauthenticated)
            else if AllSpace(id) then a == Refused(BadRequest)
            else
              && ((forall k :: !UserAt(db.users, scope.tenant, id, k)) ==> a == Refused(NotFound))
              && (forall k :: UserAt(db.users, scope.tenant, id, k) ==>
                    if db.users[k].role == "admin" && role != "admin" && !TwoAdmins(db.users, scope.tenant)
                    then a == Refused(Conflict)
                    else a == Role(RoleChange(db.users[k].(role := role), db.users[k].role, role))
                         && users == db.users[k := db.users[k].(role := role)])
  {
    if role in {"admin", "developer", "viewer"} && ActsOnOther(scope, id) && WellAddressed(scope, id) {
      if k :| UserAt(db.users, scope.tenant, id, k) {
        RoleOfFound(db, scope, id, role, k);
        OneRow(db.users, scope.tenant, id, k);
      } else {
        FindsNone(db.users, scope.tenant, id);
      }
    }
  }

  lemma OneRow(rows: seq<User>, tenant: string, id: string, k: int)
    requires UniqueIds(rows) && UserAt(rows, tenant, id, k)
    ensures forall j :: UserAt(rows, tenant, id, j) ==> j == k
  {
    assert forall j :: 0 <= j < |rows| && j != k ==> rows[j].id != rows[k].id;
  }

  lemma StatusOfFound(db: Db, scope: Scope, id: string, active: bool, k: int)
    requires UniqueIds(db.users) && ActsOnOther(scope, id) && WellAddressed(scope, id) && UserAt(db.users, scope.tenant, id, k)
    ensures var (a, after) := Serve(db, SetActive(scope, id, active));
            if db.users[k].role == "admin" && !active && !TwoAdmins(db.users, scope.tenant)
            then a == Refused(Conflict)
            else a == OneUser(db.users[k].(active := active))
                 && after.users == db.users[k := db.users[k].(active := active)]
  {
    FindsRow(db.users, scope.tenant, id, k);
    OneRowChanges(db.users, scope.tenant, id, NewStatus(active), k);
    CountTwo(db.users, scope.tenant);
    StatusByCount(db, scope, id, active, db.users[k]);
  }

  /** What a change of status is answered. */
  lemma StatusAnswers(db: Db, scope: Scope, id: string, active: bool)
    requires UniqueIds(db.users)
    ensures var a, users := Serve(db, SetActive(scope, id, active)).0, Serve(db, SetActive(scope, id, active)).1.users;
            if !ActsOnOther(scope, id) then a == Refused(Forbidden)
            else if scope.tenant == "" then a == Refused(Unauthenticated)
            else if AllSpace(id) then a == Refused(BadRequest)
            else
              && ((forall k :: !UserAt(db.users, scope.tenant, id, k)) ==> a == Refused(NotFound))
              && (forall k :: UserAt(db.users, scope.tenant, id, k) ==>
                    if db.users[k].role == "admin" && !active && !TwoAdmins(db.users, scope.tenant)
                    then a == Refused(Conflict)
                    else a == OneUser(db.users[k].(active := active))
                         && users == db.users[k := db.users[k].(active := active)])
  {
    if ActsOnOther(scope, id) && WellAddressed(scope, id) {
      if k :| UserAt(db.users, scope.tenant, id, k) {
        StatusOfFound(db, scope, id, active, k);
        OneRow(db.users, scope.tenant, id, k);
      } else {
        FindsNone(db.users, scope.tenant, id);
      }
    }
  }

  /** What a renaming is answered: another tenant's id does not exist, and neither does a deleted
      tenant; without a name nothing changes. */
  lemma RenameAnswers(db: Db, scope: Scope, id: string, name: Option<string>)
    ensures var (a, after) := Serve(db, UpdateTenant(scope, id, name));
            var live := scope.tenant in db.tenants && !db.tenants[scope.tenant].deleted;
            if scope.tenant == "" then a == Refused(Unauthenticated)
            else if id != scope.tenant then a == Refused(NotFound)
            else if scope.role != "admin" then a == Refused(Forbidden)
            else if !live then a == Refused(NotFound)
            else if name.None? then a == OneTenant(db.tenants[id]) && after == db
            else if AllSpace(name.value) || ByteLength(Trim(name.value)) > 255 then a == Refused(Invalid)
            else a == OneTenant(db.tenants[id].(name := Trim(name.value)))
                 && after == db.(tenants := db.tenants[id := db.tenants[id].(name := Trim(name.value))])
  {
    if name.Some? { BlankTrims(name.value); }
    if scope.tenant in db.tenants { assert db.tenants == db.tenants[scope.tenant := db.tenants[scope.tenant]]; }
  }

  lemma {:induction false} BlankTrims(s: string)
    ensures Trim(s) == "" <==> AllSpace(s)
  {
    var left, right := TrimRemovesSpace(s);
    if Trim(s) != "" {
      assert s[|left|] == Trim(s)[0];
    } else {
      assert s == left + right;
    }
  }

  // ---- listings ---------------------------------------------------------------------------------

  /** A listing holds the tenant's live users, those created last first. */
  lemma {:induction false} ListingAppends(older: seq<User>, newer: seq<User>, tenant: string)
    ensures Listing(older + newer, tenant) == Listing(newer, tenant) + Listing(older, tenant)
  {
    if older == [] {
      assert older + newer == newer;
    } else {
      assert (older + newer)[1..] == older[1..] + newer;
      ListingAppends(older[1..], newer, tenant);
    }
  }

  lemma ListingOfOne(u: User, tenant: string)
    ensures Listing([u], tenant) == if u.tenant == tenant && !u.deleted then [u] else []
  {
    assert [u][1..] == [];
  }

  lemma ListAnswers(db: Db, scope: Scope, page: int, pageSize: int)
    ensures var a, all := Serve(db, Call.List(scope, page, pageSize)).0, Listing(db.users, scope.tenant);
            if scope.tenant == "" then a == Refused(Unauthenticated)
            else if pageSize < 0 || (page < 1 && pageSize > 0) then a == Refused(Internal)
            else a.Users? && a.total == |all| && Slice(all, page, pageSize) == Some(a.page)
  {
  }

  /** A tenant is read by its own callers alone, while it is live. */
  lemma TenantAnswers(db: Db, scope: Scope, id: string)
    ensures var own, named := Serve(db, Call.Current(scope)).0, Serve(db, Call.GetTenant(scope, id)).0;
            var live := scope.tenant in db.tenants && !db.tenants[scope.tenant].deleted;
            && own == (if scope.tenant == "" then Refused(Unauthenticated)
                       else if live then OneTenant(db.tenants[scope.tenant]) else Refused(NotFound))
            && named == (if scope.tenant != "" && id != scope.tenant then Refused(NotFound) else own)
  {
  }
}
