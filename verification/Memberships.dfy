/**
The migration to tenant memberships: one membership for each active user, checked before and after,
and the renaming of roles in users and in the table of role permissions.
*/
module Memberships {
  import opened Options

  datatype User = User(id: int, tenant: Option<int>, role: string, archived: bool)

  datatype Member = Member(user: int, tenant: Option<int>, role: string, isDefault: bool, revoked: bool)

  /** One row of role_permissions; the pair is the primary key. */
  datatype Grant = Grant(role: string, code: string)

  const LEGACY_ROLES := {"admin", "accountant", "bookkeeper", "readonly", "client"}
  const NEW_ROLES := {"owner", "admin", "accountant", "bookkeeper", "viewer"}

  // ----- roles -----

  function NewRole(role: string): string {
    if role == "readonly" || role == "client" then "viewer" else role
  }

  function OldRole(role: string): string {
    if role == "viewer" then "readonly" else if role == "owner" then "admin" else role
  }

  /** A role comes back from upgrade and downgrade unless it was client, which is collapsed. */
  lemma RoleRoundTrip(role: string)
    requires role in LEGACY_ROLES
    ensures NewRole(role) in NEW_ROLES && OldRole(NewRole(role)) in LEGACY_ROLES
    ensures OldRole(NewRole(role)) == role <==> role != "client"
  {
  }

  /** Upgrading makes viewers of readonly users and clients, by name, and leaves the other roles. */
  lemma NewRoleByName(role: string)
    ensures NewRole("readonly") == "viewer" && NewRole("client") == "viewer"
    ensures role != "readonly" && role != "client" ==> NewRole(role) == role
  {
  }

  /** Downgrading makes viewers readonly and owners admin, and leaves the other roles. */
  lemma OldRoleByName(role: string)
    ensures OldRole("viewer") == "readonly" && OldRole("owner") == "admin"
    ensures role != "viewer" && role != "owner" ==> OldRole(role) == role
  {
  }

  /** The roles the check constraints admit before and after */
  lemma RoleNames(role: string)
    ensures role in LEGACY_ROLES
            <==> role == "admin" || role == "accountant" || role == "bookkeeper"
                 || role == "readonly" || role == "client"
    ensures role in NEW_ROLES
            <==> role == "admin" || role == "accountant" || role == "bookkeeper"
                 || role == "owner" || role == "viewer"
  {
  }

  predicate RolesIn(grants: set<Grant>, roles: set<string>) {
    forall g :: g in grants ==> g.role in roles
  }

  /** Renaming a role in place collides when the renamed key is already there. */
  predicate Collides(grants: set<Grant>, from: string, to: string) {
    exists g :: g in grants && g.role == from && Grant(to, g.code) in grants
  }

  function RenameRole(grants: set<Grant>, from: string, to: string): set<Grant> {
    set g | g in grants :: if g.role == from then Grant(to, g.code) else g
  }

  function WithoutRole(grants: set<Grant>, role: string): set<Grant> {
    set g | g in grants && g.role != role
  }

  function CopyRole(grants: set<Grant>, from: string, to: string): set<Grant> {
    grants + set g | g in grants && g.role == from :: Grant(to, g.code)
  }

  /** None when a rename would duplicate a key, or the new check constraint does not admit a row. */
  function UpgradeGrants(grants: set<Grant>): Option<set<Grant>> {
    if Collides(grants, "readonly", "viewer") then None
    else
      var renamed := WithoutRole(RenameRole(grants, "readonly", "viewer"), "client");
      var upgraded := CopyRole(renamed, "admin", "owner");
      if RolesIn(upgraded, NEW_ROLES) then Some(upgraded) else None
  }

  function DowngradeGrants(grants: set<Grant>): Option<set<Grant>> {
    var left := WithoutRole(grants, "owner");
    if Collides(left, "viewer", "readonly") then None
    else
      var renamed := RenameRole(left, "viewer", "readonly");
      if RolesIn(renamed, LEGACY_ROLES) then Some(renamed) else None
  }

  lemma UpgradedGrants(grants: set<Grant>)
    requires RolesIn(grants, LEGACY_ROLES)
    ensures UpgradeGrants(grants).Some?
    ensures var up := UpgradeGrants(grants).value;
            && (forall code :: Grant("owner", code) in up <==> Grant("admin", code) in up)
            && (forall code :: Grant("viewer", code) in up <==> Grant("readonly", code) in grants)
            && (forall g: Grant :: g.role != "viewer" && g.role != "owner" ==>
                  (g in up <==> g in grants && g.role != "readonly" && g.role != "client"))
  {
    var renamed := RenameRole(grants, "readonly", "viewer");
    forall g: Grant
      ensures g in renamed <==> (g in grants && g.role != "readonly")
                                || (g.role == "viewer" && Grant("readonly", g.code) in grants)
    {
      if g.role == "viewer" && Grant("readonly", g.code) in grants {
        var was := Grant("readonly", g.code);
        assert (if was.role == "readonly" then Grant("viewer", was.code) else was) == g;
      }
    }
    var left := WithoutRole(renamed, "client");
    var up := CopyRole(left, "admin", "owner");
    forall g | g in up
      ensures g.role in NEW_ROLES
    {
      if g !in left {
        assert g.role == "owner";
      } else if g in grants {
        assert g.role in LEGACY_ROLES;
      }
    }
    forall code
      ensures Grant("owner", code) in up <==> Grant("admin", code) in up
    {
      if Grant("admin", code) in left {
        assert Grant("owner", Grant("admin", code).code) in up;
      }
    }
  }

  function Renamed(g: Grant, from: string, to: string): Grant {
    if g.role == from then Grant(to, g.code) else g
  }

  /** A rename is refused exactly when it would make one grant of two, which the primary key forbids. */
  lemma CollidesExactly(grants: set<Grant>, from: string, to: string)
    requires from != to
    ensures Collides(grants, from, to)
            <==> exists g, h :: g in grants && h in grants && g != h && Renamed(g, from, to) == Renamed(h, from, to)
  {
    if g :| g in grants && g.role == from && Grant(to, g.code) in grants {
      assert g != Grant(to, g.code) && Renamed(g, from, to) == Renamed(Grant(to, g.code), from, to);
    }
    if g, h :| g in grants && h in grants && g != h && Renamed(g, from, to) == Renamed(h, from, to) {
      assert g.code == h.code;
      assert g.role == from ==> h == Grant(to, g.code);
      assert h.role == from ==> g == Grant(to, h.code);
    }
  }

  /** What the downgrade makes of any table the new check admits: owners go, viewers become readonly. */
  lemma DowngradedGrants(grants: set<Grant>)
    requires RolesIn(grants, NEW_ROLES)
    ensures DowngradeGrants(grants).Some?
    ensures var down := DowngradeGrants(grants).value;
            && (forall code :: Grant("readonly", code) in down <==> Grant("viewer", code) in grants)
            && (forall g: Grant :: g.role != "readonly" ==>
                  (g in down <==> g in grants && g.role != "owner" && g.role != "viewer"))
  {
    var left := WithoutRole(grants, "owner");
    var down := RenameRole(left, "viewer", "readonly");
    assert !Collides(left, "viewer", "readonly") by {
      assert forall g :: g in left ==> g.role in NEW_ROLES;
    }
    forall g: Grant
      ensures g in down
              <==> (g in left && g.role != "viewer") || (g.role == "readonly" && Grant("viewer", g.code) in left)
    {
      if g.role == "readonly" && Grant("viewer", g.code) in left {
        var was := Grant("viewer", g.code);
        assert (if was.role == "viewer" then Grant("readonly", was.code) else was) == g;
      }
    }
    assert forall g :: g in down ==> g.role in LEGACY_ROLES;
  }

  /** Upgrading and then downgrading gives every grant back except those of clients. */
  lemma GrantsRoundTrip(grants: set<Grant>)
    requires RolesIn(grants, LEGACY_ROLES)
    ensures UpgradeGrants(grants).Some?
    ensures DowngradeGrants(UpgradeGrants(grants).value) == Some(WithoutRole(grants, "client"))
  {
    UpgradedGrants(grants);
    var up := UpgradeGrants(grants).value;
    var left := WithoutRole(up, "owner");
    var back := RenameRole(left, "viewer", "readonly");
    forall g: Grant
      ensures g in back <==> g in WithoutRole(grants, "client")
    {
      if g in WithoutRole(grants, "client") {
        assert g.role in LEGACY_ROLES;
        var h := if g.role == "readonly" then Grant("viewer", g.code) else g;
        assert h in left;
        assert (if h.role == "viewer" then Grant("readonly", h.code) else h) == g;
      }
      if g in back {
        var h :| h in left && g == if h.role == "viewer" then Grant("readonly", h.code) else h;
        if h.role == "viewer" {
          assert h == Grant("viewer", h.code);
        }
      }
    }
    assert back == WithoutRole(grants, "client");
    assert !Collides(left, "viewer", "readonly") by {
      forall g | g in left && g.role == "viewer"
        ensures Grant("readonly", g.code) !in left
      {
        assert Grant("readonly", g.code) !in up;
      }
    }
  }

  // ----- memberships -----

  predicate PreChecks(users: seq<User>, tenants: set<int>) {
    forall i :: 0 <= i < |users| && !users[i].archived ==>
      users[i].tenant.Some? && users[i].role in LEGACY_ROLES && users[i].tenant.value in tenants
  }

  /** The check constraint on users.role binds archived users too. */
  predicate LegacyUsers(users: seq<User>) {
    forall i :: 0 <= i < |users| ==> users[i].role in LEGACY_ROLES
  }

  predicate UniqueIds(users: seq<User>) {
    forall i, j :: 0 <= i < j < |users| ==> users[i].id != users[j].id
  }

  function RenamedUsers(users: seq<User>): seq<User> {
    seq(|users|, i requires 0 <= i < |users| => users[i].(role := NewRole(users[i].role)))
  }

  function RestoredUsers(users: seq<User>): seq<User> {
    seq(|users|, i requires 0 <= i < |users| => users[i].(role := OldRole(users[i].role)))
  }

  /** Users come back from upgrade and downgrade exactly when none of them was a client. */
  lemma UsersRoundTrip(users: seq<User>)
    requires LegacyUsers(users)
    ensures RestoredUsers(RenamedUsers(users)) == users <==> forall i :: 0 <= i < |users| ==> users[i].role != "client"
    ensures forall i :: 0 <= i < |users| ==> RenamedUsers(users)[i].role in NEW_ROLES
  {
    forall i | 0 <= i < |users|
      ensures NewRole(users[i].role) in NEW_ROLES
      ensures RestoredUsers(RenamedUsers(users))[i] == users[i] <==> users[i].role != "client"
    {
      RoleRoundTrip(users[i].role);
    }
  }

  /** A null tenant equals no tenant, not even a null one. */
  predicate HasMembership(members: seq<Member>, user: int, tenant: Option<int>) {
    tenant.Some?
    && exists i :: 0 <= i < |members| && members[i].user == user && members[i].tenant == tenant && !members[i].revoked
  }

  /** The first pre-check: every active user has a tenant. */
  predicate Placed(users: seq<User>) {
    forall i :: 0 <= i < |users| && !users[i].archived ==> users[i].tenant.Some?
  }

  function MemberFor(u: User): Member {
    Member(u.id, u.tenant, u.role, true, false)
  }

  /** What the INSERT selects: the active users without a membership in the table as it was. */
  function NewMembers(users: seq<User>, members: seq<Member>): seq<Member> {
    if users == [] then []
    else
      var rest := NewMembers(users[..|users| - 1], members);
      var u := users[|users| - 1];
      if !u.archived && !HasMembership(members, u.id, u.tenant) then rest + [MemberFor(u)] else rest
  }

  function Backfill(users: seq<User>, members: seq<Member>): seq<Member> {
    members + NewMembers(users, members)
  }

  function CountActive(users: seq<User>): nat {
    if users == [] then 0 else CountActive(users[..|users| - 1]) + (if users[|users| - 1].archived then 0 else 1)
  }

  function CountCurrent(members: seq<Member>): nat {
    if members == [] then 0
    else CountCurrent(members[..|members| - 1]) + (if members[|members| - 1].revoked then 0 else 1)
  }

  function CountDefaults(members: seq<Member>, user: int): nat {
    if members == [] then 0
    else
      var m := members[|members| - 1];
      CountDefaults(members[..|members| - 1], user) + (if m.user == user && m.isDefault && !m.revoked then 1 else 0)
  }

  /** The four checks after the migration. */
  ghost predicate PostChecks(users: seq<User>, members: seq<Member>) {
    && CountActive(users) == CountCurrent(members)
    && (forall i :: 0 <= i < |users| && !users[i].archived ==> HasMembership(members, users[i].id, users[i].tenant))
    && (forall user :: CountDefaults(members, user) <= 1)
    && (forall i :: 0 <= i < |users| && !users[i].archived ==> CountDefaults(members, users[i].id) >= 1)
  }

  /** The two partial unique indexes. */
  ghost predicate IndexesHold(members: seq<Member>) {
    forall i, j :: 0 <= i < j < |members| && !members[i].revoked && !members[j].revoked
                   && members[i].user == members[j].user ==>
      members[i].tenant != members[j].tenant && !(members[i].isDefault && members[j].isDefault)
  }

  predicate IsActive(users: seq<User>, user: int) {
    exists i :: 0 <= i < |users| && !users[i].archived && users[i].id == user
  }

  /** One membership for the last user, if active, after those of the others. */
  lemma BackfillLast(users: seq<User>)
    requires users != []
    ensures var u := users[|users| - 1];
            Backfill(users, []) == Backfill(users[..|users| - 1], []) + (if u.archived then [] else [MemberFor(u)])
  {
  }

  lemma {:induction false} BackfillCounts(users: seq<User>)
    ensures |Backfill(users, [])| == CountActive(users) == CountCurrent(Backfill(users, []))
  {
    if users != [] {
      BackfillLast(users);
      BackfillCounts(users[..|users| - 1]);
      var before := Backfill(users[..|users| - 1], []);
      assert (before + [MemberFor(users[|users| - 1])])[..|before|] == before;
    }
  }

  /** Field by field: the membership is this user's, with the user's tenant and role, default and not revoked. */
  predicate IsMembershipOf(m: Member, u: User) {
    m.user == u.id && m.tenant == u.tenant && m.role == u.role && m.isDefault && !m.revoked
  }

  predicate HasCurrent(members: seq<Member>, u: User) {
    exists i :: 0 <= i < |members| && members[i].user == u.id && members[i].tenant == u.tenant && u.tenant.Some?
                && !members[i].revoked
  }

  /** What the insert adds to any table: one membership, field by field, for each active user who has no current one. */
  lemma {:induction false} NewMembersExactly(users: seq<User>, members: seq<Member>, m: Member)
    ensures m in NewMembers(users, members)
            <==> exists i :: 0 <= i < |users| && !users[i].archived && !HasCurrent(members, users[i])
                             && IsMembershipOf(m, users[i])
  {
    if users != [] {
      var n := |users| - 1;
      NewMembersExactly(users[..n], members, m);
      if i :| 0 <= i < n && !users[..n][i].archived && !HasCurrent(members, users[..n][i])
              && IsMembershipOf(m, users[..n][i]) {
        assert !users[i].archived && !HasCurrent(members, users[i]) && IsMembershipOf(m, users[i]);
      }
      if i :| 0 <= i < |users| && !users[i].archived && !HasCurrent(members, users[i]) && IsMembershipOf(m, users[i]) {
        assert i < n ==> users[..n][i] == users[i];
      }
      assert HasMembership(members, users[n].id, users[n].tenant) <==> HasCurrent(members, users[n]);
      assert IsMembershipOf(m, users[n]) <==> m == MemberFor(users[n]);
    }
  }

  /** Into an empty table: one for each active user, field by field. */
  lemma BackfillExactly(users: seq<User>, m: Member)
    ensures m in Backfill(users, [])
            <==> exists i :: 0 <= i < |users| && !users[i].archived && m.user == users[i].id
                             && m.tenant == users[i].tenant && m.role == users[i].role && m.isDefault && !m.revoked
  {
    NewMembersExactly(users, [], m);
    if i :| 0 <= i < |users| && !users[i].archived && m.user == users[i].id && m.tenant == users[i].tenant
            && m.role == users[i].role && m.isDefault && !m.revoked {
      assert IsMembershipOf(m, users[i]) && !HasCurrent([], users[i]);
    }
  }

  lemma {:induction false} BackfillRows(users: seq<User>, m: Member)
    ensures m in Backfill(users, []) <==> exists i :: 0 <= i < |users| && !users[i].archived && m == MemberFor(users[i])
  {
    if users != [] {
      var n := |users| - 1;
      BackfillLast(users);
      BackfillRows(users[..n], m);
      if i :| 0 <= i < n && !users[..n][i].archived && m == MemberFor(users[..n][i]) {
        assert !users[i].archived && m == MemberFor(users[i]);
      }
      if i :| 0 <= i < |users| && !users[i].archived && m == MemberFor(users[i]) {
        assert i < n ==> users[..n][i] == users[i];
      }
    }
  }

  lemma {:induction false} BackfillDefaults(users: seq<User>, user: int)
    requires UniqueIds(users)
    ensures CountDefaults(Backfill(users, []), user) == if IsActive(users, user) then 1 else 0
  {
    if users != [] {
      var n := |users| - 1;
      BackfillLast(users);
      BackfillDefaults(users[..n], user);
      var before := Backfill(users[..n], []);
      assert (before + [MemberFor(users[n])])[..|before|] == before;
      if IsActive(users[..n], user) {
        var i :| 0 <= i < n && !users[..n][i].archived && users[..n][i].id == user;
        assert !users[i].archived && users[i].id == user;
      }
      if IsActive(users, user) {
        var i :| 0 <= i < |users| && !users[i].archived && users[i].id == user;
        assert i < n ==> users[..n][i] == users[i];
      }
    }
  }

  lemma {:induction false} BackfillOnePerUser(users: seq<User>)
    requires UniqueIds(users)
    ensures IndexesHold(Backfill(users, []))
    ensures forall i, j :: 0 <= i < j < |Backfill(users, [])| ==>
      Backfill(users, [])[i].user != Backfill(users, [])[j].user
  {
    if users != [] {
      var n := |users| - 1;
      BackfillLast(users);
      BackfillOnePerUser(users[..n]);
      var before := Backfill(users[..n], []);
      forall i | 0 <= i < |before|
        ensures before[i].user != users[n].id
      {
        BackfillRows(users[..n], before[i]);
        var k :| 0 <= k < n && before[i] == MemberFor(users[..n][k]);
        assert users[k].id != users[n].id;
      }
    }
  }

  /** The four post-checks hold after the backfill of an empty table exactly when every active user has a tenant. */
  lemma BackfillPasses(users: seq<User>)
    requires UniqueIds(users)
    ensures PostChecks(users, Backfill(users, [])) <==> Placed(users)
  {
    if PostChecks(users, Backfill(users, [])) || !Placed(users) {
      return;
    }
    BackfillCounts(users);
    var members := Backfill(users, []);
    forall user
      ensures CountDefaults(members, user) == if IsActive(users, user) then 1 else 0
    {
      BackfillDefaults(users, user);
    }
    forall i | 0 <= i < |users| && !users[i].archived
      ensures HasMembership(members, users[i].id, users[i].tenant) && CountDefaults(members, users[i].id) >= 1
    {
      BackfillCovers(users, i);
      assert IsActive(users, users[i].id);
    }
  }

  /** Every inserted row has a role of the new set and points at an existing tenant. */
  lemma BackfillRowsValid(users: seq<User>, tenants: set<int>, m: Member)
    requires PreChecks(users, tenants) && m in Backfill(RenamedUsers(users), [])
    ensures m.role in NEW_ROLES && m.tenant.Some? && m.tenant.value in tenants
  {
    var renamed := RenamedUsers(users);
    BackfillRows(renamed, m);
    var i :| 0 <= i < |renamed| && !renamed[i].archived && m == MemberFor(renamed[i]);
    assert !users[i].archived;
  }

  /** If the pre-checks pass, the backfill runs, makes all four post-checks true and fits both unique indexes. */
  lemma PreChecksSuffice(users: seq<User>, tenants: set<int>)
    requires UniqueIds(users) && LegacyUsers(users) && PreChecks(users, tenants)
    ensures var renamed := RenamedUsers(users);
            var members := Backfill(renamed, []);
            && Placed(renamed)
            && PostChecks(renamed, members)
            && IndexesHold(members)
            && (forall m :: m in members ==> m.role in NEW_ROLES && m.tenant.Some? && m.tenant.value in tenants)
            && (forall i :: 0 <= i < |renamed| ==> renamed[i].role in NEW_ROLES)
  {
    var renamed := RenamedUsers(users);
    BackfillPasses(renamed);
    BackfillOnePerUser(renamed);
    forall m | m in Backfill(renamed, [])
      ensures m.role in NEW_ROLES && m.tenant.Some? && m.tenant.value in tenants
    {
      BackfillRowsValid(users, tenants, m);
    }
  }

  lemma BackfillCovers(users: seq<User>, i: nat)
    requires i < |users| && !users[i].archived && users[i].tenant.Some?
    ensures HasMembership(Backfill(users, []), users[i].id, users[i].tenant)
  {
    BackfillRows(users, MemberFor(users[i]));
    var members := Backfill(users, []);
    var k :| 0 <= k < |members| && members[k] == MemberFor(users[i]);
  }

  lemma {:induction false} NothingNew(users: seq<User>, members: seq<Member>)
    requires forall i :: 0 <= i < |users| && !users[i].archived ==> HasMembership(members, users[i].id, users[i].tenant)
    ensures NewMembers(users, members) == []
  {
    if users != [] {
      NothingNew(users[..|users| - 1], members);
    }
  }

  /** Running the backfill again inserts nothing. */
  lemma BackfillIdempotent(users: seq<User>)
    requires Placed(users)
    ensures Backfill(users, Backfill(users, [])) == Backfill(users, [])
  {
    var members := Backfill(users, []);
    forall i | 0 <= i < |users| && !users[i].archived
      ensures HasMembership(members, users[i].id, users[i].tenant)
    {
      BackfillCovers(users, i);
    }
    NothingNew(users, members);
  }

  /** What one user more adds to the selection, and to the condition that all active users are placed. */
  lemma OneUserMore(users: seq<User>, i: nat, members: seq<Member>)
    requires i < |users|
    ensures var u, selected := users[i], NewMembers(users[..i], members);
            NewMembers(users[..i + 1], members)
            == if !u.archived && !HasMembership(members, u.id, u.tenant) then selected + [MemberFor(u)] else selected
    ensures Placed(users[..i + 1]) <==> Placed(users[..i]) && (users[i].archived || users[i].tenant.Some?)
    ensures users[i].tenant.None? ==> !HasMembership(members, users[i].id, users[i].tenant)
  {
    assert users[..i + 1][..i] == users[..i];
    assert users[..i + 1] == users[..i] + [users[i]];
  }

  // ----- the migration in place -----

  class Migration {
    var users: seq<User>
    var grants: set<Grant>
    var members: seq<Member>

    constructor (users: seq<User>, grants: set<Grant>)
      ensures this.users == users && this.grants == grants && members == []
    {
      this.users, this.grants := users, grants;
      members := [];
    }

    /** One UPDATE per entry of the role map. */
    method RenameUserRoles()
      modifies this`users
      ensures users == RenamedUsers(old(users))
    {
      RenameOne("readonly", "viewer");
      RenameOne("client", "viewer");
    }

    /** The downgrade of users. */
    method RestoreUserRoles()
      modifies this`users
      ensures users == RestoredUsers(old(users))
    {
      RenameOne("viewer", "readonly");
      RenameOne("owner", "admin");
    }

    /** UPDATE role_permissions SET role; refused when a renamed key is already there. */
    method RenameGrants(from: string, to: string) returns (ok: bool)
      modifies this`grants
      ensures ok <==> !Collides(old(grants), from, to)
      ensures grants == if ok then RenameRole(old(grants), from, to) else old(grants)
    {
      ok := !exists g :: g in grants && g.role == from && Grant(to, g.code) in grants;
      if ok {
        grants := set g | g in grants :: if g.role == from then Grant(to, g.code) else g;
      }
    }

    method DeleteGrants(role: string)
      modifies this`grants
      ensures grants == WithoutRole(old(grants), role)
    {
      grants := grants - set g | g in grants && g.role == role;
    }

    /** Insert the missing grants of one role under another. */
    method CopyGrants(from: string, to: string)
      modifies this`grants
      ensures grants == CopyRole(old(grants), from, to)
    {
      grants := grants + set g | g in grants && g.role == from && Grant(to, g.code) !in grants :: Grant(to, g.code);
    }

    /** The statements on role_permissions, then the new check constraint. */
    method UpgradeRolePermissions() returns (ok: bool)
      modifies this`grants
      ensures ok <==> UpgradeGrants(old(grants)).Some?
      ensures ok ==> Some(grants) == UpgradeGrants(old(grants))
    {
      ok := RenameGrants("readonly", "viewer");
      if ok {
        DeleteGrants("client");
        CopyGrants("admin", "owner");
        ok := RolesIn(grants, NEW_ROLES);
      }
    }

    method DowngradeRolePermissions() returns (ok: bool)
      modifies this`grants
      ensures ok <==> DowngradeGrants(old(grants)).Some?
      ensures ok ==> Some(grants) == DowngradeGrants(old(grants))
    {
      DeleteGrants("owner");
      ok := RenameGrants("viewer", "readonly");
      if ok {
        ok := RolesIn(grants, LEGACY_ROLES);
      }
    }

    method RenameOne(from: string, to: string)
      modifies this`users
      ensures |users| == |old(users)|
      ensures forall i :: 0 <= i < |users| ==>
        users[i] == if old(users)[i].role == from then old(users)[i].(role := to) else old(users)[i]
    {
      var i := 0;
      while i < |users|
        invariant 0 <= i <= |users| == |old(users)|
        invariant forall k :: 0 <= k < i ==>
          users[k] == if old(users)[k].role == from then old(users)[k].(role := to) else old(users)[k]
        invariant forall k :: i <= k < |users| ==> users[k] == old(users)[k]
      {
        if users[i].role == from {
          users := users[i := users[i].(role := to)];
        }
        i := i + 1;
      }
    }

    /**
    INSERT INTO user_tenant_memberships SELECT: the rows are selected from the table as it was, and the
    whole insert fails when one of them has no tenant.
    */
    method BackfillMembers() returns (ok: bool)
      modifies this`members
      ensures ok <==> Placed(users)
      ensures members == if ok then Backfill(users, old(members)) else old(members)
    {
      var selected: seq<Member> := [];
      ok := true;
      var i := 0;
      while i < |users|
        invariant 0 <= i <= |users| && members == old(members)
        invariant selected == NewMembers(users[..i], members)
        invariant ok <==> Placed(users[..i])
      {
        OneUserMore(users, i, members);
        if !users[i].archived && !HasMembership(members, users[i].id, users[i].tenant) {
          selected := selected + [MemberFor(users[i])];
          ok := ok && users[i].tenant.Some?;
        }
        i := i + 1;
      }
      assert users[..i] == users;
      assert selected == NewMembers(users, members);
      if ok {
        members := members + selected;
      }
    }
  }
}
