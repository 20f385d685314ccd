/** Members with resolved roles, the live role update, and the permission bitmask. Permission numbers
    are 32-bit, as the bitwise operators see them. */
module Roles {
  import opened Common

  datatype Role = Role(id: string, permissions: bv32)
  datatype Member = Member(userId: string, roleIds: seq<string>, roles: seq<Role>, isAdmin: bool)

  const PERM_ADMIN: bv32 := 1

  /** `new Map(roles.map(r => [r.id, r]))`: of equal ids the last one wins. */
  function RolesById(roles: seq<Role>): map<string, Role> {
    if roles == [] then map[]
    else RolesById(roles[..|roles| - 1])[roles[|roles| - 1].id := roles[|roles| - 1]]
  }

  /** Look up each id and drop the unknown ones. */
  function Known(byId: map<string, Role>, ids: seq<string>): seq<Role> {
    if ids == [] then []
    else (if ids[0] in byId then [byId[ids[0]]] else []) + Known(byId, ids[1..])
  }

  predicate Shares(bits: bv32, mask: bv32) {
    bits & mask != 0
  }

  function Sharing(mask: bv32): bv32 -> bool {
    bits => Shares(bits, mask)
  }

  function Or(a: bv32, b: bv32): bv32 {
    a | b
  }

  predicate Any<T(==)>(test: T -> bool, xs: seq<T>) {
    exists x :: x in xs && test(x)
  }

  function Bits(roles: seq<Role>): seq<bv32> {
    seq(|roles|, i requires 0 <= i < |roles| => roles[i].permissions)
  }

  /** `some(r => (r.permissions & mask) !== 0)`. */
  predicate SomeShares(roles: seq<Role>, mask: bv32) {
    Any(Sharing(mask), Bits(roles))
  }

  /** `resolveMembersWithRoles`: each member's own ids are looked up. */
  function ResolveMembersWithRoles(members: seq<Member>, roles: seq<Role>): seq<Member> {
    var rolesById := RolesById(roles);
    seq(|members|, i requires 0 <= i < |members| =>
      var memberRoles := Known(rolesById, members[i].roleIds);
      members[i].(roles := memberRoles, isAdmin := SomeShares(memberRoles, PERM_ADMIN)))
  }

  /** The `member:roles-updated` handler: the event's ids are looked up once, and every row with the
      event's user id is patched. An event without a user id is dropped. */
  function MemberRolesUpdated(list: seq<Member>, storedRoles: seq<Role>, userId: string, ids: seq<string>): seq<Member> {
    var nextRoles := Known(RolesById(storedRoles), ids);
    var isAdmin := SomeShares(nextRoles, PERM_ADMIN);
    seq(|list|, i requires 0 <= i < |list| =>
      if userId != "" && list[i].userId == userId then list[i].(roleIds := ids, roles := nextRoles, isAdmin := isAdmin)
      else list[i])
  }

  /** The raw member list after the change, as the next sync would deliver it. */
  function WithIds(members: seq<Member>, userId: string, ids: seq<string>): seq<Member> {
    seq(|members|, i requires 0 <= i < |members| =>
      if members[i].userId == userId then members[i].(roleIds := ids) else members[i])
  }

  /** A live update and a re-sync agree, for every member list, role table and id list. */
  lemma UpdateCommutesWithResolve(members: seq<Member>, roles: seq<Role>, userId: string, ids: seq<string>)
    requires userId != ""
    ensures MemberRolesUpdated(ResolveMembersWithRoles(members, roles), roles, userId, ids)
         == ResolveMembersWithRoles(WithIds(members, userId, ids), roles)
  {
    var x := MemberRolesUpdated(ResolveMembersWithRoles(members, roles), roles, userId, ids);
    var y := ResolveMembersWithRoles(WithIds(members, userId, ids), roles);
    assert |x| == |y| && forall i :: 0 <= i < |x| ==> x[i] == y[i];
  }

  // ---------- What is looked up ----------

  /** The role's permissions and the mask have a bit in common. */
  predicate Grants(r: Role, mask: bv32) {
    r.permissions & mask != 0
  }

  /** Position k holds the last listed role with this id. */
  predicate LastListed(roles: seq<Role>, id: string, k: nat) {
    k < |roles| && roles[k].id == id && forall j :: k < j < |roles| ==> roles[j].id != id
  }

  /** Of roles with one id the last listed wins. */
  lemma {:induction false} LastListedWins(roles: seq<Role>, id: string, k: nat)
    requires LastListed(roles, id, k)
    ensures id in RolesById(roles) && RolesById(roles)[id] == roles[k]
  {
    var n := |roles| - 1;
    if k < n {
      assert roles[n].id != id;
      LastListedWins(roles[..n], id, k);
    }
  }

  lemma {:induction false} UnlistedIsUnknown(roles: seq<Role>, id: string)
    requires forall r :: r in roles ==> r.id != id
    ensures id !in RolesById(roles)
  {
    if roles != [] {
      var n := |roles| - 1;
      assert roles[n] in roles && forall r :: r in roles[..n] ==> r in roles;
      UnlistedIsUnknown(roles[..n], id);
    }
  }

  lemma {:induction false} KnownConcat(byId: map<string, Role>, x: seq<string>, y: seq<string>)
    ensures Known(byId, x + y) == Known(byId, x) + Known(byId, y)
    decreases |x|
  {
    if x == [] {
      assert x + y == y;
    } else {
      assert (x + y)[1..] == x[1..] + y;
      KnownConcat(byId, x[1..], y);
    }
  }

  lemma KnownAround(byId: map<string, Role>, before: seq<string>, id: string, after: seq<string>)
    ensures Known(byId, before + [id] + after)
         == Known(byId, before) + (if id in byId then [byId[id]] else []) + Known(byId, after)
  {
    KnownConcat(byId, before + [id], after);
    KnownConcat(byId, before, [id]);
    assert [id][1..] == [] && Known(byId, []) == [];
  }

  /** Resolved roles follow the ids in order: each id gives the last listed role with that id, and what
      stands before and after it keeps its place. */
  lemma ResolvedInOrder(roles: seq<Role>, before: seq<string>, id: string, after: seq<string>, k: nat)
    requires LastListed(roles, id, k)
    ensures var byId := RolesById(roles);
            Known(byId, before + [id] + after) == Known(byId, before) + [roles[k]] + Known(byId, after)
    ensures Known(RolesById(roles), []) == []
  {
    LastListedWins(roles, id, k);
    KnownAround(RolesById(roles), before, id, after);
  }

  /** An id that no role has gives none. */
  lemma UnknownIdIsDropped(roles: seq<Role>, before: seq<string>, id: string, after: seq<string>)
    requires forall r :: r in roles ==> r.id != id
    ensures var byId := RolesById(roles);
            Known(byId, before + [id] + after) == Known(byId, before) + Known(byId, after)
  {
    UnlistedIsUnknown(roles, id);
    KnownAround(RolesById(roles), before, id, after);
  }

  /** Resolving keeps the members, their order, their user ids and their role ids, and flags as admin
      exactly those with a resolved role whose lowest bit is set. */
  lemma ResolvedMembers(members: seq<Member>, roles: seq<Role>, i: nat)
    requires i < |members|
    ensures var resolved := ResolveMembersWithRoles(members, roles);
            && |resolved| == |members|
            && resolved[i].userId == members[i].userId && resolved[i].roleIds == members[i].roleIds
            && resolved[i].roles == Known(RolesById(roles), members[i].roleIds)
            && (resolved[i].isAdmin <==> exists r :: r in resolved[i].roles && Grants(r, 1))
  {
    SharesIsHeld(ResolveMembersWithRoles(members, roles)[i].roles, PERM_ADMIN);
  }

  // ---------- Permissions ----------

  datatype Permissions = Permissions(bits: bv32, isAdmin: bool) {
    predicate Has(mask: bv32) { isAdmin || Shares(bits, mask) }
  }

  /** `reduce`. */
  function Fold<T>(op: (T, T) -> T, acc: T, xs: seq<T>): T
    decreases |xs|
  {
    if xs == [] then acc else Fold(op, op(acc, xs[0]), xs[1..])
  }

  function OrAll(roles: seq<Role>): bv32 {
    Fold(Or, 0, Bits(roles))
  }

  function FindMember(members: seq<Member>, userId: string): Option<Member> {
    if members == [] then None
    else if members[0].userId == userId then Some(members[0])
    else FindMember(members[1..], userId)
  }

  /** `userId ? members.find(…) : undefined`: an absent or empty user id finds nobody. */
  function Me(members: seq<Member>, userId: Option<string>): Option<Member> {
    if userId.Some? && userId.value != "" then FindMember(members, userId.value) else None
  }

  /** `resolvePermissions`. */
  function ResolvePermissions(members: seq<Member>, userId: Option<string>): Permissions {
    var me := Me(members, userId);
    var bits := if me.Some? then OrAll(me.value.roles) else 0;
    Permissions(bits, Shares(bits, PERM_ADMIN))
  }

  /** The user asked for: the first member with that id, and found whenever there is one. */
  lemma {:induction false} FoundExactly(members: seq<Member>, userId: string)
    ensures var me := FindMember(members, userId);
            && (me.None? <==> forall m :: m in members ==> m.userId != userId)
            && (me.Some? ==> exists i :: 0 <= i < |members| && members[i] == me.value && me.value.userId == userId
                               && forall j :: 0 <= j < i ==> members[j].userId != userId)
    decreases |members|
  {
    if members != [] {
      FoundExactly(members[1..], userId);
      var me := FindMember(members[1..], userId);
      assert members == [members[0]] + members[1..];
      if members[0].userId != userId && me.Some? {
        var i :| 0 <= i < |members[1..]| && members[1..][i] == me.value
                 && forall j :: 0 <= j < i ==> members[1..][j].userId != userId;
        assert members[i + 1] == me.value;
        assert forall j :: 0 < j < i + 1 ==> members[j] == members[1..][j - 1];
      }
    }
  }

  /** An absent or empty user id finds nobody; any other finds its member. */
  lemma MeExactly(members: seq<Member>, userId: Option<string>)
    ensures Me(members, userId).None? <==>
              userId.None? || userId.value == "" || forall m :: m in members ==> m.userId != userId.value
    ensures Me(members, userId).Some? ==> Me(members, userId).value in members && userId == Some(Me(members, userId).value.userId)
  {
    if userId.Some? { FoundExactly(members, userId.value); }
  }

  lemma OrShares(a: bv32, b: bv32, mask: bv32)
    ensures Shares(a | b, mask) <==> Shares(a, mask) || Shares(b, mask)
  {
    AndDistributes(a, b, mask);
    OrIsZero(a & mask, b & mask);
  }

  lemma OrIsOr(a: bv32, b: bv32, x: bv32)
    requires x == a | b
    ensures x == Or(a, b)
  {
  }

  lemma SharingDistributes(a: bv32, b: bv32, mask: bv32)
    ensures Sharing(mask)(Or(a, b)) <==> Sharing(mask)(a) || Sharing(mask)(b)
  {
    var x := a | b;
    OrIsOr(a, b, x);
    OrShares(a, b, mask);
    assert Shares(x, mask) <==> Shares(a, mask) || Shares(b, mask);
  }

  lemma AndDistributes(a: bv32, b: bv32, mask: bv32)
    ensures (a | b) & mask == (a & mask) | (b & mask)
  {
  }

  lemma OrIsZero(x: bv32, y: bv32)
    ensures x | y == 0 <==> x == 0 && y == 0
  {
  }

  /** A test that distributes over `op` passes on the fold exactly if it passes on some part. */
  lemma {:induction false} FoldAny<T(!new)>(op: (T, T) -> T, test: T -> bool, acc: T, xs: seq<T>)
    requires forall a, b :: test(op(a, b)) <==> test(a) || test(b)
    ensures test(Fold(op, acc, xs)) <==> test(acc) || Any(test, xs)
    decreases |xs|
  {
    if xs != [] {
      FoldAny(op, test, op(acc, xs[0]), xs[1..]);
      assert xs == [xs[0]] + xs[1..];
    }
  }

  lemma OrAllShares(roles: seq<Role>, mask: bv32)
    ensures Shares(OrAll(roles), mask) <==> SomeShares(roles, mask)
  {
    forall a, b ensures Sharing(mask)(Or(a, b)) <==> Sharing(mask)(a) || Sharing(mask)(b) {
      SharingDistributes(a, b, mask);
    }
    FoldAny(Or, Sharing(mask), 0, Bits(roles));
    NoBits(mask);
  }

  lemma {:induction false} FoundIsResolved(members: seq<Member>, roles: seq<Role>, userId: string)
    ensures var me := FindMember(ResolveMembersWithRoles(members, roles), userId);
            me.Some? ==> me.value.isAdmin == SomeShares(me.value.roles, PERM_ADMIN)
    decreases |members|
  {
    if members != [] {
      assert ResolveMembersWithRoles(members, roles)[1..] == ResolveMembersWithRoles(members[1..], roles);
      FoundIsResolved(members[1..], roles, userId);
    }
  }

  /** On resolved members the bitmask and the stored flag agree on who is an admin, a mask is granted
      exactly if some role held is an admin role or shares a bit with the mask, and the bitmask shares a
      bit with a mask exactly if some role held does. Who is not found has nothing. */
  lemma PermissionsExact(members: seq<Member>, roles: seq<Role>, userId: Option<string>, mask: bv32)
    ensures var resolved := ResolveMembersWithRoles(members, roles);
            var p := ResolvePermissions(resolved, userId);
            match Me(resolved, userId)
            case None => p.bits == 0 && !p.isAdmin && !p.Has(mask)
            case Some(me) =>
              p.isAdmin == me.isAdmin
              && (p.isAdmin <==> exists r :: r in me.roles && Grants(r, 1))
              && (p.Has(mask) <==> exists r :: r in me.roles && (Grants(r, 1) || Grants(r, mask)))
              && (Shares(p.bits, mask) <==> exists r :: r in me.roles && Grants(r, mask))
  {
    var me := Me(ResolveMembersWithRoles(members, roles), userId);
    NoBits(mask);
    NoBits(PERM_ADMIN);
    if me.Some? {
      FoundIsResolved(members, roles, userId.value);
      OrAllShares(me.value.roles, PERM_ADMIN);
      OrAllShares(me.value.roles, mask);
      SharesIsHeld(me.value.roles, PERM_ADMIN);
      SharesIsHeld(me.value.roles, mask);
    }
  }

  lemma AnyBits(test: bv32 -> bool, roles: seq<Role>)
    ensures Any(test, Bits(roles)) <==> exists r :: r in roles && test(r.permissions)
  {
    var bits := Bits(roles);
    if r :| r in roles && test(r.permissions) {
      var i :| 0 <= i < |roles| && roles[i] == r;
      assert bits[i] in bits && test(bits[i]);
    }
    if b :| b in bits && test(b) {
      var i :| 0 <= i < |bits| && bits[i] == b;
      assert roles[i] in roles && test(roles[i].permissions);
    }
  }

  lemma GrantsIsShares(r: Role, mask: bv32)
    ensures Grants(r, mask) <==> Shares(r.permissions, mask)
  {
  }

  lemma SharingIsGrants(r: Role, mask: bv32)
    ensures Sharing(mask)(r.permissions) <==> Grants(r, mask)
  {
    GrantsIsShares(r, mask);
  }

  lemma SharesIsHeld(roles: seq<Role>, mask: bv32)
    ensures SomeShares(roles, mask) <==> exists r :: r in roles && Grants(r, mask)
  {
    AnyBits(Sharing(mask), roles);
    SomeGrants(roles, mask);
  }

  lemma {:induction false} SomeGrants(roles: seq<Role>, mask: bv32)
    ensures (exists r :: r in roles && Sharing(mask)(r.permissions)) <==> (exists r :: r in roles && Grants(r, mask))
  {
    if r :| r in roles && Sharing(mask)(r.permissions) { SharingIsGrants(r, mask); }
    if r :| r in roles && Grants(r, mask) { SharingIsGrants(r, mask); }
  }

  lemma NoBits(mask: bv32)
    ensures !Shares(0, mask)
  {
  }
}
