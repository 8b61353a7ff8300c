/** The permission controller: create, rename and delete, with the rule that
    no two permissions share a name. */
module Permissions {
  import opened Common
  import opened Entities
  import Store

  /** No two stored permissions carry the same name. */
  predicate UniqueNames(docs: map<Id, Permission>)
  {
    forall a, b :: a in docs && b in docs && docs[a].permissionName == docs[b].permissionName ==> a == b
  }

  /** `k` is what `Permission.findOne({permissionName: name})` returns: the
      oldest permission with that name. */
  predicate OldestHolder(docs: map<Id, Permission>, name: string, k: Id)
  {
    k in docs && docs[k].permissionName == name &&
    forall j :: j in docs && j < k ==> docs[j].permissionName != name
  }

  /** `createPermission`. */
  method CreatePermission(permissions: Store.Collection<Permission>, permissionName: Option<string>)
    returns (st: Status)
    requires permissions.Valid()
    modifies permissions
    ensures permissions.Valid()
    ensures !Given(permissionName) ==> st == BadRequest
    ensures st == Conflict <==>
      Given(permissionName) &&
      exists k :: k in old(permissions.docs) && old(permissions.docs)[k].permissionName == permissionName.value
    ensures st == Created <==>
      Given(permissionName) &&
      forall k :: k in old(permissions.docs) ==> old(permissions.docs)[k].permissionName != permissionName.value
    ensures st == Created ==>
      exists id: Id ::
        id !in old(permissions.docs) &&
        permissions.docs == old(permissions.docs)[id := Permission(permissionName.value)]
    ensures st != Created ==> permissions.docs == old(permissions.docs)
    ensures st == BadRequest || st == Conflict || st == Created
    ensures UniqueNames(old(permissions.docs)) ==> UniqueNames(permissions.docs)
  {
    if !Given(permissionName) {
      return BadRequest;
    }
    var name := permissionName.value;
    var existing := Store.FindOne(permissions, (_: Id, p: Permission) => p.permissionName == name);
    if existing.Some? {
      return Conflict;
    }
    var id := permissions.Insert(Permission(name));
    st := Created;
  }

  /** The conflict test of `updatePermission`: the oldest holder of the new
      name exists and is another permission. */
  predicate RenameClash(docs: map<Id, Permission>, permissionId: Id, name: string)
  {
    exists k :: k in docs && OldestHolder(docs, name, k) && k != permissionId
  }

  /** When names are unique the oldest holder is the only one, so the update
      conflicts exactly when a different permission holds the name; in
      particular a permission may always be renamed to its own name. */
  lemma RenameClashUnique(docs: map<Id, Permission>, permissionId: Id, name: string)
    requires UniqueNames(docs)
    ensures RenameClash(docs, permissionId, name) <==>
      exists k :: k in docs && k != permissionId && docs[k].permissionName == name
    ensures permissionId in docs && docs[permissionId].permissionName == name ==>
      !RenameClash(docs, permissionId, name)
  {
    if k :| k in docs && k != permissionId && docs[k].permissionName == name {
      assert OldestHolder(docs, name, k);
    }
  }

  /** `updatePermission`: the name is checked first, then the id. */
  method UpdatePermission(permissions: Store.Collection<Permission>, permissionId: Id,
                          permissionName: Option<string>) returns (st: Status)
    requires permissions.Valid()
    modifies permissions
    ensures permissions.Valid()
    ensures !Given(permissionName) ==> st == BadRequest
    ensures Given(permissionName) && permissionId !in old(permissions.docs) ==> st == NotFound
    ensures (Given(permissionName) && permissionId in old(permissions.docs)) ==>
      if RenameClash(old(permissions.docs), permissionId, permissionName.value) then st == Conflict
      else st == Ok
    ensures st == Ok ==>
      permissions.docs == old(permissions.docs)[permissionId := Permission(permissionName.value)]
    ensures st != Ok ==> permissions.docs == old(permissions.docs)
  {
    if !Given(permissionName) {
      return BadRequest;
    }
    if permissionId !in permissions.docs {
      return NotFound;
    }
    var name := permissionName.value;
    var existing := Store.FindOne(permissions, (_: Id, p: Permission) => p.permissionName == name);
    if existing.Some? && existing.value != permissionId {
      assert OldestHolder(permissions.docs, name, existing.value);
      return Conflict;
    }
    if existing.Some? {
      assert OldestHolder(permissions.docs, name, existing.value);
    }
    permissions.Put(permissionId, Permission(name));
    st := Ok;
  }

  /** A rename that passes the conflict test keeps the names unique. */
  lemma RenameKeepsUnique(docs: map<Id, Permission>, permissionId: Id, name: string)
    requires UniqueNames(docs) && permissionId in docs
    requires !RenameClash(docs, permissionId, name)
    ensures UniqueNames(docs[permissionId := Permission(name)])
  {
    RenameClashUnique(docs, permissionId, name);
  }

  /** `deletePermission`. */
  method DeletePermission(permissions: Store.Collection<Permission>, permissionId: Id) returns (st: Status)
    requires permissions.Valid()
    modifies permissions
    ensures permissions.Valid()
    ensures permissionId !in old(permissions.docs) ==> st == NotFound && permissions.docs == old(permissions.docs)
    ensures permissionId in old(permissions.docs) ==>
      st == Ok && permissions.docs == old(permissions.docs) - {permissionId}
  {
    if permissionId !in permissions.docs {
      return NotFound;
    }
    permissions.Delete(permissionId);
    st := Ok;
  }
}
