/** The user controller: the partial update with its three uniqueness checks
    that ignore the user being edited, the status toggle and deletion. */
module Users {
  import opened Common
  import opened Entities
  import Store

  /** The fields `updateUser` keeps unique across users. */
  datatype UniqueField = UserName | Email | Phone

  function FieldOf(u: User, f: UniqueField): string
  {
    match f
    case UserName => u.userName
    case Email => u.email
    case Phone => u.phone
  }

  /** `findOne({[f]: value, _id: {$ne: self}})` finds something. */
  predicate HeldByOther(docs: map<Id, User>, self: Id, f: UniqueField, value: string)
  {
    exists k :: k in docs && k != self && FieldOf(docs[k], f) == value
  }

  /** No two users share the value of field `f`. */
  predicate Unique(docs: map<Id, User>, f: UniqueField)
  {
    forall a, b :: a in docs && b in docs && FieldOf(docs[a], f) == FieldOf(docs[b], f) ==> a == b
  }

  /** The body of an `updateUser` request. `passwordMatches` stands for
      `bcrypt.compare(oldPassword, user.password)` and `newHash` for
      `bcrypt.hash(newPassword, 10)`. */
  datatype UserEdit = UserEdit(
    firstName: Option<string>,
    lastName: Option<string>,
    userName: Option<string>,
    email: Option<string>,
    phone: Option<string>,
    role: Option<Id>,
    oldPassword: Option<string>,
    newPassword: Option<string>,
    passwordMatches: bool,
    newHash: string)

  function ValueFor(e: UserEdit, f: UniqueField): Option<string>
  {
    match f
    case UserName => e.userName
    case Email => e.email
    case Phone => e.phone
  }

  predicate ChangesPassword(e: UserEdit)
  {
    Given(e.oldPassword) && Given(e.newPassword)
  }

  /** The field of `f` would be taken from another user. */
  predicate Clashes(docs: map<Id, User>, userId: Id, e: UserEdit, f: UniqueField)
  {
    Given(ValueFor(e, f)) && HeldByOther(docs, userId, f, ValueFor(e, f).value)
  }

  /** The answer of `updateUser`: the first check that fails decides it. */
  function UpdateUserStatus(docs: map<Id, User>, roleIds: set<Id>, userId: Id, e: UserEdit): (st: Status)
    ensures st == Ok <==>
      userId in docs &&
      (forall f :: !Clashes(docs, userId, e, f)) &&
      (ChangesPassword(e) ==> e.passwordMatches) &&
      (e.role.Some? ==> e.role.value in roleIds)
    ensures st == Ok || st == NotFound || st == Conflict || st == Unauthorized
    ensures st == Unauthorized ==> ChangesPassword(e) && !e.passwordMatches
    ensures st == Conflict <==> userId in docs && exists f :: Clashes(docs, userId, e, f)
    ensures userId !in docs ==> st == NotFound
  {
    if userId !in docs then NotFound
    else if Clashes(docs, userId, e, UserName) then Conflict
    else if Clashes(docs, userId, e, Email) then Conflict
    else if Clashes(docs, userId, e, Phone) then Conflict
    else
      NoClashOnAnyField(docs, userId, e);
      if ChangesPassword(e) && !e.passwordMatches then Unauthorized
      else if e.role.Some? && e.role.value !in roleIds then NotFound
      else Ok
  }

  lemma NoClashOnAnyField(docs: map<Id, User>, userId: Id, e: UserEdit)
    requires !Clashes(docs, userId, e, UserName) && !Clashes(docs, userId, e, Email)
    requires !Clashes(docs, userId, e, Phone)
    ensures forall f :: !Clashes(docs, userId, e, f)
  {
    forall f
      ensures !Clashes(docs, userId, e, f)
    {
      match f
      case UserName =>
      case Email =>
      case Phone =>
    }
  }

  /** The user after `updateUser`'s guarded assignments. */
  function Edited(u: User, e: UserEdit): (r: User)
    ensures forall f :: FieldOf(r, f) == OrElse(ValueFor(e, f), FieldOf(u, f))
    ensures r.firstName == OrElse(e.firstName, u.firstName) && r.lastName == OrElse(e.lastName, u.lastName)
    ensures r.password == (if ChangesPassword(e) then e.newHash else u.password)
    ensures r.role == (if e.role.Some? then e.role.value else u.role)
    ensures r.status == u.status
  {
    var r := u.(userName := OrElse(e.userName, u.userName), firstName := OrElse(e.firstName, u.firstName),
                lastName := OrElse(e.lastName, u.lastName), email := OrElse(e.email, u.email),
                phone := OrElse(e.phone, u.phone),
                password := if ChangesPassword(e) then e.newHash else u.password,
                role := if e.role.Some? then e.role.value else u.role);
    EditedFields(u, e, r);
    r
  }

  lemma EditedFields(u: User, e: UserEdit, r: User)
    requires r.userName == OrElse(e.userName, u.userName) && r.email == OrElse(e.email, u.email)
    requires r.phone == OrElse(e.phone, u.phone)
    ensures forall f :: FieldOf(r, f) == OrElse(ValueFor(e, f), FieldOf(u, f))
  {
    forall f
      ensures FieldOf(r, f) == OrElse(ValueFor(e, f), FieldOf(u, f))
    {
      match f
      case UserName =>
      case Email =>
      case Phone =>
    }
  }

  /** A successful update keeps user names, emails and phones unique: the
      `$ne` checks are exactly what uniqueness needs. */
  lemma {:induction false} UpdateKeepsUnique(docs: map<Id, User>, roleIds: set<Id>, userId: Id, e: UserEdit,
                                             f: UniqueField)
    requires Unique(docs, f)
    requires UpdateUserStatus(docs, roleIds, userId, e) == Ok
    ensures Unique(docs[userId := Edited(docs[userId], e)], f)
  {
    var u' := Edited(docs[userId], e);
    var docs' := docs[userId := u'];
    assert !Clashes(docs, userId, e, f);
    forall a, b | a in docs' && b in docs' && a != b
      ensures FieldOf(docs'[a], f) != FieldOf(docs'[b], f)
    {
      if a == userId || b == userId {
        var other := if a == userId then b else a;
        if Given(ValueFor(e, f)) {
          assert FieldOf(u', f) == ValueFor(e, f).value;
          assert FieldOf(docs[other], f) != ValueFor(e, f).value;
        } else {
          assert FieldOf(u', f) == FieldOf(docs[userId], f);
        }
      }
    }
  }

  /** `findOne({[f]: value, _id: {$ne: userId}})`. */
  method Clash(users: Store.Collection<User>, userId: Id, e: UserEdit, f: UniqueField) returns (clash: bool)
    requires users.Valid()
    ensures clash <==> Clashes(users.docs, userId, e, f)
  {
    var value := ValueFor(e, f);
    if !Given(value) {
      return false;
    }
    var v := value.value;
    var other := Store.FindOne(users, (k: Id, u: User) => k != userId && FieldOf(u, f) == v);
    clash := other.Some?;
  }

  /** `updateUser`: every change is made on the loaded user and saved once,
      so any rejection leaves the stored user as it was. */
  method UpdateUser(users: Store.Collection<User>, roles: Store.Collection<Role>, userId: Id, e: UserEdit)
    returns (st: Status)
    requires users.Valid()
    modifies users
    ensures users.Valid()
    ensures st == UpdateUserStatus(old(users.docs), roles.docs.Keys, userId, e)
    ensures st == Ok ==> users.docs == old(users.docs)[userId := Edited(old(users.docs)[userId], e)]
    ensures st != Ok ==> users.docs == old(users.docs)
  {
    if userId !in users.docs {
      return NotFound;
    }
    var clash := Clash(users, userId, e, UserName);
    if clash {
      return Conflict;
    }
    clash := Clash(users, userId, e, Email);
    if clash {
      return Conflict;
    }
    clash := Clash(users, userId, e, Phone);
    if clash {
      return Conflict;
    }
    if ChangesPassword(e) && !e.passwordMatches {
      return Unauthorized;
    }
    if e.role.Some? && e.role.value !in roles.docs {
      return NotFound;
    }
    users.Put(userId, Edited(users.docs[userId], e));
    st := Ok;
  }

  /** `toggleStatus`. */
  method ToggleStatus(users: Store.Collection<User>, userId: Id) returns (st: Status)
    requires users.Valid()
    modifies users
    ensures users.Valid()
    ensures userId !in old(users.docs) ==> st == NotFound && users.docs == old(users.docs)
    ensures userId in old(users.docs) ==>
      st == Ok && users.docs == old(users.docs)[userId := old(users.docs)[userId].(status := !old(users.docs)[userId].status)]
  {
    if userId !in users.docs {
      return NotFound;
    }
    var u := users.docs[userId];
    users.Put(userId, u.(status := !u.status));
    st := Ok;
  }

  /** `deleteUser`. */
  method DeleteUser(users: Store.Collection<User>, userId: Id) returns (st: Status)
    requires users.Valid()
    modifies users
    ensures users.Valid()
    ensures userId !in old(users.docs) ==> st == NotFound && users.docs == old(users.docs)
    ensures userId in old(users.docs) ==> st == Ok && users.docs == old(users.docs) - {userId}
  {
    if userId !in users.docs {
      return NotFound;
    }
    users.Delete(userId);
    st := Ok;
  }
}
