/** UserServiceImpl: users stored under generated ids with a unique-email
    constraint, the partial update and its conflict handling, lookup, listing
    and deletion. A unique-constraint violation surfaces as AlreadyExists and
    the transaction leaves the store as it was. */
module UserService {
  import opened Common
  import opened Entities

  /** The fields of the User passed to `update`; an absent field is null. */
  datatype UserPatch = UserPatch(name: Option<string>, email: Option<string>)

  /** The unique-email constraint of the users table. */
  ghost predicate UniqueEmails(users: map<int, User>)
  {
    forall a, b :: a in users && b in users && a != b ==> users[a].email != users[b].email
  }

  /** Some user other than the one stored under `except` already has `email`. */
  predicate EmailTaken(users: map<int, User>, email: string, except: int)
  {
    exists k :: k in users && k != except && users[k].email == email
  }

  /** The field rules of `update`: a patch value replaces the stored one only
      when it is present and the STORED value is not blank; the incoming value
      itself is not inspected, and the id never changes. */
  function MergeUser(stored: User, patch: UserPatch): (r: User)
    ensures r.id == stored.id
    ensures r.name != stored.name ==> patch.name == Some(r.name) && !IsBlank(stored.name)
    ensures patch.name.Some? && !IsBlank(stored.name) ==> r.name == patch.name.value
    ensures r.email != stored.email ==> patch.email == Some(r.email) && !IsBlank(stored.email)
    ensures patch.email.Some? && !IsBlank(stored.email) ==> r.email == patch.email.value
  {
    var named := if patch.name.Some? && !IsBlank(stored.name) then stored.(name := patch.name.value) else stored;
    if patch.email.Some? && !IsBlank(named.email) then named.(email := patch.email.value) else named
  }

  /** Because the guard reads the stored value, a blank patch value overwrites
      a non-blank stored one, while a stored blank value can never be replaced. */
  lemma MergeUserGuardReadsStoredValue(stored: User, name: string)
    ensures !IsBlank(stored.name) ==> MergeUser(stored, UserPatch(Some(name), None)).name == name
    ensures IsBlank(stored.name) ==> MergeUser(stored, UserPatch(Some(name), None)) == stored
  {
  }

  /** An all-null patch leaves the user as it was. */
  lemma MergeUserEmptyPatch(stored: User)
    ensures MergeUser(stored, UserPatch(None, None)) == stored
  {
  }

  class UserStore {
    var users: map<int, User>
    /** The id the next saved user receives. */
    var nextId: int

    ghost predicate Valid()
      reads this
    {
      && nextId >= 1
      && (forall k :: k in users ==> users[k].id == k && 1 <= k < nextId)
      && UniqueEmails(users)
    }

    constructor ()
      ensures Valid() && users == map[] && nextId == 1
    {
      users := map[];
      nextId := 1;
    }

    /** save: stores a new user under the next id; an email already in use
        violates the constraint, giving AlreadyExists and storing nothing. */
    method Save(name: string, email: string) returns (r: Result<User>)
      requires Valid()
      modifies this
      ensures Valid()
      ensures r.Err? <==> EmailTaken(old(users), email, old(nextId))
      ensures r.Err? ==> r.error == AlreadyExists && users == old(users) && nextId == old(nextId)
      ensures r.Ok? ==>
        && r.value == User(old(nextId), name, email)
        && old(nextId) !in old(users)
        && users == old(users)[r.value.id := r.value]
        && nextId == old(nextId) + 1
    {
      if EmailTaken(users, email, nextId) {
        return Err(AlreadyExists);
      }
      var user := User(nextId, name, email);
      users := users[nextId := user];
      nextId := nextId + 1;
      r := Ok(user);
    }

    /** update: the stored user is looked up, the patch's fields are set on it
        under the stored-value guard, and the result is flushed; an email that
        another user already has gives AlreadyExists and leaves the store as it
        was. Only the entry of `userId` ever changes. */
    method Update(patch: UserPatch, userId: int) returns (r: Result<User>)
      requires Valid()
      modifies this
      ensures Valid()
      ensures nextId == old(nextId)
      ensures userId !in old(users) ==> r == Err(NotFound)
      ensures userId in old(users) ==>
        var merged := MergeUser(old(users)[userId], patch);
        && (EmailTaken(old(users), merged.email, userId) ==> r == Err(AlreadyExists))
        && (!EmailTaken(old(users), merged.email, userId) ==> r == Ok(merged) && users == old(users)[userId := merged])
      ensures r.Err? ==> users == old(users)
    {
      if userId !in users {
        return Err(NotFound);
      }
      var updated := users[userId];
      if patch.name.Some? && !IsBlank(updated.name) {
        updated := updated.(name := patch.name.value);
      }
      if patch.email.Some? && !IsBlank(updated.email) {
        updated := updated.(email := patch.email.value);
      }
      if EmailTaken(users, updated.email, userId) {
        return Err(AlreadyExists);
      }
      users := users[userId := updated];
      r := Ok(updated);
    }

    /** findById: NotFound for an unknown id. */
    method FindById(id: int) returns (r: Result<User>)
      ensures r.Ok? <==> id in users
      ensures r.Ok? ==> r.value == users[id]
      ensures r.Err? ==> r.error == NotFound
    {
      r := if id in users then Ok(users[id]) else Err(NotFound);
    }

    /** findAll: every stored user. */
    method FindAll() returns (r: seq<User>)
      ensures |r| == |users|
      ensures forall u :: u in r <==> u in users.Values
    {
      r := ValuesOf(users);
    }

    /** deleteById: the user stored under `id` is removed. */
    method DeleteById(id: int)
      requires Valid()
      modifies this
      ensures Valid()
      ensures users == old(users) - {id} && nextId == old(nextId)
      ensures forall u :: u in users.Values ==> u.id != id
    {
      users := users - {id};
      forall u | u in users.Values ensures u.id != id {
        var k := KeyOf(users, u);
      }
    }
  }

  /** After deleteById the user no longer appears in findAll. */
  method DeletedUserIsNotListed(store: UserStore, id: int) returns (all: seq<User>)
    requires store.Valid()
    modifies store
    ensures forall u :: u in all ==> u.id != id
    ensures |all| == |old(store.users) - {id}|
  {
    store.DeleteById(id);
    all := store.FindAll();
  }
}
