/** InMemoryUserRepositoryImpl: users kept in a hash map under ids handed out
    by a counter. */
module InMemoryUserRepository {
  import opened Common
  import opened Model

  class UserRepository {
    /** The id the next created user receives. */
    var userId: int
    var users: map<int, User>

    ghost predicate Valid()
      reads this
    {
      userId >= 1
    }

    constructor ()
      ensures Valid() && userId == 1 && users == map[]
    {
      userId := 1;
      users := map[];
    }

    /** createUser: the user takes the counter's value as its id, the counter
        moves on, and the user is stored under its id. */
    method CreateUser(user: User) returns (r: User)
      requires Valid()
      modifies this
      ensures Valid()
      ensures r == user.(id := old(userId))
      ensures userId == old(userId) + 1
      ensures users == old(users)[r.id := r]
    {
      r := user.(id := userId);
      userId := userId + 1;
      users := users[r.id := r];
    }

    /** updateUser: stores the user under `id` only and returns what was stored
        there before (null when nothing was). */
    method UpdateUser(user: User, id: int) returns (previous: Option<User>)
      modifies this
      ensures previous.Some? <==> id in old(users)
      ensures previous.Some? ==> previous.value == old(users)[id]
      ensures users == old(users)[id := user]
      ensures userId == old(userId)
    {
      previous := if id in users then Some(users[id]) else None;
      users := users[id := user];
    }

    /** getUserById. */
    method GetUserById(id: int) returns (r: Option<User>)
      ensures r.Some? <==> id in users
      ensures r.Some? ==> r.value == users[id]
    {
      r := if id in users then Some(users[id]) else None;
    }

    /** getUsers: every stored user, one per key, in no promised order. */
    method GetUsers() returns (r: seq<User>)
      ensures |r| == |users|
      ensures forall u :: u in r <==> u in users.Values
    {
      r := ValuesOf(users);
    }

    /** deleteUserById: removes that key only; nothing happens for an absent id. */
    method DeleteUserById(id: int)
      modifies this
      ensures users == old(users) - {id}
      ensures id !in old(users) ==> users == old(users)
      ensures userId == old(userId)
    {
      users := users - {id};
    }
  }

  /** A created user can be read back under the id it was given, and is gone
      once deleted. */
  method CreateReadDelete(repo: UserRepository, user: User) returns (created: User, read: Option<User>, afterDelete: Option<User>)
    requires repo.Valid()
    modifies repo
    ensures read == Some(created) && created.id == old(repo.userId)
    ensures afterDelete.None?
    ensures repo.users == old(repo.users) - {created.id}
  {
    created := repo.CreateUser(user);
    read := repo.GetUserById(created.id);
    repo.DeleteUserById(created.id);
    afterDelete := repo.GetUserById(created.id);
  }
}
