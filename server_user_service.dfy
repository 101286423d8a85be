/**
 * The user service of the server application over the users table. An
 * update is read, merged and written back when the transaction commits.
 */
module ServerUserService {
  import opened Wrappers
  import opened Domain
  import opened Table
  import opened UserMerge

  class UserService {
    var users: map<nat, User>
    var lastId: nat

    /** Rows are stored under their own ids, all at most the identity counter. */
    ghost predicate Valid()
      reads this
    {
      Bounded(users, lastId + 1) && forall id :: id in users ==> users[id].id == id
    }

    constructor()
      ensures Valid() && users == map[] && lastId == 0
    {
      users := map[];
      lastId := 0;
    }

    /** `getAll`: every stored user, in id order. */
    function GetAll(): (r: seq<User>)
      requires Valid()
      reads this
      ensures |r| == |users.Keys|
      ensures forall u :: u in r <==> exists id :: id in users && users[id] == u
    {
      RowsCount(users, lastId);
      Rows(users, lastId)
    }

    /** `getById`: the stored user, or NotFound. */
    function GetById(id: nat): (r: Result<User, Error>)
      reads this
      ensures r.Failure? <==> id !in users
      ensures r.Failure? ==> r.error == NotFound(UserEntity)
      ensures r.Success? ==> r.value == users[id]
    {
      if id in users then Success(users[id]) else Failure(NotFound(UserEntity))
    }

    /** `create`: the user is saved under the next identity value and listed after every earlier row. */
    method Create(user: User) returns (r: User)
      requires Valid()
      modifies this
      ensures Valid()
      ensures r == user.(id := lastId) && lastId == old(lastId) + 1
      ensures r.id !in old(users) && users == old(users)[r.id := r]
      ensures Rows(users, lastId) == old(Rows(users, lastId)) + [r]
    {
      var next := lastId + 1;
      r := user.(id := next);
      RowsAppend(users, lastId, r);
      users := users[next := r];
      lastId := next;
    }

    /** `update`: the patch is merged into the stored user, whose id stays the path id. */
    method Update(id: nat, patch: UserPatch) returns (r: Result<User, Error>)
      requires Valid()
      modifies this
      ensures Valid()
      ensures id !in old(users) ==> r == Failure(NotFound(UserEntity)) && unchanged(this)
      ensures id in old(users) ==>
                r == Success(MergeUser(patch, old(users)[id])) && r.value.id == id
                && users == old(users)[id := r.value] && lastId == old(lastId)
      ensures id in old(users) && !Applies(patch.name) && !Applies(patch.email) ==>
                r == Success(old(users)[id]) && users == old(users)
    {
      if id !in users {
        return Failure(NotFound(UserEntity));
      }
      var merged := MergeUser(patch, users[id]);
      MergeUserFields(patch, users[id]);
      users := users[id := merged];
      r := Success(merged);
    }

    /**
     * `deleteById`, called without looking the user up first: Spring Data's
     * `deleteById` throws EmptyResultDataAccessException for an absent id.
     */
    method DeleteById(id: nat) returns (r: Outcome<Error>)
      requires Valid()
      modifies this
      ensures Valid()
      ensures id !in old(users) ==> r == Fail(EmptyResult) && unchanged(this)
      ensures id in old(users) ==> r == Pass && users == old(users) - {id} && lastId == old(lastId)
    {
      if id !in users {
        return Fail(EmptyResult);
      }
      users := users - {id};
      r := Pass;
    }

    /** `deleteAll`: every row goes; the identity counter does not restart. */
    method DeleteAll()
      requires Valid()
      modifies this
      ensures Valid()
      ensures users == map[] && lastId == old(lastId)
    {
      users := map[];
    }
  }
}
