/**
 * The user service of the earlier application, over the in-memory user
 * repository.
 *
 * Its `update` merges the patch into the stored user object itself and then
 * hands that object to `save`, which is the repository's insert. `Store` and
 * `UpdateAsWritten` model that route on values; `UserService.Update` writes
 * the merged copy back through the repository's `update`, which is what the
 * service's own test of a null patch expects.
 */
module SrcUserService {
  import opened Wrappers
  import opened Domain
  import opened UserMerge
  import opened InMemoryUsers

  /** The three fields of the in-memory repository as values. */
  datatype Store = Store(users: map<nat, User>, emails: set<string>, count: nat)

  /** The repository invariant on a `Store`: each e-mail registered once, and for a stored user. */
  predicate Consistent(st: Store) {
    st.count >= 1
    && (forall id :: id in st.users ==> st.users[id].id == id && id < st.count)
    && st.emails == EmailsOf(st.users) && UniqueEmails(st.users)
  }

  /**
   * `update` as written. The stored object takes the merge first, so the map
   * shows it even when `save` then refuses the e-mail; when `save` accepts it,
   * the same object gets the counter as id and is put under that id as well.
   */
  function UpdateAsWritten(st: Store, id: nat, patch: UserPatch): (r: (Result<User, Error>, Store))
    ensures id !in st.users ==> r == (Failure(NotFound(UserEntity)), st)
    ensures id in st.users && MergeUser(patch, st.users[id]).email in st.emails ==>
              r.0 == Failure(Server) && r.1.users == st.users[id := MergeUser(patch, st.users[id])]
    ensures r.0.Success? ==>
              id in st.users && r.0.value.id == st.count && r.1.count == st.count + 1
              && id in r.1.users && r.1.users[id] == r.0.value
              && st.count in r.1.users && r.1.users[st.count] == r.0.value
  {
    if id !in st.users then (Failure(NotFound(UserEntity)), st)
    else
      var merged := MergeUser(patch, st.users[id]);
      var mutated := st.users[id := merged];
      if merged.email in st.emails then (Failure(Server), st.(users := mutated))
      else
        var saved := merged.(id := st.count);
        (Success(saved), Store(st.users[id := saved][st.count := saved], st.emails + {merged.email}, st.count + 1))
  }

  /** As written, a patch that changes nothing is refused: the user's own e-mail is already registered. */
  lemma UpdateAsWrittenRefusesEmptyPatch(st: Store, id: nat)
    requires Consistent(st) && id in st.users
    ensures UpdateAsWritten(st, id, UserPatch(None, None)).0 == Failure(Server)
  {
    MergeUserOfNothing(st.users[id], None, None);
    assert st.users[id].email in EmailsOf(st.users);
  }

  /**
   * As written, a new e-mail leaves the user under two ids, and leaves its
   * old e-mail registered although no stored user has it any more.
   */
  lemma UpdateAsWrittenDuplicatesUser(st: Store, id: nat, email: string)
    requires Consistent(st) && id in st.users
    requires email !in st.emails && !Text.IsBlank(email)
    ensures var r := UpdateAsWritten(st, id, UserPatch(None, Some(email)));
            r.0.Success? && r.0.value.id != id
            && r.1.users[id] == r.1.users[st.count]
            && st.users[id].email in r.1.emails && st.users[id].email !in EmailsOf(r.1.users)
            && !Consistent(r.1)
  {
    var before := st.users[id];
    var r := UpdateAsWritten(st, id, UserPatch(None, Some(email)));
    MergeUserFields(UserPatch(None, Some(email)), before);
    assert before.email in EmailsOf(st.users);
    assert st.count != id;
    assert r.1.users == st.users[id := r.0.value][st.count := r.0.value];
    forall k | k in r.1.users ensures r.1.users[k].email != before.email {
      if k != id && k != st.count {
        assert r.1.users[k] == st.users[k];
      }
    }
  }

  /** The service over one repository instance. */
  class UserService {
    const repo: InMemoryUserRepository

    ghost predicate Valid()
      reads this, repo
    {
      repo.Valid()
    }

    constructor()
      ensures Valid() && fresh(repo)
      ensures repo.users == map[] && repo.emails == {} && repo.count == 1
    {
      repo := new InMemoryUserRepository();
    }

    /** `getAll`: the stored users. */
    function GetAll(): (r: set<User>)
      reads this, repo
      ensures forall u :: u in r <==> exists id :: id in repo.users && repo.users[id] == u
    {
      repo.FindAll()
    }

    /** `getById`: the stored user, or NotFound. */
    function GetById(id: nat): (r: Result<User, Error>)
      reads this, repo
      ensures r.Failure? <==> id !in repo.users
      ensures r.Failure? ==> r.error == NotFound(UserEntity)
      ensures r.Success? ==> r.value == repo.users[id]
    {
      match repo.FindById(id)
      case Some(u) => Success(u)
      case None => Failure(NotFound(UserEntity))
    }

    /** `create`: the repository's `save`, so a registered e-mail is refused. */
    method Create(user: User) returns (r: Result<User, Error>)
      requires Valid()
      modifies repo
      ensures Valid()
      ensures user.email in old(repo.emails) ==> r == Failure(Server) && unchanged(repo)
      ensures user.email !in old(repo.emails) ==>
                r == Success(user.(id := old(repo.count))) && repo.users == old(repo.users)[old(repo.count) := r.value]
    {
      r := repo.Save(user);
    }

    /**
     * `update`, writing the merged copy back with the repository's `update`:
     * the user keeps its id, and a patch that changes nothing succeeds and
     * changes nothing.
     */
    method Update(id: nat, patch: UserPatch) returns (r: Result<User, Error>)
      requires Valid()
      modifies repo
      ensures Valid()
      ensures id !in old(repo.users) ==> r == Failure(NotFound(UserEntity)) && unchanged(repo)
      ensures id in old(repo.users) ==>
                var merged := MergeUser(patch, old(repo.users)[id]);
                (r.Success? <==> merged.email == old(repo.users)[id].email || merged.email !in old(repo.emails))
                && (r.Success? ==> r.value == merged && r.value.id == id && repo.users == old(repo.users)[id := merged])
                && (r.Failure? ==> r.error == Server && unchanged(repo))
      ensures id in old(repo.users) && !Applies(patch.name) && !Applies(patch.email) ==>
                r == Success(old(repo.users)[id]) && repo.users == old(repo.users)
    {
      var found := repo.FindById(id);
      if found.None? {
        return Failure(NotFound(UserEntity));
      }
      var merged := MergeUser(patch, found.value);
      MergeUserFields(patch, found.value);
      r := repo.Update(merged);
    }

    /** `deleteById`: the repository's delete, which throws on an absent id. */
    method DeleteById(id: nat) returns (r: Outcome<Error>)
      requires Valid()
      modifies repo
      ensures Valid()
      ensures id !in old(repo.users) ==> r == Fail(NullReference) && unchanged(repo)
      ensures id in old(repo.users) ==> r == Pass && repo.users == old(repo.users) - {id}
    {
      r := repo.DeleteById(id);
    }

    /** `deleteAll`: the repository is emptied. */
    method DeleteAll()
      requires Valid()
      modifies repo
      ensures Valid()
      ensures repo.users == map[] && repo.emails == {}
    {
      repo.DeleteAll();
    }
  }
}
