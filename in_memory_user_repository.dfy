/**
 * The in-memory user repository of the earlier application: a map from id
 * to user, the set of registered e-mails, and an id counter that starts at 1.
 */
module InMemoryUsers {
  import opened Wrappers
  import opened Domain

  /** The e-mails of the stored users. */
  function EmailsOf(users: map<nat, User>): (r: set<string>)
    ensures forall e :: e in r <==> exists id :: id in users && users[id].email == e
  {
    set id | id in users :: users[id].email
  }

  /** No two stored users share an e-mail. */
  predicate UniqueEmails(users: map<nat, User>) {
    forall a, b :: a in users && b in users && a != b ==> users[a].email != users[b].email
  }

  /** Storing a user under a new id adds its e-mail. */
  lemma EmailsOfAdd(users: map<nat, User>, id: nat, u: User)
    requires id !in users
    ensures EmailsOf(users[id := u]) == EmailsOf(users) + {u.email}
  {
    var after := users[id := u];
    forall e | e in EmailsOf(users) ensures e in EmailsOf(after) {
      var k :| k in users && users[k].email == e;
      assert after[k] == users[k];
    }
    assert after[id].email == u.email;
  }

  /** With e-mails unique, replacing a user swaps its e-mail for the new one. */
  lemma EmailsOfReplace(users: map<nat, User>, id: nat, u: User)
    requires id in users && UniqueEmails(users)
    ensures EmailsOf(users[id := u]) == EmailsOf(users) - {users[id].email} + {u.email}
  {
    var after := users[id := u];
    forall e | e in EmailsOf(users) - {users[id].email} ensures e in EmailsOf(after) {
      var k :| k in users && users[k].email == e;
      assert k != id && after[k] == users[k];
    }
    forall e | e in EmailsOf(after) ensures e in EmailsOf(users) - {users[id].email} + {u.email} {
      var k :| k in after && after[k].email == e;
      if k != id {
        assert users[k].email != users[id].email;
      }
    }
    assert after[id].email == u.email;
  }

  /** With e-mails unique, removing a user removes exactly its e-mail. */
  lemma EmailsOfRemove(users: map<nat, User>, id: nat)
    requires id in users && UniqueEmails(users)
    ensures EmailsOf(users - {id}) == EmailsOf(users) - {users[id].email}
  {
    var after := users - {id};
    forall e | e in EmailsOf(users) - {users[id].email} ensures e in EmailsOf(after) {
      var k :| k in users && users[k].email == e;
      assert k != id && after[k] == users[k];
    }
    forall e | e in EmailsOf(after) ensures e != users[id].email {
      var k :| k in after && after[k].email == e;
      assert users[k].email != users[id].email;
    }
  }

  class InMemoryUserRepository {
    var users: map<nat, User>
    var emails: set<string>
    var count: nat

    /** Users are stored under their ids below the counter; `emails` is exactly their e-mails, each used once. */
    ghost predicate Valid()
      reads this
    {
      count >= 1
      && (forall id :: id in users ==> users[id].id == id && id < count)
      && emails == EmailsOf(users)
      && UniqueEmails(users)
    }

    constructor()
      ensures Valid() && users == map[] && emails == {} && count == 1
    {
      users := map[];
      emails := {};
      count := 1;
    }

    /** `findById`: the stored user, or empty. */
    function FindById(id: nat): (r: Option<User>)
      reads this
      ensures r.Some? <==> id in users
      ensures r.Some? ==> r.value == users[id]
    {
      if id in users then Some(users[id]) else None
    }

    /** `findAll`: the stored users (as a set: the list follows the map's iteration order). */
    function FindAll(): (r: set<User>)
      reads this
      ensures forall u :: u in r <==> exists id :: id in users && users[id] == u
    {
      users.Values
    }

    /** `emailCheckDuplicate`: a registered e-mail is refused with ServerException. */
    function EmailCheckDuplicate(email: string): (r: Outcome<Error>)
      reads this
      ensures r.Fail? <==> email in emails
      ensures r.Fail? ==> r.error == Server
    {
      if email in emails then Fail(Server) else Pass
    }

    /** `save`: a user with a new e-mail is stored under the counter, which moves on; a known e-mail changes nothing. */
    method Save(user: User) returns (r: Result<User, Error>)
      requires Valid()
      modifies this
      ensures Valid()
      ensures user.email in old(emails) ==> r == Failure(Server) && unchanged(this)
      ensures user.email !in old(emails) ==>
                var saved := user.(id := old(count));
                r == Success(saved) && saved.id !in old(users)
                && users == old(users)[saved.id := saved] && emails == old(emails) + {user.email}
                && count == old(count) + 1
    {
      var check := EmailCheckDuplicate(user.email);
      if check.Fail? {
        return Failure(check.error);
      }
      var saved := user.(id := count);
      EmailsOfAdd(users, saved.id, saved);
      count := count + 1;
      users := users[saved.id := saved];
      emails := emails + {user.email};
      r := Success(saved);
    }

    /**
     * `update`: replaces the stored user with the same id. A changed e-mail
     * must be new, and takes the old one's place in the set; an unchanged
     * one is not checked.
     */
    method Update(user: User) returns (r: Result<User, Error>)
      requires Valid()
      modifies this
      ensures Valid()
      ensures user.id !in old(users) ==> r == Failure(NotFound(UserEntity)) && unchanged(this)
      ensures user.id in old(users) && user.email != old(users)[user.id].email && user.email in old(emails) ==>
                r == Failure(Server) && unchanged(this)
      ensures r.Success? <==> user.id in old(users)
                              && (user.email == old(users)[user.id].email || user.email !in old(emails))
      ensures r.Success? ==>
                r.value == user && users == old(users)[user.id := user]
                && emails == old(emails) - {old(users)[user.id].email} + {user.email} && count == old(count)
    {
      if user.id !in users {
        return Failure(NotFound(UserEntity));
      }
      var oldEmail := users[user.id].email;
      EmailsOfReplace(users, user.id, user);
      if oldEmail != user.email {
        var check := EmailCheckDuplicate(user.email);
        if check.Fail? {
          return Failure(check.error);
        }
        emails := emails - {oldEmail} + {user.email};
      }
      users := users[user.id := user];
      r := Success(user);
    }

    /** `deleteById`: removes the user and its e-mail; an absent id makes `users.get(id).getEmail()` throw. */
    method DeleteById(id: nat) returns (r: Outcome<Error>)
      requires Valid()
      modifies this
      ensures Valid()
      ensures id !in old(users) ==> r == Fail(NullReference) && unchanged(this)
      ensures id in old(users) ==>
                r == Pass && users == old(users) - {id} && emails == old(emails) - {old(users)[id].email}
                && count == old(count)
    {
      if id !in users {
        return Fail(NullReference);
      }
      EmailsOfRemove(users, id);
      emails := emails - {users[id].email};
      users := users - {id};
      r := Pass;
    }

    /** `deleteAll`: empties the map and the e-mail set; the counter stays. */
    method DeleteAll()
      requires Valid()
      modifies this
      ensures Valid()
      ensures users == map[] && emails == {} && count == old(count)
    {
      emails := {};
      users := map[];
    }
  }
}
