/**
 * `services/user_service.go` of the Go project: an in-memory user store with
 * a map from ID to user and a counter for the next ID.
 */
module GoUserService {
  import opened Wrappers
  import opened GoModels

  predicate Distinct<T(==)>(s: seq<T>) {
    forall i, j :: 0 <= i < j < |s| ==> s[i] != s[j]
  }

  lemma NonEmptyHasElement(s: set<int>)
    requires s != {}
    ensures exists x :: x in s
  {
    if forall x :: x !in s {
      assert false;
    }
  }

  class UserService {
    var dbURL: string
    var users: map<int, User>
    var nextID: int

    /** Every user is stored under its own ID, and every ID is below `nextID`. */
    ghost predicate Valid()
      reads this
    {
      && 1 <= nextID
      && forall k :: k in users ==> users[k].id == k && 1 <= k < nextID
    }

    /** `NewUserService(dbURL)`: no users, first ID 1. */
    constructor (dbURL: string)
      ensures Valid()
      ensures this.dbURL == dbURL && users == map[] && nextID == 1
    {
      this.dbURL := dbURL;
      users := map[];
      nextID := 1;
    }

    /**
     * `GetAll()`: every stored user exactly once, in an unspecified order, and
     * never an error.
     */
    method GetAll() returns (r: Result<seq<User>, string>)
      requires Valid()
      ensures r.Ok?
      ensures |r.value| == |users|
      ensures forall i :: 0 <= i < |r.value| ==> r.value[i].id in users && users[r.value[i].id] == r.value[i]
      ensures forall k :: k in users ==> users[k] in r.value
      ensures Distinct(r.value)
    {
      var result: seq<User> := [];
      var rest := users.Keys;
      while rest != {}
        invariant rest <= users.Keys
        invariant |result| + |rest| == |users|
        invariant forall i :: 0 <= i < |result| ==>
          result[i].id in users && users[result[i].id] == result[i] && result[i].id !in rest
        invariant forall k :: k in users && k !in rest ==> users[k] in result
        invariant Distinct(result)
        decreases |rest|
      {
        NonEmptyHasElement(rest);
        var k :| k in rest;
        result := result + [users[k]];
        rest := rest - {k};
      }
      return Ok(result);
    }

    /** `GetByID(id)`: the stored user, or "user not found" when there is none. */
    method GetByID(id: int) returns (r: Result<User, string>)
      ensures id in users ==> r == Ok(users[id])
      ensures id !in users ==> r == Err("user not found")
      ensures Valid() && r.Ok? ==> r.value.id == id
    {
      if id !in users {
        return Err("user not found");
      }
      return Ok(users[id]);
    }

    /**
     * `Create(name, email)`: a user with the next ID, stored under it, and
     * never an error. The new ID exceeds every ID already stored, so it
     * overwrites nothing and successive IDs strictly increase.
     */
    method Create(name: string, email: string) returns (r: Result<User, string>)
      requires Valid()
      modifies this
      ensures Valid()
      ensures r == Ok(User(old(nextID), name, email, "user"))
      ensures nextID == old(nextID) + 1
      ensures forall k :: k in old(users) ==> k < r.value.id
      ensures users == old(users)[r.value.id := r.value]
      ensures dbURL == old(dbURL)
    {
      var user := NewUser(name, email);
      user := user.(id := nextID);
      nextID := nextID + 1;
      users := users[user.id := user];
      return Ok(user);
    }
  }

  /** Two calls in a row give two different, increasing IDs, both stored. */
  method CreateTwice(s: UserService, name1: string, email1: string, name2: string, email2: string)
    returns (first: User, second: User)
    requires s.Valid()
    modifies s
    ensures s.Valid()
    ensures first.id < second.id
    ensures s.users == old(s.users)[first.id := first][second.id := second]
  {
    var r1 := s.Create(name1, email1);
    var r2 := s.Create(name2, email2);
    first, second := r1.value, r2.value;
  }
}
