/**
 * `services/user_service.py` of the Python project. The service's `_cache` is
 * set once and only read afterwards, so the service is a value. The database
 * URL comes from the configuration module and is passed in.
 */
module PyUserService {
  import opened Wrappers
  import opened PyModels

  datatype UserService = UserService(dbUrl: string, cache: map<int, User>) {

    /** `get_all()`: no store is wired in, so always the empty list. */
    function GetAll(): (r: seq<User>) {
      []
    }

    /** `get_by_id(user_id)`: `self._cache.get(user_id)`. */
    function GetById(userId: int): (r: Option<User>) {
      if userId in cache then Some(cache[userId]) else None
    }

    /** `create_admin(name, email)`: a new admin, not stored anywhere. */
    method CreateAdmin(name: string, email: string) returns (admin: AdminUser)
      ensures fresh(admin)
      ensures admin.id == 0 && admin.name == name && admin.email == email
      ensures admin.role == "admin" && admin.permissions == None
      ensures admin.IsAdmin()
    {
      admin := new AdminUser(0, name, email, "admin");
    }
  }

  /** `UserService()`: the configured URL and an empty cache. */
  function NewUserService(databaseUrl: string): (r: UserService) {
    UserService(databaseUrl, map[])
  }

  lemma NewUserServiceEmpty(databaseUrl: string)
    ensures NewUserService(databaseUrl).cache == map[]
    ensures NewUserService(databaseUrl).GetAll() == []
  {
  }

  /** A lookup finds exactly what the cache holds under that key. */
  lemma GetByIdIff(s: UserService, userId: int, u: User)
    ensures s.GetById(userId) == Some(u) <==> userId in s.cache && s.cache[userId] == u
    ensures s.GetById(userId) == None <==> userId !in s.cache
  {
  }

  /** On a fresh service every lookup misses. */
  lemma GetByIdFresh(databaseUrl: string, userId: int)
    ensures NewUserService(databaseUrl).GetById(userId) == None
  {
  }
}
