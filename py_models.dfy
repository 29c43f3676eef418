/**
 * `models/user.py` of the Python project: the `User` dataclass and its
 * `AdminUser` subclass. A `User` is never mutated, so it is a value; an
 * `AdminUser` changes its `permissions` in place, so it is an object.
 */
module PyModels {
  import opened Wrappers

  /** `User(id, name, email, role="user")`. */
  datatype User = User(id: int, name: string, email: string, role: string := "user") {

    /** `is_admin()`. */
    predicate IsAdmin() {
      role == "admin"
    }
  }

  /** The list `grant_permission` appends to: None is first replaced by `[]`. */
  function Granted(permissions: Option<seq<string>>, perm: string): (r: seq<string>) {
    match permissions
    case None => [perm]
    case Some(ps) => ps + [perm]
  }

  /** `AdminUser(id, name, email, role="user", permissions=None)`. */
  class AdminUser {
    var id: int
    var name: string
    var email: string
    var role: string
    var permissions: Option<seq<string>>

    constructor (id: int, name: string, email: string, role: string := "user",
                 permissions: Option<seq<string>> := None)
      ensures this.id == id && this.name == name && this.email == email
      ensures this.role == role && this.permissions == permissions
    {
      this.id := id;
      this.name := name;
      this.email := email;
      this.role := role;
      this.permissions := permissions;
    }

    /** The inherited `User` part. */
    function AsUser(): (r: User)
      reads this
    {
      User(id, name, email, role)
    }

    /** The inherited `is_admin()`. */
    predicate IsAdmin()
      reads this
    {
      AsUser().IsAdmin()
    }

    /** `grant_permission(perm)`: turns None into `[]`, then appends. */
    method GrantPermission(perm: string)
      modifies this
      ensures permissions == Some(Granted(old(permissions), perm))
      ensures id == old(id) && name == old(name) && email == old(email) && role == old(role)
    {
      if permissions.None? {
        permissions := Some([]);
      }
      assert old(permissions).None? ==> permissions.value + [perm] == [perm];
      permissions := Some(permissions.value + [perm]);
    }
  }

  /** A user built without a role has role "user" and is not an admin. */
  lemma DefaultRole(id: int, name: string, email: string)
    ensures User(id, name, email).role == "user"
    ensures !User(id, name, email).IsAdmin()
  {
  }

  lemma IsAdminIff(u: User)
    ensures u.IsAdmin() <==> u.role == "admin"
  {
  }

  /**
   * Granting appends: the earlier permissions are kept in order and the new
   * one is last, on a None list as on a present one.
   */
  lemma GrantedAppends(permissions: Option<seq<string>>, perm: string)
    ensures var before := if permissions.Some? then permissions.value else [];
      && |Granted(permissions, perm)| == |before| + 1
      && Granted(permissions, perm)[..|before|] == before
      && Granted(permissions, perm)[|before|] == perm
  {
  }

  /** Granting the same permission twice leaves two more copies: no deduplication. */
  lemma GrantedTwice(permissions: Option<seq<string>>, perm: string)
    ensures var before := if permissions.Some? then permissions.value else [];
      multiset(Granted(Some(Granted(permissions, perm)), perm))[perm] == multiset(before)[perm] + 2
  {
  }
}
