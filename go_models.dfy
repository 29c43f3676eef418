/**
 * `models/user.go` and `models/admin.go` of the Go project. Go's `*User`
 * pointers are modelled as values; field names follow Dafny style (`id` for
 * Go's `ID`, and so on).
 */
module GoModels {
  import Utf8

  /** `type User struct { ID, Name, Email, Role }`. */
  datatype User = User(id: int, name: string, email: string, role: string) {

    /** `IsAdmin()`. */
    predicate IsAdmin() {
      role == "admin"
    }

    /** `String()`: `fmt.Sprintf("%s <%s>", Name, Email)`. */
    function String(): (r: string) {
      name + " <" + email + ">"
    }
  }

  /** `NewUser(name, email)`: ID left at Go's zero value, role "user". */
  function NewUser(name: string, email: string): (r: User) {
    User(0, name, email, "user")
  }

  /** `type AdminUser struct { User; Permissions []string }`; a nil slice is `[]`. */
  datatype AdminUser = AdminUser(user: User, permissions: seq<string>) {

    /** `HasPermission(perm)`: a linear search with early return. */
    method HasPermission(perm: string) returns (found: bool)
      ensures found <==> perm in permissions
    {
      var i := 0;
      while i < |permissions|
        invariant 0 <= i <= |permissions|
        invariant perm !in permissions[..i]
      {
        if permissions[i] == perm {
          return true;
        }
        i := i + 1;
      }
      return false;
    }
  }

  /** `NewAdmin(name, email, perms)`: keeps `perms` as given. */
  function NewAdmin(name: string, email: string, perms: seq<string>): (r: AdminUser) {
    AdminUser(User(0, name, email, "admin"), perms)
  }

  lemma IsAdminIff(u: User)
    ensures u.IsAdmin() <==> u.role == "admin"
  {
  }

  /** A fresh user has ID 0, the given name and e-mail, and is not an admin. */
  lemma NewUserFields(name: string, email: string)
    ensures var u := NewUser(name, email);
      u.id == 0 && u.name == name && u.email == email && u.role == "user" && !u.IsAdmin()
  {
  }

  /** A fresh admin has ID 0, role "admin", the given permissions, and is an admin. */
  lemma NewAdminFields(name: string, email: string, perms: seq<string>)
    ensures var a := NewAdmin(name, email, perms);
      && a.user.id == 0 && a.user.name == name && a.user.email == email
      && a.user.role == "admin" && a.permissions == perms && a.user.IsAdmin()
  {
  }

  /**
   * `String()` lays out the name, " <", the e-mail and ">", so both fields can
   * be read back from it; its Go `len` is the fields' byte lengths plus 3.
   */
  lemma StringLayout(u: User)
    ensures var r := u.String();
      && |r| == |u.name| + |u.email| + 3
      && r[..|u.name|] == u.name
      && r[|u.name|..|u.name| + 2] == " <"
      && r[|u.name| + 2..|r| - 1] == u.email
      && r[|r| - 1] == '>'
      && Utf8.Length(r) == Utf8.Length(u.name) + Utf8.Length(u.email) + 3
  {
    Utf8.LengthConcat(u.name, " <");
    Utf8.LengthConcat(u.name + " <", u.email);
    Utf8.LengthConcat(u.name + " <" + u.email, ">");
  }
}
