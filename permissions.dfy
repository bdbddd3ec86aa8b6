/** The two permission classes of backend/api/permissions.py. A request is
    its HTTP verb and the user Django attaches to it. */
module Permissions {

  /** `request.user`: the anonymous user, or a stored account with its
      primary key and its two admin flags. */
  datatype Viewer =
    | Anonymous
    | Account(id: nat, isSuperuser: bool, isStaff: bool)

  /** `permissions.SAFE_METHODS`. */
  const SafeMethods: seq<string> := ["GET", "HEAD", "OPTIONS"]

  predicate Safe(verb: string) {
    verb in SafeMethods
  }

  /** `is_authenticated`: false only for the anonymous user. */
  predicate Authenticated(v: Viewer) {
    v.Account?
  }

  /** `is_superuser` and `is_staff` of the anonymous user are false. */
  predicate Admin(v: Viewer) {
    v.Account? && (v.isSuperuser || v.isStaff)
  }

  /** Whether `request.user == obj.author`: model instances compare by
      primary key, and the anonymous user equals no stored user. */
  predicate IsAuthor(v: Viewer, author: nat) {
    v.Account? && v.id == author
  }

  /** `IsAdminOrReadOnly.has_permission`. */
  function AdminOrReadOnly(verb: string, v: Viewer): (allowed: bool)
    ensures Safe(verb) ==> allowed
    ensures !Safe(verb) ==> (allowed <==> Admin(v))
  {
    Safe(verb) || (v.Account? && v.isSuperuser) || (v.Account? && v.isStaff)
  }

  /** `has_permission` inherited from `IsAuthenticatedOrReadOnly`. */
  function AuthorOrReadOnlyView(verb: string, v: Viewer): (allowed: bool)
    ensures allowed <==> Safe(verb) || Authenticated(v)
  {
    verb in SafeMethods || v != Anonymous
  }

  /** `IsAuthorOrReadOnly.has_object_permission` for an object whose author
      has primary key `author`. */
  function AuthorOrReadOnlyObject(verb: string, v: Viewer, author: nat): (allowed: bool)
    ensures Safe(verb) ==> allowed
    ensures !Safe(verb) ==> (allowed <==> IsAuthor(v, author))
  {
    Safe(verb) || (v != Anonymous && v.id == author)
  }

  /** Access to one object through `IsAuthorOrReadOnly`: the view check
      runs first, then the object check. */
  function AuthorOrReadOnly(verb: string, v: Viewer, author: nat): bool {
    AuthorOrReadOnlyView(verb, v) && AuthorOrReadOnlyObject(verb, v, author)
  }

  /** Reading an object is open to everyone; changing it is open to its
      author alone, and the view check adds nothing beyond the object check. */
  lemma AuthorOrReadOnlyRule(verb: string, v: Viewer, author: nat)
    ensures AuthorOrReadOnly(verb, v, author) <==> Safe(verb) || IsAuthor(v, author)
    ensures AuthorOrReadOnlyObject(verb, v, author) ==> AuthorOrReadOnlyView(verb, v)
  {
  }

  /** An author may change their own object even without admin flags, and
      an admin who is not the author may not: the two classes are
      incomparable. */
  lemma AdminAndAuthorDiffer()
    ensures AuthorOrReadOnly("PATCH", Account(1, false, false), 1)
    ensures !AdminOrReadOnly("PATCH", Account(1, false, false))
    ensures AdminOrReadOnly("DELETE", Account(2, true, false))
    ensures !AuthorOrReadOnly("DELETE", Account(2, true, false), 1)
  {
    assert !Safe("PATCH") && !Safe("DELETE") by {
      assert SafeMethods[0] != "PATCH" && SafeMethods[1] != "PATCH" && SafeMethods[2] != "PATCH";
      assert SafeMethods[0] != "DELETE" && SafeMethods[1] != "DELETE" && SafeMethods[2] != "DELETE";
    }
  }

  /** The anonymous user can never change anything under either class. */
  lemma AnonymousReadsOnly(verb: string, author: nat)
    ensures AdminOrReadOnly(verb, Anonymous) <==> Safe(verb)
    ensures AuthorOrReadOnly(verb, Anonymous, author) <==> Safe(verb)
  {
  }
}
