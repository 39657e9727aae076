/** The API server's authentication and authorisation middleware
    (apps/server/src/middleware/auth.ts): resolving the `x-user-id` header to a
    user with the union of their roles' permissions, and deciding whether a
    user holds a required permission. The database lookup is a parameter. */
module Auth {
  import opened Collections
  import opened Text

  /** What a middleware does with a request: pass it on, or answer it. */
  datatype Response = Next | Reply(status: int, message: string)

  const NoUserId := "Unauthorized: User ID is missing"
  const UserNotFound := "Unauthorized: User not found"
  const ServerError := "Internal server error"
  const Unauthorized := "Unauthorized"
  const Forbidden := "Forbidden: You do not have the required permission"

  /** The user attached to an authenticated request. */
  datatype RequestUser = RequestUser(id: string, name: string, email: string, permissions: seq<string>)

  /** A role with the names of the permissions it holds. */
  datatype Role = Role(permissions: seq<string>)

  datatype StoredUser = StoredUser(id: string, name: string, email: string, roles: seq<Role>)

  /** The outcome of the user lookup: found, absent, or the database failing. */
  datatype Lookup = Found(user: StoredUser) | Absent | LookupError

  /** The request after the middleware: the user attached and passed on, or answered. */
  datatype Authenticated = Attached(user: RequestUser) | Rejected(status: int, message: string)

  // ---- the permission list ----

  /** `roles.flatMap(r => r.permissions)`: every role's permission names, role by role. */
  function AllPermissions(roles: seq<Role>): (r: seq<string>)
    ensures forall x :: x in r <==> exists k :: 0 <= k < |roles| && x in roles[k].permissions
  {
    if roles == [] then []
    else
      var rest := AllPermissions(roles[..|roles| - 1]);
      assert forall k :: 0 <= k < |roles| - 1 ==> roles[..|roles| - 1][k] == roles[k];
      rest + roles[|roles| - 1].permissions
  }

  // ---- authMiddleware ----

  /** `authMiddleware`: a missing or empty `x-user-id` header and an unknown
      user answer 401, a failing lookup 500; otherwise the user is attached
      with every permission of every role, each named once. */
  function Authenticate(header: Option<string>, lookup: string -> Lookup): (r: Authenticated)
    ensures header.None? || header == Some("") ==> r == Rejected(401, NoUserId)
    ensures header.Some? && header != Some("") ==>
      match lookup(header.value)
      case Absent => r == Rejected(401, UserNotFound)
      case LookupError => r == Rejected(500, ServerError)
      case Found(u) =>
        r.Attached? && r.user.id == u.id && r.user.name == u.name && r.user.email == u.email
        && NoDuplicates(r.user.permissions)
        && forall x :: x in r.user.permissions <==> exists k :: 0 <= k < |u.roles| && x in u.roles[k].permissions
  {
    if header.None? || header.value == "" then Rejected(401, NoUserId)
    else
      match lookup(header.value)
      case Absent => Rejected(401, UserNotFound)
      case LookupError => Rejected(500, ServerError)
      case Found(u) => Attached(RequestUser(u.id, u.name, u.email, Dedup(AllPermissions(u.roles))))
  }

  // ---- requirePermission ----

  /** `p.endsWith(':*') && required.startsWith(p.slice(0, -2))`. */
  predicate WildcardGrants(p: string, required: string)
  {
    EndsWith(p, ":*") && StartsWith(required, p[..|p| - 2])
  }

  predicate Grants(permissions: seq<string>, required: string)
  {
    "all" in permissions || required in permissions
    || exists k :: 0 <= k < |permissions| && WildcardGrants(permissions[k], required)
  }

  /** `requirePermission(required)`: 401 without a user, on to the next
      handler when the user holds 'all', the permission itself or a
      wildcard over it, 403 otherwise. */
  function RequirePermission(user: Option<RequestUser>, required: string): (r: Response)
    ensures user.None? ==> r == Reply(401, Unauthorized)
    ensures user.Some? ==> (r == Next <==> Grants(user.value.permissions, required))
    ensures user.Some? && !Grants(user.value.permissions, required) ==> r == Reply(403, Forbidden)
  {
    if user.None? then Reply(401, Unauthorized)
    else if Grants(user.value.permissions, required) then Next
    else Reply(403, Forbidden)
  }

  /** One permission covers a required one exactly when it is 'all', the
      same name, or some prefix followed by ':*' with the required name
      starting with that prefix. A permission without the ':*' suffix is
      never read as a wildcard. */
  lemma Covers(p: string, required: string)
    ensures ("all" == p || required == p || WildcardGrants(p, required))
      <==> ("all" == p || required == p || exists q :: p == q + ":*" && StartsWith(required, q))
    ensures !EndsWith(p, ":*") ==> !WildcardGrants(p, required)
  {
    if WildcardGrants(p, required) {
      var q := p[..|p| - 2];
      assert p == q + ":*";
    }
    if exists q :: p == q + ":*" && StartsWith(required, q) {
      var q :| p == q + ":*" && StartsWith(required, q);
      assert p[..|p| - 2] == q;
      assert p[|p| - 2..] == ":*";
    }
  }

  /** The wildcard is a plain prefix test: 'sale:*' also grants 'sales:refund',
      and ':*' grants everything. */
  lemma WildcardIsPlainPrefix()
    ensures RequirePermission(Some(RequestUser("u", "n", "e", ["sale:*"])), "sales:refund") == Next
    ensures forall required :: RequirePermission(Some(RequestUser("u", "n", "e", [":*"])), required) == Next
  {
    assert WildcardGrants(["sale:*"][0], "sales:refund") by {
      assert "sales:refund"[..4] == "sale";
    }
    forall required ensures Grants([":*"], required) {
      assert WildcardGrants([":*"][0], required);
    }
  }

  /** More permissions never take access away, and removing duplicates from
      the list never changes a decision. */
  lemma GrantsMonotone(permissions: seq<string>, more: seq<string>, required: string)
    ensures Grants(permissions, required) ==> Grants(permissions + more, required)
    ensures Grants(Dedup(permissions + more), required) == Grants(permissions + more, required)
  {
    var all := permissions + more;
    if exists k :: 0 <= k < |permissions| && WildcardGrants(permissions[k], required) {
      var k :| 0 <= k < |permissions| && WildcardGrants(permissions[k], required);
      assert all[k] == permissions[k];
    }
    GrantsSameMembers(Dedup(all), all, required);
  }

  lemma GrantsSameMembers(a: seq<string>, b: seq<string>, required: string)
    requires forall x :: x in a <==> x in b
    ensures Grants(a, required) == Grants(b, required)
  {
    if exists k :: 0 <= k < |a| && WildcardGrants(a[k], required) {
      var k :| 0 <= k < |a| && WildcardGrants(a[k], required);
      assert a[k] in b;
      var j :| 0 <= j < |b| && b[j] == a[k];
    }
    if exists k :: 0 <= k < |b| && WildcardGrants(b[k], required) {
      var k :| 0 <= k < |b| && WildcardGrants(b[k], required);
      assert b[k] in a;
      var j :| 0 <= j < |a| && a[j] == b[k];
    }
  }
}
