/** Request authentication and book authorisation (backend/auth.js):
    extracting the bearer token from the Authorization header, and the
    role comparison that guards every book route. Signing and checking the
    token itself is a parameter of the model. */
module Auth {
  import opened Common

  // ---------------------------------------------------------------------
  // Splitting a header on a one-character separator (String.prototype.split)
  // ---------------------------------------------------------------------

  /** `s.split(sep)` for a one-character separator: the maximal runs of
      characters between separators, empty runs included, so a string with
      k separators has k + 1 fields. */
  function Split(s: string, sep: char): (fields: seq<string>)
    ensures |fields| >= 1
    decreases |s|
  {
    if s == [] then [""]
    else
      var rest := Split(s[1..], sep);
      if s[0] == sep then [""] + rest
      else [[s[0]] + rest[0]] + rest[1..]
  }

  /** `fields.join(sep)`: the inverse of Split. */
  function Join(fields: seq<string>, sep: char): string
    requires |fields| >= 1
    decreases |fields|
  {
    if |fields| == 1 then fields[0]
    else fields[0] + [sep] + Join(fields[1..], sep)
  }

  /** Joining the fields back with the separator gives the original string. */
  lemma {:induction false} JoinSplit(s: string, sep: char)
    ensures Join(Split(s, sep), sep) == s
    decreases |s|
  {
    if s != [] {
      var rest := Split(s[1..], sep);
      JoinSplit(s[1..], sep);
      if s[0] == sep {
        assert Split(s, sep) == [""] + rest;
        assert s == [sep] + s[1..];
      } else {
        var f := Split(s, sep);
        assert f == [[s[0]] + rest[0]] + rest[1..];
        if |rest| == 1 {
          assert s == [s[0]] + rest[0];
        } else {
          assert Join(rest, sep) == rest[0] + [sep] + Join(rest[1..], sep);
          assert f[1..] == rest[1..];
          assert s == [s[0]] + s[1..];
        }
      }
    }
  }

  /** No field contains the separator. */
  lemma {:induction false} SplitFieldsHaveNoSeparator(s: string, sep: char)
    ensures forall i :: 0 <= i < |Split(s, sep)| ==> sep !in Split(s, sep)[i]
    decreases |s|
  {
    if s != [] {
      SplitFieldsHaveNoSeparator(s[1..], sep);
    }
  }

  /** A string without the separator is a single field. */
  lemma {:induction false} SplitWithoutSeparator(a: string, sep: char)
    requires sep !in a
    ensures Split(a, sep) == [a]
    decreases |a|
  {
    if a != [] {
      SplitWithoutSeparator(a[1..], sep);
      assert a == [a[0]] + a[1..];
    }
  }

  /** The first field ends at the first separator. */
  lemma {:induction false} SplitAtFirstSeparator(a: string, b: string, sep: char)
    requires sep !in a
    ensures Split(a + [sep] + b, sep) == [a] + Split(b, sep)
    decreases |a|
  {
    if a != [] {
      var s := a + [sep] + b;
      assert s[0] == a[0] && s[1..] == a[1..] + [sep] + b;
      SplitAtFirstSeparator(a[1..], b, sep);
      assert a == [a[0]] + a[1..];
    } else {
      assert a + [sep] + b == [sep] + b;
    }
  }

  // ---------------------------------------------------------------------
  // verifyToken
  // ---------------------------------------------------------------------

  /** `req.headers.authorization?.split(' ')[1]`, kept only when truthy:
      the second space-separated field of the header.  The first field (the
      scheme word of the form in section 2.1 of RFC 6750) is never looked at. */
  function BearerToken(header: Option<string>): (token: Option<string>)
    ensures token.Some? ==> header.Some?
    ensures token.Some? ==> token.value != [] && ' ' !in token.value
  {
    match header
    case None => None
    case Some(h) =>
      var fields := Split(h, ' ');
      SplitFieldsHaveNoSeparator(h, ' ');
      if |fields| >= 2 && fields[1] != [] then Some(fields[1]) else None
  }

  /** Any scheme word followed by a space and a non-empty token yields that
      token, whether or not more fields follow. */
  lemma BearerTokenOfHeader(scheme: string, token: string, rest: Option<string>)
    requires ' ' !in scheme && ' ' !in token && token != []
    ensures rest.None? ==> BearerToken(Some(scheme + " " + token)) == Some(token)
    ensures rest.Some? ==> BearerToken(Some(scheme + " " + token + " " + rest.value)) == Some(token)
  {
    SplitAtFirstSeparator(scheme, token, ' ');
    SplitWithoutSeparator(token, ' ');
    assert scheme + " " + token == scheme + [' '] + token;
    if rest.Some? {
      var tail := token + " " + rest.value;
      assert scheme + " " + token + " " + rest.value == scheme + [' '] + tail;
      SplitAtFirstSeparator(scheme, tail, ' ');
      assert tail == token + [' '] + rest.value;
      SplitAtFirstSeparator(token, rest.value, ' ');
    }
  }

  /** A header without a space carries no token. */
  lemma NoSpaceNoToken(h: string)
    requires ' ' !in h
    ensures BearerToken(Some(h)) == None
  {
    SplitWithoutSeparator(h, ' ');
  }

  datatype AuthResult = Authenticated(userId: int) | Unauthorized(status: int, message: string)

  /** The verifyToken middleware.  `verify` stands for jwt.verify with the
      server secret: it yields the user id of a valid token, None when it throws. */
  function VerifyToken(header: Option<string>, verify: string -> Option<int>): (r: AuthResult)
    ensures BearerToken(header).None? ==> r == Unauthorized(401, "No token provided")
    ensures BearerToken(header).Some? && verify(BearerToken(header).value).None? ==>
              r == Unauthorized(401, "Invalid token")
    ensures r.Authenticated? <==>
              BearerToken(header).Some? && verify(BearerToken(header).value).Some?
    ensures r.Authenticated? ==> Some(r.userId) == verify(BearerToken(header).value)
  {
    match BearerToken(header)
    case None => Unauthorized(401, "No token provided")
    case Some(t) =>
      match verify(t)
      case None => Unauthorized(401, "Invalid token")
      case Some(id) => Authenticated(id)
  }

  // ---------------------------------------------------------------------
  // checkPermission
  // ---------------------------------------------------------------------

  /** `roleHierarchy[role]`: the rank of a role name, undefined for any
      other string (the role column is free text, default 'viewer'). */
  function RoleRank(role: string): Option<int>
  {
    if role == "viewer" then Some(1)
    else if role == "editor" then Some(2)
    else if role == "admin" then Some(3)
    else None
  }

  /** JavaScript `a >= b` on two ranks: a comparison involving undefined
      converts it to NaN and is false. */
  predicate RankAtLeast(a: Option<int>, b: Option<int>)
  {
    a.Some? && b.Some? && a.value >= b.value
  }

  datatype Decision = Allow | Deny(status: int, message: string)

  /** The role the caller holds on the book as stored in book_permissions
      (None when no row exists), against the role the route requires. */
  function CheckPermission(userRole: Option<string>, requiredRole: string): (d: Decision)
    ensures userRole.None? ==> d == Deny(403, "No access to this book")
    ensures d.Deny? ==> d.status == 403
    ensures userRole.Some? && d.Deny? ==> d.message == "Insufficient permissions"
    ensures d.Allow? <==> userRole.Some? && RankAtLeast(RoleRank(userRole.value), RoleRank(requiredRole))
  {
    match userRole
    case None => Deny(403, "No access to this book")
    case Some(role) =>
      if RankAtLeast(RoleRank(role), RoleRank(requiredRole)) then Allow
      else Deny(403, "Insufficient permissions")
  }

  /** An independent statement of the role scale: viewer < editor < admin. */
  datatype Role = Viewer | Editor | Admin

  function ParseRole(s: string): (r: Option<Role>)
  {
    if s == "viewer" then Some(Viewer)
    else if s == "editor" then Some(Editor)
    else if s == "admin" then Some(Admin)
    else None
  }

  predicate Dominates(a: Role, b: Role)
  {
    b == Viewer || a == Admin || a == b
  }

  /** Access is granted exactly when both role names are known and the
      caller's role dominates the required one in the scale. */
  lemma CheckPermissionFollowsScale(userRole: string, requiredRole: string)
    ensures CheckPermission(Some(userRole), requiredRole).Allow? <==>
              ParseRole(userRole).Some? && ParseRole(requiredRole).Some? &&
              Dominates(ParseRole(userRole).value, ParseRole(requiredRole).value)
  {
  }

  /** An unknown role name on either side is always refused. */
  lemma UnknownRoleRefused(userRole: string, requiredRole: string)
    requires ParseRole(userRole).None? || ParseRole(requiredRole).None?
    ensures CheckPermission(Some(userRole), requiredRole) == Deny(403, "Insufficient permissions")
  {
  }

  /** Admin passes every check whose requirement is a known role. */
  lemma AdminPassesEveryCheck(requiredRole: string)
    requires ParseRole(requiredRole).Some?
    ensures CheckPermission(Some("admin"), requiredRole) == Allow
  {
  }

  /** A role that passes a requirement passes every lower known requirement. */
  lemma CheckPermissionMonotone(userRole: string, required: string, lower: string)
    requires CheckPermission(Some(userRole), required) == Allow
    requires ParseRole(lower).Some? && Dominates(ParseRole(required).value, ParseRole(lower).value)
    ensures CheckPermission(Some(userRole), lower) == Allow
  {
  }
}
