/**
 * `authMiddleware`: reads the `Authorization` header, removes the first
 * "Bearer " from it, verifies the rest as a token, loads the user the token's
 * subject names and attaches `{ id, role }` of that user as the request's
 * principal. Every request gets exactly one outcome: it continues with the
 * principal attached, or fails with a single error.
 */
module Auth {
  import opened Common
  import opened Text
  import opened Http
  import opened Collaborators
  import Store
  import opened UserModel

  const BearerPrefix := "Bearer "

  const AccessDenied := "Access denied"
  const InvalidToken := "Invalid token"
  const UserNotFound := "User Not found"

  /** `token.replace("Bearer ", "")`: the first occurrence is removed, wherever it is. */
  function Credential(header: string): (t: string)
    ensures IndexOf(header, BearerPrefix).None? ==> t == header
    ensures IndexOf(header, BearerPrefix).Some? ==> |t| == |header| - |BearerPrefix|
  {
    ReplaceFirst(header, BearerPrefix, "")
  }

  /** The conventional header `"Bearer " + token` yields the token itself. */
  lemma CredentialOfBearer(token: string)
    ensures Credential(BearerPrefix + token) == token
  {
    ReplaceFirstAt([], BearerPrefix, token);
    assert [] + BearerPrefix + token == BearerPrefix + token;
  }

  /** "Bearer " is removed where it first occurs, not only at the front: `"xBearer t"` yields `"xt"`. */
  lemma CredentialRemovesFirstOccurrence(before: string, after: string)
    requires forall j :: 0 <= j < |before| ==> !OccursAt(before + BearerPrefix + after, BearerPrefix, j)
    ensures Credential(before + BearerPrefix + after) == before + after
  {
    ReplaceFirstAt(before, BearerPrefix, after);
  }

  /** The principal attached for a stored user. */
  function PrincipalOf(u: User): (p: Principal)
    ensures p.id == u.id && p.role == RoleName(u.role)
  {
    Principal(u.id, RoleName(u.role))
  }

  /** The auth stage. */
  function Authenticate(req: Request, users: seq<User>, w: World): (r: Outcome<Request, ()>)
    ensures !r.Respond?
    ensures !Truthy(req.authorization) ==> r == Fail(UNAUTHORIZED, AccessDenied)
    ensures (Truthy(req.authorization) && w.crypto.verify(Credential(req.authorization.value)).None?)
            ==> r == Fail(UNAUTHORIZED, InvalidToken)
    ensures r.Continue? ==>
              && Truthy(req.authorization)
              && w.crypto.verify(Credential(req.authorization.value)).Some?
              && var subject := w.crypto.verify(Credential(req.authorization.value)).value;
              && Store.CastId(subject).Some?
              && var u := Store.Lookup(users, IdOf, Store.CastId(subject).value);
              && u.Some? && r.ctx == req.(user := Some(PrincipalOf(u.value)))
    ensures r.Fail? ==> (r.status == UNAUTHORIZED && r.message in {AccessDenied, InvalidToken})
                        || (r.status == NOT_FOUND && r.message == UserNotFound)
  {
    if !Truthy(req.authorization) then Fail(UNAUTHORIZED, AccessDenied)
    else
      match w.crypto.verify(Credential(req.authorization.value))
      case None => Fail(UNAUTHORIZED, InvalidToken)
      case Some(subject) =>
        match Store.CastId(subject)
        case None => Fail(UNAUTHORIZED, InvalidToken)
        case Some(id) =>
          if w.fault.Some? then Fail(UNAUTHORIZED, InvalidToken)
          else
            match Store.Lookup(users, IdOf, id)
            case None => Fail(NOT_FOUND, UserNotFound)
            case Some(u) => Continue(req.(user := Some(PrincipalOf(u))))
  }

  /**
   * Which error a failing request gets: 404 exactly when the token verified,
   * its subject is an object id, storage answered, and no user has that id;
   * 401 otherwise (a subject that cannot be cast makes the lookup throw).
   */
  lemma AuthFailureKinds(req: Request, users: seq<User>, w: World)
    requires Authenticate(req, users, w).Fail?
    ensures Authenticate(req, users, w).status == NOT_FOUND <==>
              && Truthy(req.authorization)
              && w.crypto.verify(Credential(req.authorization.value)).Some?
              && var subject := w.crypto.verify(Credential(req.authorization.value)).value;
              && Store.CastId(subject).Some?
              && w.fault.None?
              && Store.Lookup(users, IdOf, Store.CastId(subject).value).None?
  {
  }

  /** A storage exception during the lookup, a cast error included, is reported as an invalid token. */
  lemma LookupFaultIsInvalidToken(req: Request, users: seq<User>, w: World)
    requires Truthy(req.authorization) && w.crypto.verify(Credential(req.authorization.value)).Some?
    requires w.fault.Some?
    ensures Authenticate(req, users, w) == Fail(UNAUTHORIZED, InvalidToken)
  {
  }

  /**
   * A token issued for a stored user, presented as `"Bearer " + token`,
   * authenticates as that user when storage answers.
   */
  lemma IssuedTokenAuthenticates(req: Request, users: seq<User>, w: World, u: User)
    requires TokensRoundTrip(w.crypto) && w.fault.None?
    requires Store.UniqueKeys(users, IdOf) && u in users && Store.IsCanonicalId(u.id)
    requires req.authorization == Some(BearerPrefix + w.crypto.sign(u.id))
    ensures Authenticate(req, users, w) == Continue(req.(user := Some(PrincipalOf(u))))
  {
    CredentialOfBearer(w.crypto.sign(u.id));
    var j :| 0 <= j < |users| && users[j] == u;
    Store.UniqueFind(users, IdOf, j);
  }
}
