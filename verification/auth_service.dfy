/** Registration: a check that the email is free, then the insert of the
    user with a hashed password, then the issue of an access token and a
    refresh token. Hashing and signing are external and given as functions. */
module Auth {
  import opened Wrappers
  import opened Entities
  import opened Database

  /** What both tokens are signed over. */
  datatype TokenClaims = TokenClaims(id: Id, email: string)

  /** What registration answers: the two tokens and the user. */
  datatype AuthPayload = AuthPayload(token: string, refreshToken: string, user: User)

  const ACCESS_TOKEN_LIFETIME := "30m"
  const REFRESH_TOKEN_LIFETIME := "1d"

  /** `signJwt(claims, expiresIn)`: a token, or `None` when signing throws. */
  type Signer = (TokenClaims, string) -> Option<string>

  /** Signs an access token (30 minutes) and a refresh token (1 day) over the
      user's id and email. If either signing throws, the answer is "Error
      generating tokens." */
  function GenerateTokens(user: User, sign: Signer): (r: Result<AuthPayload, ServiceError>)
    ensures var claims := TokenClaims(user.id, user.email);
            && (r.Ok? <==> sign(claims, ACCESS_TOKEN_LIFETIME).Some? && sign(claims, REFRESH_TOKEN_LIFETIME).Some?)
            && (r.Ok? ==>
                  && r.value.user == user
                  && sign(claims, ACCESS_TOKEN_LIFETIME) == Some(r.value.token)
                  && sign(claims, REFRESH_TOKEN_LIFETIME) == Some(r.value.refreshToken))
    ensures r.Err? ==> r.error == Failed(TOKENS_FAILED)
  {
    var claims := TokenClaims(user.id, user.email);
    match (sign(claims, ACCESS_TOKEN_LIFETIME), sign(claims, REFRESH_TOKEN_LIFETIME))
    case (Some(token), Some(refreshToken)) => Ok(AuthPayload(token, refreshToken, user))
    case _ => Err(Failed(TOKENS_FAILED))
  }

  class AuthService {
    const db: Database

    constructor (db: Database)
      ensures this.db == db
    {
      this.db := db;
    }

    /** Registers `data`. A taken email fails with "An user with this email
        already exists." and creates nobody; otherwise exactly one user is
        added, storing `hashPassword(data.password)` and not the password,
        and the tokens are issued for it. The user stays registered even
        when issuing the tokens fails. No two users ever share an email.
        `newId` is the id the database assigns. */
    method Register(data: RegisterInput, hashPassword: string -> string, sign: Signer, newId: Id)
      returns (r: Result<AuthPayload, ServiceError>)
      requires db.Valid()
      requires forall u :: u in db.users ==> u.id != newId
      modifies db
      ensures db.Valid()
      ensures db.categories == old(db.categories) && db.transactions == old(db.transactions)
      ensures old(db.FindUserByEmail(data.email)).Some? ==>
                r == Err(Conflict(EMAIL_TAKEN)) && db.users == old(db.users)
      ensures old(db.FindUserByEmail(data.email)).None? ==>
                var user := User(newId, data.name, data.email, hashPassword(data.password));
                && db.users == old(db.users) + [user]
                && r == GenerateTokens(user, sign)
    {
      var existingUser := db.FindUserByEmail(data.email);
      if existingUser.Some? {
        return Err(Conflict(EMAIL_TAKEN));
      }
      var passwordHashed := hashPassword(data.password);
      var user := User(newId, data.name, data.email, passwordHashed);
      db.users := db.users + [user];
      r := GenerateTokens(user, sign);
    }
  }
}
