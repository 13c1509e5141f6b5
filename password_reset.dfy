/** `src/controllers/auth/password-reset.controller.ts`: requesting a reset
    link by email, checking a link's token, and setting a new password with
    it. The random token, the SHA-256 of a token and the bcrypt hash of a
    password are parameters; so is whether the mailer accepted the message.
    Only the token's hash is stored, so a stolen table does not yield
    working links. */
module PasswordReset {
  import opened Http
  import opened Text
  import opened Schema
  import opened Db

  /** A reset token lasts 15 minutes (48), in milliseconds. */
  const TokenLifetime: int := 15 * 60 * 1000

  const MinPasswordLength: nat := 8

  /** The one answer to a reset request, whether or not an account has the
      address (29-36, 80-83). */
  const ResetRequested: string := "If an account exists with this email, you will receive a password reset link shortly."

  const PasswordChanged: string := "Password has been reset successfully. You can now log in with your new password."

  // ---------------------------------------------------------------------
  // requestPasswordReset

  /** The address looked up: `email.toLowerCase().trim()` (26). */
  function LookupEmail(email: string): (r: string)
    ensures |r| <= |email|
  {
    Trim(Lower(email))
  }

  /** The address looked up is in lower case. */
  lemma LookupEmailLowered(email: string)
    ensures Lower(LookupEmail(email)) == LookupEmail(email)
  {
    var s := Lower(email);
    LowerIdempotent(email);
    var a := TrimStart(s);
    LowerSlice(s, |s| - |a|, |s|);
    LowerSlice(a, 0, |TrimEnd(a)|);
  }

  /** Normalising an address twice changes nothing more. */
  lemma LookupEmailIdempotent(email: string)
    ensures LookupEmail(LookupEmail(email)) == LookupEmail(email)
  {
    LookupEmailLowered(email);
    TrimIdempotent(Lower(email));
  }

  predicate HasAccount(users: map<UserId, User>, email: string) {
    exists u :: u in users && users[u].email == email
  }

  /** The account holding an address; `users.email` is UNIQUE, so there is
      at most one. */
  ghost function AccountOf(users: map<UserId, User>, email: string): (o: Option<UserId>)
    ensures o.Some? <==> HasAccount(users, email)
    ensures o.Some? ==> o.value in users && users[o.value].email == email
  {
    if HasAccount(users, email) then
      var u :| u in users && users[u].email == email; Some(u)
    else None
  }

  lemma AccountOfUnique(users: map<UserId, User>, email: string, u: UserId)
    requires UsersOk(users) && u in users && users[u].email == email
    ensures AccountOf(users, email) == Some(u)
  {
  }

  /** The tokens left after `DELETE FROM password_reset_tokens WHERE
      user_id = $1` (50-54). */
  function WithoutTokensOf(tokens: map<TokenId, ResetToken>, u: UserId): (r: map<TokenId, ResetToken>)
    ensures forall k :: k in r <==> k in tokens && tokens[k].userId != u
    ensures forall k :: k in r ==> r[k] == tokens[k]
  {
    map k | k in tokens && tokens[k].userId != u :: tokens[k]
  }

  /** The DELETE of the user's earlier tokens and the INSERT of the new
      one (50-61), under the next key. */
  function IssueToken(t: Tables, u: UserId, tokenHash: string, expiresAt: int): Tables
  {
    Tables(t.users, t.registrations, t.teams, t.teamRegistrations, t.payments,
           WithoutTokensOf(t.resetTokens, u)[t.nextId := ResetToken(u, tokenHash, expiresAt, false)], t.nextId + 1)
  }

  /** Issuing a token to an existing user keeps every invariant (the tables
      given field by field). */
  lemma IssuedRowsOk(users: map<UserId, User>, regs: map<RegId, Registration>, teams: map<TeamId, Team>,
                     links: map<RegId, TeamId>, payments: map<PaymentId, Payment>,
                     tokens: map<TokenId, ResetToken>, n: nat,
                     events: map<EventId, Event>, sign: string -> string, token: ResetToken)
    requires UsersOk(users) && EventsOk(events) && RegistrationsOk(users, events, regs)
    requires TeamsOk(events, regs, teams) && LinksOk(events, regs, teams, links)
    requires PaymentsOk(regs, payments, sign) && TokensOk(users, tokens)
    requires KeysBelow(regs, n) && KeysBelow(teams, n) && KeysBelow(payments, n) && KeysBelow(tokens, n)
    requires token.userId in users
    ensures TablesOk(Tables(users, regs, teams, links, payments,
                            WithoutTokensOf(tokens, token.userId)[n := token], n + 1), events, sign)
  {
    TablesOkIntro(users, regs, teams, links, payments, WithoutTokensOf(tokens, token.userId)[n := token], n + 1,
                  events, sign);
  }

  lemma IssueTokenKeeps(t: Tables, events: map<EventId, Event>, sign: string -> string,
                        u: UserId, tokenHash: string, expiresAt: int)
    requires TablesOk(t, events, sign) && u in t.users
    ensures TablesOk(IssueToken(t, u, tokenHash, expiresAt), events, sign)
  {
    IssuedRowsOk(t.users, t.registrations, t.teams, t.teamRegistrations, t.payments, t.resetTokens, t.nextId,
                 events, sign, ResetToken(u, tokenHash, expiresAt, false));
  }

  /** A user holds one token at a time: after issuing, the user's only
      token is the new, unused one, and other users' tokens are as they
      were. */
  lemma IssueTokenLeavesOne(t: Tables, u: UserId, tokenHash: string, expiresAt: int)
    ensures var tokens := IssueToken(t, u, tokenHash, expiresAt).resetTokens;
            && t.nextId in tokens && tokens[t.nextId] == ResetToken(u, tokenHash, expiresAt, false)
            && (forall k :: k in tokens && tokens[k].userId == u ==> k == t.nextId)
            && (forall k :: k in t.resetTokens && t.resetTokens[k].userId != u && k != t.nextId ==>
                  k in tokens && tokens[k] == t.resetTokens[k])
  {
  }

  /** What the handler hands to the mailer: the address, the name for the
      greeting, and the raw token inside the reset link (64-74). */
  datatype ResetMail = ResetMail(to: string, name: string, token: string)

  /** `requestPasswordReset` (8-96): an unknown address gets the same answer
      as a known one and changes nothing; a known one loses its earlier
      tokens, gets a fresh one expiring 15 minutes from now, and is mailed
      the raw token. If the mailer fails the transaction rolls back: a
      server error. */
  method RequestPasswordReset(db: Store, email: Option<string>, token: string, sha256: string -> string,
                              now: int, mailed: bool) returns (r: Reply<string>, mail: Option<ResetMail>)
    requires db.Valid()
    modifies db
    ensures db.Valid()
    ensures r.Fail? ==> unchanged(db)
    ensures r.Ok? ==> r.value == ResetRequested
    ensures !Given(email) ==> r == Fail(EmailRequired) && mail.None?
    ensures Given(email) && !HasAccount(old(db.users), LookupEmail(email.value)) ==>
              r == Ok(ResetRequested) && mail.None? && unchanged(db)
    ensures Given(email) && HasAccount(old(db.users), LookupEmail(email.value)) ==>
              var u := AccountOf(old(db.users), LookupEmail(email.value)).value;
              && mail == Some(ResetMail(old(db.users)[u].email, old(db.users)[u].name, token))
              && (mailed ==> r == Ok(ResetRequested) &&
                             db.Snapshot() == IssueToken(old(db.Snapshot()), u, sha256(token), now + TokenLifetime))
              && (!mailed ==> r == Fail(ServerError))
  {
    mail := None;
    if !Given(email) {
      return Fail(EmailRequired), mail;
    }
    var address := LookupEmail(email.value);
    var t := db.Snapshot();
    if !HasAccount(t.users, address) {
      return Ok(ResetRequested), mail;
    }
    var u :| u in t.users && t.users[u].email == address;
    AccountOfUnique(t.users, address, u);
    var user := t.users[u];
    mail := Some(ResetMail(user.email, user.name, token));
    if !mailed {
      return Fail(ServerError), mail;
    }
    IssueTokenKeeps(t, db.events, db.sign, u, sha256(token), now + TokenLifetime);
    db.Commit(IssueToken(t, u, sha256(token), now + TokenLifetime));
    r := Ok(ResetRequested);
  }

  // ---------------------------------------------------------------------
  // verifyResetToken

  /** An unused token stored under that hash (`WHERE token = $1 AND used =
      false`). */
  predicate Live(tokens: map<TokenId, ResetToken>, k: TokenId, tokenHash: string) {
    k in tokens && tokens[k].tokenHash == tokenHash && !tokens[k].used
  }

  predicate HasLive(tokens: map<TokenId, ResetToken>, tokenHash: string) {
    exists k :: k in tokens && Live(tokens, k, tokenHash)
  }

  /** A live row exists, and every live row under the hash is still valid
      at `now` (with one live row: that row has not expired). */
  predicate LiveUnexpired(tokens: map<TokenId, ResetToken>, tokenHash: string, now: int) {
    HasLive(tokens, tokenHash) && forall k :: k in tokens && Live(tokens, k, tokenHash) ==> now <= tokens[k].expiresAt
  }

  /** A live row exists, and every live row under the hash has expired. */
  predicate LiveExpired(tokens: map<TokenId, ResetToken>, tokenHash: string, now: int) {
    HasLive(tokens, tokenHash) && forall k :: k in tokens && Live(tokens, k, tokenHash) ==> now > tokens[k].expiresAt
  }

  /** The token mailed by a reset request opens the link until it expires:
      its hash finds the new row, unused, with the lifetime still to run. */
  lemma MailedTokenIsLive(t: Tables, u: UserId, token: string, sha256: string -> string, now: int, later: int)
    requires now <= later <= now + TokenLifetime
    ensures var tokens := IssueToken(t, u, sha256(token), now + TokenLifetime).resetTokens;
            && Live(tokens, t.nextId, sha256(token))
            && later <= tokens[t.nextId].expiresAt
            && tokens[t.nextId].userId == u
  {
  }

  /** Who the link is for (142-149). */
  datatype TokenOwner = TokenOwner(email: string, name: string)

  /** `verifyResetToken` (99-158): the token's hash must match an unused
      token (joined with its user) that has not expired; it is valid up to
      and including `expires_at`. Reads only. */
  method VerifyResetToken(db: Store, token: Option<string>, sha256: string -> string, now: int)
    returns (r: Reply<TokenOwner>)
    requires db.Valid()
    ensures r == Fail(TokenRequired) <==> !Given(token)
    ensures r.Fail? ==> r.reason in {TokenRequired, InvalidResetToken, ResetTokenExpired}
    ensures r == Fail(InvalidResetToken) <==> Given(token) && !HasLive(db.resetTokens, sha256(token.value))
    ensures Given(token) && LiveUnexpired(db.resetTokens, sha256(token.value), now) ==> r.Ok?
    ensures Given(token) && LiveExpired(db.resetTokens, sha256(token.value), now) ==> r == Fail(ResetTokenExpired)
    ensures r == Fail(ResetTokenExpired) ==>
              exists k :: k in db.resetTokens && Live(db.resetTokens, k, sha256(token.value))
                          && now > db.resetTokens[k].expiresAt
    ensures r.Ok? ==>
              exists k :: && k in db.resetTokens && Live(db.resetTokens, k, sha256(token.value))
                          && now <= db.resetTokens[k].expiresAt
                          && db.resetTokens[k].userId in db.users
                          && r.value == TokenOwner(db.users[db.resetTokens[k].userId].email,
                                                   db.users[db.resetTokens[k].userId].name)
  {
    if !Given(token) {
      return Fail(TokenRequired);
    }
    var h := sha256(token.value);
    if !HasLive(db.resetTokens, h) {
      return Fail(InvalidResetToken);
    }
    var k :| k in db.resetTokens && Live(db.resetTokens, k, h);
    var row := db.resetTokens[k];
    if now > row.expiresAt {
      return Fail(ResetTokenExpired);
    }
    var user := db.users[row.userId];
    r := Ok(TokenOwner(user.email, user.name));
  }

  // ---------------------------------------------------------------------
  // resetPassword

  /** The checks of `resetPassword` before the database is touched
      (165-184), in order: all three fields given, the two passwords equal,
      at least eight UTF-16 code units (`password.length`). */
  function ResetRequestRefusal(token: Option<string>, password: Option<string>, confirm: Option<string>)
    : (r: Option<Reason>)
    ensures r == Some(ResetFieldsRequired) <==> !Given(token) || !Given(password) || !Given(confirm)
    ensures r.None? <==>
              Given(token) && Given(password) && Given(confirm)
              && password.value == confirm.value && Utf16Length(password.value) >= MinPasswordLength
    ensures r.Some? ==> r.value in {ResetFieldsRequired, PasswordMismatch, PasswordTooShort}
    ensures r == Some(PasswordTooShort) ==> Utf16Length(password.value) < MinPasswordLength
  {
    if !Given(token) || !Given(password) || !Given(confirm) then Some(ResetFieldsRequired)
    else if password.value != confirm.value then Some(PasswordMismatch)
    else if Utf16Length(password.value) < MinPasswordLength then Some(PasswordTooShort)
    else None
  }

  /** Four emoji make a long enough password: each counts as two code
      units. */
  lemma AstralPasswordLongEnough()
    ensures var p := "\U{1F600}\U{1F600}\U{1F600}\U{1F600}";
            ResetRequestRefusal(Some("t"), Some(p), Some(p)).None?
  {
    AstralCountsTwice();
  }

  /** The two updates of a reset (229-239): the token's user gets the new
      password hash, and the token is marked used. */
  function UseToken(t: Tables, k: TokenId, passwordHash: string): Tables
    requires k in t.resetTokens && t.resetTokens[k].userId in t.users
  {
    var u := t.resetTokens[k].userId;
    Tables(t.users[u := t.users[u].(passwordHash := passwordHash)], t.registrations, t.teams,
           t.teamRegistrations, t.payments, t.resetTokens[k := t.resetTokens[k].(used := true)], t.nextId)
  }

  /** A new password and a spent token keep every invariant (the tables
      given field by field). */
  lemma UsedRowsOk(users: map<UserId, User>, regs: map<RegId, Registration>, teams: map<TeamId, Team>,
                   links: map<RegId, TeamId>, payments: map<PaymentId, Payment>,
                   tokens: map<TokenId, ResetToken>, n: nat,
                   events: map<EventId, Event>, sign: string -> string, k: TokenId, passwordHash: string)
    requires UsersOk(users) && EventsOk(events) && RegistrationsOk(users, events, regs)
    requires TeamsOk(events, regs, teams) && LinksOk(events, regs, teams, links)
    requires PaymentsOk(regs, payments, sign) && TokensOk(users, tokens)
    requires KeysBelow(regs, n) && KeysBelow(teams, n) && KeysBelow(payments, n) && KeysBelow(tokens, n)
    requires k in tokens && tokens[k].userId in users
    ensures var u := tokens[k].userId;
            TablesOk(Tables(users[u := users[u].(passwordHash := passwordHash)], regs, teams, links, payments,
                            tokens[k := tokens[k].(used := true)], n), events, sign)
  {
    var u := tokens[k].userId;
    var users' := users[u := users[u].(passwordHash := passwordHash)];
    assert users'.Keys == users.Keys;
    TablesOkIntro(users', regs, teams, links, payments, tokens[k := tokens[k].(used := true)], n, events, sign);
  }

  lemma UseTokenKeeps(t: Tables, events: map<EventId, Event>, sign: string -> string,
                      k: TokenId, passwordHash: string)
    requires TablesOk(t, events, sign) && k in t.resetTokens && t.resetTokens[k].userId in t.users
    ensures TablesOk(UseToken(t, k, passwordHash), events, sign)
  {
    UsedRowsOk(t.users, t.registrations, t.teams, t.teamRegistrations, t.payments, t.resetTokens, t.nextId,
               events, sign, k, passwordHash);
  }

  /** A reset link works once: after a reset the token used is no longer
      live, no token became live, and only the token's user changed, in
      nothing but the password. */
  lemma UseTokenSpends(t: Tables, k: TokenId, passwordHash: string)
    requires k in t.resetTokens && t.resetTokens[k].userId in t.users
    ensures var t' := UseToken(t, k, passwordHash); var u := t.resetTokens[k].userId;
            && (forall h :: !Live(t'.resetTokens, k, h))
            && (forall j, h :: Live(t'.resetTokens, j, h) ==> Live(t.resetTokens, j, h))
            && t'.users.Keys == t.users.Keys
            && t'.users[u] == t.users[u].(passwordHash := passwordHash)
            && (forall v :: v in t.users && v != u ==> t'.users[v] == t.users[v])
  {
  }

  /** `resetPassword` (161-261): after the checks, the token's hash must
      match an unused token that has not expired; then the user's password
      becomes the bcrypt hash of the new one and the token is spent, in one
      transaction. */
  method ResetPassword(db: Store, token: Option<string>, password: Option<string>, confirm: Option<string>,
                       sha256: string -> string, bcrypt: string -> string, now: int) returns (r: Reply<string>)
    requires db.Valid()
    modifies db
    ensures db.Valid()
    ensures r.Fail? ==> unchanged(db)
    ensures r.Fail? ==>
              r.reason in {ResetFieldsRequired, PasswordMismatch, PasswordTooShort, InvalidResetToken, ResetTokenExpired}
    ensures ResetRequestRefusal(token, password, confirm).Some? ==>
              r == Fail(ResetRequestRefusal(token, password, confirm).value)
    ensures ResetRequestRefusal(token, password, confirm).None? ==>
              && (r == Fail(InvalidResetToken) <==> !HasLive(old(db.resetTokens), sha256(token.value)))
              && (LiveUnexpired(old(db.resetTokens), sha256(token.value), now) ==> r.Ok?)
              && (LiveExpired(old(db.resetTokens), sha256(token.value), now) ==> r == Fail(ResetTokenExpired))
    ensures r == Fail(ResetTokenExpired) ==>
              && ResetRequestRefusal(token, password, confirm).None?
              && exists k :: k in old(db.resetTokens) && Live(old(db.resetTokens), k, sha256(token.value))
                             && now > old(db.resetTokens)[k].expiresAt
    ensures r.Ok? ==>
              && r.value == PasswordChanged
              && ResetRequestRefusal(token, password, confirm).None?
              && exists k :: && k in old(db.resetTokens) && Live(old(db.resetTokens), k, sha256(token.value))
                             && now <= old(db.resetTokens)[k].expiresAt
                             && old(db.resetTokens)[k].userId in old(db.users)
                             && db.Snapshot() == UseToken(old(db.Snapshot()), k, bcrypt(password.value))
  {
    var refusal := ResetRequestRefusal(token, password, confirm);
    if refusal.Some? {
      return Fail(refusal.value);
    }
    var h := sha256(token.value);
    var t := db.Snapshot();
    if !HasLive(t.resetTokens, h) {
      return Fail(InvalidResetToken);
    }
    var k :| k in t.resetTokens && Live(t.resetTokens, k, h);
    if now > t.resetTokens[k].expiresAt {
      return Fail(ResetTokenExpired);
    }
    var hashed := bcrypt(password.value);
    UseTokenKeeps(t, db.events, db.sign, k, hashed);
    db.Commit(UseToken(t, k, hashed));
    r := Ok(PasswordChanged);
  }
}
