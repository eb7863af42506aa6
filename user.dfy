/** The validations of the `User` model (app/models/user.rb, lines 6-7).
    Creating and destroying users, with their wallets, is in UserLifecycle. */
module Users {
  import opened Wrappers
  import opened Wallets

  /** A row of the `users` table. */
  datatype User = User(name: string, email: string)

  /** What the validations of a user can report, in declaration order. */
  datatype UserError =
    | NameBlank       // presence of name
    | EmailBlank      // presence of email
    | EmailTaken      // uniqueness of email
    | EmailMalformed  // format of email

  /** The whitespace characters `blank?` ignores. */
  predicate IsSpace(c: char) {
    c == ' ' || c == '\t' || c == '\n' || c == '\r' || c == '\U{0B}' || c == '\U{0C}'
  }

  /** `blank?`: absent, empty, or whitespace only. */
  predicate Blank(s: Option<string>) {
    s.None? || forall i :: 0 <= i < |s.value| ==> IsSpace(s.value[i])
  }

  /** The e-mail addresses already taken. */
  function Emails(users: map<UserId, User>): set<string> {
    set u | u in users :: users[u].email
  }

  /** All the errors `user.valid?` collects for a new user. `taken` are the
      addresses already in use; `wellFormed` is the outcome of matching a
      non-blank address against the e-mail pattern, which is a library regular
      expression and not part of this model. The format check matches the
      address's string form (`""` when absent), and the pattern needs an `@`,
      so a blank address is always reported as malformed as well. */
  function Errors(name: Option<string>, email: Option<string>, taken: set<string>, wellFormed: bool)
    : (errs: seq<UserError>)
    ensures NameBlank in errs <==> Blank(name)
    ensures EmailBlank in errs <==> Blank(email)
    ensures EmailTaken in errs <==> email.Some? && email.value in taken
    ensures EmailMalformed in errs <==> Blank(email) || !wellFormed
    ensures errs == [] <==>
              !Blank(name) && !Blank(email) && email.value !in taken && wellFormed
  {
    (if Blank(name) then [NameBlank] else [])
    + (if Blank(email) then [EmailBlank] else [])
    + (if email.Some? && email.value in taken then [EmailTaken] else [])
    + (if Blank(email) || !wellFormed then [EmailMalformed] else [])
  }

  /** No two users share an e-mail address (the uniqueness rule and the
      unique index on `users.email`). */
  predicate UniqueEmails(users: map<UserId, User>) {
    forall a, b :: a in users && b in users && users[a].email == users[b].email ==> a == b
  }

  /** What every stored user satisfies: a name and an e-mail address that are
      not blank. */
  predicate Presentable(u: User) {
    !Blank(Some(u.name)) && !Blank(Some(u.email))
  }
}
