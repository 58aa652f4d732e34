/**
 * The Google strategy's verify callback: find the account by the profile's
 * first email, or create a federated account for it.
 */
module Passport {
  import opened Wrappers
  import opened CredentialStore
  import opened Errors
  import opened Text

  /** The parts of the provider's profile the callback reads; an absent email list is the empty one. */
  datatype GoogleProfile = GoogleProfile(id: string, displayName: string, emails: seq<string>)

  /** The columns handed to `done`: `id, email, name, provider`. */
  datatype GoogleUser = GoogleUser(id: string, email: string, name: string, provider: string)

  /** `profile.emails?.[0]?.value`, with an empty value counted as missing as `!email` does. */
  function ProfileEmail(p: GoogleProfile): Option<string> {
    if |p.emails| > 0 && p.emails[0] != [] then Some(p.emails[0]) else None
  }

  /** `profile.displayName || email.split('@')[0]`. */
  function AccountName(p: GoogleProfile, email: string): (name: string)
    ensures p.displayName != [] ==> name == p.displayName
    ensures p.displayName == [] ==>
      name <= email && '@' !in name && (|name| == |email| || email[|name|] == '@')
  {
    if p.displayName != [] then p.displayName else Split(email, '@')[0]
  }

  /** The row the callback inserts: provider `google`, the profile id, no password hash. */
  function GoogleAccount(p: GoogleProfile, email: string, newId: string, now: Time): User {
    User(newId, email, None, AccountName(p, email), "google", Some(p.id), now, now)
  }

  function Summary(u: User): GoogleUser {
    GoogleUser(u.id, u.email, u.name, u.provider)
  }

  /**
   * The callback's outcome: no usable email is an error; an existing account
   * with the email is returned unchanged, whatever its provider; otherwise
   * exactly one `google` account is inserted, as the database stores it, or
   * the database's error is passed on with nothing changed.
   */
  function FindOrCreate(db: Tables, p: GoogleProfile, newId: string, now: Time): (r: Step<GoogleUser>)
    ensures ProfileEmail(p).None? ==> r == Step(Failure(NoEmailInProfile), db)
    ensures r.result.Failure? ==> r.db == db
    ensures ProfileEmail(p).Some? && FindUserByEmail(db.users, ProfileEmail(p).value).Some? ==>
      r == Step(Success(Summary(FindUserByEmail(db.users, ProfileEmail(p).value).value)), db)
    ensures ProfileEmail(p).Some? && FindUserByEmail(db.users, ProfileEmail(p).value).None? ==>
      var account := GoogleAccount(p, ProfileEmail(p).value, newId, now);
      && (AddUser(db, account).Failure? ==> r == Step(Failure(Database(AddUser(db, account).error)), db))
      && (AddUser(db, account).Success? ==>
            && r.db == Tables(db.users + [StoredUser(account).value], db.refreshTokens)
            && r.result == Success(Summary(StoredUser(account).value)))
    ensures (ProfileEmail(p).Some? && FindUserByEmail(db.users, ProfileEmail(p).value).None? &&
             newId !in UserIds(db.users) && UserFits(GoogleAccount(p, ProfileEmail(p).value, newId, now))) ==>
      r.result == Success(Summary(GoogleAccount(p, ProfileEmail(p).value, newId, now)))
    ensures r.db != db ==>
      && ProfileEmail(p).Some?
      && (forall u | u in db.users :: u.email != ProfileEmail(p).value)
      && StoredUser(GoogleAccount(p, ProfileEmail(p).value, newId, now)).Success?
      && r.db == Tables(db.users + [StoredUser(GoogleAccount(p, ProfileEmail(p).value, newId, now)).value], db.refreshTokens)
    ensures r.result.Failure? && ProfileEmail(p).Some? ==> r.result.error.Database?
    ensures |r.db.users| <= |db.users| + 1
    ensures Consistent(db) ==> Consistent(r.db)
  {
    match ProfileEmail(p)
    case None => Step(Failure(NoEmailInProfile), db)
    case Some(email) =>
      match FindUserByEmail(db.users, email)
      case Some(u) => Step(Success(Summary(u)), db)
      case None =>
        var u := GoogleAccount(p, email, newId, now);
        match AddUser(db, u)
        case Failure(e) => Step(Failure(Database(e)), db)
        case Success(next) => Step(Success(Summary(StoredUser(u).value)), next)
  }

  /** The verify callback against the live store; its result is what it passes to `done`. */
  method VerifyCallback(store: Store, profile: GoogleProfile, newId: string, now: Time) returns (r: Result<GoogleUser, AuthError>)
    requires store.Valid()
    modifies store
    ensures store.Valid()
    ensures Step(r, store.Contents()) == FindOrCreate(old(store.Contents()), profile, newId, now)
  {
    var email := ProfileEmail(profile);
    if email.None? {
      return Failure(NoEmailInProfile);
    }
    var result := FindUserByEmail(store.users, email.value);
    var user: GoogleUser;
    if result.None? {
      var inserted := store.InsertUser(GoogleAccount(profile, email.value, newId, now));
      if inserted.Failure? {
        return Failure(Database(inserted.error));
      }
      user := Summary(inserted.value);
    } else {
      user := Summary(result.value);
    }
    r := Success(user);
  }

  /**
   * A second callback for the same email returns the same account and
   * changes nothing: over both calls the users table grows by at most one.
   * The email must fit its column (see `OverlongEmailNotReused`).
   */
  lemma FindOrCreateIdempotent(db: Tables, p: GoogleProfile, q: GoogleProfile, firstId: string, secondId: string, t1: Time, t2: Time)
    requires ProfileEmail(p).Some? && ProfileEmail(q) == ProfileEmail(p)
    requires |ProfileEmail(p).value| <= EmailWidth
    requires FindOrCreate(db, p, firstId, t1).result.Success?
    ensures var first := FindOrCreate(db, p, firstId, t1);
      var second := FindOrCreate(first.db, q, secondId, t2);
      second == first && |second.db.users| <= |db.users| + 1
  {
    var email := ProfileEmail(p).value;
    var first := FindOrCreate(db, p, firstId, t1);
    if first.db != db {
      var stored := StoredUser(GoogleAccount(p, email, firstId, t1)).value;
      assert stored.email == email;
      FindUserByEmailAppend(db.users, stored, email);
    }
  }

  /**
   * A profile email longer than its column whose excess is spaces is stored
   * truncated, so a second callback for it does not find the account and its
   * insert is refused by the unique email constraint.
   */
  lemma OverlongEmailNotReused(db: Tables, p: GoogleProfile, firstId: string, secondId: string, t1: Time, t2: Time)
    requires ProfileEmail(p).Some? && |ProfileEmail(p).value| > EmailWidth
    requires FindOrCreate(db, p, firstId, t1).db != db
    requires secondId != firstId && secondId !in UserIds(db.users)
    ensures var first := FindOrCreate(db, p, firstId, t1);
      FindOrCreate(first.db, p, secondId, t2) == Step(Failure(Database(UniqueViolation("users_email_key"))), first.db)
  {
    var email := ProfileEmail(p).value;
    var first := FindOrCreate(db, p, firstId, t1);
    var stored := StoredUser(GoogleAccount(p, email, firstId, t1)).value;
    assert |stored.email| <= EmailWidth;
    FindUserByEmailAppend(db.users, stored, email);
    var again := StoredUser(GoogleAccount(p, email, secondId, t2)).value;
    assert again.email == stored.email;
    assert stored in first.db.users;
    assert secondId !in UserIds(first.db.users);
  }

  /**
   * Email is the merge key: any account with the profile's email, local or
   * federated, is the one the callback signs in, and nothing is inserted.
   */
  lemma ExistingAccountReused(db: Tables, p: GoogleProfile, u: User, newId: string, now: Time)
    requires Consistent(db)
    requires u in db.users && ProfileEmail(p) == Some(u.email)
    ensures FindOrCreate(db, p, newId, now) == Step(Success(GoogleUser(u.id, u.email, u.name, u.provider)), db)
  {
    FindUserByEmailUnique(db.users, u);
  }
}
