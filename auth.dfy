/**
  Identity and credentials (`app/auth/service.py`): the in-memory user store
  keyed by normalised phone number, password digests, the stubbed SMS code
  and session tokens.

  SHA-256 and JWT signing are foreign libraries; here they are the function
  values `hash` and `sign` that an `AuthService` is built with, so every
  property below holds whatever deterministic functions they are.
 */
module Auth {
  import opened Common
  import opened Phone

  // -----------------------------------------------------------------------
  // One-time codes

  /** The code that the SMS stub hands out for every phone. */
  const FixedSmsCode: string := "1111"

  function GenerateSmsCode(phone: string): (code: string)
    ensures VerifySmsCode(phone, code)
  {
    FixedSmsCode
  }

  predicate VerifySmsCode(phone: string, code: string) {
    code == FixedSmsCode
  }

  /** A code is accepted exactly when it is the one generated, for whichever
      phone it was generated and whichever phone presents it. */
  lemma SmsCodeAcceptedExactly(phone: string, other: string, code: string)
    ensures VerifySmsCode(phone, code) <==> code == GenerateSmsCode(other)
  {
  }

  // -----------------------------------------------------------------------
  // Password digests

  function HashPassword(hash: string -> string, password: string): string {
    hash(password)
  }

  predicate VerifyPassword(hash: string -> string, password: string, hashed: string) {
    HashPassword(hash, password) == hashed
  }

  /** The digest of a password verifies against that password, and a digest
      verifies only against passwords that hash to it. */
  lemma VerifyPasswordSpec(hash: string -> string, password: string, hashed: string)
    ensures VerifyPassword(hash, password, HashPassword(hash, password))
    ensures VerifyPassword(hash, password, hashed) ==> hashed == hash(password)
  {
  }

  // -----------------------------------------------------------------------
  // The user store

  /** A stored user; the key of the store is the normalised phone. */
  datatype User = User(
    password: string,
    name: Option<string>,
    city: Option<string>,
    avatar: Option<string>,
    createdAt: nat)

  /** The user part of a successful login reply. */
  datatype UserInfo = UserInfo(
    phone: string,
    name: Option<string>,
    city: Option<string>,
    avatar: Option<string>)

  datatype Login = Login(token: string, user: UserInfo)

  datatype AuthError = UserAlreadyExists | UserNotFound

  class AuthService {
    /** `users_db`: normalised phone to user record. */
    var users: map<string, User>
    /** Stands for `datetime.now()`; advances at every registration. */
    var clock: nat
    /** Stands for the SHA-256 hex digest of a password. */
    const hash: string -> string
    /** Stands for the signed token of the claim set `{"sub": phone}`. */
    const sign: string -> string

    constructor (hash: string -> string, sign: string -> string)
      ensures users == map[] && clock == 0
      ensures this.hash == hash && this.sign == sign
    {
      users := map[];
      clock := 0;
      this.hash := hash;
      this.sign := sign;
    }

    /** Whether logging in with `phone` and `password` succeeds now. */
    ghost predicate CanLogin(phone: string, password: string)
      reads this
    {
      var key := FormatRussianPhone(phone);
      key in users && VerifyPassword(hash, password, users[key].password)
    }

    method RegisterUser(phone: string, password: string, name: Option<string>, city: Option<string>)
      returns (r: Outcome<AuthError>)
      modifies this
      ensures var key := FormatRussianPhone(phone);
        if key in old(users) then
          r == Fail(UserAlreadyExists) && users == old(users) && clock == old(clock)
        else
          && r == Pass
          && users == old(users)[key := User(hash(password), name, city, None, old(clock))]
          && clock == old(clock) + 1
      ensures r.Pass? ==> CanLogin(phone, password)
      ensures r.Pass? ==> forall other :: CanLogin(phone, other) <==> hash(other) == hash(password)
    {
      var key := FormatRussianPhone(phone);
      if key in users {
        return Fail(UserAlreadyExists);
      }
      users := users[key := User(HashPassword(hash, password), name, city, None, clock)];
      clock := clock + 1;
      r := Pass;
    }

    method AuthenticateUser(phone: string, password: string) returns (r: Option<Login>)
      ensures r.Some? <==> CanLogin(phone, password)
      ensures FormatRussianPhone(phone) !in users ==> r == None
      ensures r.Some? ==>
        var key := FormatRussianPhone(phone);
        var u := users[key];
        r.value == Login(sign(key), UserInfo(key, u.name, u.city, u.avatar))
    {
      var key := FormatRussianPhone(phone);
      if key !in users {
        return None;
      }
      var u := users[key];
      if !VerifyPassword(hash, password, u.password) {
        return None;
      }
      var token := sign(key);
      r := Some(Login(token, UserInfo(key, u.name, u.city, u.avatar)));
    }

    method ResetPassword(phone: string, newPassword: string) returns (r: Outcome<AuthError>)
      modifies this
      ensures clock == old(clock)
      ensures var key := FormatRussianPhone(phone);
        if key !in old(users) then
          r == Fail(UserNotFound) && users == old(users)
        else
          && r == Pass
          && users == old(users)[key := old(users)[key].(password := hash(newPassword))]
      ensures r.Pass? ==> CanLogin(phone, newPassword)
    {
      var key := FormatRussianPhone(phone);
      if key !in users {
        return Fail(UserNotFound);
      }
      users := users[key := users[key].(password := HashPassword(hash, newPassword))];
      r := Pass;
    }
  }
}
