/** The authentication state holder (hooks/useAuth.tsx): the signed-in user, the
    loading flag and the two storage entries the provider writes, for Firebase mode
    and for the development mode without Firebase. The Firebase calls are parameters:
    the reply `signIn`/`signUp` would give, and whether `signOut` throws. */
module AuthState {
  import opened Common

  datatype User = User(uid: string, email: string)

  /** An error thrown while signing in or up: Firebase's `code` (absent on a plain
      `Error`) and its `message` (absent when the thrown value has none). */
  datatype AuthError = AuthError(code: Option<string>, message: Option<string>)

  /** What the Firebase call does: resolve with the user, or reject. */
  datatype ProviderReply = Signed(user: User) | Rejected(error: AuthError)

  /** The `{ success, error? }` object `login` and `register` return. */
  datatype AuthResult = AuthResult(success: bool, error: Option<string>)

  const UserTokenKey: string := "userToken"
  const MockUserKey: string := "mockUser"

  const MinPasswordLength: nat := 6
  const ShortPassword: string := "A senha deve ter pelo menos 6 caracteres"
  const DefaultLoginError: string := "Erro ao fazer login"
  const DefaultRegisterError: string := "Erro ao criar conta"
  const WrongCredentials: string := "Email ou senha incorretos. Verifique suas credenciais e tente novamente."
  const InvalidEmail: string := "Email inválido. Verifique o formato do email."
  const UserDisabled: string := "Esta conta foi desabilitada. Entre em contato com o suporte."
  const TooManyRequests: string := "Muitas tentativas de login. Tente novamente mais tarde."

  /** `error.message || fallback`. */
  function MessageOr(message: Option<string>, fallback: string): (r: string)
    requires fallback != ""
    ensures r != ""
    ensures message.Some? && message.value != "" ==> r == message.value
    ensures message.None? || message.value == "" ==> r == fallback
  {
    if message.Some? && message.value != "" then message.value else fallback
  }

  /** The codes the login error switch recognises. */
  predicate KnownCode(code: string) {
    code in {"auth/invalid-credential", "auth/wrong-password", "auth/user-not-found",
             "auth/invalid-email", "auth/user-disabled", "auth/too-many-requests"}
  }

  /** The message `login` returns for an error: the switch on a truthy `code`, and the
      error's own message (or the default) for an unknown code or no code. */
  function LoginErrorMessage(e: AuthError): (r: string)
    ensures r != ""
  {
    if e.code.Some? && e.code.value != "" then
      match e.code.value
      case "auth/invalid-credential" => WrongCredentials
      case "auth/wrong-password" => WrongCredentials
      case "auth/user-not-found" => WrongCredentials
      case "auth/invalid-email" => InvalidEmail
      case "auth/user-disabled" => UserDisabled
      case "auth/too-many-requests" => TooManyRequests
      case _ => MessageOr(e.message, DefaultLoginError)
    else MessageOr(e.message, DefaultLoginError)
  }

  /** The three credential codes share one message, whatever the error's own message. */
  lemma CredentialCodesShareMessage(m1: Option<string>, m2: Option<string>, m3: Option<string>)
    ensures LoginErrorMessage(AuthError(Some("auth/invalid-credential"), m1)) == WrongCredentials
    ensures LoginErrorMessage(AuthError(Some("auth/wrong-password"), m2)) == WrongCredentials
    ensures LoginErrorMessage(AuthError(Some("auth/user-not-found"), m3)) == WrongCredentials
  {
  }

  /** Each of the other three known codes has a message of its own. */
  lemma OtherCodesHaveOwnMessages(m: Option<string>)
    ensures LoginErrorMessage(AuthError(Some("auth/invalid-email"), m)) == InvalidEmail
    ensures LoginErrorMessage(AuthError(Some("auth/user-disabled"), m)) == UserDisabled
    ensures LoginErrorMessage(AuthError(Some("auth/too-many-requests"), m)) == TooManyRequests
    ensures |{WrongCredentials, InvalidEmail, UserDisabled, TooManyRequests}| == 4
  {
  }

  /** Any other code, or none, reports the error's own message when it is non-empty and
      the login default otherwise. */
  lemma UnknownCodeUsesMessage(e: AuthError)
    requires e.code.None? || !KnownCode(e.code.value)
    ensures LoginErrorMessage(e) == MessageOr(e.message, DefaultLoginError)
  {
  }

  /** `register` does no code mapping: the error's message, or its own default. */
  function RegisterErrorMessage(e: AuthError): (r: string)
    ensures r != ""
    ensures e.message.Some? && e.message.value != "" ==> r == e.message.value
    ensures e.message.None? || e.message.value == "" ==> r == DefaultRegisterError
  {
    MessageOr(e.message, DefaultRegisterError)
  }

  // ---------------------------------------------------------------------------
  // The development-mode user

  /** `createMockUser(email)`: its uid is `mock-user-` followed by `Date.now()`, passed in
      as `now` (milliseconds). */
  function MockUser(email: string, now: nat): (u: User)
    ensures u.email == email && StartsWith(u.uid, "mock-user-")
  {
    User("mock-user-" + Decimal(now), email)
  }

  /** Mock users created at different instants have different uids. */
  lemma MockUidsDiffer(email: string, now1: nat, now2: nat)
    requires now1 != now2
    ensures MockUser(email, now1).uid != MockUser(email, now2).uid
  {
    var p := "mock-user-";
    if MockUser(email, now1).uid == MockUser(email, now2).uid {
      assert (p + Decimal(now1))[|p|..] == Decimal(now1);
      assert (p + Decimal(now2))[|p|..] == Decimal(now2);
      DecimalInjective(now1, now2);
    }
  }

  function HexDigit(d: nat): (c: char)
    requires d < 16
    ensures IsDigit(c) || 'a' <= c <= 'f'
    ensures HexValue(c) == Some(d)
  {
    if d < 10 then DigitChar(d) else ('a' as int + (d - 10)) as char
  }

  /** The value of a hexadecimal digit of either case. */
  function HexValue(c: char): (v: Option<nat>)
    ensures v.Some? <==> IsDigit(c) || 'a' <= c <= 'f' || 'A' <= c <= 'F'
    ensures v.Some? ==> v.value < 16
  {
    if IsDigit(c) then Some(c as int - '0' as int)
    else if 'a' <= c <= 'f' then Some(c as int - 'a' as int + 10)
    else if 'A' <= c <= 'F' then Some(c as int - 'A' as int + 10)
    else None
  }

  /** The code unit named by the four hexadecimal digits of a `\u` escape. */
  function Hex4(h: string): (v: Option<nat>)
    requires |h| == 4
    ensures v.Some? ==> v.value < 0x10000
  {
    match (HexValue(h[0]), HexValue(h[1]), HexValue(h[2]), HexValue(h[3]))
    case (Some(a), Some(b), Some(c), Some(d)) => Some(((a * 16 + b) * 16 + c) * 16 + d)
    case _ => None
  }

  /** Characters `JSON.stringify` writes as they are. */
  predicate JsonPlain(s: string) {
    forall i :: 0 <= i < |s| ==> s[i] != '"' && s[i] != '\\' && s[i] as int >= 0x20
  }

  /** How `JSON.parse` reads the first character of the text between the quotes of a
      string literal: the character, and how many characters of the text it takes up.
      A bare quote or control character, and an unknown or cut-off escape, are
      syntax errors. */
  function JsonDecodeFirst(r: string): (d: Option<(char, nat)>)
    requires r != []
    ensures d.Some? ==> 1 <= d.value.1 <= |r|
    ensures d.Some? && r[0] != '\\' ==> d.value == (r[0], 1)
  {
    var c := r[0];
    if c == '"' || c as int < 0x20 then None
    else if c != '\\' then Some((c, 1))
    else if |r| < 2 then None
    else
      var e := r[1];
      if e == '"' || e == '\\' || e == '/' then Some((e, 2))
      else if e == 'b' then Some((0x08 as char, 2))
      else if e == 'f' then Some((0x0C as char, 2))
      else if e == 'n' then Some((0x0A as char, 2))
      else if e == 'r' then Some((0x0D as char, 2))
      else if e == 't' then Some((0x09 as char, 2))
      else if e == 'u' && |r| >= 6 then
        match Hex4(r[2..6])
        case Some(v) => if 0xD800 <= v < 0xE000 then None else Some((v as char, 6))
        case None => None
      else None
  }

  /** `JSON.parse` of the text between the quotes of a string literal: the string it
      denotes, or `None` when the text is not a valid literal body. */
  function JsonUnescape(r: string): (s: Option<string>)
    ensures s.Some? ==> |s.value| <= |r|
    decreases |r|
  {
    if r == [] then Some([])
    else
      match JsonDecodeFirst(r)
      case None => None
      case Some((c, n)) =>
        match JsonUnescape(r[n..])
        case None => None
        case Some(rest) => Some([c] + rest)
  }

  /** A text `JSON.parse` accepts between quotes holds no control character, does not
      start with a quote, and has a backslash before every other quote, so the literal
      cannot end early. */
  lemma {:induction false} ValidBodyShape(r: string)
    requires JsonUnescape(r).Some?
    ensures forall i :: 0 <= i < |r| ==> r[i] as int >= 0x20
    ensures r != [] ==> r[0] != '"'
    ensures forall i :: 0 < i < |r| && r[i] == '"' ==> r[i - 1] == '\\'
  {
    if r != [] {
      var n := JsonDecodeFirst(r).value.1;
      var rest := r[n..];
      ValidBodyShape(rest);
      forall i | 0 <= i < |r|
        ensures r[i] as int >= 0x20
        ensures 0 < i && r[i] == '"' ==> r[i - 1] == '\\'
      {
        if i >= n {
          assert r[i] == rest[i - n];
          if i > n { assert r[i - 1] == rest[i - 1 - n]; }
        } else if n == 6 {
          var h := r[2..6];
          assert r[0] == '\\' && r[1] == 'u' && Hex4(h).Some?;
          if i >= 2 {
            assert r[i] == h[i - 2];
            assert HexValue(h[i - 2]).Some?;
          }
        }
      }
    }
  }

  /** How `JSON.stringify` writes one character inside a string literal: plain
      characters as they are, anything else as an escape sequence. */
  function JsonEscapeChar(c: char): (r: string)
    ensures r != []
    ensures JsonPlain([c]) ==> r == [c]
  {
    assert JsonPlain([c]) ==> [c][0] != '"' && [c][0] != '\\' && [c][0] as int >= 0x20;
    var n := c as int;
    if c == '"' then "\\\""
    else if c == '\\' then "\\\\"
    else if n == 0x08 then "\\b"
    else if n == 0x09 then "\\t"
    else if n == 0x0A then "\\n"
    else if n == 0x0C then "\\f"
    else if n == 0x0D then "\\r"
    else if n < 0x20 then "\\u00" + [HexDigit(n / 16), HexDigit(n % 16)]
    else [c]
  }

  /** Reading back the escape of `c`, whatever follows it, gives `c` and takes up
      exactly the escape. */
  lemma EscapeCharDecodes(c: char, rest: string)
    ensures JsonDecodeFirst(JsonEscapeChar(c) + rest) == Some((c, |JsonEscapeChar(c)|))
  {
    var n := c as int;
    var e := JsonEscapeChar(c);
    var r := e + rest;
    if n < 0x20 && n != 0x08 && n != 0x09 && n != 0x0A && n != 0x0C && n != 0x0D {
      var hi, lo := HexDigit(n / 16), HexDigit(n % 16);
      assert r[..6] == e;
      assert r[2..6] == ['0', '0', hi, lo];
      assert Hex4(r[2..6]) == Some(n);
    }
  }

  /** An escaped character in front of a valid body is read back in front of its text. */
  lemma UnescapeAfterEscapeChar(c: char, tail: string, t: string)
    requires JsonUnescape(tail) == Some(t)
    ensures JsonUnescape(JsonEscapeChar(c) + tail) == Some([c] + t)
  {
    var head := JsonEscapeChar(c);
    EscapeCharDecodes(c, tail);
    assert (head + tail)[|head|..] == tail;
  }

  /** The characters of a string escaped one by one. `JSON.parse` reads the result
      back as the string, and plain text is written unchanged. */
  function JsonEscape(s: string): (r: string)
    ensures JsonUnescape(r) == Some(s)
    ensures JsonPlain(s) ==> r == s
  {
    if s == [] then []
    else
      var tail := JsonEscape(s[1..]);
      EscapeStep(s, tail);
      JsonEscapeChar(s[0]) + tail
  }

  /** Escaping the first character in front of the escaped rest keeps both properties. */
  lemma EscapeStep(s: string, tail: string)
    requires s != [] && JsonUnescape(tail) == Some(s[1..])
    requires JsonPlain(s[1..]) ==> tail == s[1..]
    ensures JsonUnescape(JsonEscapeChar(s[0]) + tail) == Some(s)
    ensures JsonPlain(s) ==> JsonEscapeChar(s[0]) + tail == s
  {
    assert s == [s[0]] + s[1..];
    UnescapeAfterEscapeChar(s[0], tail, s[1..]);
    if JsonPlain(s) {
      assert JsonPlain([s[0]]) && JsonPlain(s[1..]);
    }
  }

  /** `JSON.stringify({ email })`: an object with the one member `email`, whose value is
      a string literal that `JSON.parse` (hooks/useAuth.tsx:88) reads back as the
      address. */
  function MockUserRecord(email: string): (r: string)
    ensures StartsWith(r, "{\"email\":\"") && |r| >= 12 && r[|r| - 2..] == "\"}"
    ensures JsonUnescape(r[10..|r| - 2]) == Some(email)
  {
    var body := JsonEscape(email);
    var r := "{\"email\":\"" + body + "\"}";
    assert r[10..|r| - 2] == body;
    r
  }

  /** An ordinary address is stored verbatim inside the record. */
  lemma PlainEmailRecord(email: string)
    requires JsonPlain(email)
    ensures MockUserRecord(email) == "{\"email\":\"" + email + "\"}"
  {
    assert JsonEscape(email) == email;
  }

  // ---------------------------------------------------------------------------
  // Sign-in and sign-up

  /** How the body of the `try` in `login` and `register` ends: a signed-in user, or
      the error thrown. */
  datatype Attempt = SignedIn(user: User) | Failed(error: AuthError)

  /** With Firebase the provider's reply decides; without it a password shorter than six
      characters throws a plain `Error`, and any other signs in a fresh mock user
      without asking anybody. */
  function AttemptOutcome(firebaseConfigured: bool, email: string, password: string, reply: ProviderReply, now: nat)
    : (a: Attempt)
    ensures firebaseConfigured ==> (a.SignedIn? <==> reply.Signed?)
    ensures firebaseConfigured && reply.Signed? ==> a.user == reply.user
    ensures firebaseConfigured && reply.Rejected? ==> a.error == reply.error
    ensures !firebaseConfigured ==> (a.SignedIn? <==> |password| >= MinPasswordLength)
    ensures !firebaseConfigured && a.SignedIn? ==> a.user == MockUser(email, now)
    ensures !firebaseConfigured && a.Failed? ==> a.error == AuthError(None, Some(ShortPassword))
  {
    if firebaseConfigured then
      match reply
      case Signed(user) => SignedIn(user)
      case Rejected(error) => Failed(error)
    else if |password| < MinPasswordLength then Failed(AuthError(None, Some(ShortPassword)))
    else SignedIn(MockUser(email, now))
  }

  /** The storage after a successful sign-in: the uid under `userToken` and, in
      development mode, the record of the email under `mockUser`. */
  function StoreSession(storage: map<string, string>, user: User, mockEmail: Option<string>)
    : (r: map<string, string>)
    ensures UserTokenKey in r && r[UserTokenKey] == user.uid
    ensures MockUserKey in r <==> MockUserKey in storage || mockEmail.Some?
    ensures mockEmail.Some? ==> r[MockUserKey] == MockUserRecord(mockEmail.value)
    ensures forall k :: k in storage && k != UserTokenKey && (k != MockUserKey || mockEmail.None?) ==>
              k in r && r[k] == storage[k]
    ensures forall k :: k in r ==> k in storage || k == UserTokenKey || k == MockUserKey
  {
    var withToken := storage[UserTokenKey := user.uid];
    if mockEmail.Some? then withToken[MockUserKey := MockUserRecord(mockEmail.value)] else withToken
  }

  /** The development-mode password rule, as both operations report it: too short a
      password fails with its own message and no user. */
  lemma ShortMockPasswordRejected(email: string, password: string, reply: ProviderReply, now: nat)
    requires |password| < MinPasswordLength
    ensures AttemptOutcome(false, email, password, reply, now).Failed?
    ensures LoginErrorMessage(AttemptOutcome(false, email, password, reply, now).error) == ShortPassword
    ensures RegisterErrorMessage(AttemptOutcome(false, email, password, reply, now).error) == ShortPassword
  {
  }

  /** Logging out removes what signing in stored: both keys are gone and every other entry
      is as it was before the sign-in. */
  lemma LogoutUndoesSession(storage: map<string, string>, user: User, mockEmail: Option<string>)
    ensures StoreSession(storage, user, mockEmail) - {UserTokenKey, MockUserKey}
            == storage - {UserTokenKey, MockUserKey}
  {
    var r := StoreSession(storage, user, mockEmail);
    assert forall k :: k in r - {UserTokenKey, MockUserKey} <==> k in storage - {UserTokenKey, MockUserKey};
  }

  class AuthProvider {
    /** `isFirebaseAvailable()`, read once when the provider mounts. */
    const firebaseConfigured: bool
    var user: Option<User>
    var loading: bool
    /** The AsyncStorage entries. */
    var storage: map<string, string>

    /** A provider as first rendered: no user yet and loading. */
    constructor (firebaseConfigured: bool, storage: map<string, string>)
      ensures this.firebaseConfigured == firebaseConfigured && this.storage == storage
      ensures user.None? && loading
    {
      this.firebaseConfigured := firebaseConfigured;
      this.storage := storage;
      user := None;
      loading := true;
    }

    /** `isAuthenticated`: a user is signed in. */
    predicate IsAuthenticated()
      reads this
      ensures IsAuthenticated() <==> user != None
    {
      user.Some?
    }

    /** `login`. `reply` is what `signIn(email, password)` would give (unused in
        development mode) and `now` is `Date.now()`. */
    method Login(email: string, password: string, reply: ProviderReply, now: nat) returns (result: AuthResult)
      modifies this`user, this`loading, this`storage
      ensures !loading
      ensures
        var a := AttemptOutcome(firebaseConfigured, email, password, reply, now);
        && result == (if a.SignedIn? then AuthResult(true, None) else AuthResult(false, Some(LoginErrorMessage(a.error))))
        && user == (if a.SignedIn? then Some(a.user) else old(user))
        && storage == (if a.SignedIn? then StoreSession(old(storage), a.user, if firebaseConfigured then None else Some(email))
                       else old(storage))
      ensures result.success ==> IsAuthenticated()
      ensures result.success <==> result.error.None?
    {
      loading := true;
      var thrown: Option<AuthError> := None;
      if firebaseConfigured {
        match reply
        case Signed(u) =>
          user := Some(u);
          storage := storage[UserTokenKey := u.uid];
        case Rejected(error) =>
          thrown := Some(error);
      } else {
        if |password| < MinPasswordLength {
          thrown := Some(AuthError(None, Some(ShortPassword)));
        } else {
          var mockUser := MockUser(email, now);
          user := Some(mockUser);
          storage := storage[UserTokenKey := mockUser.uid];
          storage := storage[MockUserKey := MockUserRecord(email)];
        }
      }
      if thrown.None? {
        result := AuthResult(true, None);
      } else {
        result := AuthResult(false, Some(LoginErrorMessage(thrown.value)));
      }
      loading := false;
    }

    /** `register`: as `login`, with `signUp` in place of `signIn` and no code mapping of
        the error. */
    method Register(email: string, password: string, reply: ProviderReply, now: nat) returns (result: AuthResult)
      modifies this`user, this`loading, this`storage
      ensures !loading
      ensures
        var a := AttemptOutcome(firebaseConfigured, email, password, reply, now);
        && result == (if a.SignedIn? then AuthResult(true, None) else AuthResult(false, Some(RegisterErrorMessage(a.error))))
        && user == (if a.SignedIn? then Some(a.user) else old(user))
        && storage == (if a.SignedIn? then StoreSession(old(storage), a.user, if firebaseConfigured then None else Some(email))
                       else old(storage))
    {
      loading := true;
      var thrown: Option<AuthError> := None;
      if firebaseConfigured {
        match reply
        case Signed(u) =>
          user := Some(u);
          storage := storage[UserTokenKey := u.uid];
        case Rejected(error) =>
          thrown := Some(error);
      } else {
        if |password| < MinPasswordLength {
          thrown := Some(AuthError(None, Some(ShortPassword)));
        } else {
          var mockUser := MockUser(email, now);
          user := Some(mockUser);
          storage := storage[UserTokenKey := mockUser.uid];
          storage := storage[MockUserKey := MockUserRecord(email)];
        }
      }
      if thrown.None? {
        result := AuthResult(true, None);
      } else {
        result := AuthResult(false, Some(MessageOr(thrown.value.message, DefaultRegisterError)));
      }
      loading := false;
    }

    /** `logout`: in Firebase mode a throwing `signOut` is swallowed before anything
        changes; otherwise the user is cleared and both keys are removed. */
    method Logout(signOutThrows: bool)
      modifies this`user, this`storage
      ensures firebaseConfigured && signOutThrows ==> user == old(user) && storage == old(storage)
      ensures !(firebaseConfigured && signOutThrows) ==>
                user.None? && storage == old(storage) - {UserTokenKey, MockUserKey}
    {
      if firebaseConfigured && signOutThrows {
        return;
      }
      user := None;
      storage := storage - {UserTokenKey};
      storage := storage - {MockUserKey};
    }
  }
}
