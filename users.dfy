/**
  The account service of usuarios.py: registration, lookup by username or e-mail, login
  validation and the two-step password recovery, over the document kept by AuthStore.

  SHA-256 is an arbitrary function `Hasher` from text to a 64-character lower-case hex
  digest; nothing is assumed about it beyond its type. Fresh salts, user ids, recovery
  tokens and the current time are parameters. A Python exception that escapes one of the
  service functions is the outcome `Raised`.
 */
module Users {
  import opened Wrappers
  import opened Json
  import opened Seqs
  import Utils

  // ---------------------------------------------------------------------------------------
  // Hashing and comparison (usuarios.py:13-24)

  predicate IsLowerHex(s: string)
  {
    forall i :: 0 <= i < |s| ==> '0' <= s[i] <= '9' || 'a' <= s[i] <= 'f'
  }

  /** `hexdigest()` of SHA-256. */
  type Digest = s: string | |s| == 64 && IsLowerHex(s)
    witness seq(64, _ => '0')

  /** `secrets.token_hex(16)`. */
  type Salt = s: string | |s| == 32 && IsLowerHex(s)
    witness seq(32, _ => '0')

  /** `secrets.token_hex(8)`. */
  type UserId = s: string | |s| == 16 && IsLowerHex(s)
    witness seq(16, _ => '0')

  predicate IsUrlSafeChar(c: char)
  {
    'A' <= c <= 'Z' || 'a' <= c <= 'z' || '0' <= c <= '9' || c == '-' || c == '_'
  }

  /** `secrets.token_urlsafe(16)`: 16 random bytes in unpadded URL-safe base64. */
  type Token = s: string | |s| == 22 && forall i :: 0 <= i < |s| ==> IsUrlSafeChar(s[i])
    witness seq(22, _ => 'A')

  /** SHA-256 of the UTF-8 encoding, as hex. */
  type Hasher = string -> Digest

  /** `_hash_texto(texto, salt)`: the salt is prepended to the text. */
  function HashText(h: Hasher, text: string, salt: string): Digest
  {
    h(salt + text)
  }

  /**
    `_hash_senha(senha, salt)`: a supplied salt is kept, otherwise the generated one is used;
    the digest is always that of the salt actually returned.
   */
  function HashPassword(h: Hasher, password: string, salt: Option<string>, generated: Salt): (r: (Digest, string))
    ensures salt.Some? ==> r.1 == salt.value
    ensures salt.None? ==> r.1 == generated && |r.1| == 32 && IsLowerHex(r.1)
    ensures r.0 == HashText(h, password, r.1)
  {
    var s := if salt.Some? then salt.value else generated;
    (HashText(h, password, s), s)
  }

  /** Hashing again with the salt that was handed out reproduces the digest. */
  lemma HashPasswordReproducible(h: Hasher, password: string, generated: Salt, other: Salt)
    ensures var first := HashPassword(h, password, None, generated);
            HashPassword(h, password, Some(first.1), other) == first
  {
  }

  predicate IsAscii(s: string)
  {
    forall i :: 0 <= i < |s| ==> (s[i] as int) < 128
  }

  /** Whether two strings of equal length differ anywhere, scanning every position. */
  function Mismatch(a: string, b: string): (r: bool)
    requires |a| == |b|
    ensures r <==> a != b
  {
    if a == [] then false
    else
      assert a == [a[0]] + a[1..] && b == [b[0]] + b[1..];
      a[0] != b[0] || Mismatch(a[1..], b[1..])
  }

  /**
    `_const_eq(a, b)`, that is `hmac.compare_digest` on two str: it raises TypeError
    (here `None`) unless both are ASCII, and otherwise answers equality.
   */
  function ConstEq(a: string, b: string): (r: Option<bool>)
    ensures r.Some? <==> IsAscii(a) && IsAscii(b)
    ensures r.Some? ==> (r.value <==> a == b)
  {
    if !IsAscii(a) || !IsAscii(b) then None
    else Some(|a| == |b| && !Mismatch(a, b))
  }

  // ---------------------------------------------------------------------------------------
  // User records

  /** A user record as stored in db.json. */
  type Record = Object

  const SecretKeys: set<string> := {"senha_hash", "senha_salt", "resposta_hash", "resposta_salt"}
  const DefaultQuestion := "Pergunta de segurança"
  /** Seconds a recovery token stays valid. */
  const TokenLifetime := 15 * 60

  /** `u.get("username") == login or u.get("email") == login`. */
  predicate MatchesLogin(u: Record, login: string)
  {
    Get(u, "username") == JString(login) || Get(u, "email") == JString(login)
  }

  function LoginIndex(users: seq<Record>, login: string): Option<nat>
  {
    FirstIndex(users, (u: Record) => MatchesLogin(u, login))
  }

  /** `buscar_usuario_por_login(login)`: the first record, in list order, that matches. */
  function UserByLogin(users: seq<Record>, login: string): (r: Option<Record>)
    ensures r.None? <==> forall i :: 0 <= i < |users| ==> !MatchesLogin(users[i], login)
    ensures r.Some? ==> exists i :: 0 <= i < |users| && users[i] == r.value && MatchesLogin(users[i], login)
                                    && forall j :: 0 <= j < i ==> !MatchesLogin(users[j], login)
  {
    match LoginIndex(users, login)
    case None => None
    case Some(i) => Some(users[i])
  }

  /** `u.get("ativo", True)` taken as a truth value: a missing flag counts as active. */
  function IsActive(u: Record): (r: bool)
    ensures "ativo" !in u ==> r
    ensures "ativo" in u ==> (r <==> Truthy(u["ativo"]))
  {
    Truthy(GetOr(u, "ativo", JBool(true)))
  }

  /** `u.get(key, "")` where it is used as a str; `None` when the stored value is not one. */
  function TextOr(u: Record, key: string): (r: Option<string>)
    ensures key !in u ==> r == Some("")
    ensures key in u ==> (r.Some? <==> u[key].JString?)
    ensures key in u && u[key].JString? ==> r == Some(u[key].s)
  {
    match GetOr(u, key, JString(""))
    case JString(s) => Some(s)
    case _ => None
  }

  /**
    Hash `text` with the record's salt and compare it with the record's digest, as
    `validar_login` does for the password and `concluir_recuperacao` for the answer.
    `None` is the TypeError raised by a non-str salt or digest, or a non-ASCII digest.
   */
  function SecretMatches(h: Hasher, u: Record, saltKey: string, hashKey: string, text: string): (r: Option<bool>)
    ensures r == Some(true) <==> TextOr(u, saltKey).Some? && TextOr(u, hashKey) == Some(HashText(h, text, TextOr(u, saltKey).value))
    ensures r.None? <==> TextOr(u, saltKey).None? || TextOr(u, hashKey).None? || !IsAscii(TextOr(u, hashKey).value)
  {
    match TextOr(u, saltKey)
    case None => None
    case Some(salt) =>
      match TextOr(u, hashKey)
      case None => None
      case Some(stored) => ConstEq(HashText(h, text, salt), stored)
  }

  /** Every digest is ASCII, so comparing against one never raises. */
  lemma DigestIsAscii(d: Digest)
    ensures IsAscii(d)
  {
  }

  // ---------------------------------------------------------------------------------------
  // Outcomes

  datatype Failure =
    | MissingFields
    | UsernameTaken
    | EmailTaken
    | UserNotFound
    | UserInactive
    | WrongPassword
    | InvalidToken
    | ExpiredToken
    | WrongAnswer

  /** The message the service returns with each failure. */
  function Message(f: Failure): string
  {
    match f
    case MissingFields => "Preencha username, e-mail e senha."
    case UsernameTaken => "Já existe um usuário com esse username."
    case EmailTaken => "Já existe um usuário com esse e-mail."
    case UserNotFound => "Usuário não encontrado."
    case UserInactive => "Usuário inativo."
    case WrongPassword => "Senha inválida."
    case InvalidToken => "Token inválido."
    case ExpiredToken => "Token expirado. Inicie novamente."
    case WrongAnswer => "Resposta incorreta."
  }

  /** An exception that escapes the service function. */
  datatype PyError = KeyError(key: string) | TypeError

  datatype Outcome<T> = Done(value: T) | Fail(failure: Failure) | Raised(error: PyError)

  // ---------------------------------------------------------------------------------------
  // The document and the service as functions of it

  /** An entry of "recuperacoes": `{"user_id": ..., "expira_em": ...}`. */
  datatype Recovery = Recovery(userId: Json, expiresAt: int)

  /** The two collections of db.json the service reads and writes. */
  datatype Directory = Directory(users: seq<Record>, recoveries: map<string, Recovery>)

  /** The values `criar_usuario` draws from `secrets` and the clock. */
  datatype Fresh = Fresh(id: UserId, passwordSalt: Salt, answerSalt: Salt, now: int)

  /** The record `criar_usuario` appends. */
  function NewUser(h: Hasher, username: string, name: string, email: string, password: string,
                   question: string, answer: string, f: Fresh): Record
  {
    var pw := HashPassword(h, password, None, f.passwordSalt);
    var ans := HashPassword(h, answer, None, f.answerSalt);
    map[
      "id" := JString(f.id),
      "username" := JString(username),
      "nome" := JString(name),
      "email" := JString(email),
      "senha_hash" := JString(pw.0),
      "senha_salt" := JString(pw.1),
      "pergunta" := JString(question),
      "resposta_hash" := JString(ans.0),
      "resposta_salt" := JString(ans.1),
      "criado_em" := JInt(f.now),
      "ativo" := JBool(true),
      "roles" := JArray([JString("cliente")])
    ]
  }

  /** A record that blocks registration: same username, or same e-mail. */
  predicate Conflicts(u: Record, username: string, email: string)
  {
    Get(u, "username") == JString(username) || Get(u, "email") == JString(email)
  }

  function ConflictIndex(users: seq<Record>, username: string, email: string): Option<nat>
  {
    FirstIndex(users, (u: Record) => Conflicts(u, username, email))
  }

  /** `criar_usuario`: the new document and the outcome. */
  function RegisterStep(h: Hasher, d: Directory, username: string, name: string, email: string,
                        password: string, question: string, answer: string, f: Fresh): (res: (Directory, Outcome<()>))
    ensures username == "" || email == "" || password == "" ==> res == (d, Fail(MissingFields))
    ensures res.1 == Fail(MissingFields) ==> username == "" || email == "" || password == ""
    ensures res.1.Done? <==> username != "" && email != "" && password != ""
                             && forall i :: 0 <= i < |d.users| ==> !Conflicts(d.users[i], username, email)
    ensures res.1.Fail? ==> res.1.failure == MissingFields || res.1.failure == UsernameTaken || res.1.failure == EmailTaken
    ensures !res.1.Raised?
    ensures res.1 == Fail(UsernameTaken) ==>
      exists i :: 0 <= i < |d.users| && Get(d.users[i], "username") == JString(username)
                  && forall j :: 0 <= j < i ==> !Conflicts(d.users[j], username, email)
    ensures res.1 == Fail(EmailTaken) ==>
      exists i :: 0 <= i < |d.users| && Get(d.users[i], "username") != JString(username)
                  && Get(d.users[i], "email") == JString(email)
                  && forall j :: 0 <= j < i ==> !Conflicts(d.users[j], username, email)
    ensures !res.1.Done? ==> res.0 == d
    ensures res.1.Done? ==>
      && res.0.recoveries == d.recoveries
      && |res.0.users| == |d.users| + 1
      && res.0.users[..|d.users|] == d.users
      && res.0.users[|d.users|] == NewUser(h, username, name, email, password, question, answer, f)
  {
    if username == "" || email == "" || password == "" then (d, Fail(MissingFields))
    else
      match ConflictIndex(d.users, username, email)
      case None =>
        (d.(users := d.users + [NewUser(h, username, name, email, password, question, answer, f)]), Done(()))
      case Some(i) =>
        if Get(d.users[i], "username") == JString(username) then (d, Fail(UsernameTaken))
        else (d, Fail(EmailTaken))
  }

  /** `validar_login`: the public copy of the user, or why not. */
  function LoginOutcome(h: Hasher, users: seq<Record>, login: string, password: string): (r: Outcome<Record>)
    ensures UserByLogin(users, login).None? <==> r == Fail(UserNotFound)
    ensures var u := UserByLogin(users, login);
            r == Fail(UserInactive) <==> u.Some? && !IsActive(u.value)
    ensures var u := UserByLogin(users, login);
            r == Fail(WrongPassword) <==>
              u.Some? && IsActive(u.value) && SecretMatches(h, u.value, "senha_salt", "senha_hash", password) == Some(false)
    ensures var u := UserByLogin(users, login);
            r.Raised? <==>
              u.Some? && IsActive(u.value) && SecretMatches(h, u.value, "senha_salt", "senha_hash", password).None?
    ensures r.Raised? ==> r.error == TypeError
    ensures var u := UserByLogin(users, login);
            r.Done? <==>
              u.Some? && IsActive(u.value) && SecretMatches(h, u.value, "senha_salt", "senha_hash", password) == Some(true)
    ensures var u := UserByLogin(users, login);
            r.Done? ==>
              && u.Some?
              && r.value.Keys == u.value.Keys - SecretKeys
              && forall k :: k in r.value ==> r.value[k] == u.value[k]
  {
    match UserByLogin(users, login)
    case None => Fail(UserNotFound)
    case Some(u) =>
      if !IsActive(u) then Fail(UserInactive)
      else
        match SecretMatches(h, u, "senha_salt", "senha_hash", password)
        case None => Raised(TypeError)
        case Some(false) => Fail(WrongPassword)
        case Some(true) => Done(Utils.WithoutSensitive(u, SecretKeys))
  }

  /** `u.get("pergunta") or "Pergunta de segurança"`. */
  function Question(u: Record): (q: Json)
    ensures Truthy(Get(u, "pergunta")) ==> q == u["pergunta"]
    ensures !Truthy(Get(u, "pergunta")) ==> q == JString(DefaultQuestion)
  {
    if Truthy(Get(u, "pergunta")) then Get(u, "pergunta") else JString(DefaultQuestion)
  }

  /** `iniciar_recuperacao`: on success the token and the question to ask. */
  function BeginRecoveryStep(d: Directory, login: string, token: string, now: int): (res: (Directory, Outcome<(string, Json)>))
    ensures res.0.users == d.users
    ensures !res.1.Done? ==> res.0 == d
    ensures UserByLogin(d.users, login).None? <==> res.1 == Fail(UserNotFound)
    ensures var u := UserByLogin(d.users, login);
            res.1 == Raised(KeyError("id")) <==> u.Some? && "id" !in u.value
    ensures !res.1.Fail? || res.1.failure == UserNotFound
    ensures !res.1.Raised? || res.1.error == KeyError("id")
    ensures var u := UserByLogin(d.users, login);
            res.1.Done? ==>
              && u.Some? && "id" in u.value
              && res.1.value == (token, Question(u.value))
              && res.0.recoveries.Keys == d.recoveries.Keys + {token}
              && res.0.recoveries[token] == Recovery(u.value["id"], now + TokenLifetime)
              && forall t :: t in d.recoveries && t != token ==> res.0.recoveries[t] == d.recoveries[t]
  {
    match UserByLogin(d.users, login)
    case None => (d, Fail(UserNotFound))
    case Some(u) =>
      if "id" !in u then (d, Raised(KeyError("id")))
      else
        (d.(recoveries := d.recoveries[token := Recovery(u["id"], now + TokenLifetime)]), Done((token, Question(u))))
  }

  /** The first record whose "id" equals `uid`. */
  function OwnerIndex(users: seq<Record>, uid: Json): Option<nat>
  {
    FirstIndex(users, (u: Record) => Get(u, "id") == uid)
  }

  /** The record with its password digest and salt overwritten. */
  function WithNewPassword(h: Hasher, u: Record, password: string, salt: Salt): Record
  {
    var pw := HashPassword(h, password, None, salt);
    u["senha_hash" := JString(pw.0)]["senha_salt" := JString(pw.1)]
  }

  /**
    `after` is `before` with only record `i` changed, and in it only the password digest
    and salt, now those of `password` under `salt`.
   */
  ghost predicate PasswordReplaced(h: Hasher, before: seq<Record>, after: seq<Record>, i: nat, password: string, salt: Salt)
  {
    && |after| == |before| && i < |before|
    && (forall j :: 0 <= j < |before| && j != i ==> after[j] == before[j])
    && after[i].Keys == before[i].Keys + {"senha_hash", "senha_salt"}
    && (forall k :: k in before[i] && k != "senha_hash" && k != "senha_salt" ==> after[i][k] == before[i][k])
    && after[i]["senha_salt"] == JString(salt)
    && after[i]["senha_hash"] == JString(HashText(h, password, salt))
  }

  /**
    The record a recovery applies to: the token exists and has not expired, and the first
    record with its user id is not empty (an empty dict is falsy, like a missing one).
   */
  function LiveOwner(d: Directory, token: string, now: int): (r: Option<nat>)
    ensures r.Some? ==> r.value < |d.users|
  {
    if token !in d.recoveries || d.recoveries[token].expiresAt < now then None
    else
      match OwnerIndex(d.users, d.recoveries[token].userId)
      case None => None
      case Some(i) => if d.users[i] == map[] then None else Some(i)
  }

  /** `concluir_recuperacao`: the new document and the outcome. */
  function ConcludeRecoveryStep(h: Hasher, d: Directory, token: string, answer: string, newPassword: string,
                                newSalt: Salt, now: int): (res: (Directory, Outcome<()>))
    ensures token !in d.recoveries ==> res == (d, Fail(InvalidToken))
    ensures token in d.recoveries && d.recoveries[token].expiresAt < now ==>
              res == (d.(recoveries := d.recoveries - {token}), Fail(ExpiredToken))
    ensures res.1 == Fail(UserNotFound) || res.1 == Fail(WrongAnswer) || res.1.Raised? ==> res.0 == d
    ensures res.1.Fail? ==> res.1.failure in {InvalidToken, ExpiredToken, UserNotFound, WrongAnswer}
    ensures res.1.Raised? ==> res.1.error == TypeError
    ensures res.1 == Fail(InvalidToken) <==> token !in d.recoveries
    ensures res.1 == Fail(ExpiredToken) <==> token in d.recoveries && d.recoveries[token].expiresAt < now
    ensures res.1 == Fail(UserNotFound) <==>
              token in d.recoveries && now <= d.recoveries[token].expiresAt && LiveOwner(d, token, now).None?
    ensures res.1 == Fail(UserNotFound) ==>
              var i := OwnerIndex(d.users, d.recoveries[token].userId);
              i.None? || d.users[i.value] == map[]
    ensures res.1 == Fail(WrongAnswer) <==>
              && LiveOwner(d, token, now).Some?
              && SecretMatches(h, d.users[LiveOwner(d, token, now).value], "resposta_salt", "resposta_hash", answer) == Some(false)
    ensures res.1.Raised? <==>
              && LiveOwner(d, token, now).Some?
              && SecretMatches(h, d.users[LiveOwner(d, token, now).value], "resposta_salt", "resposta_hash", answer).None?
    ensures res.1.Done? <==>
              && LiveOwner(d, token, now).Some?
              && SecretMatches(h, d.users[LiveOwner(d, token, now).value], "resposta_salt", "resposta_hash", answer) == Some(true)
    ensures res.1.Done? ==>
              && token in d.recoveries && now <= d.recoveries[token].expiresAt
              && res.0.recoveries == d.recoveries - {token}
              && var i := OwnerIndex(d.users, d.recoveries[token].userId);
                 && i.Some? && d.users[i.value] != map[]
                 && SecretMatches(h, d.users[i.value], "resposta_salt", "resposta_hash", answer) == Some(true)
                 && PasswordReplaced(h, d.users, res.0.users, i.value, newPassword, newSalt)
  {
    if token !in d.recoveries then (d, Fail(InvalidToken))
    else
      var rec := d.recoveries[token];
      if rec.expiresAt < now then (d.(recoveries := d.recoveries - {token}), Fail(ExpiredToken))
      else
        match OwnerIndex(d.users, rec.userId)
        case None => (d, Fail(UserNotFound))
        case Some(i) =>
          var u := d.users[i];
          if u == map[] then (d, Fail(UserNotFound))
          else
            match SecretMatches(h, u, "resposta_salt", "resposta_hash", answer)
            case None => (d, Raised(TypeError))
            case Some(false) => (d, Fail(WrongAnswer))
            case Some(true) =>
              (Directory(d.users[i := WithNewPassword(h, u, newPassword, newSalt)], d.recoveries - {token}), Done(()))
  }

  // ---------------------------------------------------------------------------------------
  // The service

  /**
    The service, holding the two collections of db.json. Each function of usuarios.py loads
    the document, works on it and saves it; since saving what was loaded changes nothing
    (AuthStore.SaveLoadedIsNoOp), the document is kept here between calls and `saves`
    counts the writes.
   */
  class UserDirectory {
    const hash: Hasher
    var users: seq<Record>
    var recoveries: map<string, Recovery>
    var saves: nat

    function State(): Directory
      reads this
    {
      Directory(users, recoveries)
    }

    constructor (hash: Hasher, loaded: Directory)
      ensures this.hash == hash && State() == loaded && saves == 0
    {
      this.hash := hash;
      users := loaded.users;
      recoveries := loaded.recoveries;
      saves := 0;
    }

    /** `listar_usuarios()`. */
    method ListUsers() returns (r: seq<Record>)
      ensures r == users
    {
      r := users;
    }

    /** `buscar_usuario_por_login(login)`: scans the list and stops at the first match. */
    method FindByLogin(login: string) returns (r: Option<Record>)
      ensures r == UserByLogin(users, login)
    {
      for i := 0 to |users|
        invariant forall j :: 0 <= j < i ==> !MatchesLogin(users[j], login)
      {
        if Get(users[i], "username") == JString(login) || Get(users[i], "email") == JString(login) {
          FirstIndexAt(users, (u: Record) => MatchesLogin(u, login), i);
          return Some(users[i]);
        }
      }
      return None;
    }

    /** `criar_usuario(...)`: saves once, and only when a record was appended. */
    method Register(username: string, name: string, email: string, password: string,
                    question: string, answer: string, f: Fresh) returns (r: Outcome<()>)
      modifies this
      ensures (State(), r) == RegisterStep(hash, old(State()), username, name, email, password, question, answer, f)
      ensures saves == old(saves) + (if r.Done? then 1 else 0)
    {
      if username == "" || email == "" || password == "" {
        return Fail(MissingFields);
      }
      for i := 0 to |users|
        invariant forall j :: 0 <= j < i ==> !Conflicts(users[j], username, email)
      {
        if Get(users[i], "username") == JString(username) {
          FirstIndexAt(users, (u: Record) => Conflicts(u, username, email), i);
          return Fail(UsernameTaken);
        }
        if Get(users[i], "email") == JString(email) {
          FirstIndexAt(users, (u: Record) => Conflicts(u, username, email), i);
          return Fail(EmailTaken);
        }
      }
      var created := NewUser(hash, username, name, email, password, question, answer, f);
      users := users + [created];
      saves := saves + 1;
      r := Done(());
    }

    /** `validar_login(login, senha)`. */
    method ValidateLogin(login: string, password: string) returns (r: Outcome<Record>)
      ensures r == LoginOutcome(hash, users, login, password)
    {
      var found := FindByLogin(login);
      if found.None? {
        return Fail(UserNotFound);
      }
      var u := found.value;
      if !IsActive(u) {
        return Fail(UserInactive);
      }
      var matches := SecretMatches(hash, u, "senha_salt", "senha_hash", password);
      if matches.None? {
        return Raised(TypeError);
      }
      if !matches.value {
        return Fail(WrongPassword);
      }
      r := Done(Utils.WithoutSensitive(u, SecretKeys));
    }

    /** `iniciar_recuperacao(login)`, with the token `secrets.token_urlsafe(16)` drew. */
    method BeginRecovery(login: string, token: Token, now: int) returns (r: Outcome<(string, Json)>)
      modifies this
      ensures (State(), r) == BeginRecoveryStep(old(State()), login, token, now)
      ensures saves == old(saves) + (if r.Done? then 1 else 0)
    {
      var found := FindByLogin(login);
      if found.None? {
        return Fail(UserNotFound);
      }
      var u := found.value;
      if "id" !in u {
        return Raised(KeyError("id"));
      }
      recoveries := recoveries[token := Recovery(u["id"], now + TokenLifetime)];
      saves := saves + 1;
      r := Done((token, Question(u)));
    }

    /**
      `concluir_recuperacao(token, resposta, nova_senha)`, with the salt `_hash_senha` drew.
      An expired token is deleted and saved; a missing owner or a wrong answer keeps it.
     */
    method ConcludeRecovery(token: string, answer: string, newPassword: string, newSalt: Salt, now: int)
      returns (r: Outcome<()>)
      modifies this
      ensures (State(), r) == ConcludeRecoveryStep(hash, old(State()), token, answer, newPassword, newSalt, now)
      ensures saves == old(saves) + (if r.Done? || r == Fail(ExpiredToken) then 1 else 0)
    {
      if token !in recoveries {
        return Fail(InvalidToken);
      }
      var rec := recoveries[token];
      if rec.expiresAt < now {
        recoveries := recoveries - {token};
        saves := saves + 1;
        return Fail(ExpiredToken);
      }
      var i := 0;
      var found := false;
      while i < |users| && !found
        invariant 0 <= i <= |users|
        invariant forall j :: 0 <= j < i ==> Get(users[j], "id") != rec.userId
        invariant found ==> i < |users| && Get(users[i], "id") == rec.userId
        decreases |users| - i, if found then 0 else 1
      {
        if Get(users[i], "id") == rec.userId {
          found := true;
        } else {
          i := i + 1;
        }
      }
      if !found {
        return Fail(UserNotFound);
      }
      FirstIndexAt(users, (u: Record) => Get(u, "id") == rec.userId, i);
      var u := users[i];
      if u == map[] {
        return Fail(UserNotFound);
      }
      var matches := SecretMatches(hash, u, "resposta_salt", "resposta_hash", answer);
      if matches.None? {
        return Raised(TypeError);
      }
      if !matches.value {
        return Fail(WrongAnswer);
      }
      var pw := HashPassword(hash, newPassword, None, newSalt);
      u := u["senha_hash" := JString(pw.0)];
      u := u["senha_salt" := JString(pw.1)];
      users := users[i := u];
      recoveries := recoveries - {token};
      saves := saves + 1;
      r := Done(());
    }
  }

  // ---------------------------------------------------------------------------------------
  // Properties across operations

  /**
    Login against a record whose salt and digest are known: the password that produced the
    digest gets the public copy, and one whose digest differs is refused.
   */
  lemma LoginWithKnownSecret(h: Hasher, users: seq<Record>, login: string, i: nat, salt: string,
                             digest: Digest, password: string)
    requires LoginIndex(users, login) == Some(i)
    requires IsActive(users[i])
    requires TextOr(users[i], "senha_salt") == Some(salt) && TextOr(users[i], "senha_hash") == Some(digest)
    ensures digest == HashText(h, password, salt) ==>
              LoginOutcome(h, users, login, password) == Done(Utils.WithoutSensitive(users[i], SecretKeys))
    ensures digest != HashText(h, password, salt) ==> LoginOutcome(h, users, login, password) == Fail(WrongPassword)
  {
    DigestIsAscii(digest);
  }

  /** The facts about a freshly built record that login depends on. */
  lemma NewUserFacts(h: Hasher, username: string, name: string, email: string, password: string,
                     question: string, answer: string, f: Fresh)
    ensures var u := NewUser(h, username, name, email, password, question, answer, f);
            && MatchesLogin(u, username)
            && IsActive(u)
            && TextOr(u, "senha_salt") == Some(f.passwordSalt)
            && TextOr(u, "senha_hash") == Some(HashText(h, password, f.passwordSalt))
  {
  }

  /**
    After registering, the same username and password log in, and a password whose digest
    under the new salt differs is refused. The hypothesis is needed: the uniqueness check
    never compares the new username with existing e-mails (see UsernameShadowedByEmail).
   */
  lemma RegisteredUserCanLogIn(h: Hasher, d: Directory, username: string, name: string, email: string,
                               password: string, question: string, answer: string, f: Fresh, other: string)
    requires RegisterStep(h, d, username, name, email, password, question, answer, f).1.Done?
    requires forall i :: 0 <= i < |d.users| ==> Get(d.users[i], "email") != JString(username)
    ensures var users := RegisterStep(h, d, username, name, email, password, question, answer, f).0.users;
            && LoginOutcome(h, users, username, password)
               == Done(Utils.WithoutSensitive(NewUser(h, username, name, email, password, question, answer, f), SecretKeys))
            && (HashText(h, other, f.passwordSalt) != HashText(h, password, f.passwordSalt) ==>
                LoginOutcome(h, users, username, other) == Fail(WrongPassword))
  {
    var users := RegisterStep(h, d, username, name, email, password, question, answer, f).0.users;
    var created := NewUser(h, username, name, email, password, question, answer, f);
    var n := |d.users|;
    assert users[n] == created;
    assert forall j :: 0 <= j < n ==> users[j] == d.users[j] && !Conflicts(d.users[j], username, email);
    NewUserFacts(h, username, name, email, password, question, answer, f);
    FirstIndexAt(users, (u: Record) => MatchesLogin(u, username), n);
    var digest := HashText(h, password, f.passwordSalt);
    LoginWithKnownSecret(h, users, username, n, f.passwordSalt, digest, password);
    LoginWithKnownSecret(h, users, username, n, f.passwordSalt, digest, other);
  }

  /**
    A new username may equal an older record's e-mail: registration succeeds, and logging in
    with that username then reaches the older record and fails.
   */
  lemma UsernameShadowedByEmail(h: Hasher, f: Fresh)
    ensures var d := Directory([map["username" := JString("ana"), "email" := JString("bob")]], map[]);
            var registered := RegisterStep(h, d, "bob", "Bob", "bob@example.com", "segredo1", "", "", f);
            && registered.1 == Done(())
            && LoginOutcome(h, registered.0.users, "bob", "segredo1") == Fail(WrongPassword)
  {
    var older: Record := map["username" := JString("ana"), "email" := JString("bob")];
    var d := Directory([older], map[]);
    assert !Conflicts(older, "bob", "bob@example.com");
    assert ConflictIndex(d.users, "bob", "bob@example.com") == None;
    var registered := RegisterStep(h, d, "bob", "Bob", "bob@example.com", "segredo1", "", "", f);
    var newUser := NewUser(h, "bob", "Bob", "bob@example.com", "segredo1", "", "", f);
    assert registered.0.users == d.users + [newUser];
    assert registered.0.users[0] == older;
    FirstIndexAt(registered.0.users, (u: Record) => MatchesLogin(u, "bob"), 0);
    assert ConstEq(HashText(h, "segredo1", ""), "") == Some(false);
  }

  /**
    After a successful recovery, the owner logs in with the new password and no longer with
    any password whose digest under the new salt differs, such as the old one.
   */
  lemma RecoveryResetsPassword(h: Hasher, d: Directory, token: string, answer: string, newPassword: string,
                               newSalt: Salt, now: int, login: string, other: string)
    requires ConcludeRecoveryStep(h, d, token, answer, newPassword, newSalt, now).1.Done?
    requires token in d.recoveries
    requires LoginIndex(d.users, login) == OwnerIndex(d.users, d.recoveries[token].userId)
    requires LoginIndex(d.users, login).Some? && IsActive(d.users[LoginIndex(d.users, login).value])
    ensures var after := ConcludeRecoveryStep(h, d, token, answer, newPassword, newSalt, now).0;
            && LoginOutcome(h, after.users, login, newPassword).Done?
            && (HashText(h, other, newSalt) != HashText(h, newPassword, newSalt) ==>
                LoginOutcome(h, after.users, login, other) == Fail(WrongPassword))
  {
    var after := ConcludeRecoveryStep(h, d, token, answer, newPassword, newSalt, now).0;
    var i := LoginIndex(d.users, login).value;
    assert PasswordReplaced(h, d.users, after.users, i, newPassword, newSalt);
    assert Get(after.users[i], "username") == Get(d.users[i], "username");
    assert Get(after.users[i], "email") == Get(d.users[i], "email");
    assert GetOr(after.users[i], "ativo", JBool(true)) == GetOr(d.users[i], "ativo", JBool(true));
    assert forall j :: 0 <= j < i ==> after.users[j] == d.users[j];
    FirstIndexAt(after.users, (u: Record) => MatchesLogin(u, login), i);
    var digest := HashText(h, newPassword, newSalt);
    LoginWithKnownSecret(h, after.users, login, i, newSalt, digest, newPassword);
    LoginWithKnownSecret(h, after.users, login, i, newSalt, digest, other);
  }

  /** A token that was consumed, or purged as expired, is unknown on the next attempt. */
  lemma TokenSingleUse(h: Hasher, d: Directory, token: string, answer: string, newPassword: string, newSalt: Salt,
                       now: int, answer2: string, newPassword2: string, newSalt2: Salt, now2: int)
    requires var res := ConcludeRecoveryStep(h, d, token, answer, newPassword, newSalt, now);
             res.1.Done? || res.1 == Fail(ExpiredToken)
    ensures var after := ConcludeRecoveryStep(h, d, token, answer, newPassword, newSalt, now).0;
            ConcludeRecoveryStep(h, after, token, answer2, newPassword2, newSalt2, now2) == (after, Fail(InvalidToken))
  {
  }

  /**
    A wrong answer, or an owner that is gone, leaves the token in place: the document is as it
    was, and a later attempt is not turned away as an unknown token.
   */
  lemma FailedAnswerKeepsToken(h: Hasher, d: Directory, token: string, answer: string, newPassword: string,
                               newSalt: Salt, now: int, answer2: string, newPassword2: string, newSalt2: Salt,
                               now2: int)
    requires var res := ConcludeRecoveryStep(h, d, token, answer, newPassword, newSalt, now);
             res.1 == Fail(WrongAnswer) || res.1 == Fail(UserNotFound)
    ensures var after := ConcludeRecoveryStep(h, d, token, answer, newPassword, newSalt, now).0;
            && after == d && token in after.recoveries
            && ConcludeRecoveryStep(h, after, token, answer2, newPassword2, newSalt2, now2).1 != Fail(InvalidToken)
  {
  }

  /**
    A token just issued for a user who is the first record with its id, answered correctly
    within its lifetime, resets the password.
   */
  lemma RecoveryWithinLifetimeSucceeds(h: Hasher, d: Directory, login: string, token: string, start: int,
                                       answer: string, newPassword: string, newSalt: Salt, now: int)
    requires BeginRecoveryStep(d, login, token, start).1.Done?
    requires OwnerIndex(d.users, UserByLogin(d.users, login).value["id"]) == LoginIndex(d.users, login)
    requires var u := UserByLogin(d.users, login).value;
             TextOr(u, "resposta_salt").Some?
             && TextOr(u, "resposta_hash") == Some(HashText(h, answer, TextOr(u, "resposta_salt").value))
    requires now <= start + TokenLifetime
    ensures var issued := BeginRecoveryStep(d, login, token, start).0;
            ConcludeRecoveryStep(h, issued, token, answer, newPassword, newSalt, now).1 == Done(())
  {
    var u := UserByLogin(d.users, login).value;
    var i := LoginIndex(d.users, login).value;
    assert d.users[i] == u;
    assert MatchesLogin(u, login);
    assert u != map[];
    DigestIsAscii(HashText(h, answer, TextOr(u, "resposta_salt").value));
  }
}
