/** usersController.js: registration, login, profile update and the
    `/users/me` lookup. bcrypt, jsonwebtoken and Cloudinary are parameters:
    the hash, token and upload outcomes they produce. */
module Users {
  import opened Tables
  import opened Text

  // ---------------------------------------------------------------------------
  // The e-mail pattern /^[^\s@]+@[^\s@]+\.[^\s@]+$/

  /** A character `[^\s@]` matches. */
  predicate Plain(c: char) { !IsSpace(c) && c != '@' }

  predicate AllPlain(s: string) { forall i :: 0 <= i < |s| ==> Plain(s[i]) }

  /** The pattern read literally: a non-empty plain run, `@`, a non-empty
      plain run, `.`, a non-empty plain run, and nothing else. */
  ghost predicate MatchesEmailPattern(s: string) {
    exists a, d :: 0 < a && a + 1 < d < |s| - 1 && s[a] == '@' && s[d] == '.'
                   && AllPlain(s[..a]) && AllPlain(s[a + 1..d]) && AllPlain(s[d + 1..])
  }

  /** The position of the first occurrence of `c`. */
  function IndexOf(s: string, c: char): (r: Option<nat>)
    ensures r.None? <==> c !in s
    ensures r.Some? ==> r.value < |s| && s[r.value] == c && c !in s[..r.value]
  {
    if s == [] then None
    else if s[0] == c then Some(0)
    else match IndexOf(s[1..], c)
      case None => None
      case Some(k) =>
        assert s[..k + 1] == [s[0]] + s[1..][..k];
        Some(k + 1)
  }

  /** Some `.` lies strictly between positions `lo` and `hi`. */
  predicate DotBetween(s: string, lo: int, hi: int) {
    exists d :: lo < d < hi && 0 <= d < |s| && s[d] == '.'
  }

  /** `emailRegex.test(email)`, as a scan: no whitespace, exactly one `@`,
      not first, and a `.` with at least one character on each side between
      the `@` and the end. */
  predicate ValidEmail(s: string) {
    && (forall i :: 0 <= i < |s| ==> !IsSpace(s[i]))
    && match IndexOf(s, '@')
       case None => false
       case Some(a) => 0 < a && '@' !in s[a + 1..] && DotBetween(s, a + 1, |s| - 1)
  }

  /** The scan accepts exactly the strings the pattern matches. */
  lemma ValidEmailMeansPattern(s: string)
    ensures ValidEmail(s) <==> MatchesEmailPattern(s)
  {
    if ValidEmail(s) {
      ScanMatchesPattern(s);
    }
    if MatchesEmailPattern(s) {
      PatternPassesScan(s);
    }
  }

  lemma ScanMatchesPattern(s: string)
    requires ValidEmail(s)
    ensures MatchesEmailPattern(s)
  {
    var a := IndexOf(s, '@').value;
    var d :| a + 1 < d < |s| - 1 && 0 <= d < |s| && s[d] == '.';
    assert AllPlain(s[..a]) by {
      forall i | 0 <= i < a ensures Plain(s[..a][i]) { assert s[..a][i] in s[..a]; }
    }
    var tail := s[a + 1..];
    var domain := s[a + 1..d];
    forall i | 0 <= i < |domain| ensures Plain(domain[i]) {
      assert domain[i] == tail[i];
    }
    var top := s[d + 1..];
    forall i | 0 <= i < |top| ensures Plain(top[i]) {
      assert top[i] == tail[d - a + i];
    }
  }

  lemma PatternPassesScan(s: string)
    requires MatchesEmailPattern(s)
    ensures ValidEmail(s)
  {
    var a, d :| 0 < a && a + 1 < d < |s| - 1 && s[a] == '@' && s[d] == '.'
                && AllPlain(s[..a]) && AllPlain(s[a + 1..d]) && AllPlain(s[d + 1..]);
    forall i | 0 <= i < |s| ensures !IsSpace(s[i]) && (i != a ==> s[i] != '@') {
      if i < a { assert s[i] == s[..a][i]; }
      else if a < i < d { assert s[i] == s[a + 1..d][i - a - 1]; }
      else if d < i { assert s[i] == s[d + 1..][i - d - 1]; }
    }
    assert '@' !in s[..a];
    assert IndexOf(s, '@') == Some(a);
    var tail := s[a + 1..];
    forall i | 0 <= i < |tail| ensures tail[i] != '@' {
      assert tail[i] == s[a + 1 + i];
    }
  }

  // ---------------------------------------------------------------------------
  // createUser

  /** The row matches `WHERE email = ? OR username = ?`. */
  predicate Clashes(u: User, email: string, username: string) {
    u.email == email || u.username == username
  }

  const EmailTaken: string := "El email ya está registrado"
  const UsernameTaken: string := "El nombre de usuario ya está en uso"

  /** `SELECT * FROM users WHERE <column> = ?`: the position of the first
      row whose `field` holds `value`. */
  function FindBy(users: seq<User>, field: User -> string, value: string): (r: Option<nat>)
    ensures r.None? <==> forall k :: 0 <= k < |users| ==> field(users[k]) != value
    ensures r.Some? ==> r.value < |users| && field(users[r.value]) == value
  {
    if users == [] then None
    else if field(users[0]) == value then Some(0)
    else match FindBy(users[1..], field, value)
      case None => None
      case Some(k) => Some(k + 1)
  }

  /** The first row with that username. */
  function FindByUsername(users: seq<User>, username: string): (r: Option<nat>)
    ensures r.None? <==> forall k :: 0 <= k < |users| ==> users[k].username != username
    ensures r.Some? ==> r.value < |users| && users[r.value].username == username
  {
    FindBy(users, (u: User) => u.username, username)
  }

  /** The row `db.get` returns for the conflict query. SQL fixes no row order;
      this is the plan SQLite takes for an OR of equalities on two UNIQUE
      columns, one index lookup per term in the order written: a row with the
      e-mail comes before a row with only the username. */
  function ConflictRow(users: seq<User>, email: string, username: string): (r: Option<nat>)
    ensures r.None? <==> forall k :: 0 <= k < |users| ==> !Clashes(users[k], email, username)
    ensures r.Some? ==> r.value < |users| && Clashes(users[r.value], email, username)
    ensures (exists k :: 0 <= k < |users| && users[k].email == email) ==> r.Some? && users[r.value].email == email
  {
    match FindByEmail(users, email)
    case Some(k) => Some(k)
    case None => FindByUsername(users, username)
  }

  /** The 409 for the returned row: its e-mail is checked before its
      username. */
  function ClashReply<T>(u: User, email: string): Reply<T> {
    if u.email == email then Err(409, EmailTaken) else Err(409, UsernameTaken)
  }

  /** Registration is refused exactly when the e-mail or the username is
      taken. The refusal names the e-mail exactly when some row holds it, and
      the username exactly when no row holds the e-mail but one holds the
      username. */
  lemma ClashRepliesAreTruthful(users: seq<User>, email: string, username: string)
    ensures ConflictRow(users, email, username).None? <==>
      (forall k :: 0 <= k < |users| ==> users[k].email != email && users[k].username != username)
    ensures ConflictRow(users, email, username).Some? ==>
      (ClashReply<int>(users[ConflictRow(users, email, username).value], email) == Err(409, EmailTaken) <==>
       exists k :: 0 <= k < |users| && users[k].email == email)
    ensures ConflictRow(users, email, username).Some? ==>
      (ClashReply<int>(users[ConflictRow(users, email, username).value], email) == Err(409, UsernameTaken) <==>
       (forall k :: 0 <= k < |users| ==> users[k].email != email)
       && exists k :: 0 <= k < |users| && users[k].username == username)
  {
    assert EmailTaken != UsernameTaken by {
      assert |EmailTaken| != |UsernameTaken|;
    }
    var r := ConflictRow(users, email, username);
    if r.Some? && users[r.value].email != email {
      assert users[r.value].username == username;
    }
  }

  /** An e-mail held by a later row still takes precedence over a username
      held by an earlier one. */
  lemma EmailClashTakesPrecedence()
    ensures var users := [User("ana", "ana@x.com", "h", None, None, None, Client),
                          User("bob", "bob@x.com", "h", None, None, None, Client)];
      && users[0].username == "ana"
      && ConflictRow(users, "bob@x.com", "ana") == Some(1)
      && ClashReply<int>(users[1], "bob@x.com") == Err(409, EmailTaken)
  {
    var users := [User("ana", "ana@x.com", "h", None, None, None, Client),
                  User("bob", "bob@x.com", "h", None, None, None, Client)];
    assert users[0].email != "bob@x.com";
    assert users[1..][0].email == "bob@x.com";
  }

  /** Appending an account whose username and e-mail nobody holds keeps them
      unique. */
  lemma NewAccountKeepsUnique(users: seq<User>, u: User)
    requires UniqueAccounts(users)
    requires ConflictRow(users, u.email, u.username).None?
    ensures UniqueAccounts(users + [u])
  {
    var all := users + [u];
    forall i, j | 0 <= i < j < |all|
      ensures all[i].username != all[j].username && all[i].email != all[j].email
    {
      if j == |users| {
        assert !Clashes(users[i], u.email, u.username);
      }
    }
  }

  datatype Account = Account(id: int, username: string, email: string)

  /** `createUser`. `hashed` is what `bcrypt.hash(password, 10)` produces. */
  method CreateUser(db: Store, username: Option<string>, email: Option<string>, password: Option<string>,
                    hashed: string) returns (r: Reply<Account>)
    requires db.Valid()
    modifies db`users
    ensures db.Valid()
    ensures !(Present(username) && Present(email) && Present(password)) ==>
      r == Err(400, "Todos los campos son obligatorios") && db.users == old(db.users)
    ensures Present(username) && Present(email) && Present(password) && !ValidEmail(email.value) ==>
      r == Err(400, "Formato de email inválido") && db.users == old(db.users)
    ensures Present(username) && Present(email) && Present(password) && ValidEmail(email.value) ==>
      var clash := ConflictRow(old(db.users), email.value, username.value);
      if clash.Some? then
        r == ClashReply(old(db.users)[clash.value], email.value) && db.users == old(db.users)
      else
        && db.users == old(db.users) + [User(username.value, email.value, hashed, None, None, None, Client)]
        && r == Ok(Account(|db.users|, username.value, email.value))
  {
    if !(Present(username) && Present(email) && Present(password)) {
      return Err(400, "Todos los campos son obligatorios");
    }
    if !ValidEmail(email.value) {
      return Err(400, "Formato de email inválido");
    }
    var clash := ConflictRow(db.users, email.value, username.value);
    if clash.Some? {
      return ClashReply(db.users[clash.value], email.value);
    }
    var u := User(username.value, email.value, hashed, None, None, None, Client);
    NewAccountKeepsUnique(db.users, u);
    db.users := db.users + [u];
    r := Ok(Account(|db.users|, username.value, email.value));
  }

  // ---------------------------------------------------------------------------
  // loginUser

  /** `SELECT * FROM users WHERE email = ?`: the position of the first row. */
  function FindByEmail(users: seq<User>, email: string): (r: Option<nat>)
    ensures r.None? <==> forall k :: 0 <= k < |users| ==> users[k].email != email
    ensures r.Some? ==> r.value < |users| && users[r.value].email == email
  {
    FindBy(users, (u: User) => u.email, email)
  }

  /** With unique e-mails, the row found is the only one with that e-mail. */
  lemma FoundAccountIsTheOnly(users: seq<User>, email: string, k: int)
    requires UniqueAccounts(users)
    requires 0 <= k < |users| && users[k].email == email
    ensures FindByEmail(users, email) == Some(k)
  {
  }

  /** `{ token, user }`, with the row's id. */
  datatype Session = Session(token: string, id: int, user: User)

  /** `loginUser`. `matches(password, hash)` is `bcrypt.compare`, and
      `sign(id, email)` the token `jwt.sign` issues for that payload. The
      result is none when no reply is sent: without a password
      `bcrypt.compare` rejects inside the `db.get` callback, and nothing
      catches it. */
  method LoginUser(db: Store, email: Option<string>, password: Option<string>,
                   matches: (string, string) -> bool, sign: (int, string) -> string) returns (r: Option<Reply<Session>>)
    ensures email.None? || FindByEmail(db.users, email.value).None? ==> r == Some(Err(400, "Usuario no encontrado"))
    ensures email.Some? && FindByEmail(db.users, email.value).Some? ==>
      var k := FindByEmail(db.users, email.value).value;
      var u := db.users[k];
      r == if password.None? then None
           else if !matches(password.value, u.password) then Some(Err(401, "Contraseña incorrecta"))
           else Some(Ok(Session(sign(k + 1, u.email), k + 1, u)))
  {
    if email.None? {
      return Some(Err(400, "Usuario no encontrado"));
    }
    var found := FindByEmail(db.users, email.value);
    if found.None? {
      return Some(Err(400, "Usuario no encontrado"));
    }
    var u := db.users[found.value];
    if password.None? {
      return None;
    }
    if !matches(password.value, u.password) {
      return Some(Err(401, "Contraseña incorrecta"));
    }
    r := Some(Ok(Session(sign(found.value + 1, u.email), found.value + 1, u)));
  }

  // ---------------------------------------------------------------------------
  // updateUser

  /** `oldImage.split("/").pop().split(".")[0]`: the last path segment up to
      its first dot. */
  function PublicId(url: string): (r: string)
    ensures '/' !in r && '.' !in r
  {
    var segments := Split(url, '/');
    var last := segments[|segments| - 1];
    SplitPieces(url, '/');
    SplitPieces(last, '.');
    assert forall j :: 0 <= j < |Split(last, '.')[0]| ==> Split(last, '.')[0][j] in last;
    Split(last, '.')[0]
  }

  /** The public id of a Cloudinary address is its file name without the
      extension. */
  lemma PublicIdOfUrl(prefix: string, name: string, ext: string)
    requires '/' !in name && '.' !in name && '/' !in ext
    ensures PublicId(prefix + "/" + name + "." + ext) == name
  {
    var file := name + "." + ext;
    assert '/' !in file;
    assert prefix + "/" + name + "." + ext == prefix + ['/'] + file;
    SplitAtSep(prefix, file, '/');
    SplitWithoutSep(file, '/');
    SplitAtSep(name, ext, '.');
    SplitWithoutSep(name, '.');
  }

  datatype ProfileReply = ProfileReply(message: string, profileImage: Option<string>)

  /** Some user other than `id` holds the username. */
  predicate TakenByOther(users: seq<User>, username: Option<string>, id: int) {
    username.Some? && exists k :: 0 <= k < |users| && users[k].username == username.value && k + 1 != id
  }

  /** The `UPDATE users SET username, phone, address, profile_image WHERE id`
      on the rows; no row changes for an unknown id. */
  function Updated(users: seq<User>, id: int, username: string, phone: Option<string>,
                   address: Option<string>, image: Option<string>): (r: seq<User>)
    ensures |r| == |users|
    ensures forall k :: 0 <= k < |users| && k != id - 1 ==> r[k] == users[k]
    ensures 1 <= id <= |users| ==>
      r[id - 1] == users[id - 1].(username := username, phone := phone, address := address, profileImage := image)
  {
    if 1 <= id <= |users| then
      users[id - 1 := users[id - 1].(username := username, phone := phone, address := address, profileImage := image)]
    else users
  }

  /** A username no other user holds keeps the usernames unique. */
  lemma UpdateKeepsUnique(users: seq<User>, id: int, username: string, phone: Option<string>,
                          address: Option<string>, image: Option<string>)
    requires UniqueAccounts(users)
    requires !TakenByOther(users, Some(username), id)
    ensures UniqueAccounts(Updated(users, id, username, phone, address, image))
  {
    var r := Updated(users, id, username, phone, address, image);
    forall i, j | 0 <= i < j < |r| ensures r[i].username != r[j].username && r[i].email != r[j].email {
      if i == id - 1 {
        assert users[j].username != username;
      } else if j == id - 1 {
        assert users[i].username != username;
      }
    }
  }

  /** The image the previous profile picture is destroyed under, if any. */
  function Destroyed(users: seq<User>, id: int): Option<string> {
    if 1 <= id <= |users| && Present(users[id - 1].profileImage)
    then Some("profile_pictures/" + PublicId(users[id - 1].profileImage.value))
    else None
  }

  /** `updateUser`. Returns the reply and the public id passed to
      `cloudinary.uploader.destroy`, when the old picture is removed. */
  method UpdateUser(db: Store, id: int, username: Option<string>, phone: Option<string>, address: Option<string>,
                    bodyImage: Option<string>, upload: Upload) returns (r: Reply<ProfileReply>, destroyed: Option<string>)
    requires db.Valid()
    modifies db`users
    ensures db.Valid()
    ensures TakenByOther(old(db.users), username, id) ==>
      r == Err(409, UsernameTaken) && destroyed.None? && db.users == old(db.users)
    ensures !TakenByOther(old(db.users), username, id) && upload.UploadFailed? ==>
      r == ServerFailure() && destroyed.None? && db.users == old(db.users)
    ensures !TakenByOther(old(db.users), username, id) && !upload.UploadFailed? ==>
      var image := if upload.Uploaded? then Some(upload.secureUrl) else bodyImage;
      && destroyed == (if upload.Uploaded? then Destroyed(old(db.users), id) else None)
      && (username.None? && 1 <= id <= |old(db.users)| ==> r == ConstraintViolated() && db.users == old(db.users))
      && (username.None? && !(1 <= id <= |old(db.users)|) ==>
            && db.users == old(db.users)
            && r == Ok(ProfileReply("Usuario actualizado correctamente", image)))
      && (username.Some? ==>
            && db.users == Updated(old(db.users), id, username.value, phone, address, image)
            && r == Ok(ProfileReply("Usuario actualizado correctamente", image)))
  {
    destroyed := None;
    if TakenByOther(db.users, username, id) {
      return Err(409, UsernameTaken), None;
    }
    var image := bodyImage;
    if upload.UploadFailed? {
      return ServerFailure(), None;
    } else if upload.Uploaded? {
      image := Some(upload.secureUrl);
      destroyed := Destroyed(db.users, id);
    }
    if username.None? {
      if 1 <= id <= |db.users| {
        // NOT NULL on `username` fails for the row the UPDATE matches.
        return ConstraintViolated(), destroyed;
      }
      // The UPDATE matches no row, so no constraint is checked.
      return Ok(ProfileReply("Usuario actualizado correctamente", image)), destroyed;
    }
    UpdateKeepsUnique(db.users, id, username.value, phone, address, image);
    db.users := Updated(db.users, id, username.value, phone, address, image);
    r := Ok(ProfileReply("Usuario actualizado correctamente", image));
  }

  // ---------------------------------------------------------------------------
  // getMe

  /** `authHeader.split(" ")[1]` for a header that starts with "Bearer ". */
  function BearerToken(header: string): (r: string)
    requires "Bearer " <= header
    ensures |Split(header, ' ')| >= 2 && r == Split(header, ' ')[1]
  {
    assert header == "Bearer" + [' '] + header[7..];
    SplitAtSep("Bearer", header[7..], ' ');
    SplitWithoutSep("Bearer", ' ');
    Split(header[7..], ' ')[0]
  }

  /** The token a client sends as `Bearer <token>` is the one read back. */
  lemma BearerTokenReadsBack(token: string)
    requires ' ' !in token
    ensures BearerToken("Bearer " + token) == token
  {
    assert ("Bearer " + token)[7..] == token;
    SplitWithoutSep(token, ' ');
  }

  datatype Profile = Profile(id: int, user: User)

  /** `getMe`. `verify(token)` is the payload id `jwt.verify` accepts, or none
      when it throws. */
  method GetMe(db: Store, header: Option<string>, verify: string -> Option<int>) returns (r: Reply<Profile>)
    ensures !(Present(header) && "Bearer " <= header.value) ==> r == Err(401, "No autorizado")
    ensures Present(header) && "Bearer " <= header.value ==>
      var id := verify(BearerToken(header.value));
      r == if id.None? then Err(401, "Token inválido o expirado")
           else if !(1 <= id.value <= |db.users|) then Err(404, "Usuario no encontrado")
           else Ok(Profile(id.value, db.users[id.value - 1]))
  {
    if !(Present(header) && "Bearer " <= header.value) {
      return Err(401, "No autorizado");
    }
    var token := BearerToken(header.value);
    var id := verify(token);
    if id.None? {
      return Err(401, "Token inválido o expirado");
    }
    if !(1 <= id.value <= |db.users|) {
      return Err(404, "Usuario no encontrado");
    }
    r := Ok(Profile(id.value, db.users[id.value - 1]));
  }
}
