/** The registration routes of routes.py: `/signup`, `/users` and
    `/login`. Request bodies are the JSON fields as `Option` values
    (`None` when a key is absent). */
module Registration {
  import opened Common
  import opened Text
  import opened Models
  import opened Database

  datatype SignupRequest = SignupRequest(
    name: Option<string>,
    gender: Option<string>,
    email: Option<string>,
    level: Option<int>,
    password: Option<string>,
    confirmPassword: Option<string>)

  /** The seven reasons `/signup` rejects a request, in the order the
      handler tests them. */
  datatype SignupError =
    | MissingField
    | BadEmail
    | DuplicateEmail
    | ShortPassword
    | BadGender
    | BadLevel
    | PasswordMismatch

  function Rank(e: SignupError): nat
  {
    match e
    case MissingField => 0
    case BadEmail => 1
    case DuplicateEmail => 2
    case ShortPassword => 3
    case BadGender => 4
    case BadLevel => 5
    case PasswordMismatch => 6
  }

  function ErrorMessage(e: SignupError): string
  {
    match e
    case MissingField => "All fields are required"
    case BadEmail => "Invalid email format"
    case DuplicateEmail => "Email already exists"
    case ShortPassword => "Password must be at least 8 characters long"
    case BadGender => "Invalid gender"
    case BadLevel => "Invalid level"
    case PasswordMismatch => "Passwords do not match"
  }

  /** Python truthiness of an optional string: present and non-empty. */
  predicate Truthy(o: Option<string>)
  {
    o.Some? && o.value != []
  }

  /** The string of an optional value; only used where it is present. */
  function Str(o: Option<string>): string
  {
    if o.Some? then o.value else []
  }

  // The email pattern ^[a-zA-Z0-9_.+-]+@[a-zA-Z0-9-]+\.[a-zA-Z0-9-.]+$

  predicate IsAsciiAlnum(c: char)
  {
    ('a' <= c <= 'z') || ('A' <= c <= 'Z') || ('0' <= c <= '9')
  }

  /** `[a-zA-Z0-9_.+-]`, the characters before the `@`. */
  predicate LocalChar(c: char)
  {
    IsAsciiAlnum(c) || c == '_' || c == '.' || c == '+' || c == '-'
  }

  /** `[a-zA-Z0-9-]`, the characters between the `@` and the first dot. */
  predicate HostChar(c: char)
  {
    IsAsciiAlnum(c) || c == '-'
  }

  /** `[a-zA-Z0-9-.]`, the characters after that dot. */
  predicate TldChar(c: char)
  {
    IsAsciiAlnum(c) || c == '-' || c == '.'
  }

  predicate All(s: string, p: char -> bool)
  {
    forall k :: 0 <= k < |s| ==> p(s[k])
  }

  /** `e` is `L@D1.D2` with the `@` at `i` and the dot at `j`. */
  ghost predicate EmailSplit(e: string, i: int, j: int)
  {
    0 < i && i + 1 < j && j + 1 < |e| && e[i] == '@' && e[j] == '.' &&
    All(e[..i], LocalChar) && All(e[i + 1..j], HostChar) && All(e[j + 1..], TldChar)
  }

  /** The language of the pattern without its end anchor. */
  ghost predicate EmailShape(e: string)
  {
    exists i, j :: EmailSplit(e, i, j)
  }

  /** Deciding the pattern: only the first `@` can separate the local
      part, and only the first dot after it can end the host. */
  predicate IsEmail(e: string)
  {
    match FirstIndex(e, (c: char) => c == '@')
    case None => false
    case Some(i) =>
      i > 0 && All(e[..i], LocalChar) &&
      var rest := e[i + 1..];
      match FirstIndex(rest, (c: char) => c == '.')
      case None => false
      case Some(j) => j > 0 && All(rest[..j], HostChar) && j + 1 < |rest| && All(rest[j + 1..], TldChar)
  }

  lemma IsEmailIffShape(e: string)
    ensures IsEmail(e) <==> EmailShape(e)
  {
    if IsEmail(e) {
      IsEmailHasShape(e);
    }
    if EmailShape(e) {
      var i, j :| EmailSplit(e, i, j);
      ShapeIsEmail(e, i, j);
    }
  }

  lemma IsEmailHasShape(e: string)
    requires IsEmail(e)
    ensures EmailShape(e)
  {
    var i := FirstIndex(e, (c: char) => c == '@').value;
    var rest := e[i + 1..];
    var j := FirstIndex(rest, (c: char) => c == '.').value;
    assert e[i + 1..i + 1 + j] == rest[..j];
    assert e[i + 1 + j + 1..] == rest[j + 1..];
    assert EmailSplit(e, i, i + 1 + j);
  }

  /** The first `@` is at `i` and the first dot after it at `j`. */
  lemma ShapeIsEmail(e: string, i: int, j: int)
    requires EmailSplit(e, i, j)
    ensures IsEmail(e)
  {
    assert !LocalChar('@') && !HostChar('.');
    forall k | 0 <= k < i ensures e[k] != '@' {
      assert e[..i][k] == e[k];
    }
    assert FirstIndex(e, (c: char) => c == '@') == Some(i);
    var rest := e[i + 1..];
    forall k | 0 <= k < j - i - 1 ensures rest[k] != '.' {
      assert e[i + 1..j][k] == rest[k];
    }
    assert rest[j - i - 1] == '.';
    assert FirstIndex(rest, (c: char) => c == '.') == Some(j - i - 1);
    assert rest[..j - i - 1] == e[i + 1..j];
    assert rest[j - i..] == e[j + 1..];
  }

  /** `re.match(email_regex, email)`: Python's `$` also matches just
      before a newline that ends the string. */
  predicate EmailMatches(e: string)
  {
    IsEmail(e) || (|e| > 0 && e[|e| - 1] == '\n' && IsEmail(e[..|e| - 1]))
  }

  /** The email check accepts exactly `L@D1.D2`, optionally followed by
      one final newline. */
  lemma EmailMatchesIffShape(e: string)
    ensures EmailMatches(e) <==>
      EmailShape(e) || (|e| > 0 && e[|e| - 1] == '\n' && EmailShape(e[..|e| - 1]))
  {
    IsEmailIffShape(e);
    if |e| > 0 {
      IsEmailIffShape(e[..|e| - 1]);
    }
  }

  /** An address of the usual form is accepted. */
  lemma EmailAccepted(e: string)
    requires e == "omar@gmail.com"
    ensures EmailMatches(e)
  {
    assert EmailSplit(e, 4, 10) by {
      assert e[..4] == "omar" && e[5..10] == "gmail" && e[11..] == "com";
    }
    IsEmailIffShape(e);
  }

  /** Python's `$` lets one final newline through. */
  lemma EmailTrailingNewlineAccepted(e: string)
    requires e == "omar@gmail.com\n"
    ensures EmailMatches(e)
  {
    EmailAccepted(e[..14]);
  }

  /** Without a dot after the `@` the address is refused. */
  lemma EmailWithoutDotRejected(f: string)
    requires f == "omar@gmail"
    ensures !EmailMatches(f)
  {
    IsEmailIffShape(f);
    forall i, j ensures !EmailSplit(f, i, j) {
      if 0 <= j < |f| {
        assert f[j] != '.';
      }
    }
  }

  /** Whether the request fails the check `e`, taken on its own. */
  predicate Violated(users: seq<User>, req: SignupRequest, e: SignupError)
  {
    match e
    case MissingField =>
      !Truthy(req.name) || !Truthy(req.email) || !Truthy(req.password) || !Truthy(req.confirmPassword)
    case BadEmail => !EmailMatches(Str(req.email))
    case DuplicateEmail => exists k :: 0 <= k < |users| && users[k].email == Str(req.email)
    case ShortPassword => |Str(req.password)| < 8
    case BadGender =>
      Truthy(req.gender) && Lower(req.gender.value) != "male" && Lower(req.gender.value) != "female"
    case BadLevel =>
      req.level.Some? && req.level.value != 0 && (req.level.value < 1 || req.level.value > 4)
    case PasswordMismatch => req.password != req.confirmPassword
  }

  /** The validation chain of `/signup`: the first failing check. */
  function SignupCheck(users: seq<User>, req: SignupRequest): Option<SignupError>
  {
    if !Truthy(req.name) || !Truthy(req.email) || !Truthy(req.password) || !Truthy(req.confirmPassword) then
      Some(MissingField)
    else if !EmailMatches(req.email.value) then Some(BadEmail)
    else if UserByEmail(users, req.email.value).Some? then Some(DuplicateEmail)
    else if |req.password.value| < 8 then Some(ShortPassword)
    else if Truthy(req.gender) && Lower(req.gender.value) !in ["male", "female"] then Some(BadGender)
    else if req.level.Some? && req.level.value != 0 && (req.level.value < 1 || req.level.value > 4) then
      Some(BadLevel)
    else if req.password.value != req.confirmPassword.value then Some(PasswordMismatch)
    else None
  }

  /** The chain reports the failing check of lowest rank, and passes
      exactly when no check fails. */
  lemma SignupCheckFirstViolated(users: seq<User>, req: SignupRequest, e: SignupError)
    ensures SignupCheck(users, req) == Some(e) <==>
      Violated(users, req, e) && forall e' :: Rank(e') < Rank(e) ==> !Violated(users, req, e')
    ensures SignupCheck(users, req) == None <==> forall e' :: !Violated(users, req, e')
  {
    forall e' ensures SignupCheck(users, req) == Some(e') ==> Violated(users, req, e') {
      CheckAgrees(users, req, e');
    }
    forall e', e'' | Rank(e'') < Rank(e') && SignupCheck(users, req) == Some(e')
      ensures !Violated(users, req, e'')
    {
      CheckAgrees(users, req, e'');
    }
    if Violated(users, req, e) && forall e' :: Rank(e') < Rank(e) ==> !Violated(users, req, e') {
      CheckAgrees(users, req, e);
      var c := SignupCheck(users, req).value;
      CheckAgrees(users, req, c);
      assert Rank(c) == Rank(e);
      RankInjective(c, e);
    }
    if SignupCheck(users, req).None? {
      forall e' ensures !Violated(users, req, e') {
        CheckAgrees(users, req, e');
      }
    } else {
      CheckAgrees(users, req, SignupCheck(users, req).value);
    }
  }

  lemma RankInjective(e: SignupError, e': SignupError)
    requires Rank(e) == Rank(e')
    ensures e == e'
  {
  }

  /** How one check relates to the chain: a failing check stops the chain
      at it or earlier, and the check the chain reports fails after every
      earlier one passed. */
  lemma CheckAgrees(users: seq<User>, req: SignupRequest, e: SignupError)
    ensures Violated(users, req, e) ==> SignupCheck(users, req).Some? && Rank(SignupCheck(users, req).value) <= Rank(e)
    ensures SignupCheck(users, req) == Some(e) ==> Violated(users, req, e)
    ensures SignupCheck(users, req).Some? && Rank(e) < Rank(SignupCheck(users, req).value) ==> !Violated(users, req, e)
  {
    if Truthy(req.email) {
      var r := UserByEmail(users, req.email.value);
      if r.Some? {
        assert users[r.value].email == Str(req.email);
      }
    }
  }

  /** The user a successful signup stores: the fields as given (the
      gender not lower-cased) and the id the store assigns. */
  function SignedUpUser(req: SignupRequest, id: int): User
  {
    NewUser(Str(req.name), req.gender, Str(req.email), req.level, Str(req.password)).(id := Some(id))
  }

  /** `/signup` with `id` the id the store assigns to a new row. */
  function SignupStep(db: Db, req: SignupRequest, id: int): Step
  {
    match SignupCheck(db.users, req)
    case Some(e) => Step(db, Reply(400, ErrorMessage(e)))
    case None =>
      Step(db.(users := db.users + [SignedUpUser(req, id)]), Reply(201, "User created successfully"))
  }

  /** A rejected signup answers 400 with the message of the first failing
      check and changes nothing; an accepted one adds exactly one user
      holding the request's fields and answers 201. */
  lemma SignupOutcome(db: Db, req: SignupRequest, id: int)
    ensures SignupStep(db, req, id).resp.status == 201 <==> forall e :: !Violated(db.users, req, e)
    ensures SignupStep(db, req, id).resp.status != 201 ==>
      SignupStep(db, req, id).db == db &&
      exists e :: Violated(db.users, req, e) &&
        (forall e' :: Rank(e') < Rank(e) ==> !Violated(db.users, req, e')) &&
        SignupStep(db, req, id).resp == Reply(400, ErrorMessage(e))
    ensures SignupStep(db, req, id).resp.status == 201 ==>
      SignupStep(db, req, id) ==
        Step(db.(users := db.users + [User(Some(id), req.name.value, req.gender, req.email.value,
                                           req.level, req.password.value)]),
             Reply(201, "User created successfully"))
  {
    match SignupCheck(db.users, req)
    case Some(e) =>
      SignupCheckFirstViolated(db.users, req, e);
    case None =>
      SignupCheckFirstViolated(db.users, req, MissingField);
  }

  /** A successful signup keeps the store valid, given an id that no user
      has. */
  lemma SignupPreservesValid(db: Db, req: SignupRequest, id: int)
    requires ValidDb(db)
    requires !HasUser(db.users, id)
    ensures ValidDb(SignupStep(db, req, id).db)
  {
    if SignupCheck(db.users, req).None? {
      var users := db.users + [SignedUpUser(req, id)];
      var db' := db.(users := users);
      forall k | 0 <= k < |db.favorites|
        ensures HasUser(users, db.favorites[k].userId)
      {
        var j :| 0 <= j < |db.users| && db.users[j].id == Some(db.favorites[k].userId);
        assert users[j] == db.users[j];
      }
      assert FavoritesValid(db');
    }
  }

  /** The signup in the curl example of app.py: level 5 is rejected. */
  lemma CurlSignupRejected(email: string, gender: string)
    requires email == "omar@gmail.com" && gender == "male"
    ensures SignupCheck([], CurlRequest(email, gender, 5)) == Some(BadLevel)
  {
    CurlRequestPassesEarlyChecks(email, gender, 5);
    LowerMale(gender);
  }

  /** Gender is matched case-insensitively but stored as given; a zero
      level passes. */
  lemma SignupGenderAndLevel(email: string, gender: string)
    requires email == "omar@gmail.com" && gender == "MALE"
    ensures SignupCheck([], CurlRequest(email, gender, 0)) == None
    ensures SignedUpUser(CurlRequest(email, gender, 0), 1).gender == Some(gender)
    ensures SignedUpUser(CurlRequest(email, gender, 0), 1).level == Some(0)
  {
    CurlRequestPassesEarlyChecks(email, gender, 0);
    LowerMale(gender);
  }

  lemma LowerMale(gender: string)
    requires gender == "male" || gender == "MALE"
    ensures Lower(gender) == "male"
  {
    var lowered := "male";
    forall k | 0 <= k < |gender| ensures LowerChar(gender[k]) == lowered[k] {
    }
    LowerWord(gender, lowered);
  }

  /** The request of the curl example, with the email, the gender and
      the level as parameters. */
  function CurlRequest(email: string, gender: string, level: int): SignupRequest
  {
    SignupRequest(Some("Omar"), Some(gender), Some(email), Some(level),
                  Some("securepassword123"), Some("securepassword123"))
  }

  lemma CurlRequestPassesEarlyChecks(email: string, gender: string, level: int)
    requires email == "omar@gmail.com"
    ensures var req := CurlRequest(email, gender, level);
      Truthy(req.name) && Truthy(req.email) && Truthy(req.password) && Truthy(req.confirmPassword) &&
      EmailMatches(req.email.value) && UserByEmail([], req.email.value).None? &&
      |req.password.value| >= 8 && req.password == req.confirmPassword
  {
    EmailAccepted(email);
  }

  /** `/users`: every user's snapshot, none of them with a password. */
  function GetUsers(users: seq<User>): (r: Response)
    ensures r.status == 200 && r.body.Some? && r.body.value.JArr?
    ensures |r.body.value.items| == |users|
    ensures forall k :: 0 <= k < |users| ==>
      r.body.value.items[k] == JObj(UserToDict(users[k])) && "password" !in r.body.value.items[k].fields
  {
    Response(200, Some(JArr(UserDicts(users))))
  }

  function UserDicts(users: seq<User>): (js: seq<Json>)
    ensures |js| == |users|
    ensures forall k :: 0 <= k < |users| ==> js[k] == JObj(UserToDict(users[k]))
  {
    if users == [] then [] else [JObj(UserToDict(users[0]))] + UserDicts(users[1..])
  }

  /** User `k` is the first in store order whose email is `email`. */
  ghost predicate FirstWithEmail(users: seq<User>, k: int, email: string)
  {
    0 <= k < |users| && users[k].email == email &&
    forall j :: 0 <= j < k ==> users[j].email != email
  }

  /** `/login`: 400 without both fields; 200 with the user's name exactly
      when the first user with that email has that password; otherwise
      the same 401 whether the email is unknown or the password wrong. */
  function Login(users: seq<User>, email: Option<string>, password: Option<string>): (r: Response)
    ensures r.status == 400 <==> !Truthy(email) || !Truthy(password)
    ensures r.status == 400 ==> r == Reply(400, "Email and password are required")
    ensures r.status == 200 <==>
      Truthy(email) && Truthy(password) &&
      exists k :: FirstWithEmail(users, k, email.value) && users[k].password == password.value
    ensures r.status == 200 ==> exists k :: FirstWithEmail(users, k, email.value) && r == Response(200, Some(JObj(map["message" := JStr("Login successful"), "name" := JStr(users[k].name)])))
    ensures r.status != 400 && r.status != 200 ==> r == Reply(401, "Invalid email or password")
  {
    if !Truthy(email) || !Truthy(password) then
      Reply(400, "Email and password are required")
    else
      match UserByEmail(users, email.value)
      case Some(k) =>
        if users[k].password == password.value then
          Response(200, Some(JObj(map["message" := JStr("Login successful"), "name" := JStr(users[k].name)])))
        else Reply(401, "Invalid email or password")
      case None => Reply(401, "Invalid email or password")
  }

  /** A user who has just signed up can log in with the email and the
      password given, and with no other password. */
  lemma LoginAfterSignup(db: Db, req: SignupRequest, id: int, other: string)
    requires SignupStep(db, req, id).resp.status == 201
    ensures Login(SignupStep(db, req, id).db.users, req.email, req.password) ==
      Response(200, Some(JObj(map["message" := JStr("Login successful"), "name" := JStr(req.name.value)])))
    ensures other != [] && other != req.password.value ==>
      Login(SignupStep(db, req, id).db.users, req.email, Some(other)) == Reply(401, "Invalid email or password")
  {
    SignupOutcome(db, req, id);
    assert !Violated(db.users, req, DuplicateEmail);
    var users := SignupStep(db, req, id).db.users;
    assert users == db.users + [SignedUpUser(req, id)];
    UserByEmailSnoc(db.users, SignedUpUser(req, id));
  }

  /** Signing up a second time with the same request is refused as a
      duplicate email, and the store keeps the one user. */
  lemma SecondSignupRejected(db: Db, req: SignupRequest, id: int, id': int)
    requires SignupStep(db, req, id).resp.status == 201
    ensures var db' := SignupStep(db, req, id).db;
      SignupStep(db', req, id') == Step(db', Reply(400, "Email already exists"))
  {
    SignupOutcome(db, req, id);
    var users := SignupStep(db, req, id).db.users;
    assert users[|db.users|] == SignedUpUser(req, id);
    assert Violated(users, req, DuplicateEmail);
    assert !Violated(db.users, req, MissingField) && !Violated(db.users, req, BadEmail);
    forall e' | Rank(e') < Rank(DuplicateEmail) ensures !Violated(users, req, e') {
    }
    SignupCheckFirstViolated(users, req, DuplicateEmail);
  }
}
