/** The user store of util/UserUtil.java: the users file, one comma-joined line
    `username,password,email,phone` per user and no header, read in full by every
    operation; and the input checks run before a user is rewritten. */
module Users {
  import opened Wrappers
  import opened Strings
  import opened Slices
  import opened UserModel

  // ---------------------------------------------------------------- one line

  function UserFields(u: UserRecord): seq<string> {
    [u.username, u.password, u.email, u.phone]
  }

  /** The line every writer of the users file emits for a user. */
  function UserLine(u: UserRecord): string {
    Join(UserFields(u))
  }

  /** The user on one line, when the line splits into exactly four fields; any other line
      is skipped by the reader. */
  function ParseUserLine(line: string): Option<UserRecord> {
    var values := Split(line);
    if |values| == 4 then Some(UserRecord(values[0], values[1], values[2], values[3])) else None
  }

  /** A user whose line reads back as itself: no field holds a comma and the phone, the
      last field, is not empty. */
  predicate Storable(u: UserRecord) {
    && NoComma(u.username) && NoComma(u.password) && NoComma(u.email) && NoComma(u.phone)
    && u.phone != ""
  }

  lemma UserLineRoundTrip(u: UserRecord)
    requires Storable(u)
    ensures ParseUserLine(UserLine(u)) == Some(u)
  {
    SplitJoin(UserFields(u));
  }

  /** A user stored with an empty phone has a line of three fields after `split`, and the
      reader drops it without a word. */
  lemma EmptyPhoneIsDropped(u: UserRecord)
    requires NoComma(u.username) && NoComma(u.password) && NoComma(u.email)
    requires u.email != "" && u.phone == ""
    ensures ParseUserLine(UserLine(u)) == None
  {
    SplitJoinEmptyLast(UserFields(u));
  }

  /** Everything the reader returns can be written back unchanged. */
  lemma ParsedUserIsStorable(line: string)
    requires ParseUserLine(line).Some?
    ensures Storable(ParseUserLine(line).value)
  {
  }

  // ---------------------------------------------------------------- the file

  /** What one line contributes to the list of users. */
  function Kept(line: string): seq<UserRecord> {
    match ParseUserLine(line)
    case Some(u) => [u]
    case None => []
  }

  /** `readUsersFromTxt`: the users of the lines with four fields, in file order. Every
      user read is storable. */
  function ReadUsers(lines: seq<string>): (r: seq<UserRecord>)
    ensures |r| <= |lines|
    ensures forall i :: 0 <= i < |r| ==> Storable(r[i])
  {
    if lines == [] then []
    else
      var last := lines[|lines| - 1];
      if ParseUserLine(last).Some? then ParsedUserIsStorable(last); ReadUsers(lines[..|lines| - 1]) + Kept(last)
      else ReadUsers(lines[..|lines| - 1]) + Kept(last)
  }

  /** The lines `updateUserPassword` and `deleteUserByUsername` write: one per user, in
      order, with no header. */
  function UsersLines(rs: seq<UserRecord>): (r: seq<string>)
    ensures |r| == |rs|
    ensures forall i :: 0 <= i < |rs| ==> r[i] == UserLine(rs[i])
  {
    seq(|rs|, i requires 0 <= i < |rs| => UserLine(rs[i]))
  }

  /** A rewritten file of storable users reads back as exactly those users. */
  lemma {:induction false} ReadWrittenUsers(rs: seq<UserRecord>)
    requires forall i :: 0 <= i < |rs| ==> Storable(rs[i])
    ensures ReadUsers(UsersLines(rs)) == rs
  {
    if rs != [] {
      var n := |rs|;
      ReadWrittenUsers(rs[..n - 1]);
      assert UsersLines(rs)[..n - 1] == UsersLines(rs[..n - 1]);
      UserLineRoundTrip(rs[n - 1]);
      SplitLast(rs);
    }
  }

  /** A line appended by `addUserToTxt` is read as one more user at the end, when the
      user is storable. */
  lemma AppendedUserIsRead(lines: seq<string>, u: UserRecord)
    requires Storable(u)
    ensures ReadUsers(lines + [UserLine(u)]) == ReadUsers(lines) + [u]
  {
    assert (lines + [UserLine(u)])[..|lines|] == lines;
    UserLineRoundTrip(u);
  }

  // ---------------------------------------------------------------- lookups

  /** Index of the first user named `username`. */
  function FindUser(rs: seq<UserRecord>, username: string): (r: Option<nat>)
    ensures r.None? <==> forall i :: 0 <= i < |rs| ==> rs[i].username != username
    ensures r.Some? ==> r.value < |rs| && rs[r.value].username == username
    ensures r.Some? ==> forall j :: 0 <= j < r.value ==> rs[j].username != username
  {
    if rs == [] then None
    else if rs[0].username == username then Some(0)
    else match FindUser(rs[1..], username)
      case None => None
      case Some(k) => Some(k + 1)
  }

  /** Some user has both this name and this password. */
  predicate HasLogin(rs: seq<UserRecord>, username: string, password: string) {
    exists i :: 0 <= i < |rs| && rs[i].username == username && rs[i].password == password
  }

  // ---------------------------------------------------------------- rewrites

  /** Every user with the given user's name replaced by the given user. */
  function ReplaceUser(rs: seq<UserRecord>, u: UserRecord): (r: seq<UserRecord>)
    ensures |r| == |rs|
    ensures forall i :: 0 <= i < |rs| ==> r[i] == (if rs[i].username == u.username then u else rs[i])
  {
    seq(|rs|, i requires 0 <= i < |rs| => if rs[i].username == u.username then u else rs[i])
  }

  /** The users not named `username`, in order: exactly the users with another name
      remain. */
  function RemoveUser(rs: seq<UserRecord>, username: string): (r: seq<UserRecord>)
    ensures |r| <= |rs|
    ensures forall x {:trigger x in r} :: x in r <==> x in rs && x.username != username
  {
    if rs == [] then []
    else
      var last := rs[|rs| - 1];
      SplitLast(rs);
      RemoveUser(rs[..|rs| - 1], username) + (if last.username != username then [last] else [])
  }

  /** After an update, the user logs in with the new password exactly when a user of that
      name was stored; the record count and order are those of before. */
  lemma UpdatedPasswordLogsIn(lines: seq<string>, u: UserRecord)
    requires Storable(u)
    ensures var after := ReadUsers(UsersLines(ReplaceUser(ReadUsers(lines), u)));
      && after == ReplaceUser(ReadUsers(lines), u)
      && (HasLogin(after, u.username, u.password) <==> FindUser(ReadUsers(lines), u.username).Some?)
  {
    var rs := ReadUsers(lines);
    ReadWrittenUsers(ReplaceUser(rs, u));
    var after := ReplaceUser(rs, u);
    if FindUser(rs, u.username).Some? {
      var k := FindUser(rs, u.username).value;
      assert after[k] == u;
    }
  }

  /** After a delete, no user of that name is read back, and every other user is. */
  lemma DeletedUserIsGone(lines: seq<string>, username: string)
    ensures var after := ReadUsers(UsersLines(RemoveUser(ReadUsers(lines), username)));
      && after == RemoveUser(ReadUsers(lines), username)
      && FindUser(after, username).None?
      && forall x :: x in ReadUsers(lines) && x.username != username ==> x in after
  {
    var rs := ReadUsers(lines);
    var kept := RemoveUser(rs, username);
    forall i | 0 <= i < |kept|
      ensures Storable(kept[i]) && kept[i].username != username
    {
      assert kept[i] in kept;
      assert kept[i] in rs;
    }
    ReadWrittenUsers(kept);
    assert FindUser(kept, username).None?;
  }

  // ---------------------------------------------------------------- input checks

  /** The first check of `validateUserInput` that fails. */
  datatype UserInputError = BadUsername | BadPassword | BadEmail | BadPhone

  predicate IsLetter(c: char) {
    'a' <= c <= 'z' || 'A' <= c <= 'Z'
  }

  /** `[a-zA-Z0-9_+&*-]`, the characters of the part before `@`. */
  predicate IsLocalChar(c: char) {
    IsLetter(c) || IsDigit(c) || c == '_' || c == '+' || c == '&' || c == '*' || c == '-'
  }

  /** `[a-zA-Z0-9-]`, the characters of a domain label. */
  predicate IsLabelChar(c: char) {
    IsLetter(c) || IsDigit(c) || c == '-'
  }

  /** Non-empty runs separated by single dots: no dot first, last, or twice in a row. */
  predicate DotSeparated(s: string) {
    && |s| >= 1 && s[0] != '.' && s[|s| - 1] != '.'
    && forall i :: 0 <= i < |s| - 1 ==> !(s[i] == '.' && s[i + 1] == '.')
  }

  /** `[a-zA-Z0-9_+&*-]+(?:\.[a-zA-Z0-9_+&*-]+)*` */
  predicate LocalPart(s: string) {
    DotSeparated(s) && forall i :: 0 <= i < |s| ==> s[i] == '.' || IsLocalChar(s[i])
  }

  /** Position of the last occurrence of `c`. */
  function LastIndexOf(s: string, c: char): (r: Option<nat>)
    ensures r.None? <==> c !in s
    ensures r.Some? ==> r.value < |s| && s[r.value] == c && c !in s[r.value + 1..]
  {
    if s == [] then None
    else if s[|s| - 1] == c then Some(|s| - 1)
    else
      assert s == s[..|s| - 1] + [s[|s| - 1]];
      LastIndexOf(s[..|s| - 1], c)
  }

  /** Position of the first occurrence of `c`. */
  function IndexOf(s: string, c: char): (r: Option<nat>)
    ensures r.None? <==> c !in s
    ensures r.Some? ==> r.value < |s| && s[r.value] == c && c !in s[..r.value]
  {
    if s == [] then None
    else if s[0] == c then Some(0)
    else match IndexOf(s[1..], c)
      case None => None
      case Some(k) => assert s[..k + 1] == [s[0]] + s[1..][..k]; Some(k + 1)
  }

  /** `(?:[a-zA-Z0-9-]+\.)+[a-zA-Z]{2,7}`: dot-separated labels, then a last dot and a top
      level of two to seven letters. */
  predicate DomainPart(s: string) {
    match LastIndexOf(s, '.')
    case None => false
    case Some(k) =>
      && DotSeparated(s[..k])
      && (forall i :: 0 <= i < k ==> s[i] == '.' || IsLabelChar(s[i]))
      && 2 <= |s| - (k + 1) <= 7
      && forall i :: k < i < |s| ==> IsLetter(s[i])
  }

  /** The email pattern of `validateUserInput`, matched against the whole string. */
  predicate IsEmail(s: string) {
    match IndexOf(s, '@')
    case None => false
    case Some(a) => LocalPart(s[..a]) && DomainPart(s[a + 1..])
  }

  /** `^\d{11}$`: exactly eleven ASCII digits. */
  predicate IsPhone(s: string) {
    |s| == 11 && AllDigits(s)
  }

  /** `validateUserInput`: username trimmed to 3 to 20 characters, then password trimmed to
      6 to 20, then the email pattern, then the phone pattern; the first failure is the
      error thrown. */
  function ValidateUserInput(u: UserRecord): (r: Option<UserInputError>)
    ensures r == Some(BadUsername) <==> !(3 <= |Trim(u.username)| <= 20)
    ensures r == Some(BadPassword) <==> 3 <= |Trim(u.username)| <= 20 && !(6 <= |Trim(u.password)| <= 20)
    ensures r == Some(BadEmail) <==>
      3 <= |Trim(u.username)| <= 20 && 6 <= |Trim(u.password)| <= 20 && !IsEmail(u.email)
    ensures r == None <==>
      3 <= |Trim(u.username)| <= 20 && 6 <= |Trim(u.password)| <= 20 && IsEmail(u.email) && IsPhone(u.phone)
  {
    if !(3 <= |Trim(u.username)| <= 20) then Some(BadUsername)
    else if !(6 <= |Trim(u.password)| <= 20) then Some(BadPassword)
    else if !IsEmail(u.email) then Some(BadEmail)
    else if !IsPhone(u.phone) then Some(BadPhone)
    else None
  }

  /** An email split at its `@`: the pattern holds exactly when the part before is a local
      part and the part after a domain. */
  lemma EmailShape(local: string, domain: string)
    requires '@' !in local
    ensures IsEmail(local + "@" + domain) <==> LocalPart(local) && DomainPart(domain)
  {
    var s := local + "@" + domain;
    assert s[..|local|] == local;
    assert s[|local| + 1..] == domain;
    assert s[|local|] == '@';
    assert IndexOf(s, '@') == Some(|local|);
  }

  /** A user that passes the checks can be stored and read back, provided its name and
      password hold no comma (the checks do not look for one). */
  lemma ValidUserIsStorable(u: UserRecord)
    requires ValidateUserInput(u).None?
    requires NoComma(u.username) && NoComma(u.password)
    ensures Storable(u)
    ensures ParseUserLine(UserLine(u)) == Some(u)
  {
    EmailHasNoComma(u.email);
    PhoneHasNoComma(u.phone);
    UserLineRoundTrip(u);
  }

  lemma PhoneHasNoComma(p: string)
    requires IsPhone(p)
    ensures NoComma(p) && p != ""
  {
    assert forall i :: 0 <= i < |p| ==> p[i] != ',';
  }

  /** No character the email pattern accepts is a comma. */
  lemma EmailHasNoComma(e: string)
    requires IsEmail(e)
    ensures NoComma(e)
  {
    var a := IndexOf(e, '@').value;
    LocalHasNoComma(e[..a]);
    DomainHasNoComma(e[a + 1..]);
    NoCommaAround(e, a);
  }

  lemma LocalHasNoComma(s: string)
    requires LocalPart(s)
    ensures NoComma(s)
  {
    forall i | 0 <= i < |s|
      ensures s[i] != ','
    {
      assert s[i] == '.' || IsLocalChar(s[i]);
    }
  }

  lemma DomainHasNoComma(d: string)
    requires DomainPart(d)
    ensures NoComma(d)
  {
    var k := LastIndexOf(d, '.').value;
    forall i | 0 <= i < |d|
      ensures d[i] != ','
    {
      if i < k {
        assert d[i] == '.' || IsLabelChar(d[i]);
      } else if i > k {
        assert IsLetter(d[i]);
      }
    }
  }

  /** A string is comma-free when the parts around a non-comma position are. */
  lemma NoCommaAround(s: string, a: int)
    requires 0 <= a < |s| && s[a] != ','
    requires NoComma(s[..a]) && NoComma(s[a + 1..])
    ensures NoComma(s)
  {
    assert s == s[..a] + [s[a]] + s[a + 1..];
  }

  // ---------------------------------------------------------------- the store

  /** The field values of a list of users, in list order. */
  function UserValues(us: seq<User>): (r: seq<UserRecord>)
    reads us
    ensures |r| == |us|
    ensures forall i :: 0 <= i < |us| ==> r[i] == us[i].Value()
  {
    seq(|us|, i requires 0 <= i < |us| reads us => us[i].Value())
  }

  lemma UserValuesSnoc(us: seq<User>, u: User)
    ensures UserValues(us + [u]) == UserValues(us) + [u.Value()]
  {
  }

  /** The lines the password update writes: one per user read, those named like `user`
      replaced by it. */
  method ReplacedUserLines(users: seq<User>, user: User) returns (lines: seq<string>)
    ensures lines == UsersLines(ReplaceUser(UserValues(users), user.Value()))
  {
    ghost var rs := UserValues(users);
    lines := [];
    for i := 0 to |users|
      invariant |lines| == i
      invariant forall j :: 0 <= j < i ==>
        lines[j] == UserLine(if rs[j].username == user.username then user.Value() else rs[j])
    {
      if users[i].username == user.username {
        lines := lines + [UserLine(user.Value())];
      } else {
        lines := lines + [UserLine(users[i].Value())];
      }
    }
  }

  /** The lines the delete writes, one per user not named `username`, and whether some
      user was. */
  method RemainingUserLines(users: seq<User>, username: string) returns (lines: seq<string>, deleted: bool)
    ensures lines == UsersLines(RemoveUser(UserValues(users), username))
    ensures deleted <==> FindUser(UserValues(users), username).Some?
  {
    ghost var rs := UserValues(users);
    deleted := false;
    lines := [];
    for i := 0 to |users|
      invariant lines == UsersLines(RemoveUser(rs[..i], username))
      invariant deleted <==> exists j :: 0 <= j < i && rs[j].username == username
    {
      assert rs[i] == users[i].Value();
      RemainingLinesSnoc(rs, i, username);
      if users[i].username != username {
        lines := lines + [UserLine(users[i].Value())];
      } else {
        deleted := true;
      }
    }
    TakeAll(rs);
  }

  lemma RemoveUserSnoc(rs: seq<UserRecord>, i: int, username: string)
    requires 0 <= i < |rs|
    ensures RemoveUser(rs[..i + 1], username) ==
            RemoveUser(rs[..i], username) + (if rs[i].username != username then [rs[i]] else [])
  {
    TakeTake(rs, i, i + 1);
  }

  lemma RemainingLinesSnoc(rs: seq<UserRecord>, i: int, username: string)
    requires 0 <= i < |rs|
    ensures UsersLines(RemoveUser(rs[..i + 1], username)) ==
            UsersLines(RemoveUser(rs[..i], username)) + (if rs[i].username != username then [UserLine(rs[i])] else [])
  {
    RemoveUserSnoc(rs, i, username);
    if rs[i].username != username {
      UsersLinesSnoc(RemoveUser(rs[..i], username), rs[i]);
    } else {
      AppendNothing(RemoveUser(rs[..i], username));
      AppendNothing(UsersLines(RemoveUser(rs[..i], username)));
    }
  }

  lemma UsersLinesSnoc(rs: seq<UserRecord>, u: UserRecord)
    ensures UsersLines(rs + [u]) == UsersLines(rs) + [UserLine(u)]
  {
  }

  /** The scan of `validateUser`: whether some user has both this name and password. */
  method AnyLogin(users: seq<User>, username: string, password: string) returns (ok: bool)
    ensures ok <==> HasLogin(UserValues(users), username, password)
  {
    ghost var rs := UserValues(users);
    for i := 0 to |users|
      invariant forall j :: 0 <= j < i ==> !(rs[j].username == username && rs[j].password == password)
    {
      if users[i].username == username && users[i].password == password {
        assert rs[i] == users[i].Value();
        return true;
      }
    }
    return false;
  }

  /** The scan of `getUserByUsername`: the first user with this name, or `null`. */
  method FirstNamed(users: seq<User>, username: string) returns (user: User?)
    ensures match FindUser(UserValues(users), username)
      case None => user == null
      case Some(i) => user == users[i]
  {
    for i := 0 to |users|
      invariant forall j :: 0 <= j < i ==> users[j].username != username
    {
      if users[i].username == username {
        return users[i];
      }
    }
    return null;
  }

  /** The static state of `UserUtil`: the lines of the users file. */
  class UserUtil {
    var usersFile: seq<string>

    constructor (usersFile: seq<string>)
      ensures this.usersFile == usersFile
    {
      this.usersFile := usersFile;
    }

    /** `addUserToTxt`: appends the user's line. */
    method AddUserToTxt(user: User)
      modifies this
      ensures usersFile == old(usersFile) + [UserLine(user.Value())]
    {
      usersFile := usersFile + [UserLine(user.Value())];
    }

    /** `readUsersFromTxt`: one fresh `User` per line with four fields, in file order. */
    method ReadUsersFromTxt() returns (users: seq<User>)
      ensures UserValues(users) == ReadUsers(usersFile)
      ensures forall u :: u in users ==> fresh(u)
    {
      users := [];
      for i := 0 to |usersFile|
        invariant UserValues(users) == ReadUsers(usersFile[..i])
        invariant forall u :: u in users ==> fresh(u)
      {
        var values := Split(usersFile[i]);
        TakeTake(usersFile, i, i + 1);
        assert ReadUsers(usersFile[..i + 1]) == ReadUsers(usersFile[..i]) + Kept(usersFile[i]);
        if |values| == 4 {
          var user := new User(values[0], values[1], values[2], values[3]);
          UserValuesSnoc(users, user);
          users := users + [user];
        }
      }
      TakeAll(usersFile);
    }

    /** `validateUser`: true exactly when a stored user has both this name and password. */
    method ValidateUser(username: string, password: string) returns (ok: bool)
      ensures ok <==> HasLogin(ReadUsers(usersFile), username, password)
    {
      var users := ReadUsersFromTxt();
      ok := AnyLogin(users, username, password);
    }

    /** `getUserByUsername`: the first stored user with this name, or `null`. */
    method GetUserByUsername(username: string) returns (user: User?)
      ensures match FindUser(ReadUsers(usersFile), username)
        case None => user == null
        case Some(i) => user != null && user.Value() == ReadUsers(usersFile)[i]
    {
      var users := ReadUsersFromTxt();
      user := FirstNamed(users, username);
    }

    /** `updateUserPassword`: when the checks pass, rewrites every stored user, those named
        like `user` replaced by it; when one fails (the source throws), writes nothing. */
    method UpdateUserPassword(user: User) returns (ok: bool)
      modifies this
      ensures ok <==> ValidateUserInput(user.Value()).None?
      ensures !ok ==> usersFile == old(usersFile)
      ensures ok ==> usersFile == UsersLines(ReplaceUser(ReadUsers(old(usersFile)), user.Value()))
    {
      if ValidateUserInput(user.Value()).Some? {
        return false;
      }
      var users := ReadUsersFromTxt();
      var lines := ReplacedUserLines(users, user);
      usersFile := lines;
      ok := true;
    }

    /** `deleteUserByUsername`: a blank name is refused without writing; otherwise every
        user with a different name is rewritten, and the result says whether one matched. */
    method DeleteUserByUsername(username: string) returns (deleted: bool)
      modifies this
      ensures IsBlank(username) ==> !deleted && usersFile == old(usersFile)
      ensures !IsBlank(username) ==>
        && usersFile == UsersLines(RemoveUser(ReadUsers(old(usersFile)), username))
        && (deleted <==> FindUser(ReadUsers(old(usersFile)), username).Some?)
    {
      if IsBlank(username) {
        return false;
      }
      var users := ReadUsersFromTxt();
      var lines;
      lines, deleted := RemainingUserLines(users, username);
      usersFile := lines;
    }
  }
}
