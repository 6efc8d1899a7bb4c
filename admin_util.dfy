/** The administrator store of util/AdminUtil.java: one line `username,password` per
    administrator. The reader takes every line, a first one included, while the delete
    writes a `username,password` header line before the administrators it keeps. */
module Admins {
  import opened Wrappers
  import opened Strings
  import opened Slices

  /** An administrator as read: the first two fields of a line. */
  datatype AdminRecord = AdminRecord(username: string, password: string)

  /** The line `deleteAdminByUsername` writes before the administrators it keeps. */
  const ADMIN_HEADER: string := "username,password"

  function AdminLine(a: AdminRecord): string {
    Join([a.username, a.password])
  }

  /** The administrator on one line: its first two fields. `None` where the line has
      fewer than two fields and reading `values[1]` throws. */
  function ParseAdminLine(line: string): (r: Option<AdminRecord>)
    ensures r.Some? ==> NoComma(r.value.username) && NoComma(r.value.password)
  {
    var values := Split(line);
    if |values| < 2 then None else Some(AdminRecord(values[0], values[1]))
  }

  /** An administrator whose line reads back as itself. */
  predicate Storable(a: AdminRecord) {
    NoComma(a.username) && NoComma(a.password) && a.password != ""
  }

  lemma AdminLineRoundTrip(a: AdminRecord)
    requires Storable(a)
    ensures ParseAdminLine(AdminLine(a)) == Some(a)
  {
    SplitJoin([a.username, a.password]);
  }

  /** The header line reads as an administrator named `username` with password
      `password`. */
  lemma HeaderIsAnAdmin()
    ensures ParseAdminLine(ADMIN_HEADER) == Some(AdminRecord("username", "password"))
  {
    var fields := ["username", "password"];
    assert fields[1..] == ["password"];
    assert Join(fields) == "username" + "," + "password";
    assert "username" + "," + "password" == ADMIN_HEADER;
    AdminLineRoundTrip(AdminRecord("username", "password"));
  }

  /** `readAdminsFromTxt`: one administrator per line, in file order; `None` where some
      line makes it throw. */
  function ReadAdmins(lines: seq<string>): (r: Option<seq<AdminRecord>>)
    ensures r.Some? ==> |r.value| == |lines|
  {
    if lines == [] then Some([])
    else match ReadAdmins(lines[..|lines| - 1])
      case None => None
      case Some(admins) =>
        match ParseAdminLine(lines[|lines| - 1])
        case None => None
        case Some(a) => Some(admins + [a])
  }

  /** Reading throws as soon as some prefix of the file makes it throw. */
  lemma {:induction false} ReadAdminsFailsLater(lines: seq<string>, j: int)
    requires 0 <= j <= |lines| && ReadAdmins(lines[..j]).None?
    ensures ReadAdmins(lines).None?
  {
    if j < |lines| {
      var init := lines[..|lines| - 1];
      TakeTake(lines, j, |lines| - 1);
      assert init[..j] == lines[..j];
      ReadAdminsFailsLater(init, j);
      assert ReadAdmins(init).None?;
    } else {
      TakeAll(lines);
    }
  }

  /** Some administrator has both this name and this password. */
  predicate HasAdminLogin(admins: seq<AdminRecord>, username: string, password: string) {
    exists i :: 0 <= i < |admins| && admins[i].username == username && admins[i].password == password
  }

  /** The administrators not named `username`, in order: exactly the administrators with
      another name are kept. */
  function KeepOthers(admins: seq<AdminRecord>, username: string): (r: seq<AdminRecord>)
    ensures |r| <= |admins|
    ensures forall a {:trigger a in r} :: a in r <==> a in admins && a.username != username
  {
    if admins == [] then []
    else
      var last := admins[|admins| - 1];
      SplitLast(admins);
      KeepOthers(admins[..|admins| - 1], username) + (if last.username != username then [last] else [])
  }

  lemma KeepOthersSnoc(admins: seq<AdminRecord>, i: int, username: string)
    requires 0 <= i < |admins|
    ensures KeepOthers(admins[..i + 1], username) ==
            KeepOthers(admins[..i], username) + (if admins[i].username != username then [admins[i]] else [])
  {
    TakeTake(admins, i, i + 1);
  }

  function AdminLines(admins: seq<AdminRecord>): (r: seq<string>)
    ensures |r| == |admins|
    ensures forall i :: 0 <= i < |admins| ==> r[i] == AdminLine(admins[i])
  {
    seq(|admins|, i requires 0 <= i < |admins| => AdminLine(admins[i]))
  }

  lemma AdminLinesSnoc(admins: seq<AdminRecord>, a: AdminRecord)
    ensures AdminLines(admins + [a]) == AdminLines(admins) + [AdminLine(a)]
  {
  }

  /** What `deleteAdminByUsername` writes: the header, then the administrators kept. */
  function AdminsFile(admins: seq<AdminRecord>, username: string): seq<string> {
    [ADMIN_HEADER] + AdminLines(KeepOthers(admins, username))
  }

  /** One more line that parses is one more administrator at the end. */
  lemma ReadAdminsSnoc(lines: seq<string>, line: string, admins: seq<AdminRecord>, a: AdminRecord)
    requires ReadAdmins(lines) == Some(admins) && ParseAdminLine(line) == Some(a)
    ensures ReadAdmins(lines + [line]) == Some(admins + [a])
  {
    assert (lines + [line])[..|lines|] == lines;
  }

  /** Lines of storable administrators read back as those administrators, after the
      lines already read. */
  lemma {:induction false} ReadWrittenAdmins(prefix: seq<string>, before: seq<AdminRecord>, admins: seq<AdminRecord>)
    requires ReadAdmins(prefix) == Some(before)
    requires forall i :: 0 <= i < |admins| ==> Storable(admins[i])
    ensures ReadAdmins(prefix + AdminLines(admins)) == Some(before + admins)
  {
    if admins == [] {
      assert prefix + AdminLines(admins) == prefix;
      assert before + admins == before;
    } else {
      var n := |admins|;
      var front, last := admins[..n - 1], admins[n - 1];
      ReadWrittenAdmins(prefix, before, front);
      AdminLineRoundTrip(last);
      ReadAdminsSnoc(prefix + AdminLines(front), AdminLine(last), before + front, last);
      calc {
        prefix + AdminLines(admins);
        { SplitLast(admins); }
        prefix + AdminLines(front + [last]);
        { AdminLinesSnoc(front, last); }
        prefix + (AdminLines(front) + [AdminLine(last)]);
        { AppendAssoc(prefix, AdminLines(front), [AdminLine(last)]); }
        (prefix + AdminLines(front)) + [AdminLine(last)];
      }
      calc {
        before + admins;
        { SplitLast(admins); }
        before + (front + [last]);
        { AppendAssoc(before, front, [last]); }
        (before + front) + [last];
      }
    }
  }

  /** A file holding only the header reads as one administrator. */
  lemma HeaderAloneRead()
    ensures ReadAdmins([ADMIN_HEADER]) == Some([AdminRecord("username", "password")])
  {
    HeaderIsAnAdmin();
    ReadOne(ADMIN_HEADER, AdminRecord("username", "password"));
  }

  lemma ReadOne(line: string, a: AdminRecord)
    requires ParseAdminLine(line) == Some(a)
    ensures ReadAdmins([line]) == Some([a])
  {
    assert [line][..0] == [];
    assert ReadAdmins([]) == Some([]);
    assert [] + [a] == [a];
  }

  lemma ReadAfterHeader(admins: seq<AdminRecord>)
    requires forall i :: 0 <= i < |admins| ==> Storable(admins[i])
    ensures ReadAdmins([ADMIN_HEADER] + AdminLines(admins)) ==
            Some([AdminRecord("username", "password")] + admins)
  {
    HeaderAloneRead();
    ReadWrittenAdmins([ADMIN_HEADER], [AdminRecord("username", "password")], admins);
  }

  /** Reading the file again after a delete gives an administrator `username` with password
      `password` first, then the administrators kept; so that pair of credentials logs in,
      and the deleted name no longer does unless it is `username` itself. */
  lemma DeleteThenRead(admins: seq<AdminRecord>, username: string)
    requires forall i :: 0 <= i < |admins| ==> Storable(admins[i])
    ensures ReadAdmins(AdminsFile(admins, username)) ==
            Some([AdminRecord("username", "password")] + KeepOthers(admins, username))
    ensures HasAdminLogin(ReadAdmins(AdminsFile(admins, username)).value, "username", "password")
    ensures username != "username" ==> forall a :: a in ReadAdmins(AdminsFile(admins, username)).value ==> a.username != username
  {
    var kept := KeepOthers(admins, username);
    forall i | 0 <= i < |kept|
      ensures Storable(kept[i]) && kept[i].username != username
    {
      assert kept[i] in kept;
      assert kept[i] in admins;
    }
    ReadAfterHeader(kept);
    var after := [AdminRecord("username", "password")] + kept;
    assert after[0] == AdminRecord("username", "password");
    if username != "username" {
      forall a | a in after
        ensures a.username != username
      {
        var j :| 0 <= j < |after| && after[j] == a;
        if j > 0 {
          assert a == kept[j - 1];
        }
      }
    }
  }

  /** The scan of `validateAdmin`. */
  method AnyAdminLogin(admins: seq<AdminRecord>, username: string, password: string) returns (ok: bool)
    ensures ok <==> HasAdminLogin(admins, username, password)
  {
    for i := 0 to |admins|
      invariant forall j :: 0 <= j < i ==> !(admins[j].username == username && admins[j].password == password)
    {
      if admins[i].username == username && admins[i].password == password {
        return true;
      }
    }
    return false;
  }

  /** The loop of `deleteAdminByUsername`: the header, then every administrator with
      another name; and whether one had this name. */
  method KeptAdminLines(admins: seq<AdminRecord>, username: string) returns (lines: seq<string>, found: bool)
    ensures lines == AdminsFile(admins, username)
    ensures found <==> exists i :: 0 <= i < |admins| && admins[i].username == username
  {
    lines := [ADMIN_HEADER];
    found := false;
    for i := 0 to |admins|
      invariant lines == [ADMIN_HEADER] + AdminLines(KeepOthers(admins[..i], username))
      invariant found <==> exists j :: 0 <= j < i && admins[j].username == username
    {
      KeepOthersSnoc(admins, i, username);
      if admins[i].username != username {
        AdminLinesSnoc(KeepOthers(admins[..i], username), admins[i]);
        lines := lines + [AdminLine(admins[i])];
      } else {
        found := true;
      }
    }
    TakeAll(admins);
  }

  /** The static state of `AdminUtil`: the lines of the administrators file. */
  class AdminUtil {
    var adminFile: seq<string>

    constructor (adminFile: seq<string>)
      ensures this.adminFile == adminFile
    {
      this.adminFile := adminFile;
    }

    /** `readAdminsFromTxt`. */
    method ReadAdminsFromTxt() returns (admins: Option<seq<AdminRecord>>)
      ensures admins == ReadAdmins(adminFile)
    {
      var list: seq<AdminRecord> := [];
      for i := 0 to |adminFile|
        invariant ReadAdmins(adminFile[..i]) == Some(list)
      {
        var values := Split(adminFile[i]);
        TakeOneMore(adminFile, i);
        if |values| < 2 {
          assert ParseAdminLine(adminFile[i]).None?;
          TakeTake(adminFile, i, i + 1);
          ReadAdminsFailsLater(adminFile, i + 1);
          return None;
        }
        ReadAdminsSnoc(adminFile[..i], adminFile[i], list, AdminRecord(values[0], values[1]));
        list := list + [AdminRecord(values[0], values[1])];
      }
      TakeAll(adminFile);
      admins := Some(list);
    }

    /** `validateAdmin`: whether some administrator has both this name and password;
        `None` where reading throws. */
    method ValidateAdmin(username: string, password: string) returns (ok: Option<bool>)
      ensures ok.None? <==> ReadAdmins(adminFile).None?
      ensures ok.Some? ==> (ok.value <==> HasAdminLogin(ReadAdmins(adminFile).value, username, password))
    {
      var admins := ReadAdminsFromTxt();
      if admins.None? {
        return None;
      }
      var found := AnyAdminLogin(admins.value, username, password);
      ok := Some(found);
    }

    /** `deleteAdminByUsername`: reads the administrators, then writes the header and every
        administrator with another name; the result says whether one had this name. When
        reading throws, the file is left as it was and the result is `None`. */
    method DeleteAdminByUsername(username: string) returns (found: Option<bool>)
      modifies this
      ensures match ReadAdmins(old(adminFile))
        case None => found.None? && adminFile == old(adminFile)
        case Some(admins) =>
          && adminFile == AdminsFile(admins, username)
          && found == Some(exists i :: 0 <= i < |admins| && admins[i].username == username)
    {
      var admins := ReadAdminsFromTxt();
      if admins.None? {
        return None;
      }
      var lines, matched := KeptAdminLines(admins.value, username);
      adminFile := lines;
      found := Some(matched);
    }
  }
}
