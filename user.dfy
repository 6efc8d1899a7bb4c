/** The user entity (model/User.java): its four fields with their setters, the password
    check, and the lowercase hexadecimal encoding that digests are stored in. */
module UserModel {

  /** The four fields of a user, as one value. */
  datatype UserRecord = UserRecord(username: string, password: string, email: string, phone: string)

  class User {
    var username: string
    var password: string
    var email: string
    var phone: string

    function Value(): UserRecord
      reads this
    {
      UserRecord(username, password, email, phone)
    }

    constructor (username: string, password: string, email: string, phone: string)
      ensures Value() == UserRecord(username, password, email, phone)
    {
      this.username := username;
      this.password := password;
      this.email := email;
      this.phone := phone;
    }

    method SetUsername(username: string)
      modifies this
      ensures Value() == old(Value()).(username := username)
    {
      this.username := username;
    }

    method SetPassword(password: string)
      modifies this
      ensures Value() == old(Value()).(password := password)
    {
      this.password := password;
    }

    method SetEmail(email: string)
      modifies this
      ensures Value() == old(Value()).(email := email)
    {
      this.email := email;
    }

    method SetPhone(phone: string)
      modifies this
      ensures Value() == old(Value()).(phone := phone)
    {
      this.phone := phone;
    }

    /** Login succeeds exactly when the stored password equals the one typed in. */
    function Login(inputPassword: string): (ok: bool)
      reads this
      ensures ok <==> Value().password == inputPassword
    {
      password == inputPassword
    }
  }

  // ---------------------------------------------------------------- bytesToHex

  /** A Java `byte`. */
  type JByte = b: int | -128 <= b <= 127

  const HEX_CHAR: string := "0123456789abcdef"

  /** The unsigned value of a byte: a negative `b` stands for `256 + b`. */
  function Unsigned(b: JByte): (a: int)
    ensures 0 <= a < 256
    ensures (a - b) % 256 == 0
  {
    if b < 0 then 256 + b else b
  }

  /** The digit for the high four bits of a byte's unsigned value. */
  function High(b: JByte): char {
    HEX_CHAR[Unsigned(b) / 16]
  }

  /** The digit for the low four bits of a byte's unsigned value. */
  function Low(b: JByte): char {
    HEX_CHAR[Unsigned(b) % 16]
  }

  /** Two lowercase hexadecimal digits per byte, high digit first (the lowercase
      alphabet variant of the Base16 encoding of section 8 of RFC 4648). */
  function Hex(bytes: seq<JByte>): (r: string)
    ensures |r| == 2 * |bytes|
    ensures forall k :: 0 <= k < |r| ==> r[k] in HEX_CHAR
  {
    if bytes == [] then ""
    else [High(bytes[0]), Low(bytes[0])] + Hex(bytes[1..])
  }

  /** Byte `i` lands at positions `2i` (high digit) and `2i + 1` (low digit). */
  lemma {:induction false} HexAt(bytes: seq<JByte>, i: int)
    requires 0 <= i < |bytes|
    ensures Hex(bytes)[2 * i] == High(bytes[i])
    ensures Hex(bytes)[2 * i + 1] == Low(bytes[i])
  {
    if i > 0 {
      HexAt(bytes[1..], i - 1);
      assert bytes[1..][i - 1] == bytes[i];
      var h := Hex(bytes);
      assert h[2..] == Hex(bytes[1..]);
      assert h[2 * i] == h[2..][2 * (i - 1)];
      assert h[2 * i + 1] == h[2..][2 * (i - 1) + 1];
    }
  }

  /** Java's `User.bytesToHex`: fills a `char` buffer two digits per byte. */
  method BytesToHex(bytes: seq<JByte>) returns (s: string)
    ensures s == Hex(bytes)
  {
    var buf := new char[|bytes| * 2];
    var a: int := 0;
    var index := 0;
    for i := 0 to |bytes|
      invariant index == 2 * i
      invariant forall j :: 0 <= j < i ==> buf[2 * j] == High(bytes[j]) && buf[2 * j + 1] == Low(bytes[j])
    {
      var b: int := bytes[i];
      if b < 0 {
        a := 256 + b;
      } else {
        a := b;
      }
      assert a == Unsigned(bytes[i]);
      buf[index] := HEX_CHAR[a / 16];
      index := index + 1;
      buf[index] := HEX_CHAR[a % 16];
      index := index + 1;
    }
    s := buf[..];
    HexFromDigits(bytes, s);
  }

  /** A string with the two digits of every byte in their places is the encoding. */
  lemma {:induction false} HexFromDigits(bytes: seq<JByte>, s: string)
    requires |s| == 2 * |bytes|
    requires forall j :: 0 <= j < |bytes| ==> s[2 * j] == High(bytes[j]) && s[2 * j + 1] == Low(bytes[j])
    ensures s == Hex(bytes)
  {
    if bytes != [] {
      var t := s[2..];
      forall j | 0 <= j < |bytes| - 1
        ensures t[2 * j] == High(bytes[1..][j]) && t[2 * j + 1] == Low(bytes[1..][j])
      {
        assert t[2 * j] == s[2 * (j + 1)];
        assert t[2 * j + 1] == s[2 * (j + 1) + 1];
      }
      HexFromDigits(bytes[1..], t);
      assert s == [s[0], s[1]] + t;
    }
  }

  // ---------------------------------------------------------------- injectivity

  /** The value of one lowercase hexadecimal digit. */
  function HexDigitValue(c: char): (v: int)
    requires c in HEX_CHAR
    ensures 0 <= v < 16 && HEX_CHAR[v] == c
  {
    if '0' <= c <= '9' then c as int - '0' as int else c as int - 'a' as int + 10
  }

  lemma HexDigitValueOf(d: int)
    requires 0 <= d < 16
    ensures HexDigitValue(HEX_CHAR[d]) == d
  {
  }

  /** The two digits of a byte read back as its unsigned value. */
  lemma HighLowValue(b: JByte)
    ensures 16 * HexDigitValue(High(b)) + HexDigitValue(Low(b)) == Unsigned(b)
  {
    var a := Unsigned(b);
    HexDigitValueOf(a / 16);
    HexDigitValueOf(a % 16);
  }

  /** Two byte arrays with the same hexadecimal string are equal: no information is lost. */
  lemma HexInjective(x: seq<JByte>, y: seq<JByte>)
    requires Hex(x) == Hex(y)
    ensures x == y
  {
    forall i | 0 <= i < |x|
      ensures x[i] == y[i]
    {
      HexAt(x, i);
      HexAt(y, i);
      HighLowValue(x[i]);
      HighLowValue(y[i]);
    }
  }
}
