/** The pieces of `java.lang.String` and `java.lang.Integer` that the record files rely on:
    comma joining, `split(",")`, `trim()`, `Integer.toString` and `Integer.parseInt`. */
module Strings {
  import opened Wrappers
  import opened JavaInt

  // ---------------------------------------------------------------- commas

  predicate NoComma(s: string) {
    ',' !in s
  }

  /** Position of the first comma of `s`. */
  function FirstComma(s: string): (r: Option<nat>)
    ensures r.None? <==> NoComma(s)
    ensures r.Some? ==> r.value < |s| && s[r.value] == ',' && NoComma(s[..r.value])
  {
    if s == [] then None
    else if s[0] == ',' then Some(0)
    else match FirstComma(s[1..])
      case None => None
      case Some(k) => assert s[..k + 1] == [s[0]] + s[1..][..k]; Some(k + 1)
  }

  /** The fields of a record line written with `a + "," + b + ...`. */
  function Join(fields: seq<string>): string
  {
    if |fields| == 0 then ""
    else if |fields| == 1 then fields[0]
    else fields[0] + "," + Join(fields[1..])
  }

  /** Cuts `s` at every comma; empty pieces are kept. */
  function Pieces(s: string): (r: seq<string>)
    ensures |r| >= 1
    ensures forall i :: 0 <= i < |r| ==> NoComma(r[i])
    decreases |s|
  {
    match FirstComma(s)
    case None => [s]
    case Some(k) => [s[..k]] + Pieces(s[k + 1..])
  }

  /** Drops the empty strings at the end of a list of pieces. */
  function DropTrailingEmpty(pieces: seq<string>): (r: seq<string>)
    ensures r <= pieces
    ensures r == [] || r[|r| - 1] != ""
    ensures forall i :: |r| <= i < |pieces| ==> pieces[i] == ""
  {
    if pieces == [] then []
    else if pieces[|pieces| - 1] == "" then DropTrailingEmpty(pieces[..|pieces| - 1])
    else pieces
  }

  /** Java's `s.split(",")`: the pieces between commas with trailing empty pieces removed;
      a string without any comma (the empty string included) is its own single piece. */
  function Split(s: string): (r: seq<string>)
    ensures forall i :: 0 <= i < |r| ==> NoComma(r[i])
    ensures NoComma(s) ==> r == [s]
    ensures |r| >= 2 ==> r[|r| - 1] != ""
  {
    if s == "" then [""] else DropTrailingEmpty(Pieces(s))
  }

  predicate AllNoComma(fields: seq<string>) {
    forall i :: 0 <= i < |fields| ==> NoComma(fields[i])
  }

  /** The first comma of `head + "," + rest` is the one after `head` when `head` has none. */
  lemma {:induction false} FirstCommaAfter(head: string, rest: string)
    requires NoComma(head)
    ensures FirstComma(head + "," + rest) == Some(|head|)
  {
    var s := head + "," + rest;
    if head != [] {
      assert s[1..] == head[1..] + "," + rest;
      FirstCommaAfter(head[1..], rest);
    }
  }

  lemma {:induction false} PiecesOfJoin(fields: seq<string>)
    requires |fields| >= 1 && AllNoComma(fields)
    ensures Pieces(Join(fields)) == fields
  {
    if |fields| > 1 {
      var head, rest := fields[0], Join(fields[1..]);
      var s := head + "," + rest;
      FirstCommaAfter(head, rest);
      assert s[..|head|] == head;
      assert s[|head| + 1..] == rest;
      PiecesOfJoin(fields[1..]);
    }
  }

  /** Splitting a joined line gives its fields back when no field holds a comma and the
      last field is not empty. */
  lemma SplitJoin(fields: seq<string>)
    requires |fields| >= 1 && AllNoComma(fields)
    requires fields[|fields| - 1] != ""
    ensures Split(Join(fields)) == fields
  {
    PiecesOfJoin(fields);
    if |fields| > 1 {
      assert Join(fields) == fields[0] + "," + Join(fields[1..]);
    }
    assert Join(fields) != "";
  }

  /** With an empty last field, the line reads back with that field missing. */
  lemma SplitJoinEmptyLast(fields: seq<string>)
    requires |fields| >= 2 && AllNoComma(fields)
    requires fields[|fields| - 1] == "" && fields[|fields| - 2] != ""
    ensures Split(Join(fields)) == fields[..|fields| - 1]
  {
    PiecesOfJoin(fields);
    assert Join(fields) != "" by {
      assert Join(fields) == fields[0] + "," + Join(fields[1..]);
    }
    var pieces := fields;
    assert DropTrailingEmpty(pieces) == DropTrailingEmpty(pieces[..|pieces| - 1]);
  }

  // ---------------------------------------------------------------- trim

  /** The characters `String.trim()` removes: every code point up to U+0020. */
  predicate IsSpace(c: char) {
    c <= ' '
  }

  function TrimStart(s: string): (r: string)
    ensures |r| <= |s| && r == s[|s| - |r|..]
    ensures r == "" || !IsSpace(r[0])
    ensures forall i :: 0 <= i < |s| - |r| ==> IsSpace(s[i])
  {
    if s != "" && IsSpace(s[0]) then TrimStart(s[1..]) else s
  }

  function TrimEnd(s: string): (r: string)
    ensures r <= s
    ensures r == "" || !IsSpace(r[|r| - 1])
    ensures forall i :: |r| <= i < |s| ==> IsSpace(s[i])
  {
    if s != "" && IsSpace(s[|s| - 1]) then TrimEnd(s[..|s| - 1]) else s
  }

  /** Java's `s.trim()`. */
  function Trim(s: string): (r: string)
  {
    TrimEnd(TrimStart(s))
  }

  /** `s.trim().isEmpty()`. */
  predicate IsBlank(s: string) {
    Trim(s) == ""
  }

  lemma BlankIffAllSpace(s: string)
    ensures IsBlank(s) <==> forall i :: 0 <= i < |s| ==> IsSpace(s[i])
  {
  }

  // ---------------------------------------------------------------- integers

  predicate IsDigit(c: char) {
    '0' <= c <= '9'
  }

  predicate AllDigits(s: string) {
    forall i :: 0 <= i < |s| ==> IsDigit(s[i])
  }

  function DigitChar(d: int): (c: char)
    requires 0 <= d < 10
    ensures IsDigit(c)
  {
    ('0' as int + d) as char
  }

  function DigitValue(c: char): (d: int)
    requires IsDigit(c)
    ensures 0 <= d < 10 && DigitChar(d) == c
  {
    c as int - '0' as int
  }

  /** The decimal digits of `n`, most significant first, without leading zeros. */
  function NatToString(n: nat): (s: string)
    ensures |s| >= 1 && AllDigits(s)
  {
    if n < 10 then [DigitChar(n)] else NatToString(n / 10) + [DigitChar(n % 10)]
  }

  /** The number a string of decimal digits denotes. */
  function DigitsToNat(s: string): nat
    requires AllDigits(s)
  {
    if s == [] then 0 else DigitsToNat(s[..|s| - 1]) * 10 + DigitValue(s[|s| - 1])
  }

  lemma {:induction false} DigitsRoundTrip(n: nat)
    ensures DigitsToNat(NatToString(n)) == n
  {
    if n >= 10 {
      var s := NatToString(n);
      assert s[..|s| - 1] == NatToString(n / 10);
      DigitsRoundTrip(n / 10);
    }
  }

  /** Java's `Integer.toString(n)` (and the decimal text `"" + n`). */
  function IntToString(n: int): (s: string)
  {
    if n < 0 then "-" + NatToString(-n) else NatToString(n)
  }

  /** An optional sign followed by at least one decimal digit, read as a number. */
  function ParseDecimal(s: string): (r: Option<int>)
    ensures r.Some? ==> s != "" && NoComma(s)
  {
    if s != "" && (s[0] == '-' || s[0] == '+') then
      if |s| > 1 && AllDigits(s[1..]) then
        var n: int := DigitsToNat(s[1..]);
        Some(if s[0] == '-' then -n else n)
      else None
    else if s != "" && AllDigits(s) then Some(DigitsToNat(s))
    else None
  }

  /** Java's `Integer.parseInt(s)`; `None` where it throws `NumberFormatException`. */
  function ParseInt(s: string): (r: Option<int>)
    ensures r.Some? ==> IsInt(r.value)
  {
    match ParseDecimal(s)
    case Some(n) => if IsInt(n) then Some(n) else None
    case None => None
  }

  /** The decimal text of a number reads back as that number. */
  lemma DecimalRoundTrip(n: int)
    ensures IntToString(n) != "" && NoComma(IntToString(n))
    ensures ParseDecimal(IntToString(n)) == Some(n)
    ensures IsInt(n) ==> ParseInt(IntToString(n)) == Some(n)
  {
    if n < 0 {
      NegativeRoundTrip(n);
    } else {
      DigitsRoundTrip(n);
      DigitsNoComma(NatToString(n));
    }
  }

  lemma DigitsNoComma(s: string)
    requires AllDigits(s)
    ensures NoComma(s)
  {
    assert forall i :: 0 <= i < |s| ==> s[i] != ',';
  }

  lemma NegativeRoundTrip(n: int)
    requires n < 0
    ensures NoComma(IntToString(n))
    ensures ParseDecimal(IntToString(n)) == Some(n)
  {
    var d := NatToString(-n);
    var s := "-" + d;
    assert s[1..] == d;
    assert IntToString(n) == s;
    DigitsRoundTrip(-n);
    assert s != "" && s[0] == '-' && |s| > 1 && AllDigits(s[1..]);
    var m: int := DigitsToNat(d);
    assert ParseDecimal(s) == Some(-m);
    SignedNoComma(d);
  }

  /** A minus sign followed by digits holds no comma. */
  lemma SignedNoComma(d: string)
    requires AllDigits(d)
    ensures NoComma("-" + d)
  {
    var s := "-" + d;
    forall i | 0 <= i < |s|
      ensures s[i] != ','
    {
      if i > 0 {
        assert s[i] == d[i - 1];
      }
    }
  }
}
