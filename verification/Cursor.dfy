// The opaque page cursor: "<ts>:<rowid>" in unpadded URL-safe base64.
// Strings here are byte strings, one character per byte.
module Cursor {
  import opened LogEntries
  import opened Timeline

  const INT64_MIN: int := -0x8000_0000_0000_0000
  const INT64_MAX: int := 0x7fff_ffff_ffff_ffff

  predicate IsInt64(n: int) {
    INT64_MIN <= n <= INT64_MAX
  }

  predicate IsBytes(s: string) {
    forall i :: 0 <= i < |s| ==> s[i] as int < 256
  }

  // ------------------------------------------------------------------ decimal

  predicate IsDigit(c: char) {
    '0' <= c <= '9'
  }

  function FormatNat(n: nat): string {
    if n < 10 then [('0' as int + n) as char]
    else FormatNat(n / 10) + [('0' as int + n % 10) as char]
  }

  // %d
  function FormatInt(n: int): string {
    if n < 0 then "-" + FormatNat(-n) else FormatNat(n)
  }

  function ParseNat(s: string): Option<nat>
    decreases |s|
  {
    if s == "" || !IsDigit(s[|s| - 1]) then None
    else
      var last := s[|s| - 1] as int - '0' as int;
      if |s| == 1 then Some(last)
      else
        match ParseNat(s[..|s| - 1])
        case None => None
        case Some(n) => Some(10 * n + last)
  }

  // strconv.ParseInt(s, 10, 64): an optional sign, digits, and a range check.
  function ParseInt(s: string): (r: Option<int>)
    ensures r.Some? ==> IsInt64(r.value)
  {
    var negative := s != "" && s[0] == '-';
    var digits := if s != "" && (s[0] == '-' || s[0] == '+') then s[1..] else s;
    match ParseNat(digits)
    case None => None
    case Some(n) =>
      var value := if negative then 0 - n else n;
      if IsInt64(value) then Some(value) else None
  }

  lemma {:induction false} FormatNatDigits(n: nat)
    ensures FormatNat(n) != ""
    ensures forall i :: 0 <= i < |FormatNat(n)| ==> IsDigit(FormatNat(n)[i])
  {
    if n >= 10 {
      FormatNatDigits(n / 10);
    }
  }

  lemma {:induction false} ParseFormatNat(n: nat)
    ensures ParseNat(FormatNat(n)) == Some(n)
  {
    if n >= 10 {
      ParseFormatNat(n / 10);
      FormatNatDigits(n / 10);
      var s := FormatNat(n);
      assert s[..|s| - 1] == FormatNat(n / 10);
    }
  }

  lemma ParseFormatInt(n: int)
    ensures IsInt64(n) ==> ParseInt(FormatInt(n)) == Some(n)
    ensures FormatInt(n) != "" && ':' !in FormatInt(n) && IsBytes(FormatInt(n))
  {
    hide FormatNat, ParseNat;
    var m := if n < 0 then -n else n;
    FormatNatDigits(m);
    ParseFormatNat(m);
    if n < 0 {
      assert FormatInt(n)[1..] == FormatNat(m);
    }
  }

  // ------------------------------------------------------------------- base64

  function EncodeDigit(d: nat): (c: char)
    requires d < 64
    ensures c != '\r' && c != '\n'
  {
    if d < 26 then ('A' as int + d) as char
    else if d < 52 then ('a' as int + (d - 26)) as char
    else if d < 62 then ('0' as int + (d - 52)) as char
    else if d == 62 then '-'
    else '_'
  }

  function DecodeDigit(c: char): (r: Option<nat>)
    ensures r.Some? ==> r.value < 64
  {
    if 'A' <= c <= 'Z' then Some(c as int - 'A' as int)
    else if 'a' <= c <= 'z' then Some(c as int - 'a' as int + 26)
    else if '0' <= c <= '9' then Some(c as int - '0' as int + 52)
    else if c == '-' then Some(62)
    else if c == '_' then Some(63)
    else None
  }

  // The URL-safe alphabet, section 5 of RFC 4648: A to Z, a to z, 0 to 9, '-' and '_'.
  lemma DigitsExactly(d: nat)
    requires d < 63
    ensures EncodeDigit(0) == 'A' && EncodeDigit(25) == 'Z' && EncodeDigit(26) == 'a' && EncodeDigit(51) == 'z'
    ensures EncodeDigit(52) == '0' && EncodeDigit(61) == '9' && EncodeDigit(62) == '-' && EncodeDigit(63) == '_'
    ensures d !in {25, 51, 61, 62} ==> EncodeDigit(d + 1) as int == EncodeDigit(d) as int + 1
  {}

  lemma DecodeEncodeDigit(d: nat)
    requires d < 64
    ensures DecodeDigit(EncodeDigit(d)) == Some(d)
  {}

  function EncodeGroup(a: char, b: char, c: char): string
    requires a as int < 256 && b as int < 256 && c as int < 256
  {
    var (x, y, z) := (a as int, b as int, c as int);
    [EncodeDigit(x / 4), EncodeDigit(x % 4 * 16 + y / 16), EncodeDigit(y % 16 * 4 + z / 64), EncodeDigit(z % 64)]
  }

  function Base64Encode(s: string): string
    requires IsBytes(s)
  {
    if |s| == 0 then ""
    else if |s| == 1 then
      var a := s[0] as int;
      [EncodeDigit(a / 4), EncodeDigit(a % 4 * 16)]
    else if |s| == 2 then
      var a, b := s[0] as int, s[1] as int;
      [EncodeDigit(a / 4), EncodeDigit(a % 4 * 16 + b / 16), EncodeDigit(b % 16 * 4)]
    else
      EncodeGroup(s[0], s[1], s[2]) + Base64Encode(s[3..])
  }

  // The decoder skips line breaks wherever they stand.
  function StripBreaks(s: string): string {
    if s == "" then ""
    else if s[0] == '\r' || s[0] == '\n' then StripBreaks(s[1..])
    else [s[0]] + StripBreaks(s[1..])
  }

  // Unpadded and not strict: the unused low bits of a short tail are ignored.
  function DecodeGroups(s: string): Option<string> {
    if |s| == 0 then Some("")
    else if |s| == 1 then None
    else
      match (DecodeDigit(s[0]), DecodeDigit(s[1]))
      case (Some(p), Some(q)) =>
        var a := (p * 4 + q / 16) as char;
        if |s| == 2 then Some([a])
        else (
          match DecodeDigit(s[2])
          case None => None
          case Some(r) =>
            var b := (q % 16 * 16 + r / 4) as char;
            if |s| == 3 then Some([a, b])
            else
              match (DecodeDigit(s[3]), DecodeGroups(s[4..]))
              case (Some(u), Some(rest)) => Some([a, b, (r % 4 * 64 + u) as char] + rest)
              case _ => None)
      case _ => None
  }

  function Base64Decode(s: string): Option<string> {
    DecodeGroups(StripBreaks(s))
  }

  lemma StripKeeps(c: char, s: string)
    requires c != '\r' && c != '\n'
    ensures StripBreaks([c] + s) == [c] + StripBreaks(s)
  {}

  lemma StripNothing()
    ensures StripBreaks("") == ""
  {}

  lemma {:induction false} EncodeHasNoBreaks(s: string)
    requires IsBytes(s)
    ensures StripBreaks(Base64Encode(s)) == Base64Encode(s)
  {
    hide EncodeDigit, StripBreaks;
    var e := Base64Encode(s);
    StripNothing();
    if |s| == 1 {
      StripKeeps(e[1], "");
      StripKeeps(e[0], [e[1]]);
      assert [e[1]] + "" == [e[1]] && [e[0]] + [e[1]] == e;
    } else if |s| == 2 {
      StripKeeps(e[2], "");
      StripKeeps(e[1], [e[2]]);
      StripKeeps(e[0], [e[1], e[2]]);
      assert [e[2]] + "" == [e[2]] && [e[1]] + [e[2]] == [e[1], e[2]] && [e[0]] + [e[1], e[2]] == e;
    } else if |s| >= 3 {
      var rest := Base64Encode(s[3..]);
      EncodeHasNoBreaks(s[3..]);
      var g := EncodeGroup(s[0], s[1], s[2]);
      StripKeeps(g[3], rest);
      StripKeeps(g[2], [g[3]] + rest);
      StripKeeps(g[1], [g[2]] + ([g[3]] + rest));
      StripKeeps(g[0], [g[1]] + ([g[2]] + ([g[3]] + rest)));
      assert e == [g[0]] + ([g[1]] + ([g[2]] + ([g[3]] + rest)));
    }
  }

  // The bit arithmetic of one group, in both directions.
  lemma GroupArithmetic(a: nat, b: nat, c: nat)
    requires a < 256 && b < 256 && c < 256
    ensures a / 4 * 4 + (a % 4 * 16 + b / 16) / 16 == a
    ensures (a % 4 * 16 + b / 16) % 16 * 16 + (b % 16 * 4 + c / 64) / 4 == b
    ensures (b % 16 * 4 + c / 64) % 4 * 64 + c % 64 == c
  {}

  lemma DecodeOneGroup(a: char, b: char, c: char, rest: string)
    requires a as int < 256 && b as int < 256 && c as int < 256
    requires DecodeGroups(rest).Some?
    ensures DecodeGroups(EncodeGroup(a, b, c) + rest) == Some([a, b, c] + DecodeGroups(rest).value)
  {
    var (x, y, z) := (a as int, b as int, c as int);
    DecodeEncodeDigit(x / 4);
    DecodeEncodeDigit(x % 4 * 16 + y / 16);
    DecodeEncodeDigit(y % 16 * 4 + z / 64);
    DecodeEncodeDigit(z % 64);
    GroupArithmetic(x, y, z);
    assert (EncodeGroup(a, b, c) + rest)[4..] == rest;
  }

  lemma DecodeTail(a: nat, b: nat)
    requires a < 256 && b < 256
    ensures DecodeGroups([EncodeDigit(a / 4), EncodeDigit(a % 4 * 16)]) == Some([a as char])
    ensures DecodeGroups([EncodeDigit(a / 4), EncodeDigit(a % 4 * 16 + b / 16), EncodeDigit(b % 16 * 4)])
         == Some([a as char, b as char])
  {
    DecodeEncodeDigit(a / 4);
    DecodeEncodeDigit(a % 4 * 16);
    DecodeEncodeDigit(a % 4 * 16 + b / 16);
    DecodeEncodeDigit(b % 16 * 4);
    GroupArithmetic(a, b, 0);
    GroupArithmetic(a, 0, 0);
  }

  lemma {:induction false} DecodeGroupsEncode(s: string)
    requires IsBytes(s)
    ensures DecodeGroups(Base64Encode(s)) == Some(s)
  {
    if |s| == 1 {
      DecodeTail(s[0] as int, 0);
      assert s == [s[0]];
    } else if |s| == 2 {
      DecodeTail(s[0] as int, s[1] as int);
      assert s == [s[0], s[1]];
    } else if |s| >= 3 {
      assert s == [s[0], s[1], s[2]] + s[3..];
      DecodeGroupsEncode(s[3..]);
      DecodeOneGroup(s[0], s[1], s[2], Base64Encode(s[3..]));
    }
  }

  lemma Base64RoundTrip(s: string)
    requires IsBytes(s)
    ensures Base64Decode(Base64Encode(s)) == Some(s)
  {
    EncodeHasNoBreaks(s);
    DecodeGroupsEncode(s);
  }

  // ------------------------------------------------------------------- cursor

  predicate InInt64(pos: CursorPos) {
    IsInt64(pos.tsNS) && IsInt64(pos.rowid)
  }

  // Everything up to the first colon, and everything after it.
  function CutAtColon(s: string): Option<(string, string)> {
    if s == "" then None
    else if s[0] == ':' then Some(("", s[1..]))
    else
      match CutAtColon(s[1..])
      case None => None
      case Some((before, after)) => Some(([s[0]] + before, after))
  }

  lemma {:induction false} CutJoined(before: string, after: string)
    requires ':' !in before
    ensures CutAtColon(before + ":" + after) == Some((before, after))
  {
    var s := before + ":" + after;
    if before == "" {
      assert s[1..] == after;
    } else {
      CutJoined(before[1..], after);
      assert s[1..] == before[1..] + ":" + after;
      assert [s[0]] + before[1..] == before;
    }
  }

  function PlainCursor(pos: CursorPos): string {
    FormatInt(pos.tsNS) + ":" + FormatInt(pos.rowid)
  }

  function EncodeCursor(pos: CursorPos): string
  {
    ParseFormatInt(pos.tsNS);
    ParseFormatInt(pos.rowid);
    Base64Encode(PlainCursor(pos))
  }

  function DecodeCursor(cursor: string): (r: Option<CursorPos>)
    ensures r.Some? ==> InInt64(r.value)
  {
    match Base64Decode(cursor)
    case None => None
    case Some(decoded) =>
      match CutAtColon(decoded)
      case None => None
      case Some((tsPart, rowPart)) =>
        match (ParseInt(tsPart), ParseInt(rowPart))
        case (Some(tsNS), Some(rowid)) => Some(CursorPos(tsNS, rowid))
        case _ => None
  }

  // A cursor leads back to the position it was made from, for every int64 pair,
  // and is never the empty string that marks the end of the history.
  lemma CursorRoundTrip(pos: CursorPos)
    requires InInt64(pos)
    ensures DecodeCursor(EncodeCursor(pos)) == Some(pos)
    ensures EncodeCursor(pos) != ""
  {
    ParseFormatInt(pos.tsNS);
    ParseFormatInt(pos.rowid);
    Base64RoundTrip(PlainCursor(pos));
    CutJoined(FormatInt(pos.tsNS), FormatInt(pos.rowid));
  }
}
