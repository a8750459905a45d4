/** The URL decoder of uri.c. */
module UrlDecode {
  import opened CStrings

  predicate IsHex(c: char) {
    '0' <= c <= '9' || 'a' <= c <= 'f' || 'A' <= c <= 'F'
  }

  function HexValue(c: char): (v: nat)
    requires IsHex(c)
    ensures v < 16
  {
    if c >= 'a' then c as int - 'a' as int + 10
    else if c >= 'A' then c as int - 'A' as int + 10
    else c as int - '0' as int
  }

  /** A complete escape starts here; a stray '%' is an ordinary character. */
  predicate EscapeAt(s: string, i: nat) {
    i + 2 < |s| && s[i] == '%' && IsHex(s[i + 1]) && IsHex(s[i + 2])
  }

  function Unescape(hi: char, lo: char): char
    requires IsHex(hi) && IsHex(lo)
  {
    (16 * HexValue(hi) + HexValue(lo)) as char
  }

  function Decoded(s: string): (d: string)
    ensures |d| <= |s|
  {
    if s == "" then ""
    else if EscapeAt(s, 0) then [Unescape(s[1], s[2])] + Decoded(s[3..])
    else [if s[0] == '+' then ' ' else s[0]] + Decoded(s[1..])
  }

  lemma {:induction false} StrlenOfTerminated(s: string, rest: string)
    ensures Strlen(s + ['\0'] + rest) == Strlen(s)
  {
    var t := s + ['\0'] + rest;
    if s != "" && s[0] != '\0' {
      assert t[1..] == s[1..] + ['\0'] + rest;
      StrlenOfTerminated(s[1..], rest);
    }
  }

  /**
   * Decode the NUL-terminated string `src` into a fresh buffer of srcsz + 1 characters, in one
   * pass. The output never outruns the input, so the buffer is never overrun.
   */
  method Decode(src: string, srcsz: nat) returns (dst: array<char>, dstsz: nat)
    requires '\0' !in src && (srcsz == 0 || |src| <= srcsz)
    ensures fresh(dst) && dst.Length == srcsz + 1
    ensures srcsz == 0 ==> dstsz == 0 && dst[0] == '\0'
    ensures srcsz > 0 ==>
              && dst[..|Decoded(src)|] == Decoded(src) && dst[|Decoded(src)|] == '\0'
              && dstsz == Strlen(Decoded(src)) == Strlen(dst[..])
  {
    dst := new char[srcsz + 1](_ => '\0');
    if srcsz == 0 {
      return dst, 0;
    }
    var i, n := 0, 0;
    while i < |src|
      invariant n <= i <= |src|
      invariant dst[..n] + Decoded(src[i..]) == Decoded(src)
    {
      NextDecoded(src, i);
      ghost var before := dst[..n];
      if EscapeAt(src, i) {
        dst[n] := Unescape(src[i + 1], src[i + 2]);
        i := i + 3;
      } else {
        dst[n] := if src[i] == '+' then ' ' else src[i];
        i := i + 1;
      }
      assert dst[..n + 1] == before + [dst[n]];
      MoveOne(before, dst[n], Decoded(src[i..]));
      n := n + 1;
    }
    assert src[i..] == "" && dst[..n] + "" == dst[..n];
    dst[n] := '\0';
    assert dst[..] == dst[..n] + ['\0'] + dst[n + 1..];
    StrlenOfTerminated(dst[..n], dst[n + 1..]);
    dstsz := Strlen(dst[..]);
  }

  lemma {:induction false} MoveOne(done: string, c: char, rest: string)
    ensures done + ([c] + rest) == done + [c] + rest
  {
  }

  lemma {:induction false} NextDecoded(s: string, i: nat)
    requires i < |s|
    ensures EscapeAt(s, i) ==> Decoded(s[i..]) == [Unescape(s[i + 1], s[i + 2])] + Decoded(s[i + 3..])
    ensures !EscapeAt(s, i) ==> Decoded(s[i..]) == [if s[i] == '+' then ' ' else s[i]] + Decoded(s[i + 1..])
  {
    var t := s[i..];
    assert EscapeAt(s, i) == EscapeAt(t, 0);
    assert t[1..] == s[i + 1..];
    if EscapeAt(s, i) {
      assert t[3..] == s[i + 3..];
    }
  }

  // ----- it inverts every percent-encoding

  /** One character of an encoded text: as it is, a '+' for a blank, or an escape. */
  datatype Piece = Literal(c: char) | Plus | Escape(hi: char, lo: char)

  predicate Legal(p: Piece) {
    match p
    case Literal(c) => c != '%' && c != '+'
    case Plus => true
    case Escape(hi, lo) => IsHex(hi) && IsHex(lo)
  }

  type LegalPiece = p: Piece | Legal(p) witness Plus

  function Spell(ps: seq<LegalPiece>): string {
    if ps == [] then ""
    else (match ps[0]
          case Literal(c) => [c]
          case Plus => "+"
          case Escape(hi, lo) => ['%', hi, lo]) + Spell(ps[1..])
  }

  function Meaning(ps: seq<LegalPiece>): string {
    if ps == [] then ""
    else [match ps[0]
          case Literal(c) => c
          case Plus => ' '
          case Escape(hi, lo) => Unescape(hi, lo)] + Meaning(ps[1..])
  }

  /** Whichever characters an encoder chose to escape, in whichever case, decoding undoes it. */
  lemma {:induction false} DecodesAnyEncoding(ps: seq<LegalPiece>)
    ensures Decoded(Spell(ps)) == Meaning(ps)
  {
    if ps != [] {
      DecodesAnyEncoding(ps[1..]);
      var s, rest := Spell(ps), Spell(ps[1..]);
      match ps[0]
      case Literal(c) => assert s[1..] == rest;
      case Plus => assert s[1..] == rest;
      case Escape(hi, lo) => assert s[3..] == rest;
    }
  }

  function HexDigit(n: nat): (c: char)
    requires n < 16
    ensures IsHex(c) && HexValue(c) == n
  {
    if n < 10 then ('0' as int + n) as char else ('A' as int + n - 10) as char
  }

  predicate Unreserved(c: char) {
    '0' <= c <= '9' || 'a' <= c <= 'z' || 'A' <= c <= 'Z' || c == '-' || c == '.' || c == '_' || c == '~'
  }

  predicate Bytes(s: string) { forall i :: 0 <= i < |s| ==> s[i] as int < 256 }

  /** The usual encoder: unreserved characters as they are, '+' for a blank, escapes for the rest. */
  function Encode(s: string): (ps: seq<LegalPiece>)
    requires Bytes(s)
  {
    if s == "" then []
    else
      var c := s[0];
      [if Unreserved(c) then Literal(c) else if c == ' ' then Plus
       else Escape(HexDigit(c as int / 16), HexDigit(c as int % 16))] + Encode(s[1..])
  }

  /** Decoding the encoding of a byte string gives it back, with its length if it has no NUL. */
  lemma {:induction false} DecodeInvertsEncode(s: string)
    requires Bytes(s)
    ensures Decoded(Spell(Encode(s))) == s
    ensures '\0' !in s ==> Strlen(Decoded(Spell(Encode(s)))) == |s|
  {
    DecodesAnyEncoding(Encode(s));
    EncodeMeans(s);
  }

  lemma {:induction false} EncodeMeans(s: string)
    requires Bytes(s)
    ensures Meaning(Encode(s)) == s
  {
    if s != "" {
      EncodeMeans(s[1..]);
      assert Encode(s)[1..] == Encode(s[1..]);
    }
  }

  /** The value of a hexadecimal digit, in either case; no other character is one. */
  lemma {:induction false} HexDigits(k: nat)
    requires k < 16
    ensures IsHex("0123456789abcdef"[k]) && HexValue("0123456789abcdef"[k]) == k
    ensures IsHex("0123456789ABCDEF"[k]) && HexValue("0123456789ABCDEF"[k]) == k
  {
  }

  lemma {:induction false} OnlyHexDigits(c: char)
    requires IsHex(c)
    ensures c in "0123456789abcdefABCDEF"
  {
    var digits := "0123456789abcdefABCDEF";
    if c >= 'a' {
      assert digits[10 + (c as int - 'a' as int)] == c;
    } else if c >= 'A' {
      assert digits[16 + (c as int - 'A' as int)] == c;
    } else {
      assert digits[c as int - '0' as int] == c;
    }
  }

  /** A '%' without two hexadecimal digits behind it stays, and so does what follows it. */
  lemma {:induction false} StrayPercent(rest: string)
    requires |rest| < 2 || rest[0] !in "0123456789abcdefABCDEF" || rest[1] !in "0123456789abcdefABCDEF"
    ensures Decoded("%" + rest) == "%" + Decoded(rest)
  {
    var s := "%" + rest;
    assert s[1..] == rest;
    if EscapeAt(s, 0) {
      OnlyHexDigits(s[1]);
      OnlyHexDigits(s[2]);
    }
  }

  /** The pieces of a legal text without '%' and '+' mean the text itself. */
  lemma {:induction false} PlainTextDecodes(s: string, rest: string)
    requires '%' !in s && '+' !in s
    ensures Decoded(s + rest) == s + Decoded(rest)
  {
    if s == "" {
      assert s + rest == rest;
    } else {
      assert (s + rest)[1..] == s[1..] + rest;
      PlainTextDecodes(s[1..], rest);
    }
  }
}
