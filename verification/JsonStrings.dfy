/** The strings and escapes of JSON text, written down as a grammar of their own
  (RFC 8259, section 7), against what the parser takes.
 */
module JsonStrings {
  import opened Chars
  import opened Common
  import opened Utf8
  import opened JsonText
  import opened JsonWriter

  // ------------------------------------------------------------------ grammar

  /** One character as it may be written: as it is, as one of the short escapes, as an
      escape of four hex digits, or as a pair of those for one beyond 0xFFFF. */
  datatype Piece = Raw(c: char) | Short(c: char) | Code(n: nat, hex: string) | Pair(n: nat, high: string, low: string)

  const SHORT: map<char, nat> :=
    map['\"' := 34, '\\' := 92, '/' := 47, 'b' := 8, 'f' := 12, 'n' := 10, 'r' := 13, 't' := 9]

  const LOWER := "0123456789abcdef"
  const UPPER := "0123456789ABCDEF"

  predicate IsHex(c: char, n: nat) {
    n < 16 && (c == LOWER[n] || c == UPPER[n])
  }

  /** Four hex digits, in either case, that stand for n. */
  predicate Hex(hex: string, n: nat) {
    && |hex| == 4 && n < 0x10000
    && IsHex(hex[0], n / 0x1000) && IsHex(hex[1], n / 0x100 % 0x10) && IsHex(hex[2], n / 0x10 % 0x10)
    && IsHex(hex[3], n % 0x10)
  }

  /** The two halves of a code point beyond 0xFFFF in UTF-16. */
  function HighHalf(n: nat): nat
    requires 0x10000 <= n <= 0x10FFFF
  {
    0xD800 + (n - 0x10000) / 0x400
  }

  function LowHalf(n: nat): nat
    requires 0x10000 <= n <= 0x10FFFF
  {
    0xDC00 + (n - 0x10000) % 0x400
  }

  predicate Valid(p: Piece) {
    match p
    case Raw(c) => c as int >= 0x20 && c != '\"' && c != '\\'
    case Short(c) => c in SHORT
    case Code(n, hex) => Hex(hex, n) && !(0xD800 <= n <= 0xDBFF)
    case Pair(n, high, low) => 0x10000 <= n <= 0x10FFFF && Hex(high, HighHalf(n)) && Hex(low, LowHalf(n))
  }

  function Written(p: Piece): string {
    match p
    case Raw(c) => [c]
    case Short(c) => ['\\', c]
    case Code(_, hex) => ['\\', 'u'] + hex
    case Pair(_, high, low) => ['\\', 'u'] + high + (['\\', 'u'] + low)
  }

  function Meant(p: Piece): string
    requires Valid(p)
  {
    match p
    case Raw(c) => [c]
    case Short(c) => [SHORT[c] as char]
    case Code(n, _) => Encode(n)
    case Pair(n, _, _) => Encode(n)
  }

  predicate AllValid(ps: seq<Piece>) {
    forall i | 0 <= i < |ps| :: Valid(ps[i])
  }

  function AllWritten(ps: seq<Piece>): string {
    if ps == [] then "" else Written(ps[0]) + AllWritten(ps[1..])
  }

  function AllMeant(ps: seq<Piece>): string
    requires AllValid(ps)
  {
    if ps == [] then "" else Meant(ps[0]) + AllMeant(ps[1..])
  }

  // ---------------------------------------------------------------- hex digits

  lemma HexDigitIff(c: char, n: nat)
    ensures HexDigit(c) == Some(n) <==> IsHex(c, n)
  {
    if n < 10 {
      assert LOWER[n] == UPPER[n] == (('0' as int) + n) as char;
    } else if n < 16 {
      assert LOWER[n] == (('a' as int) + n - 10) as char && UPPER[n] == (('A' as int) + n - 10) as char;
    }
  }

  lemma DigitsJoined(a: nat, b: nat, c: nat, d: nat)
    requires a < 16 && b < 16 && c < 16 && d < 16
    ensures var n := ((a * 16 + b) * 16 + c) * 16 + d;
            n < 0x10000 && a == n / 0x1000 && b == n / 0x100 % 0x10 && c == n / 0x10 % 0x10 && d == n % 0x10
  {
    var n := ((a * 16 + b) * 16 + c) * 16 + d;
    assert n / 0x10 == (a * 16 + b) * 16 + c;
    assert n / 0x100 == a * 16 + b;
  }

  lemma DigitsSplit(n: nat)
    requires n < 0x10000
    ensures ((n / 0x1000 * 16 + n / 0x100 % 0x10) * 16 + n / 0x10 % 0x10) * 16 + n % 0x10 == n
  {
    assert n / 0x1000 * 16 + n / 0x100 % 0x10 == n / 0x100;
    assert n / 0x100 * 16 + n / 0x10 % 0x10 == n / 0x10;
  }

  lemma HexReads(s: string, pos: nat, n: nat)
    requires pos + 4 <= |s| && Hex(s[pos..pos + 4], n)
    ensures Hex4(s, pos) == Some(n)
  {
    hide IsHex, HexDigit;
    HexDigitIff(s[pos], n / 0x1000);
    HexDigitIff(s[pos + 1], n / 0x100 % 0x10);
    HexDigitIff(s[pos + 2], n / 0x10 % 0x10);
    HexDigitIff(s[pos + 3], n % 0x10);
    DigitsSplit(n);
  }

  lemma HexFound(s: string, pos: nat, a: nat, b: nat, c: nat, d: nat)
    requires pos + 4 <= |s| && HexDigit(s[pos]) == Some(a) && HexDigit(s[pos + 1]) == Some(b)
    requires HexDigit(s[pos + 2]) == Some(c) && HexDigit(s[pos + 3]) == Some(d)
    ensures Hex(s[pos..pos + 4], ((a * 16 + b) * 16 + c) * 16 + d)
  {
    hide IsHex, HexDigit;
    HexDigitIff(s[pos], a);
    HexDigitIff(s[pos + 1], b);
    HexDigitIff(s[pos + 2], c);
    HexDigitIff(s[pos + 3], d);
    IsBelow16(s[pos], a);
    IsBelow16(s[pos + 1], b);
    IsBelow16(s[pos + 2], c);
    IsBelow16(s[pos + 3], d);
    DigitsJoined(a, b, c, d);
  }

  lemma IsBelow16(c: char, n: nat)
    requires IsHex(c, n)
    ensures n < 16
  {
  }

  lemma NoDigitAtEnd()
    ensures HexDigit('\0') == None
  {
  }

  lemma Hex4Iff(s: string, pos: nat, n: nat)
    ensures Hex4(s, pos) == Some(n) <==> pos + 4 <= |s| && Hex(s[pos..pos + 4], n)
  {
    hide Hex, HexDigit;
    NoDigitAtEnd();
    if Hex4(s, pos) == Some(n) {
      HexFound(s, pos, HexDigit(s[pos]).value, HexDigit(s[pos + 1]).value, HexDigit(s[pos + 2]).value,
               HexDigit(s[pos + 3]).value);
    }
    if pos + 4 <= |s| && Hex(s[pos..pos + 4], n) {
      HexReads(s, pos, n);
    }
  }

  lemma FourAhead(s: string, pos: nat, hex: string)
    requires |hex| == 4
    ensures Ahead(s, pos, hex) <==> pos + 4 <= |s| && s[pos..pos + 4] == hex
  {
  }

  lemma EscapeAhead(s: string, pos: nat, rest: string)
    ensures Ahead(s, pos, ['\\', 'u'] + rest)
            <==> Peek(s, pos) == '\\' && Peek(s, pos + 1) == 'u' && Ahead(s, pos + 2, rest)
  {
    AheadTwo(s, pos, ['\\', 'u'], rest);
    if Ahead(s, pos, ['\\', 'u']) {
      AheadAt(s, pos, ['\\', 'u'], 0);
      AheadAt(s, pos, ['\\', 'u'], 1);
    }
  }

  /** What the parser makes of a code escape and of a pair. */
  lemma {:induction false} CodeReads(s: string, pos: nat, p: Piece)
    requires Valid(p) && (p.Code? || p.Pair?) && Ahead(s, pos, Written(p))
    ensures pos + 2 <= |s| && Peek(s, pos) == '\\' && Peek(s, pos + 1) == 'u'
    ensures UnicodeEscape(s, pos + 2) == Some((pos + |Written(p)|, p.n))
  {
    hide Hex4, Hex, Ahead;
    if p.Code? {
      EscapeAhead(s, pos, p.hex);
      HexIsFour(p.hex, p.n);
      FourAhead(s, pos + 2, p.hex);
      Hex4Iff(s, pos + 2, p.n);
    } else {
      PairReads(s, pos, p.n, p.high, p.low);
      HexIsFour(p.high, HighHalf(p.n));
      HexIsFour(p.low, LowHalf(p.n));
    }
  }

  lemma PairAhead(s: string, pos: nat, high: string, low: string)
    requires |high| == |low| == 4 && Ahead(s, pos, ['\\', 'u'] + high + (['\\', 'u'] + low))
    ensures pos + 12 <= |s| && Peek(s, pos) == Peek(s, pos + 6) == '\\' && Peek(s, pos + 1) == Peek(s, pos + 7) == 'u'
    ensures s[pos + 2..pos + 6] == high && s[pos + 8..pos + 12] == low
  {
    hide Ahead;
    var second := ['\\', 'u'] + low;
    assert ['\\', 'u'] + high + second == ['\\', 'u'] + (high + second);
    EscapeAhead(s, pos, high + second);
    AheadTwo(s, pos + 2, high, second);
    EscapeAhead(s, pos + 6, low);
    FourAhead(s, pos + 2, high);
    FourAhead(s, pos + 8, low);
  }

  lemma {:induction false} PairReads(s: string, pos: nat, n: nat, high: string, low: string)
    requires 0x10000 <= n <= 0x10FFFF && Hex(high, HighHalf(n)) && Hex(low, LowHalf(n))
    requires Ahead(s, pos, ['\\', 'u'] + high + (['\\', 'u'] + low))
    ensures pos + 2 <= |s| && Peek(s, pos) == '\\' && Peek(s, pos + 1) == 'u'
    ensures UnicodeEscape(s, pos + 2) == Some((pos + 12, n))
  {
    hide Hex4, Hex, Ahead;
    HexIsFour(high, HighHalf(n));
    HexIsFour(low, LowHalf(n));
    PairAhead(s, pos, high, low);
    Hex4Iff(s, pos + 2, HighHalf(n));
    Hex4Iff(s, pos + 8, LowHalf(n));
  }

  lemma HexIsFour(hex: string, n: nat)
    requires Hex(hex, n)
    ensures |hex| == 4
  {
  }

  /** Each piece of the grammar is read as what it means. */
  lemma {:induction false} PieceReads(s: string, pos: nat, p: Piece)
    requires pos <= |s| && Valid(p) && Ahead(s, pos, Written(p))
    ensures pos + |Written(p)| <= |s|
    ensures StringRest(s, pos) == JsonText.Put(Meant(p), StringRest(s, pos + |Written(p)|))
  {
    hide UnicodeEscape, Encode, Hex;
    match p {
      case Raw(c) => AheadAt(s, pos, [c], 0);
      case Short(c) =>
        AheadAt(s, pos, ['\\', c], 0);
        AheadAt(s, pos, ['\\', c], 1);
      case Code(_, _) => CodeReads(s, pos, p);
      case Pair(_, _, _) => CodeReads(s, pos, p);
    }
  }

  /** Behind `\u` from pos to end stands n: four hex digits, but for a high surrogate,
      or the two halves of n. */
  predicate Denotes(s: string, pos: nat, end: nat, n: nat) {
    || (pos + 4 <= |s| && end == pos + 4 && Hex(s[pos..pos + 4], n) && !(0xD800 <= n <= 0xDBFF))
    || (&& pos + 10 <= |s| && end == pos + 10 && 0x10000 <= n <= 0x10FFFF && Hex(s[pos..pos + 4], HighHalf(n))
        && s[pos + 4] == '\\' && s[pos + 5] == 'u' && Hex(s[pos + 6..pos + 10], LowHalf(n)))
  }

  lemma UnicodeEscapeIff(s: string, pos: nat, end: nat, n: nat)
    ensures UnicodeEscape(s, pos) == Some((end, n)) <==> Denotes(s, pos, end, n)
  {
    hide Hex4, Hex;
    if UnicodeEscape(s, pos) == Some((end, n)) {
      var first := Hex4(s, pos).value;
      Hex4Iff(s, pos, first);
      if 0xD800 <= first <= 0xDBFF {
        Hex4Iff(s, pos + 6, Hex4(s, pos + 6).value);
        assert HighHalf(n) == first && LowHalf(n) == Hex4(s, pos + 6).value;
      }
    }
    if Denotes(s, pos, end, n) {
      Hex4Iff(s, pos, n);
      if end == pos + 10 && 0x10000 <= n <= 0x10FFFF {
        Hex4Iff(s, pos, HighHalf(n));
        Hex4Iff(s, pos + 6, LowHalf(n));
      }
    }
  }

  lemma CodeFound(s: string, pos: nat) returns (p: Piece)
    requires pos + 2 <= |s| && s[pos] == '\\' && s[pos + 1] == 'u' && UnicodeEscape(s, pos + 2).Some?
    ensures Valid(p) && Ahead(s, pos, Written(p))
  {
    hide Hex4, Hex, Ahead;
    var first := Hex4(s, pos + 2).value;
    Hex4Iff(s, pos + 2, first);
    var high := s[pos + 2..pos + 6];
    FourAhead(s, pos + 2, high);
    if !(0xD800 <= first <= 0xDBFF) {
      p := Code(first, high);
      EscapeAhead(s, pos, high);
    } else {
      var second := Hex4(s, pos + 8).value;
      Hex4Iff(s, pos + 8, second);
      var low := s[pos + 8..pos + 12];
      FourAhead(s, pos + 8, low);
      var n := (first - 0xD800) * 0x400 + (second - 0xDC00) + 0x10000;
      p := Pair(n, high, low);
      assert HighHalf(n) == first && LowHalf(n) == second;
      EscapeAhead(s, pos + 6, low);
      AheadTwo(s, pos + 2, high, ['\\', 'u'] + low);
      EscapeAhead(s, pos, high + (['\\', 'u'] + low));
      assert Written(p) == ['\\', 'u'] + (high + (['\\', 'u'] + low));
    }
  }

  /** Whatever the parser takes is a piece of the grammar. */
  lemma {:induction false} PieceFound(s: string, pos: nat) returns (p: Piece)
    requires pos <= |s| && StringRest(s, pos).Some? && Peek(s, pos) != '\"'
    ensures Valid(p) && Ahead(s, pos, Written(p))
  {
    hide UnicodeEscape, Encode, Hex;
    var c := Peek(s, pos);
    if c != '\\' {
      p := Raw(c);
    } else if Unescaped(Peek(s, pos + 1)).Some? {
      p := Short(s[pos + 1]);
      assert s[pos..pos + 2] == ['\\', s[pos + 1]];
    } else {
      p := CodeFound(s, pos);
    }
  }

  // ------------------------------------------------------------ whole strings

  lemma {:induction false} PiecesRead(s: string, pos: nat, ps: seq<Piece>)
    requires pos <= |s| && AllValid(ps) && Ahead(s, pos, AllWritten(ps) + "\"")
    ensures StringRest(s, pos) == Some((pos + |AllWritten(ps)| + 1, AllMeant(ps)))
    decreases |ps|
  {
    hide Valid, Written, Meant;
    AheadTwo(s, pos, AllWritten(ps), "\"");
    if ps == [] {
      AheadAt(s, pos, "\"", 0);
    } else {
      var rest := AllWritten(ps[1..]);
      assert AllWritten(ps) + "\"" == Written(ps[0]) + (rest + "\"");
      AheadTwo(s, pos, Written(ps[0]), rest + "\"");
      PieceReads(s, pos, ps[0]);
      PiecesRead(s, pos + |Written(ps[0])|, ps[1..]);
    }
  }

  lemma {:induction false} PiecesFound(s: string, pos: nat) returns (ps: seq<Piece>)
    requires pos <= |s| && StringRest(s, pos).Some?
    ensures AllValid(ps) && Ahead(s, pos, AllWritten(ps) + "\"")
    decreases |s| - pos
  {
    hide Valid, Written, Meant, StringRest;
    if Peek(s, pos) == '\"' {
      ps := [];
    } else {
      var p := PieceFound(s, pos);
      PieceReads(s, pos, p);
      PieceIsWritten(p);
      var rest := PiecesFound(s, pos + |Written(p)|);
      ps := [p] + rest;
      assert ps[1..] == rest;
      AheadTwo(s, pos, Written(p), AllWritten(rest) + "\"");
      assert AllWritten(ps) + "\"" == Written(p) + (AllWritten(rest) + "\"");
    }
  }

  lemma PieceIsWritten(p: Piece)
    ensures |Written(p)| >= 1
  {
  }

  /** A string is read exactly when it is written by the grammar and closed, and then as
      what the grammar says: raw characters but controls, quote and backslash; the
      eight short escapes; four hex digits for a code point that is not a high
      surrogate; and a pair of surrogates for one beyond 0xFFFF. */
  lemma StringIff(s: string, pos: nat, end: nat, text: string)
    requires pos <= |s|
    ensures StringRest(s, pos) == Some((end, text))
            <==> exists ps :: AllValid(ps) && Ahead(s, pos, AllWritten(ps) + "\"")
                              && end == pos + |AllWritten(ps)| + 1 && text == AllMeant(ps)
  {
    hide StringRest, AllWritten, AllMeant;
    if StringRest(s, pos) == Some((end, text)) {
      var ps := PiecesFound(s, pos);
      PiecesRead(s, pos, ps);
    }
    if ps :| AllValid(ps) && Ahead(s, pos, AllWritten(ps) + "\"")
             && end == pos + |AllWritten(ps)| + 1 && text == AllMeant(ps) {
      PiecesRead(s, pos, ps);
    }
  }

  /** Every scalar value written as an escape, alone or as a pair, is read as its UTF-8
      encoding. */
  lemma ScalarEscapes(n: nat, hex: string, high: string, low: string, s: string, pos: nat)
    requires pos <= |s| && n <= 0x10FFFF && !(0xD800 <= n <= 0xDFFF)
    requires if n < 0x10000 then Hex(hex, n) && Ahead(s, pos, "\\u" + hex)
             else Hex(high, 0xD800 + (n - 0x10000) / 0x400) && Hex(low, 0xDC00 + (n - 0x10000) % 0x400)
                  && Ahead(s, pos, "\\u" + high + "\\u" + low)
    ensures var taken := if n < 0x10000 then 6 else 12;
            pos + taken <= |s| && StringRest(s, pos) == JsonText.Put(Encode(n), StringRest(s, pos + taken))
  {
    hide Ahead, Encode, StringRest;
    var p := if n < 0x10000 then Code(n, hex) else Pair(n, high, low);
    assert Written(p) == if n < 0x10000 then "\\u" + hex else "\\u" + high + "\\u" + low by {
      assert ['\\', 'u'] == "\\u";
      assert ['\\', 'u'] + high + (['\\', 'u'] + low) == "\\u" + high + "\\u" + low;
    }
    PieceReads(s, pos, p);
  }

  predicate EscapedAt(s: string, pos: nat, n: nat) {
    pos + 6 <= |s| && s[pos] == '\\' && s[pos + 1] == 'u' && Hex(s[pos + 2..pos + 6], n)
  }

  ghost predicate LowFollows(s: string, pos: nat) {
    exists n :: 0xDC00 <= n <= 0xDFFF && EscapedAt(s, pos, n)
  }

  /** A high surrogate without a low one behind it is refused. */
  lemma LoneHighIsRefused(s: string, pos: nat, n: nat)
    requires EscapedAt(s, pos, n) && 0xD800 <= n <= 0xDBFF
    requires !LowFollows(s, pos + 6)
    ensures StringRest(s, pos) == None
  {
    hide Hex, Hex4, Encode;
    Hex4Iff(s, pos + 2, n);
    var second := Hex4(s, pos + 8);
    if second.Some? {
      Hex4Iff(s, pos + 8, second.value);
      assert Peek(s, pos + 6) == '\\' && Peek(s, pos + 7) == 'u' ==> EscapedAt(s, pos + 6, second.value);
    }
    assert UnicodeEscape(s, pos + 2) == None;
  }

  // ----------------------------------------------------------------- printing

  /** The printer's form of a character: the quote and the backslash behind a backslash,
      the five controls that have a letter by that, any other control by four hex
      digits in upper case, and all else as it is. */
  lemma PrintedForm(c: char)
    ensures c == '\"' ==> EscapeChar(c) == "\\\""
    ensures c == '\\' ==> EscapeChar(c) == "\\\\"
    ensures c as int == 8 ==> EscapeChar(c) == "\\b"
    ensures c as int == 12 ==> EscapeChar(c) == "\\f"
    ensures c as int == 10 ==> EscapeChar(c) == "\\n"
    ensures c as int == 13 ==> EscapeChar(c) == "\\r"
    ensures c as int == 9 ==> EscapeChar(c) == "\\t"
    ensures (c as int < 0x20 && c as int !in {8, 9, 10, 12, 13}) ==>
              EscapeChar(c) == "\\u00" + [UPPER[c as int / 16], UPPER[c as int % 16]]
    ensures c as int >= 0x20 && c != '\"' && c != '\\' ==> EscapeChar(c) == [c]
  {
    if c as int < 0x20 {
      HexDigitIff(HexChar(c as int / 16), c as int / 16);
      HexDigitIff(HexChar(c as int % 16), c as int % 16);
    }
  }
}
