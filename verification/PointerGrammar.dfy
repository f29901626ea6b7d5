/** The names of JSON Pointer, written down as a grammar of their own for both forms,
  against what the parser takes and the printer gives. The grammar follows RFC
  6901, sections 3 and 6, but what stands behind percent signs in a fragment is
  never a separator of names: an encoded solidus belongs to the name.
 */
module PointerGrammar {
  import opened Chars
  import opened Common
  import opened Utf8
  import opened JsonStrings
  import opened JsonPointer

  /** One part of a name: a character as it is, an escape for tilde or solidus, or, in
      a fragment only, the units of a character by percent signs. The text of the
      tilde is kept, as that may itself be percent-encoded in a fragment. */
  datatype Part = Plain(c: char) | Tilde(first: string, digit: char) | Encoded(u: string, hexes: seq<string>)

  /** The unreserved characters of RFC 3986, section 2.3, by their codes, but for the
      tilde: letters, digits, hyphen, period and underscore. */
  predicate Unreserved(c: char) {
    var n := c as int;
    65 <= n <= 90 || 97 <= n <= 122 || 48 <= n <= 57 || n == 45 || n == 46 || n == 95
  }

  predicate Hex2(hex: string, n: nat) {
    |hex| == 2 && n < 0x100 && IsHex(hex[0], n / 0x10) && IsHex(hex[1], n % 0x10)
  }

  predicate Proper(p: Part, uri: bool) {
    match p
    case Plain(c) => c != '/' && c != '~' && (uri ==> Unreserved(c))
    case Tilde(first, digit) => (first == "~" || (uri && (first == "%7E" || first == "%7e"))) && digit in "01"
    case Encoded(u, hexes) =>
      && uri && IsSequence(u) && u != "~" && |hexes| == |u|
      && forall i | 0 <= i < |u| :: Hex2(hexes[i], u[i] as int)
  }

  function HexText(hexes: seq<string>): string {
    if hexes == [] then "" else "%" + hexes[0] + HexText(hexes[1..])
  }

  function TextOf(p: Part): string {
    match p
    case Plain(c) => [c]
    case Tilde(first, digit) => first + [digit]
    case Encoded(_, hexes) => HexText(hexes)
  }

  function Meaning(p: Part): string {
    match p
    case Plain(c) => [c]
    case Tilde(_, digit) => if digit == '0' then "~" else "/"
    case Encoded(u, _) => u
  }

  predicate AllProper(ps: seq<Part>, uri: bool) {
    forall i | 0 <= i < |ps| :: Proper(ps[i], uri)
  }

  function TextOfAll(ps: seq<Part>): string {
    if ps == [] then "" else TextOf(ps[0]) + TextOfAll(ps[1..])
  }

  function MeaningOfAll(ps: seq<Part>): string {
    if ps == [] then "" else Meaning(ps[0]) + MeaningOfAll(ps[1..])
  }

  // --------------------------------------------------------- percent encoding

  /** Exactly the unreserved characters and the tilde need no percent sign. */
  lemma NeedsNoneIff(c: char)
    ensures !NeedPercentEncode(c) <==> Unreserved(c) || c == '~'
  {
  }

  lemma HexJoined(a: nat, b: nat)
    requires a < 16 && b < 16
    ensures var n := a * 16 + b; n < 0x100 && n / 0x10 == a && n % 0x10 == b && Unit(n) as int == n
  {
  }

  lemma TwoAhead(s: string, pos: nat, hex: string)
    requires |hex| == 2
    ensures Ahead(s, pos, "%" + hex)
            <==> pos + 3 <= |s| && s[pos] == '%' && s[pos + 1] == hex[0] && s[pos + 2] == hex[1]
  {
    if Ahead(s, pos, "%" + hex) {
      AheadAt(s, pos, "%" + hex, 0);
      AheadAt(s, pos, "%" + hex, 1);
      AheadAt(s, pos, "%" + hex, 2);
    } else if pos + 3 <= |s| {
      assert s[pos..pos + 3] == [s[pos], s[pos + 1], s[pos + 2]];
    }
  }

  lemma {:induction false} TripletFrom(s: string, pos: nat, hex: string, c: char)
    requires Hex2(hex, c as int) && Ahead(s, pos, "%" + hex)
    ensures pos + 3 <= |s| && s[pos] == '%' && Triplet(s, pos) == Some(c)
  {
    hide IsHex, HexDigit, Ahead;
    TwoAhead(s, pos, hex);
    HexDigitIff(hex[0], c as int / 0x10);
    HexDigitIff(hex[1], c as int % 0x10);
    HexJoined(c as int / 0x10, c as int % 0x10);
  }

  lemma {:induction false} TripletFound(s: string, pos: nat) returns (hex: string)
    requires Triplet(s, pos).Some?
    ensures pos + 3 <= |s| && s[pos] == '%' && Hex2(hex, Triplet(s, pos).value as int) && Ahead(s, pos, "%" + hex)
  {
    hide IsHex, HexDigit, Ahead;
    var a, b := HexDigit(s[pos + 1]).value, HexDigit(s[pos + 2]).value;
    hex := [s[pos + 1], s[pos + 2]];
    HexDigitIff(s[pos + 1], a);
    HexDigitIff(s[pos + 2], b);
    IsBelow16(s[pos + 1], a);
    IsBelow16(s[pos + 2], b);
    HexJoined(a, b);
    TwoAhead(s, pos, hex);
  }

  predicate HexesOf(hexes: seq<string>, u: string) {
    |hexes| == |u| && forall i | 0 <= i < |u| :: Hex2(hexes[i], u[i] as int)
  }

  lemma {:induction false} TripletsFrom(s: string, pos: nat, hexes: seq<string>, u: string)
    requires HexesOf(hexes, u) && Ahead(s, pos, HexText(hexes))
    ensures Triplets(s, pos, |u|) == Some(u) && |HexText(hexes)| == 3 * |u|
    decreases |u|
  {
    hide Hex2, Triplet, Ahead;
    if u != "" {
      HexIsTwo(hexes[0], u[0] as int);
      AheadTwo(s, pos, "%" + hexes[0], HexText(hexes[1..]));
      TripletFrom(s, pos, hexes[0], u[0]);
      TripletsFrom(s, pos + 3, hexes[1..], u[1..]);
      assert [u[0]] + u[1..] == u;
    }
  }

  lemma HexIsTwo(hex: string, n: nat)
    requires Hex2(hex, n)
    ensures |hex| == 2
  {
  }

  lemma {:induction false} TripletsFound(s: string, pos: nat, n: nat) returns (hexes: seq<string>)
    requires pos <= |s| && Triplets(s, pos, n).Some?
    ensures HexesOf(hexes, Triplets(s, pos, n).value) && Ahead(s, pos, HexText(hexes))
    ensures pos + 3 * n <= |s|
    decreases n
  {
    hide Hex2, Triplet;
    if n == 0 {
      hexes := [];
    } else {
      var hex := TripletFound(s, pos);
      var rest := TripletsFound(s, pos + 3, n - 1);
      hexes := [hex] + rest;
      HexIsTwo(hex, Triplet(s, pos).value as int);
      assert hexes[1..] == rest;
      AheadTwo(s, pos, "%" + hex, HexText(rest));
    }
  }

  /** The units behind percent signs are those of a whole right sequence, or an error. */
  lemma {:induction false} SequenceFrom(s: string, pos: nat, hexes: seq<string>, u: string)
    requires IsSequence(u) && HexesOf(hexes, u) && Ahead(s, pos, HexText(hexes))
    ensures DecodeSequence(s, pos) == Some(u) && |HexText(hexes)| == 3 * |u|
    ensures pos < |s| && s[pos] == '%' && pos + 3 * |u| <= |s|
  {
    hide Hex2, Triplet, Triplets, IsSequence;
    SequenceLength(u);
    TripletsFrom(s, pos, hexes, u);
    AheadTwo(s, pos, "%" + hexes[0], HexText(hexes[1..]));
    TripletFrom(s, pos, hexes[0], u[0]);
  }

  lemma {:induction false} SequenceFound(s: string, pos: nat) returns (hexes: seq<string>)
    requires pos <= |s| && DecodeSequence(s, pos).Some?
    ensures var u := DecodeSequence(s, pos).value;
            && IsSequence(u) && HexesOf(hexes, u) && Ahead(s, pos, HexText(hexes)) && |HexText(hexes)| == 3 * |u|
  {
    hide Hex2, Triplet, IsSequence;
    var u := DecodeSequence(s, pos).value;
    hexes := TripletsFound(s, pos, |u|);
    TripletsFrom(s, pos, hexes, u);
  }

  // -------------------------------------------------------------------- names

  lemma TildeAhead(s: string, pos: nat, digit: char)
    ensures Ahead(s, pos, "~" + [digit]) <==> pos + 2 <= |s| && s[pos] == '~' && s[pos + 1] == digit
  {
    if pos + 2 <= |s| {
      assert s[pos..pos + 2] == [s[pos], s[pos + 1]];
    }
  }

  /** The tilde behind percent signs. */
  lemma EncodedTilde(s: string, pos: nat, digit: char, first: string)
    requires (first == "%7E" || first == "%7e") && Ahead(s, pos, first + [digit])
    ensures pos + 4 <= |s| && s[pos] == '%' && s[pos + 3] == digit && DecodeSequence(s, pos) == Some("~")
  {
    hide Triplets, Ahead;
    AheadTwo(s, pos, first, [digit]);
    AheadAt(s, pos + 3, [digit], 0);
    var hex := first[1..];
    assert first == "%" + hex && HexText([hex]) == "%" + hex;
    assert Hex2(hex, '~' as int);
    SequenceOfOne('~');
    SequenceFrom(s, pos, [hex], "~");
  }

  lemma SequenceOfOne(c: char)
    requires (c as int) < 0x80
    ensures IsSequence([c])
  {
  }

  lemma {:induction false} PlainReads(s: string, pos: nat, c: char, uri: bool)
    requires c != '/' && c != '~' && (uri ==> Unreserved(c)) && Ahead(s, pos, [c])
    ensures pos + 1 <= |s| && ParseName(s, pos, uri) == Prepend([c], ParseName(s, pos + 1, uri))
  {
    hide DecodeSequence, NeedPercentEncode, Ahead;
    AheadAt(s, pos, [c], 0);
    NeedsNoneIff(c);
    NeedsNoneIff('%');
  }

  lemma {:induction false} TildeReads(s: string, pos: nat, first: string, digit: char, uri: bool)
    requires first == "~" || (uri && (first == "%7E" || first == "%7e"))
    requires digit in "01" && Ahead(s, pos, first + [digit])
    ensures var end := pos + |first| + 1;
            end <= |s|
            && ParseName(s, pos, uri) == Prepend(if digit == '0' then "~" else "/", ParseName(s, end, uri))
  {
    hide DecodeSequence, NeedPercentEncode, Ahead;
    NeedsNoneIff('~');
    NeedsNoneIff('%');
    if first == "~" {
      TildeAhead(s, pos, digit);
    } else {
      EncodedTilde(s, pos, digit, first);
    }
  }

  /** Each part of the grammar is read as what it means. */
  lemma {:induction false} PartReads(s: string, pos: nat, p: Part, uri: bool)
    requires Proper(p, uri) && Ahead(s, pos, TextOf(p))
    ensures pos + |TextOf(p)| <= |s|
    ensures ParseName(s, pos, uri) == Prepend(Meaning(p), ParseName(s, pos + |TextOf(p)|, uri))
  {
    hide ParseName, Ahead, HexText, Hex2, IsSequence;
    match p {
      case Plain(c) => PlainReads(s, pos, c, uri);
      case Tilde(first, digit) => TildeReads(s, pos, first, digit, uri);
      case Encoded(u, hexes) => EncodedReads(s, pos, u, hexes);
    }
  }

  lemma {:induction false} EncodedReads(s: string, pos: nat, u: string, hexes: seq<string>)
    requires IsSequence(u) && u != "~" && HexesOf(hexes, u) && Ahead(s, pos, HexText(hexes))
    ensures pos + |HexText(hexes)| <= |s|
    ensures ParseName(s, pos, true) == Prepend(u, ParseName(s, pos + |HexText(hexes)|, true))
  {
    hide DecodeSequence, NeedPercentEncode, IsSequence, HexText, Hex2, Ahead, HexesOf;
    SequenceFrom(s, pos, hexes, u);
    if |u| == 1 {
      assert u == [u[0]] && u[0] != '~';
    }
  }

  /** Whatever the parser takes is a part of the grammar. */
  lemma {:induction false} PartFound(s: string, pos: nat, uri: bool) returns (p: Part)
    requires pos < |s| && s[pos] != '/' && ParseName(s, pos, uri).Some?
    ensures Proper(p, uri) && Ahead(s, pos, TextOf(p)) && |TextOf(p)| >= 1
  {
    hide DecodeSequence, NeedPercentEncode, IsSequence, Hex2;
    var c := s[pos];
    NeedsNoneIff(c);
    if uri && c == '%' {
      var u := DecodeSequence(s, pos).value;
      var hexes := SequenceFound(s, pos);
      if u != "~" {
        p := Encoded(u, hexes);
      } else {
        p := TildeFound(s, pos, hexes[0], s[pos + 3]);
      }
    } else if c == '~' {
      p := Tilde("~", s[pos + 1]);
      TildeAhead(s, pos, s[pos + 1]);
    } else {
      p := Plain(c);
    }
  }

  lemma TildeFound(s: string, pos: nat, hex: string, digit: char) returns (p: Part)
    requires Hex2(hex, '~' as int) && digit in "01" && pos + 4 <= |s| && s[pos + 3] == digit
    requires Ahead(s, pos, HexText([hex]))
    ensures Proper(p, true) && Ahead(s, pos, TextOf(p)) && |TextOf(p)| >= 1
  {
    hide Ahead;
    assert HexText([hex]) == "%" + hex;
    assert hex == "7E" || hex == "7e" by {
      assert hex == [hex[0], hex[1]];
    }
    p := Tilde("%" + hex, digit);
    AheadTwo(s, pos, "%" + hex, [digit]);
    OneAhead(s, pos + 3);
  }

  lemma OneAhead(s: string, pos: nat)
    requires pos < |s|
    ensures Ahead(s, pos, [s[pos]])
  {
  }

  lemma {:induction false} PartsRead(s: string, pos: nat, ps: seq<Part>, uri: bool)
    requires AllProper(ps, uri) && NameEnds(s, pos, TextOfAll(ps))
    ensures pos <= |s| && ParseName(s, pos, uri) == Some((pos + |TextOfAll(ps)|, MeaningOfAll(ps)))
    decreases |ps|
  {
    hide Proper, TextOf, Meaning, NameEnds, ParseName;
    if ps == [] {
      NameIsOver(s, pos);
      NoName(s, pos, uri);
    } else {
      NameEndsTwo(s, pos, TextOf(ps[0]), TextOfAll(ps[1..]));
      PartReads(s, pos, ps[0], uri);
      PartsRead(s, pos + |TextOf(ps[0])|, ps[1..], uri);
    }
  }

  lemma NoName(s: string, pos: nat, uri: bool)
    requires pos <= |s| && (pos < |s| ==> s[pos] == '/')
    ensures ParseName(s, pos, uri) == Some((pos, ""))
  {
  }

  lemma {:induction false} PartsFound(s: string, pos: nat, uri: bool) returns (ps: seq<Part>)
    requires pos <= |s| && ParseName(s, pos, uri).Some?
    ensures AllProper(ps, uri) && NameEnds(s, pos, TextOfAll(ps))
    decreases |s| - pos
  {
    hide Proper, TextOf, Meaning, ParseName;
    if pos == |s| || s[pos] == '/' {
      ps := [];
    } else {
      var p := PartFound(s, pos, uri);
      PartReads(s, pos, p, uri);
      var rest := PartsFound(s, pos + |TextOf(p)|, uri);
      ps := [p] + rest;
      assert ps[1..] == rest;
      AheadTwo(s, pos, TextOf(p), TextOfAll(rest));
    }
  }

  /** A name is read exactly when it is written by the grammar, up to the next solidus or
      the end, and then as what the grammar says. */
  lemma NameIff(s: string, pos: nat, uri: bool, end: nat, name: string)
    requires pos <= |s|
    ensures ParseName(s, pos, uri) == Some((end, name))
            <==> exists ps :: AllProper(ps, uri) && NameEnds(s, pos, TextOfAll(ps))
                              && end == pos + |TextOfAll(ps)| && name == MeaningOfAll(ps)
  {
    hide ParseName, TextOfAll, MeaningOfAll, NameEnds;
    if ParseName(s, pos, uri) == Some((end, name)) {
      var ps := PartsFound(s, pos, uri);
      PartsRead(s, pos, ps, uri);
    }
    if ps :| AllProper(ps, uri) && NameEnds(s, pos, TextOfAll(ps))
             && end == pos + |TextOfAll(ps)| && name == MeaningOfAll(ps) {
      PartsRead(s, pos, ps, uri);
    }
  }

  // ------------------------------------------------------------ whole pointers

  function PointerText(pss: seq<seq<Part>>): string {
    if pss == [] then "" else "/" + (TextOfAll(pss[0]) + PointerText(pss[1..]))
  }

  function NamesOf(pss: seq<seq<Part>>): seq<string> {
    if pss == [] then [] else [MeaningOfAll(pss[0])] + NamesOf(pss[1..])
  }

  predicate EveryProper(pss: seq<seq<Part>>, uri: bool) {
    forall i | 0 <= i < |pss| :: AllProper(pss[i], uri)
  }

  lemma TextBegins(pss: seq<seq<Part>>)
    ensures PointerText(pss) != "" ==> PointerText(pss)[0] == '/'
  {
  }

  lemma {:induction false} TokensFrom(s: string, pos: nat, pss: seq<seq<Part>>, uri: bool)
    requires EveryProper(pss, uri) && pos <= |s| && s[pos..] == PointerText(pss)
    ensures (pos < |s| ==> s[pos] == '/') && ParseTokens(s, pos, uri) == Some(TokensOf(NamesOf(pss)))
    decreases |pss|
  {
    hide AllProper, TextOfAll, MeaningOfAll, ParseName, Index;
    if pss != [] {
      var text, rest := TextOfAll(pss[0]), PointerText(pss[1..]);
      assert s[pos..][0] == '/';
      assert s[pos..][1..] == text + rest == s[pos + 1..];
      var end := pos + 1 + |text|;
      assert s[pos + 1..end] == s[pos + 1..][..|text|] == text && s[end..] == s[pos + 1..][|text|..] == rest;
      TokensFrom(s, end, pss[1..], uri);
      PartsRead(s, pos + 1, pss[0], uri);
      TokensOfMore(MeaningOfAll(pss[0]), NamesOf(pss[1..]));
    }
  }

  lemma TokensOfMore(name: string, names: seq<string>)
    ensures TokensOf([name] + names) == [TokenOf(name)] + TokensOf(names)
  {
    hide Index;
    assert ([name] + names)[1..] == names;
  }

  lemma {:induction false} TokensFound(s: string, pos: nat, uri: bool) returns (pss: seq<seq<Part>>)
    requires pos <= |s| && (pos < |s| ==> s[pos] == '/') && ParseTokens(s, pos, uri).Some?
    ensures EveryProper(pss, uri) && s[pos..] == PointerText(pss)
    decreases |s| - pos
  {
    hide AllProper, TextOfAll, MeaningOfAll, ParseName, Index;
    if pos == |s| {
      pss := [];
    } else {
      var ps := PartsFound(s, pos + 1, uri);
      PartsRead(s, pos + 1, ps, uri);
      var end := pos + 1 + |TextOfAll(ps)|;
      var rest := TokensFound(s, end, uri);
      pss := [ps] + rest;
      assert pss[1..] == rest;
      assert s[pos + 1..end] == TextOfAll(ps);
      assert s[pos..] == "/" + (s[pos + 1..end] + s[end..]);
    }
  }

  /** A source is parsed exactly when it is written by the grammar: nothing, or a solidus
      before each name, and a number sign in front of all that in a fragment. Its
      tokens are then those of the names. */
  lemma PointerIff(source: string, tokens: seq<Token>)
    ensures Parse(source) == Some(tokens)
            <==> exists pss, uri :: EveryProper(pss, uri) && tokens == TokensOf(NamesOf(pss))
                                    && source == (if uri then "#" else "") + PointerText(pss)
  {
    hide ParseTokens, PointerText, NamesOf, TokensOf, EveryProper;
    if Parse(source) == Some(tokens) {
      var uri := source != "" && source[0] == '#';
      var start := if uri then 1 else 0;
      var pss := TokensFound(source, start, uri);
      TokensFrom(source, start, pss, uri);
      assert source == (if uri then "#" else "") + source[start..];
    }
    if pss, uri :| EveryProper(pss, uri) && tokens == TokensOf(NamesOf(pss))
                   && source == (if uri then "#" else "") + PointerText(pss) {
      var start := if uri then 1 else 0;
      TextBegins(pss);
      assert source[start..] == PointerText(pss);
      TokensFrom(source, start, pss, uri);
    }
  }

  // ----------------------------------------------------------------- printing

  /** How the printer writes the character at j: escapes for tilde and solidus; in a
      fragment, anything else that is not unreserved by its whole UTF-8 sequence, in
      upper case; and all else as it is. */
  lemma PrintedForm(name: string, j: nat, uri: bool)
    requires j < |name|
    ensures name[j] == '~' ==> StringifyName(name, j, uri) == Before("~0", StringifyName(name, j + 1, uri))
    ensures name[j] == '/' ==> StringifyName(name, j, uri) == Before("~1", StringifyName(name, j + 1, uri))
    ensures name[j] != '~' && name[j] != '/' && (uri ==> Unreserved(name[j])) ==>
              StringifyName(name, j, uri) == Before([name[j]], StringifyName(name, j + 1, uri))
    ensures var n := SequenceAhead(name, j);
            name[j] != '~' && name[j] != '/' && uri && !Unreserved(name[j]) && n > 0 ==>
              StringifyName(name, j, uri)
              == Before(PercentEncodeAll(name[j..j + n]), StringifyName(name, j + n, uri))
  {
    hide SequenceAhead, PercentEncodeAll;
    NeedsNoneIff(name[j]);
  }

  lemma PercentForm(c: char)
    requires (c as int) < 0x100
    ensures var t := PercentEncode(c);
            |t| == 3 && t[0] == '%' && t[1] == UPPER[c as int / 16] && t[2] == UPPER[c as int % 16]
  {
    hide HexChar;
    HexCharIs(c as int / 16);
    HexCharIs(c as int % 16);
  }

  lemma HexCharIs(n: nat)
    requires n < 16
    ensures HexChar(n) == UPPER[n]
  {
  }
}
