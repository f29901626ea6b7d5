/** JSON Pointers (RFC 6901) parsed and printed, in the plain form and in the form
  of a URI fragment.
 */
module JsonPointer {
  import opened Chars
  import opened Common
  import opened Utf8

  /** The index is the number that the name is, or INVALID_INDEX. */
  datatype Token = Token(name: string, index: nat)

  const INVALID_INDEX := 0xFFFF_FFFF
  const INDEX_LIMIT := 0x1_0000_0000

  /** A name that stands for a number: digits without a leading zero. */
  predicate IsNumber(name: string) {
    name != "" && AllDigits(name) && (|name| > 1 ==> name[0] != '0')
  }

  /** The number read in 32 bits; None when a step is seen to wrap, which it is only
      when the result is smaller than before. */
  function Wrapped(name: string): (n: Option<nat>)
    requires AllDigits(name)
    ensures n.Some? ==> n.value < INDEX_LIMIT
  {
    if name == "" then Some(0)
    else
      var front := Wrapped(name[..|name| - 1]);
      if front.None? then None
      else
        var m := (front.value * 10 + Digit(name[|name| - 1])) % INDEX_LIMIT;
        if m < front.value then None else Some(m)
  }

  function Index(name: string): nat {
    if !IsNumber(name) then INVALID_INDEX
    else
      var n := Wrapped(name);
      if n.None? then INVALID_INDEX else n.value
  }

  function TokenOf(name: string): Token {
    Token(name, Index(name))
  }

  function TokensOf(names: seq<string>): seq<Token> {
    if names == [] then [] else [TokenOf(names[0])] + TokensOf(names[1..])
  }

  // ------------------------------------------------------------------- parsing

  predicate NeedPercentEncode(c: char) {
    !(IsDigit(c) || 'A' <= c <= 'Z' || 'a' <= c <= 'z' || c == '-' || c == '.' || c == '_' || c == '~')
  }

  /** `PercentDecodeStream::Take`: the unit behind a percent sign. */
  function Triplet(s: string, pos: nat): Option<char> {
    if pos + 3 > |s| || s[pos] != '%' then None
    else
      var a, b := HexDigit(s[pos + 1]), HexDigit(s[pos + 2]);
      if a.Some? && b.Some? then Some(Unit(a.value * 16 + b.value)) else None
  }

  function Triplets(s: string, pos: nat, n: nat): (r: Option<string>)
    ensures r.Some? ==> |r.value| == n && pos + 3 * n <= |s| + (if n == 0 then pos else 0)
    decreases n
  {
    if n == 0 then Some("")
    else
      var a, rest := Triplet(s, pos), Triplets(s, pos + 3, n - 1);
      if a.Some? && rest.Some? then Some([a.value] + rest.value) else None
  }

  /** The sequence of units that the percent signs at pos stand for. */
  function DecodeSequence(s: string, pos: nat): (r: Option<string>)
    ensures r.Some? ==> r.value != "" && pos + 3 * |r.value| <= |s|
  {
    var lead := Triplet(s, pos);
    if lead.None? || Announced(lead.value) == 0 then None
    else
      var u := Triplets(s, pos, Announced(lead.value));
      if u.Some? && IsSequence(u.value) then u else None
  }

  /** The rest of a name: where it ends, and its characters. */
  function ParseName(s: string, pos: nat, uri: bool): (r: Option<(nat, string)>)
    requires pos <= |s|
    ensures r.Some? ==> pos <= r.value.0 <= |s| && (r.value.0 < |s| ==> s[r.value.0] == '/')
    decreases |s| - pos, 1
  {
    if pos == |s| || s[pos] == '/' then Some((pos, ""))
    else if uri && s[pos] == '%' then
      var u := DecodeSequence(s, pos);
      if u.None? then None
      else if |u.value| == 1 then ParseTilde(s, pos + 3, u.value[0], uri)
      else Prepend(u.value, ParseName(s, pos + 3 * |u.value|, uri))
    else if uri && NeedPercentEncode(s[pos]) then None
    else ParseTilde(s, pos + 1, s[pos], uri)
  }

  /** A character, taken already, that may be the first of an escape. */
  function ParseTilde(s: string, pos: nat, c: char, uri: bool): (r: Option<(nat, string)>)
    requires pos <= |s|
    ensures r.Some? ==> pos <= r.value.0 <= |s| && (r.value.0 < |s| ==> s[r.value.0] == '/')
    decreases |s| - pos, 2
  {
    if c != '~' then Prepend([c], ParseName(s, pos, uri))
    else if pos < |s| && s[pos] == '0' then Prepend("~", ParseName(s, pos + 1, uri))
    else if pos < |s| && s[pos] == '1' then Prepend("/", ParseName(s, pos + 1, uri))
    else None
  }

  function Prepend(front: string, rest: Option<(nat, string)>): (r: Option<(nat, string)>)
    ensures r.Some? <==> rest.Some?
    ensures r.Some? ==> r.value.0 == rest.value.0
  {
    if rest.None? then None else Some((rest.value.0, front + rest.value.1))
  }

  function ParseTokens(s: string, pos: nat, uri: bool): Option<seq<Token>>
    requires pos <= |s| && (pos < |s| ==> s[pos] == '/')
    decreases |s| - pos
  {
    if pos == |s| then Some([])
    else
      var name := ParseName(s, pos + 1, uri);
      if name.None? then None
      else
        var rest := ParseTokens(s, name.value.0, uri);
        if rest.None? then None else Some([TokenOf(name.value.1)] + rest.value)
  }

  /** `Parse`: a number sign in front makes it a URI fragment. */
  function Parse(source: string): Option<seq<Token>> {
    var uri := source != "" && source[0] == '#';
    var start := if uri then 1 else 0;
    if start < |source| && source[start] != '/' then None else ParseTokens(source, start, uri)
  }

  // ------------------------------------------------------------------ printing

  /** `PercentEncodeStream::Put`. */
  function PercentEncode(c: char): string {
    var u := c as int % 0x100;
    ['%', HexChar(u / 16), HexChar(u % 16)]
  }

  function PercentEncodeAll(s: string): string {
    if s == "" then "" else PercentEncode(s[0]) + PercentEncodeAll(s[1..])
  }

  /** A name printed from position j on; None when it is not UTF-8 there. */
  function StringifyName(name: string, j: nat, uri: bool): Option<string>
    requires j <= |name|
    decreases |name| - j
  {
    if j == |name| then Some("")
    else if name[j] == '~' then Before("~0", StringifyName(name, j + 1, uri))
    else if name[j] == '/' then Before("~1", StringifyName(name, j + 1, uri))
    else if uri && NeedPercentEncode(name[j]) then
      var n := SequenceAhead(name, j);
      if n == 0 then None else Before(PercentEncodeAll(name[j..j + n]), StringifyName(name, j + n, uri))
    else Before([name[j]], StringifyName(name, j + 1, uri))
  }

  function Before(front: string, rest: Option<string>): Option<string> {
    if rest.None? then None else Some(front + rest.value)
  }

  function StringifyTokens(tokens: seq<Token>, uri: bool): Option<string> {
    if tokens == [] then Some("")
    else
      var name, rest := StringifyName(tokens[0].name, 0, uri), StringifyTokens(tokens[1..], uri);
      if name.None? || rest.None? then None else Some("/" + (name.value + rest.value))
  }

  function Stringify(tokens: seq<Token>, uri: bool): Option<string> {
    if uri then Before("#", StringifyTokens(tokens, uri)) else StringifyTokens(tokens, uri)
  }

  // ------------------------------------------------------- percent encoding

  lemma TripletReads(s: string, pos: nat, c: char)
    requires c as int < 0x100 && Ahead(s, pos, PercentEncode(c))
    ensures Triplet(s, pos) == Some(c)
  {
    var t := PercentEncode(c);
    AheadAt(s, pos, t, 0);
    AheadAt(s, pos, t, 1);
    AheadAt(s, pos, t, 2);
    HexRoundTrip(c as int / 16);
    HexRoundTrip(c as int % 16);
  }

  lemma {:induction false} TripletsRead(s: string, pos: nat, u: string)
    requires (forall i | 0 <= i < |u| :: u[i] as int < 0x100) && Ahead(s, pos, PercentEncodeAll(u))
    ensures Triplets(s, pos, |u|) == Some(u) && |PercentEncodeAll(u)| == 3 * |u|
    decreases |u|
  {
    hide PercentEncode, Triplet;
    if u != "" {
      ThreeLong(u[0]);
      AheadTwo(s, pos, PercentEncode(u[0]), PercentEncodeAll(u[1..]));
      TripletReads(s, pos, u[0]);
      TripletsRead(s, pos + 3, u[1..]);
      assert [u[0]] + u[1..] == u;
    }
  }

  lemma ThreeLong(c: char)
    ensures |PercentEncode(c)| == 3 && PercentEncode(c)[0] == '%'
  {
  }

  lemma SequenceIsBytes(u: string)
    requires IsSequence(u)
    ensures forall i | 0 <= i < |u| :: u[i] as int < 0x100
  {
    hide Trans;
    TransIs(u[0]);
    if |u| >= 2 {
      TransIs(u[1]);
    }
    if |u| >= 3 {
      TransIs(u[2]);
    }
    if |u| >= 4 {
      TransIs(u[3]);
    }
  }

  /** A percent-encoded sequence is decoded as that sequence. */
  lemma SequenceReads(s: string, pos: nat, u: string)
    requires IsSequence(u) && Ahead(s, pos, PercentEncodeAll(u))
    ensures |PercentEncodeAll(u)| == 3 * |u| && DecodeSequence(s, pos) == Some(u)
    ensures pos < |s| && s[pos] == '%'
  {
    hide PercentEncode, Triplet, Triplets, IsSequence;
    assert u != "" && |u| == Announced(u[0]) by {
      SequenceLength(u);
    }
    SequenceIsBytes(u);
    TripletsRead(s, pos, u);
    ThreeLong(u[0]);
    AheadTwo(s, pos, PercentEncode(u[0]), PercentEncodeAll(u[1..]));
    AheadAt(s, pos, PercentEncode(u[0]), 0);
    TripletReads(s, pos, u[0]);
  }

  lemma SequenceLength(u: string)
    requires IsSequence(u)
    ensures u != "" && |u| == Announced(u[0])
  {
  }

  // ------------------------------------------------------------ the round trip

  /** The text stands in s at pos, and then the name is over. */
  predicate NameEnds(s: string, pos: nat, text: string) {
    Ahead(s, pos, text) && (pos + |text| == |s| || (pos + |text| < |s| && s[pos + |text|] == '/'))
  }

  lemma NameEndsTwo(s: string, pos: nat, a: string, b: string)
    requires NameEnds(s, pos, a + b)
    ensures Ahead(s, pos, a) && NameEnds(s, pos + |a|, b)
  {
    AheadTwo(s, pos, a, b);
  }

  /** Reading a printed name gives the name. */
  lemma {:induction false} NameReads(s: string, pos: nat, name: string, j: nat, uri: bool)
    requires j <= |name| && StringifyName(name, j, uri).Some?
    requires NameEnds(s, pos, StringifyName(name, j, uri).value)
    ensures pos <= |s|
    ensures ParseName(s, pos, uri) == Some((pos + |StringifyName(name, j, uri).value|, name[j..]))
    decreases |name| - j, 1
  {
    hide DecodeSequence, SequenceAhead, PercentEncodeAll, NeedPercentEncode, IsSequence, NameEnds;
    if j == |name| {
      assert name[j..] == "";
      NameIsOver(s, pos);
    } else {
      var c := name[j];
      if c == '~' || c == '/' {
        EscapeReads(s, pos, name, j, uri);
      } else if uri && NeedPercentEncode(c) {
        SequenceNameReads(s, pos, name, j);
      } else {
        NameEndsTwo(s, pos, [c], StringifyName(name, j + 1, uri).value);
        AheadAt(s, pos, [c], 0);
        NameReads(s, pos + 1, name, j + 1, uri);
        TildeIsPlain();
        assert name[j..] == [c] + name[j + 1..];
      }
    }
  }

  lemma NameIsOver(s: string, pos: nat)
    requires NameEnds(s, pos, "")
    ensures pos <= |s| && (pos < |s| ==> s[pos] == '/')
  {
  }

  lemma {:induction false} EscapeReads(s: string, pos: nat, name: string, j: nat, uri: bool)
    requires j < |name| && (name[j] == '~' || name[j] == '/') && StringifyName(name, j, uri).Some?
    requires NameEnds(s, pos, StringifyName(name, j, uri).value)
    ensures pos <= |s|
    ensures ParseName(s, pos, uri) == Some((pos + |StringifyName(name, j, uri).value|, name[j..]))
    decreases |name| - j, 0
  {
    hide DecodeSequence, SequenceAhead, PercentEncodeAll, NeedPercentEncode, IsSequence, NameEnds;
    var front := if name[j] == '~' then "~0" else "~1";
    NameEndsTwo(s, pos, front, StringifyName(name, j + 1, uri).value);
    AheadAt(s, pos, front, 0);
    AheadAt(s, pos, front, 1);
    NameReads(s, pos + 2, name, j + 1, uri);
    TildeIsPlain();
    assert name[j..] == [name[j]] + name[j + 1..];
  }

  lemma TildeIsPlain()
    ensures !NeedPercentEncode('~') && NeedPercentEncode('%')
  {
  }

  lemma {:induction false} SequenceNameReads(s: string, pos: nat, name: string, j: nat)
    requires j < |name| && StringifyName(name, j, true).Some? && NeedPercentEncode(name[j])
    requires name[j] != '~' && name[j] != '/' && NameEnds(s, pos, StringifyName(name, j, true).value)
    ensures pos <= |s|
    ensures ParseName(s, pos, true) == Some((pos + |StringifyName(name, j, true).value|, name[j..]))
    decreases |name| - j, 0
  {
    hide DecodeSequence, SequenceAhead, PercentEncodeAll, NeedPercentEncode, IsSequence, NameEnds;
    var n := SequenceAhead(name, j);
    var u := name[j..j + n];
    NameEndsTwo(s, pos, PercentEncodeAll(u), StringifyName(name, j + n, true).value);
    SequenceReads(s, pos, u);
    NameReads(s, pos + 3 * n, name, j + n, true);
    assert name[j..] == u + name[j + n..];
    assert n == 1 ==> u == [name[j]];
  }

  lemma {:induction false} TokensRead(s: string, pos: nat, names: seq<string>, uri: bool)
    requires StringifyTokens(TokensOf(names), uri).Some?
    requires Ahead(s, pos, StringifyTokens(TokensOf(names), uri).value)
    requires pos + |StringifyTokens(TokensOf(names), uri).value| == |s|
    ensures pos <= |s| && (pos < |s| ==> s[pos] == '/')
    ensures ParseTokens(s, pos, uri) == Some(TokensOf(names))
    decreases |names|
  {
    hide StringifyName, ParseName, Index, Ahead;
    if names != [] {
      var tokens := TokensOf(names);
      assert tokens[0].name == names[0] && tokens[1..] == TokensOf(names[1..]);
      var text := StringifyName(names[0], 0, uri).value;
      var rest := StringifyTokens(tokens[1..], uri).value;
      AheadTwo(s, pos, "/", text + rest);
      AheadTwo(s, pos + 1, text, rest);
      AheadAt(s, pos, "/", 0);
      TokensRead(s, pos + 1 + |text|, names[1..], uri);
      NameReads(s, pos + 1, names[0], 0, uri);
      assert names[0][0..] == names[0];
    }
  }

  lemma {:induction false} PlainPrints(name: string, j: nat)
    requires j <= |name|
    ensures StringifyName(name, j, false).Some?
    decreases |name| - j
  {
    if j < |name| {
      PlainPrints(name, j + 1);
    }
  }

  lemma {:induction false} PlainTokensPrint(tokens: seq<Token>)
    ensures StringifyTokens(tokens, false).Some?
    ensures StringifyTokens(tokens, false).value != "" ==> StringifyTokens(tokens, false).value[0] == '/'
    decreases |tokens|
  {
    if tokens != [] {
      PlainPrints(tokens[0].name, 0);
      PlainTokensPrint(tokens[1..]);
    }
  }

  /** Plain form: every list of names is printed, and read back with the same names
      and indices. */
  lemma PlainRoundTrip(names: seq<string>)
    ensures Stringify(TokensOf(names), false).Some?
    ensures Parse(Stringify(TokensOf(names), false).value) == Some(TokensOf(names))
  {
    hide StringifyTokens, ParseTokens, TokensOf;
    var tokens := TokensOf(names);
    PlainTokensPrint(tokens);
    var text := Stringify(tokens, false).value;
    assert text[0..0 + |text|] == text;
    TokensRead(text, 0, names, false);
  }

  /** A name is UTF-8: whole right sequences from j on. */
  predicate WellFormed(name: string, j: nat)
    requires j <= |name|
    decreases |name| - j
  {
    j == |name| || (SequenceAhead(name, j) > 0 && WellFormed(name, j + SequenceAhead(name, j)))
  }

  lemma AsciiIsSequence(name: string, j: nat)
    requires j < |name| && (name[j] as int) < 0x80
    ensures SequenceAhead(name, j) == 1
  {
    assert name[j..j + 1][0] == name[j];
  }

  lemma PlainIsAscii(c: char)
    ensures !NeedPercentEncode(c) || c == '/' ==> (c as int) < 0x80
  {
  }

  /** A name is printed in a URI fragment exactly when it is UTF-8. */
  lemma {:induction false} FragmentPrintsIff(name: string, j: nat)
    requires j <= |name|
    ensures StringifyName(name, j, true).Some? <==> WellFormed(name, j)
    decreases |name| - j
  {
    hide SequenceAhead, NeedPercentEncode, PercentEncodeAll;
    if j < |name| {
      PlainIsAscii(name[j]);
      if name[j] == '~' || name[j] == '/' || !NeedPercentEncode(name[j]) {
        AsciiIsSequence(name, j);
        FragmentPrintsIff(name, j + 1);
      } else if SequenceAhead(name, j) > 0 {
        FragmentPrintsIff(name, j + SequenceAhead(name, j));
      }
    }
  }

  lemma {:induction false} FragmentTokensPrintIff(names: seq<string>)
    ensures StringifyTokens(TokensOf(names), true).Some?
            <==> forall i | 0 <= i < |names| :: WellFormed(names[i], 0)
    ensures var r := StringifyTokens(TokensOf(names), true); r.Some? && r.value != "" ==> r.value[0] == '/'
    decreases |names|
  {
    hide StringifyName, WellFormed, Index;
    if names != [] {
      assert TokensOf(names)[0].name == names[0] && TokensOf(names)[1..] == TokensOf(names[1..]);
      FragmentPrintsIff(names[0], 0);
      FragmentTokensPrintIff(names[1..]);
      assert forall i | 0 < i < |names| :: names[i] == names[1..][i - 1];
      assert forall i | 0 <= i < |names[1..]| :: names[1..][i] == names[i + 1];
    }
  }

  /** URI fragment form: a list of names is printed exactly when all are UTF-8, and
      then read back with the same names and indices. */
  lemma FragmentRoundTrip(names: seq<string>)
    ensures var r := Stringify(TokensOf(names), true);
            && (r.Some? <==> forall i | 0 <= i < |names| :: WellFormed(names[i], 0))
            && (r.Some? ==> Parse(r.value) == Some(TokensOf(names)))
  {
    hide StringifyTokens, ParseTokens, TokensOf, WellFormed;
    FragmentTokensPrintIff(names);
    var r := StringifyTokens(TokensOf(names), true);
    if r.Some? {
      var text := "#" + r.value;
      assert text[1..1 + |r.value|] == r.value;
      TokensRead(text, 1, names, true);
    }
  }

  // ------------------------------------------------------------------- indices

  lemma {:induction false} WrappedIsDecimal(name: string)
    requires AllDigits(name) && Decimal(name) < INDEX_LIMIT
    ensures Wrapped(name) == Some(Decimal(name))
    decreases |name|
  {
    if name != "" {
      WrappedIsDecimal(name[..|name| - 1]);
    }
  }

  /** A number that fits 32 bits is its own index. */
  lemma IndexIsNumber(name: string)
    requires IsNumber(name) && Decimal(name) < INDEX_LIMIT
    ensures Index(name) == Decimal(name)
  {
    WrappedIsDecimal(name);
  }

  /** The digits read so far, kept to 32 bits, never get smaller from one digit to
      the next. */
  ghost predicate NeverDrops(name: string)
    requires AllDigits(name)
  {
    forall k | 0 < k <= |name| :: Decimal(name[..k]) % INDEX_LIMIT >= Decimal(name[..k - 1]) % INDEX_LIMIT
  }

  lemma NeverDropsStep(name: string)
    requires AllDigits(name) && name != ""
    ensures var front := name[..|name| - 1];
            NeverDrops(name) <==> NeverDrops(front) && Decimal(name) % INDEX_LIMIT >= Decimal(front) % INDEX_LIMIT
  {
    hide Decimal;
    var front := name[..|name| - 1];
    assert name[..|name|] == name;
    assert forall k | 0 <= k <= |front| :: front[..k] == name[..k];
  }

  lemma DigitWraps(x: nat, d: nat)
    ensures (x % INDEX_LIMIT * 10 + d) % INDEX_LIMIT == (x * 10 + d) % INDEX_LIMIT
  {
    var q := x / INDEX_LIMIT;
    assert x * 10 + d == x % INDEX_LIMIT * 10 + d + q * 10 * INDEX_LIMIT;
  }

  lemma {:induction false} WrappedIs(name: string)
    requires AllDigits(name)
    ensures Wrapped(name) == if NeverDrops(name) then Some(Decimal(name) % INDEX_LIMIT) else None
    decreases |name|
  {
    if name != "" {
      var front := name[..|name| - 1];
      WrappedIs(front);
      NeverDropsStep(name);
      DigitWraps(Decimal(front), Digit(name[|name| - 1]));
    }
  }

  /** The index of any number: its remainder of 32 bits, unless that remainder is
      seen to drop at some digit. */
  lemma IndexIs(name: string)
    requires IsNumber(name)
    ensures Index(name) == if NeverDrops(name) then Decimal(name) % INDEX_LIMIT else INVALID_INDEX
  {
    WrappedIs(name);
  }

  /** Exactly when a number is treated as a name only, which the source's comment
      promises for every number beyond 32 bits: when the remainder drops, or comes
      to the index that stands for none, as it does for 4294967295 and 8589934591. */
  lemma NameOnlyIff(name: string)
    requires IsNumber(name)
    ensures Index(name) == INVALID_INDEX <==> !NeverDrops(name) || Decimal(name) % INDEX_LIMIT == INVALID_INDEX
  {
    IndexIs(name);
  }

  /** A name that is no number in JSON Pointer's sense: empty, with a character that is
      no digit, or with a zero in front of other digits. */
  predicate IsWord(name: string) {
    || name == ""
    || (exists i :: 0 <= i < |name| && name[i] !in "0123456789")
    || (|name| > 1 && name[0] == '0')
  }

  lemma WordIff(name: string)
    ensures IsWord(name) <==> !IsNumber(name)
  {
    forall i | 0 <= i < |name| ensures IsDigit(name[i]) <==> name[i] in "0123456789" {
      if IsDigit(name[i]) {
        assert "0123456789"[name[i] as int - '0' as int] == name[i];
      }
    }
  }

  /** Such a name never gets an index. */
  lemma WordHasNoIndex(name: string)
    requires IsWord(name)
    ensures Index(name) == 0xFFFF_FFFF
  {
    WordIff(name);
  }

  /** For ten digits: exactly when the remainder is less than all but the last
      digit. */
  lemma TenDigitsIff(name: string)
    requires IsNumber(name) && |name| == 10 && Decimal(name) >= INDEX_LIMIT
    ensures NeverDrops(name) <==> Decimal(name) % INDEX_LIMIT >= Decimal(name) / 10
  {
    var front := name[..9];
    NineDigits(front);
    WrappedIsDecimal(front);
    WrappedIs(front);
    NeverDropsStep(name);
    assert name[..|name| - 1] == front;
  }

  lemma {:induction false} Nines(n: nat)
    ensures var name := seq(n, i => '9'); AllDigits(name) && Decimal(name) == Power10(n) - 1
  {
    var name: string := seq(n, i => '9');
    if n > 0 {
      Nines(n - 1);
      assert name[..n - 1] == seq(n - 1, i => '9');
    }
  }

  /** Ten nines: the token of that name points at element 1410065407. */
  lemma TenNinesAreAnIndex()
    ensures Index("9999999999") == 1410065407
  {
    var name := "9999999999";
    assert name == seq(10, i => '9');
    Nines(10);
    assert Power10(10) == 10_000_000_000 by {
      assert Power10(5) == 100_000;
    }
    TenDigitsIff(name);
    IndexIs(name);
  }

  lemma {:induction false} DigitsBelow(name: string, bound: nat)
    requires AllDigits(name) && |name| >= 1 && Decimal(name[..|name| - 1]) < bound
    ensures Decimal(name) < bound * 10
  {
  }

  lemma NineDigits(name: string)
    requires AllDigits(name) && |name| == 9
    ensures Decimal(name) < 1_000_000_000
  {
    assert Decimal(name[..0]) == 0;
    DigitsUpTo(name, 9);
  }

  lemma {:induction false} DigitsUpTo(name: string, n: nat)
    requires AllDigits(name) && n <= |name| && n <= 9
    ensures Decimal(name[..n]) < Power10(n)
    ensures n == |name| ==> Decimal(name) < Power10(n)
  {
    if n > 0 {
      DigitsUpTo(name, n - 1);
      assert name[..n][..n - 1] == name[..n - 1];
      DigitsBelow(name[..n], Power10(n - 1));
    }
    assert n == |name| ==> name[..n] == name;
  }

  function Power10(n: nat): nat {
    if n == 0 then 1 else 10 * Power10(n - 1)
  }

  // --------------------------------------------------------- loop by loop

  lemma PrependTwo(a: string, b: string, rest: Option<(nat, string)>)
    ensures Prepend(a, Prepend(b, rest)) == Prepend(a + b, rest)
  {
    if rest.Some? {
      assert a + (b + rest.value.1) == a + b + rest.value.1;
    }
  }

  lemma PrependNothing(rest: Option<(nat, string)>)
    ensures Prepend("", rest) == rest
  {
    if rest.Some? {
      assert "" + rest.value.1 == rest.value.1;
    }
  }

  lemma BeforeTwo(a: string, b: string, rest: Option<string>)
    ensures Before(a, Before(b, rest)) == Before(a + b, rest)
  {
    if rest.Some? {
      assert a + (b + rest.value) == a + b + rest.value;
    }
  }

  lemma BeforeNothing(rest: Option<string>)
    ensures Before("", rest) == rest
  {
    if rest.Some? {
      assert "" + rest.value == rest.value;
    }
  }

  /** A parsed pointer. */
  class Pointer {
    var tokens: seq<Token>
    var valid: bool

    constructor ()
      ensures tokens == [] && valid
    {
      tokens, valid := [], true;
    }

    method ParseSource(source: string)
      modifies this
      ensures var r := Parse(source); valid == r.Some? && tokens == if r.Some? then r.value else []
    {
      hide ParseName, Index;
      tokens, valid := [], true;
      var i := 0;
      var uriFragment := false;
      if source != "" && source[0] == '#' {
        uriFragment := true;
        i := 1;
      }
      if i != |source| && source[i] != '/' {
        valid := false;
        return;
      }
      ghost var start := i;
      ExtendNothing(ParseTokens(source, start, uriFragment));
      while i < |source|
        invariant start <= i <= |source| && valid && (i < |source| ==> source[i] == '/')
        invariant ParseTokens(source, start, uriFragment) == Extended(tokens, ParseTokens(source, i, uriFragment))
      {
        var name := TakeName(source, i + 1, uriFragment);
        if name.None? {
          tokens, valid := [], false;
          return;
        }
        var index := ToIndex(name.value.1);
        ExtendTwo(tokens, Token(name.value.1, index), ParseTokens(source, name.value.0, uriFragment));
        i := name.value.0;
        tokens := tokens + [Token(name.value.1, index)];
      }
      assert tokens + [] == tokens;
    }

    /** The characters up to the next solidus, decoded. */
    method TakeName(source: string, start: nat, uriFragment: bool) returns (r: Option<(nat, string)>)
      requires start <= |source|
      ensures r == ParseName(source, start, uriFragment)
    {
      hide DecodeSequence, NeedPercentEncode;
      var i, name := start, "";
      PrependNothing(ParseName(source, start, uriFragment));
      while i < |source| && source[i] != '/'
        invariant start <= i <= |source|
        invariant ParseName(source, start, uriFragment) == Prepend(name, ParseName(source, i, uriFragment))
      {
        var c := source[i];
        var next := i + 1;
        var several := false;
        if uriFragment {
          if c == '%' {
            var u := DecodeSequence(source, i);
            if u.None? {
              return None;
            }
            next := i + 3 * |u.value|;
            if |u.value| == 1 {
              c := u.value[0];
            } else {
              PrependTwo(name, u.value, ParseName(source, next, uriFragment));
              name := name + u.value;
              several := true;
            }
          } else if NeedPercentEncode(c) {
            return None;
          }
        }
        if !several {
          if c == '~' {
            if next < |source| && source[next] == '0' {
              c := '~';
            } else if next < |source| && source[next] == '1' {
              c := '/';
            } else {
              return None;
            }
            next := next + 1;
          }
          PrependTwo(name, [c], ParseName(source, next, uriFragment));
          name := name + [c];
        }
        i := next;
      }
      r := Some((i, name));
      assert name + "" == name;
    }

    /** A name that is no number has no index; a number has its remainder of 32 bits,
        unless that drops at some digit. */
    method ToIndex(name: string) returns (index: nat)
      ensures index == Index(name)
      ensures IsWord(name) ==> index == 0xFFFF_FFFF
      ensures !IsWord(name) ==>
                AllDigits(name)
                && index == if NeverDrops(name) then Decimal(name) % 0x1_0000_0000 else 0xFFFF_FFFF
    {
      hide IsWord, NeverDrops, Decimal;
      WordIff(name);
      if !IsWord(name) {
        IndexIs(name);
      }
      if !IsNumber(name) {
        return INVALID_INDEX;
      }
      var n, j := 0, 0;
      while j < |name|
        invariant 0 <= j <= |name| && Wrapped(name[..j]) == Some(n)
      {
        assert name[..j + 1][..j] == name[..j] && name[..j + 1][j] == name[j];
        var m := (n * 10 + Digit(name[j])) % INDEX_LIMIT;
        if m < n {
          WrappedStays(name, j + 1);
          return INVALID_INDEX;
        }
        n := m;
        j := j + 1;
      }
      assert name[..j] == name;
      index := n;
    }

    method StringifyTo(uriFragment: bool) returns (ok: bool, os: string)
      ensures var r := Stringify(tokens, uriFragment); ok == r.Some? && (ok ==> os == r.value)
    {
      hide StringifyName;
      os := if uriFragment then "#" else "";
      BeforeNothing(StringifyTokens(tokens, uriFragment));
      var t := 0;
      assert tokens[0..] == tokens;
      while t < |tokens|
        invariant 0 <= t <= |tokens|
        invariant Stringify(tokens, uriFragment) == Before(os, StringifyTokens(tokens[t..], uriFragment))
      {
        assert tokens[t..][0] == tokens[t] && tokens[t..][1..] == tokens[t + 1..];
        var text: string;
        ok, text := StringifyOne(tokens[t].name, uriFragment);
        if !ok {
          return;
        }
        TokenThen(os, text, StringifyTokens(tokens[t + 1..], uriFragment));
        os := os + "/" + text;
        t := t + 1;
      }
      assert os + "" == os;
      ok := true;
    }

    method StringifyOne(name: string, uriFragment: bool) returns (ok: bool, os: string)
      ensures var r := StringifyName(name, 0, uriFragment); ok == r.Some? && (ok ==> os == r.value)
    {
      hide NeedPercentEncode, SequenceAhead, PercentEncodeAll;
      os := "";
      var j := 0;
      BeforeNothing(StringifyName(name, 0, uriFragment));
      while j < |name|
        invariant 0 <= j <= |name|
        invariant StringifyName(name, 0, uriFragment) == Before(os, StringifyName(name, j, uriFragment))
      {
        var c := name[j];
        if c == '~' {
          BeforeTwo(os, "~0", StringifyName(name, j + 1, uriFragment));
          os := os + "~0";
          j := j + 1;
        } else if c == '/' {
          BeforeTwo(os, "~1", StringifyName(name, j + 1, uriFragment));
          os := os + "~1";
          j := j + 1;
        } else if uriFragment && NeedPercentEncode(c) {
          var taken: nat;
          ok, taken := Validate(name, j);
          if !ok {
            return;
          }
          var encoded := PercentEncodeAll(name[j..j + taken]);
          BeforeTwo(os, encoded, StringifyName(name, j + taken, uriFragment));
          os := os + encoded;
          j := j + taken;
        } else {
          BeforeTwo(os, [c], StringifyName(name, j + 1, uriFragment));
          os := os + [c];
          j := j + 1;
        }
      }
      assert os + "" == os;
      ok := true;
    }
  }

  function Extended(tokens: seq<Token>, rest: Option<seq<Token>>): Option<seq<Token>> {
    if rest.None? then None else Some(tokens + rest.value)
  }

  lemma ExtendNothing(rest: Option<seq<Token>>)
    ensures Extended([], rest) == rest
  {
    if rest.Some? {
      assert [] + rest.value == rest.value;
    }
  }

  lemma ExtendTwo(tokens: seq<Token>, t: Token, rest: Option<seq<Token>>)
    ensures Extended(tokens, Extended([t], rest)) == Extended(tokens + [t], rest)
  {
    if rest.Some? {
      assert tokens + ([t] + rest.value) == tokens + [t] + rest.value;
    }
  }

  lemma TokenThen(os: string, text: string, rest: Option<string>)
    ensures rest.Some? ==> os + ("/" + (text + rest.value)) == os + "/" + text + rest.value
  {
  }

  /** Once a wrap is seen the number is given up. */
  lemma {:induction false} WrappedStays(name: string, j: nat)
    requires AllDigits(name) && j <= |name| && Wrapped(name[..j]).None?
    ensures Wrapped(name).None?
    decreases |name| - j
  {
    if j == |name| {
      assert name[..j] == name;
    } else {
      assert name[..j + 1][..j] == name[..j];
      WrappedStays(name, j + 1);
    }
  }
}
