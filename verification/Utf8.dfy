/** UTF-8 as the source encodes, decodes and checks it, one code unit per
  character. A checked sequence is one that encodes a Unicode scalar value.
 */
module Utf8 {
  function Unit(n: nat): char
    requires n < 0x100
  {
    n as char
  }

  /** A continuation unit with six bits of the code point. */
  function Tail(bits: nat): char
    requires bits < 0x40
  {
    Unit(0x80 + bits)
  }

  function Encode(codepoint: nat): (s: string)
    requires codepoint <= 0x10FFFF
    ensures 1 <= |s| <= 4
  {
    if codepoint <= 0x7F then [Unit(codepoint)]
    else if codepoint <= 0x7FF then [Unit(0xC0 + codepoint / 0x40), Tail(codepoint % 0x40)]
    else if codepoint <= 0xFFFF then
      [Unit(0xE0 + codepoint / 0x1000), Tail(codepoint / 0x40 % 0x40), Tail(codepoint % 0x40)]
    else
      [Unit(0xF0 + codepoint / 0x40000), Tail(codepoint / 0x1000 % 0x40), Tail(codepoint / 0x40 % 0x40),
       Tail(codepoint % 0x40)]
  }

  /** The class of a unit: the table of `GetRange`. No unit is beyond a byte. */
  function GetRange(c: char): bv8 {
    var n := c as int;
    if n < 0x80 then 0
    else if n < 0x90 then 0x10
    else if n < 0xA0 then 0x40
    else if n < 0xC0 then 0x20
    else if n < 0xC2 then 8
    else if n < 0xE0 then 2
    else if n == 0xE0 then 10
    else if n < 0xED then 3
    else if n == 0xED then 4
    else if n < 0xF0 then 3
    else if n == 0xF0 then 11
    else if n < 0xF4 then 6
    else if n == 0xF4 then 5
    else 8
  }

  /** The step of the checking automaton over one unit. */
  predicate Trans(c: char, mask: bv8) {
    GetRange(c) & mask != 0
  }

  lemma TransIs(c: char)
    ensures Trans(c, 0x70) <==> 0x80 <= c as int <= 0xBF
    ensures Trans(c, 0x50) <==> 0x80 <= c as int <= 0x9F
    ensures Trans(c, 0x10) <==> 0x80 <= c as int <= 0x8F
    ensures Trans(c, 0x20) <==> 0xA0 <= c as int <= 0xBF
    ensures Trans(c, 0x60) <==> 0x90 <= c as int <= 0xBF
  {
  }

  /** How many units the first one announces, none if it cannot be a first one. */
  function Announced(c: char): (n: nat)
    ensures n <= 4
  {
    var t := GetRange(c);
    if c as int < 0x80 then 1
    else if t == 2 then 2
    else if t == 3 || t == 4 || t == 10 then 3
    else if t == 5 || t == 6 || t == 11 then 4
    else 0
  }

  /** The mask the second unit must pass. */
  function SecondMask(c: char): bv8 {
    var t := GetRange(c);
    if t == 4 then 0x50 else if t == 5 then 0x10 else if t == 10 then 0x20 else if t == 11 then 0x60 else 0x70
  }

  /** `Validate` takes all of s and finds it right. */
  predicate IsSequence(s: string) {
    && s != ""
    && |s| == Announced(s[0])
    && (|s| >= 2 ==> Trans(s[1], SecondMask(s[0])))
    && (|s| >= 3 ==> Trans(s[2], 0x70))
    && (|s| >= 4 ==> Trans(s[3], 0x70))
  }

  /** The bits of the code point in a first unit: `0xFF >> type` masks them. */
  function LeadBits(c: char): nat {
    var t, n := GetRange(c), c as int;
    if n < 0x80 then n
    else if t == 2 then n % 0x40
    else if t == 3 then n % 0x20
    else if t == 4 then n % 0x10
    else if t == 5 then n % 0x8
    else if t == 6 then n % 0x4
    else 0
  }

  /** `Decode` of a right sequence: six more bits with each unit. */
  function Decode(s: string): nat
    requires s != ""
    decreases |s|
  {
    if |s| == 1 then LeadBits(s[0])
    else Decode(s[..|s| - 1]) * 0x40 + s[|s| - 1] as int % 0x40
  }

  predicate IsScalar(codepoint: nat) {
    codepoint < 0xD800 || 0xE000 <= codepoint <= 0x10FFFF
  }

  lemma DecodeTwo(a: char, b: char)
    ensures Decode([a, b]) == LeadBits(a) * 0x40 + b as int % 0x40
  {
    assert [a, b][..1] == [a];
  }

  lemma DecodeThree(a: char, b: char, c: char)
    ensures Decode([a, b, c]) == (LeadBits(a) * 0x40 + b as int % 0x40) * 0x40 + c as int % 0x40
  {
    assert [a, b, c][..2] == [a, b];
    DecodeTwo(a, b);
  }

  lemma DecodeFour(a: char, b: char, c: char, d: char)
    ensures Decode([a, b, c, d])
         == ((LeadBits(a) * 0x40 + b as int % 0x40) * 0x40 + c as int % 0x40) * 0x40 + d as int % 0x40
  {
    assert [a, b, c, d][..3] == [a, b, c];
    DecodeThree(a, b, c);
  }

  lemma TailIs(bits: nat)
    requires bits < 0x40
    ensures Trans(Tail(bits), 0x70) && Tail(bits) as int % 0x40 == bits
  {
    TransIs(Tail(bits));
  }

  lemma LeadIs(bits: nat)
    ensures 2 <= bits < 0x20 ==> LeadBits(Unit(0xC0 + bits)) == bits && Announced(Unit(0xC0 + bits)) == 2
    ensures bits < 0x10 ==> LeadBits(Unit(0xE0 + bits)) == bits && Announced(Unit(0xE0 + bits)) == 3
    ensures bits < 5 ==> LeadBits(Unit(0xF0 + bits)) == bits && Announced(Unit(0xF0 + bits)) == 4
  {
  }

  /** Every scalar value is encoded as a right sequence, and decoded again. */
  lemma EncodedIsSequence(codepoint: nat)
    requires IsScalar(codepoint)
    ensures IsSequence(Encode(codepoint)) && Decode(Encode(codepoint)) == codepoint
  {
    hide Decode, IsSequence;
    if codepoint <= 0x7F {
      OneUnit(codepoint);
    } else if codepoint <= 0x7FF {
      EncodedTwo(codepoint);
    } else if codepoint <= 0xFFFF {
      EncodedThree(codepoint);
    } else {
      EncodedFour(codepoint);
    }
  }

  lemma EncodedTwo(codepoint: nat)
    requires 0x7F < codepoint <= 0x7FF
    ensures IsSequence(Encode(codepoint)) && Decode(Encode(codepoint)) == codepoint
  {
    hide Decode, Trans, LeadBits, Announced, SecondMask, Tail, Unit;
    var a, d := codepoint / 0x40, codepoint % 0x40;
    LeadIs(a);
    TailIs(d);
    TwoUnits(a, d);
    DecodeTwo(Unit(0xC0 + a), Tail(d));
  }

  lemma EncodedThree(codepoint: nat)
    requires 0x7FF < codepoint <= 0xFFFF && IsScalar(codepoint)
    ensures IsSequence(Encode(codepoint)) && Decode(Encode(codepoint)) == codepoint
  {
    hide Decode, Trans, LeadBits, Announced, SecondMask, Tail, Unit;
    var a, c, d := codepoint / 0x1000, codepoint / 0x40 % 0x40, codepoint % 0x40;
    LeadIs(a);
    TailIs(c);
    TailIs(d);
    ThreeUnits(a, c, codepoint);
    DecodeThree(Unit(0xE0 + a), Tail(c), Tail(d));
    assert a * 0x40 + c == codepoint / 0x40;
  }

  lemma EncodedFour(codepoint: nat)
    requires 0xFFFF < codepoint <= 0x10FFFF
    ensures IsSequence(Encode(codepoint)) && Decode(Encode(codepoint)) == codepoint
  {
    hide Decode, Trans, LeadBits, Announced, SecondMask, Tail, Unit;
    var a, b, c, d := codepoint / 0x40000, codepoint / 0x1000 % 0x40, codepoint / 0x40 % 0x40, codepoint % 0x40;
    LeadIs(a);
    TailIs(b);
    TailIs(c);
    TailIs(d);
    FourUnits(a, b, codepoint);
    DecodeFour(Unit(0xF0 + a), Tail(b), Tail(c), Tail(d));
    assert a * 0x40 + b == codepoint / 0x1000;
    assert codepoint / 0x1000 * 0x40 + c == codepoint / 0x40;
  }

  lemma OneUnit(n: nat)
    requires n <= 0x7F
    ensures Announced(Unit(n)) == 1 && Decode([Unit(n)]) == n && IsSequence([Unit(n)])
  {
  }

  lemma TwoUnits(a: nat, d: nat)
    requires 2 <= a < 0x20 && d < 0x40
    ensures Trans(Tail(d), SecondMask(Unit(0xC0 + a)))
  {
    TransIs(Tail(d));
  }

  lemma ThreeUnits(a: nat, c: nat, codepoint: nat)
    requires 0x7FF < codepoint <= 0xFFFF && IsScalar(codepoint)
    requires a == codepoint / 0x1000 && c == codepoint / 0x40 % 0x40
    ensures Trans(Tail(c), SecondMask(Unit(0xE0 + a)))
  {
    TransIs(Tail(c));
  }

  lemma FourUnits(a: nat, b: nat, codepoint: nat)
    requires 0xFFFF < codepoint <= 0x10FFFF && a == codepoint / 0x40000 && b == codepoint / 0x1000 % 0x40
    ensures Trans(Tail(b), SecondMask(Unit(0xF0 + a)))
  {
    TransIs(Tail(b));
  }

  /** Every right sequence encodes the scalar value it decodes to: what `Validate`
      accepts is exactly what `Encode` gives for scalar values. */
  lemma SequenceIsEncoded(s: string)
    requires IsSequence(s)
    ensures IsScalar(Decode(s)) && Encode(Decode(s)) == s
  {
    hide Decode, Trans;
    TransIs(s[0]);
    if |s| == 1 {
      OneUnit(s[0] as int);
      assert s == [s[0]];
    } else if |s| == 2 {
      assert s == [s[0], s[1]];
      TransIs(s[1]);
      DecodeTwo(s[0], s[1]);
      EncodeTwo(s[0], s[1]);
    } else if |s| == 3 {
      assert s == [s[0], s[1], s[2]];
      TransIs(s[1]);
      TransIs(s[2]);
      DecodeThree(s[0], s[1], s[2]);
      EncodeThree(s[0], s[1], s[2]);
    } else {
      assert s == [s[0], s[1], s[2], s[3]];
      TransIs(s[1]);
      TransIs(s[2]);
      TransIs(s[3]);
      DecodeFour(s[0], s[1], s[2], s[3]);
      EncodeFour(s[0], s[1], s[2], s[3]);
    }
  }

  lemma EncodeTwo(a: char, b: char)
    requires 0xC2 <= a as int < 0xE0 && 0x80 <= b as int <= 0xBF
    ensures var n := LeadBits(a) * 0x40 + b as int % 0x40; IsScalar(n) && Encode(n) == [a, b]
  {
    var n := LeadBits(a) * 0x40 + b as int % 0x40;
    assert LeadBits(a) == a as int - 0xC0 && b as int % 0x40 == b as int - 0x80;
    assert n / 0x40 == LeadBits(a) && n % 0x40 == b as int - 0x80;
  }

  lemma EncodeThree(a: char, b: char, c: char)
    requires 0xE0 <= a as int < 0xF0 && 0x80 <= c as int <= 0xBF
    requires (if a as int == 0xE0 then 0xA0 else 0x80) <= b as int <= if a as int == 0xED then 0x9F else 0xBF
    ensures var n := (LeadBits(a) * 0x40 + b as int % 0x40) * 0x40 + c as int % 0x40;
            IsScalar(n) && Encode(n) == [a, b, c]
  {
    var m := LeadBits(a) * 0x40 + b as int % 0x40;
    var n := m * 0x40 + c as int % 0x40;
    assert LeadBits(a) == a as int - 0xE0 && b as int % 0x40 == b as int - 0x80 && c as int % 0x40 == c as int - 0x80;
    assert n / 0x40 == m && n % 0x40 == c as int - 0x80;
    assert n / 0x1000 == m / 0x40 == LeadBits(a) && m % 0x40 == b as int - 0x80;
  }

  lemma FourLead(a: char)
    requires 0xF0 <= a as int <= 0xF4
    ensures LeadBits(a) == a as int - 0xF0
  {
  }

  lemma TailBits(c: char)
    requires 0x80 <= c as int <= 0xBF
    ensures c as int % 0x40 == c as int - 0x80 && Tail(c as int - 0x80) == c
  {
  }

  lemma EncodeFour(a: char, b: char, c: char, d: char)
    requires 0xF0 <= a as int <= 0xF4 && 0x80 <= c as int <= 0xBF && 0x80 <= d as int <= 0xBF
    requires (if a as int == 0xF0 then 0x90 else 0x80) <= b as int <= if a as int == 0xF4 then 0x8F else 0xBF
    ensures var n := ((LeadBits(a) * 0x40 + b as int % 0x40) * 0x40 + c as int % 0x40) * 0x40 + d as int % 0x40;
            IsScalar(n) && Encode(n) == [a, b, c, d]
  {
    hide LeadBits, Tail;
    FourLead(a);
    TailBits(b);
    TailBits(c);
    TailBits(d);
    FourParts(a as int - 0xF0, b as int - 0x80, c as int - 0x80, d as int - 0x80);
  }

  lemma FourParts(a: nat, b: nat, c: nat, d: nat)
    requires a <= 4 && b < 0x40 && c < 0x40 && d < 0x40
    ensures var n := ((a * 0x40 + b) * 0x40 + c) * 0x40 + d;
            n / 0x40000 == a && n / 0x1000 % 0x40 == b && n / 0x40 % 0x40 == c && n % 0x40 == d
  {
    var l := a * 0x40 + b;
    var m := l * 0x40 + c;
    var n := m * 0x40 + d;
    assert n / 0x40 == m && n / 0x1000 == l && n / 0x40000 == a;
  }

  /** How many units `Validate` takes for a right sequence at pos, 0 for a wrong one;
      the stream gives NUL at its end. */
  function SequenceAhead(s: string, pos: nat): (n: nat)
    requires pos < |s|
    ensures n > 0 ==> pos + n <= |s| && IsSequence(s[pos..pos + n])
  {
    var n := Announced(s[pos]);
    if n > 0 && pos + n <= |s| && IsSequence(s[pos..pos + n]) then n else 0
  }

  /** `Validate` as it takes the stream unit by unit; the rest of a sequence that
      is already wrong is still taken. */
  method Validate(s: string, pos: nat) returns (ok: bool, taken: nat)
    requires pos < |s|
    ensures ok <==> SequenceAhead(s, pos) > 0
    ensures ok ==> taken == SequenceAhead(s, pos)
  {
    hide Trans, SecondMask;
    var count := Announced(s[pos]);
    if count <= 1 {
      assert s[pos..pos + 1][0] == s[pos];
      return count == 1, 1;
    }
    var mask := SecondMask(s[pos]);
    ok, taken := true, 1;
    while taken < count
      invariant 1 <= taken <= count
      invariant ok ==> pos + taken <= |s|
      invariant ok ==> taken >= 2 ==> Trans(s[pos + 1], mask)
      invariant ok ==> taken >= 3 ==> Trans(s[pos + 2], 0x70)
      invariant ok ==> taken >= 4 ==> Trans(s[pos + 3], 0x70)
      invariant !ok ==> SequenceAhead(s, pos) == 0
    {
      if ok && !(pos + taken < |s| && Trans(s[pos + taken], if taken == 1 then mask else 0x70)) {
        WrongUnit(s, pos, taken);
        ok := false;
      }
      taken := taken + 1;
    }
    if ok {
      RightUnits(s, pos, count);
    }
  }

  lemma WrongUnit(s: string, pos: nat, i: nat)
    requires pos < |s| && 1 <= i < Announced(s[pos])
    requires pos + i < |s| ==> !Trans(s[pos + i], if i == 1 then SecondMask(s[pos]) else 0x70)
    ensures SequenceAhead(s, pos) == 0
  {
    hide Trans, SecondMask;
    var n := Announced(s[pos]);
    if pos + n <= |s| {
      var u := s[pos..pos + n];
      assert u[0] == s[pos] && u[i] == s[pos + i];
    }
  }

  lemma RightUnits(s: string, pos: nat, n: nat)
    requires pos + n <= |s| && n >= 2 && n == Announced(s[pos])
    requires Trans(s[pos + 1], SecondMask(s[pos]))
    requires n >= 3 ==> Trans(s[pos + 2], 0x70)
    requires n >= 4 ==> Trans(s[pos + 3], 0x70)
    ensures SequenceAhead(s, pos) == n
  {
    hide Trans, SecondMask;
    var u := s[pos..pos + n];
    assert u[0] == s[pos] && u[1] == s[pos + 1];
    assert n >= 3 ==> u[2] == s[pos + 2];
    assert n >= 4 ==> u[3] == s[pos + 3];
  }
}
