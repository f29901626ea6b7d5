/** Which shard an account lives on: the relay's hash in 32 bits against the
  migration script's in unbounded integers, over the bytes of a name.
 */
module Shard {
  type Byte = b: nat | b < 0x100

  const WORD := 0x1_0000_0000
  const HALF := 0x8000_0000

  // -------------------------------------------------------------- the script

  function ScriptSum(name: seq<Byte>): nat {
    if name == [] then 0
    else
      var h := ScriptSum(name[..|name| - 1]);
      name[|name| - 1] + h * 0x40 + h * 0x10000 - h
  }

  function ScriptHash(name: seq<Byte>): nat {
    ScriptSum(name) % HALF
  }

  // --------------------------------------------------------------- the relay

  /** A `char` as an int: signed or not as the platform has it. */
  function CharValue(b: Byte, signed: bool): int {
    if signed && b >= 0x80 then b - 0x100 else b
  }

  /** One step on an unsigned hash: shifts drop bits, sums and differences wrap. */
  function RelayStep(hash: nat, c: int): (r: nat)
    ensures r < WORD
  {
    (c + hash * 0x40 % WORD + hash * 0x10000 % WORD - hash) % WORD
  }

  function RelaySum(name: seq<Byte>, signed: bool): (r: nat)
    ensures r < WORD
  {
    if name == [] then 0
    else RelayStep(RelaySum(name[..|name| - 1], signed), CharValue(name[|name| - 1], signed))
  }

  function RelayHash(name: seq<Byte>, signed: bool): nat {
    RelaySum(name, signed) % HALF
  }

  method RelaySDBMHash(name: seq<Byte>, signed: bool) returns (hash: nat)
    ensures hash == RelayHash(name, signed)
  {
    hash := 0;
    var i := 0;
    while i < |name|
      invariant 0 <= i <= |name| && hash == RelaySum(name[..i], signed)
    {
      assert name[..i + 1][..i] == name[..i] && name[..i + 1][i] == name[i];
      hash := RelayStep(hash, CharValue(name[i], signed));
      i := i + 1;
    }
    assert name[..i] == name;
    hash := hash % HALF;
  }

  method ScriptSDBMHash(name: seq<Byte>) returns (hash: nat)
    ensures hash == ScriptHash(name)
  {
    hash := 0;
    var i := 0;
    while i < |name|
      invariant 0 <= i <= |name| && hash == ScriptSum(name[..i])
    {
      assert name[..i + 1][..i] == name[..i] && name[..i + 1][i] == name[i];
      hash := name[i] + hash * 0x40 + hash * 0x10000 - hash;
      i := i + 1;
    }
    assert name[..i] == name;
    hash := hash % HALF;
  }

  // --------------------------------------------------------------- agreement

  const FACTOR := 65599

  lemma WrapsWord(a: int, k: int)
    ensures (a + k * WORD) % WORD == a % WORD
  {
  }

  lemma WrapsHalf(a: int, k: int)
    ensures (a + k * HALF) % HALF == a % HALF
  {
  }

  /** The weight by which a negative char is off: the powers of the factor at the
      places of the bytes beyond ASCII. */
  function Offset(name: seq<Byte>): nat {
    if name == [] then 0
    else
      var w := Offset(name[..|name| - 1]) * FACTOR;
      if name[|name| - 1] >= 0x80 then w + 1 else w
  }

  lemma StepIs(hash: nat, c: int)
    ensures RelayStep(hash, c) == (c + hash * FACTOR) % WORD
  {
    var a, b := hash * 0x40, hash * 0x10000;
    WrapsWord(c + a % WORD + b % WORD - hash, a / WORD + b / WORD);
    assert c + a % WORD + b % WORD - hash + (a / WORD + b / WORD) * WORD == c + hash * FACTOR;
  }

  /** The relay's hash is the script's, less 256 times the offset, in 32 bits. */
  lemma {:induction false} RelayIs(name: seq<Byte>, signed: bool)
    ensures RelaySum(name, signed) == (ScriptSum(name) - (if signed then 0x100 * Offset(name) else 0)) % WORD
    decreases |name|
  {
    if name != [] {
      var front, b := name[..|name| - 1], name[|name| - 1];
      RelayIs(front, signed);
      var exact := ScriptSum(front) - (if signed then 0x100 * Offset(front) else 0);
      var r := RelaySum(front, signed);
      StepIs(r, CharValue(b, signed));
      var k := exact / WORD;
      WrapsWord(CharValue(b, signed) + r * FACTOR, k * FACTOR);
      assert r + k * WORD == exact;
      Regroup(r, k, exact);
    }
  }

  lemma Regroup(r: int, k: int, exact: int)
    requires r + k * WORD == exact
    ensures r * FACTOR + (k * FACTOR) * WORD == exact * FACTOR
  {
  }

  lemma HalfOfWord(x: int)
    ensures x % WORD % HALF == x % HALF
  {
    WrapsHalf(x % WORD, x / WORD * 2);
    assert x == x % WORD + (x / WORD * 2) * HALF;
  }

  /** Relay and script agree on a name exactly when chars are unsigned there, or 256
      times the offset vanishes in 31 bits. */
  lemma AgreeIff(name: seq<Byte>, signed: bool)
    ensures RelayHash(name, signed) == ScriptHash(name) <==> !signed || 0x100 * Offset(name) % HALF == 0
  {
    RelayIs(name, signed);
    var s, d := ScriptSum(name), 0x100 * Offset(name);
    HalfOfWord(s - if signed then d else 0);
    if signed {
      SameRemainder(s, d);
    }
  }

  lemma SameRemainder(s: int, d: int)
    ensures (s - d) % HALF == s % HALF <==> d % HALF == 0
  {
    var a, b := (s - d) % HALF, s % HALF;
    assert d == b - a + (s / HALF - (s - d) / HALF) * HALF;
    WrapsHalf(b - a, s / HALF - (s - d) / HALF);
  }

  predicate Ascii(name: seq<Byte>) {
    forall i | 0 <= i < |name| :: name[i] < 0x80
  }

  lemma {:induction false} AsciiHasNoOffset(name: seq<Byte>)
    requires Ascii(name)
    ensures Offset(name) == 0
    decreases |name|
  {
    if name != [] {
      AsciiHasNoOffset(name[..|name| - 1]);
    }
  }

  /** A single byte beyond ASCII always makes them differ. */
  lemma OneForeignByteDiffers(name: seq<Byte>, b: Byte)
    requires Ascii(name) && b >= 0x80
    ensures RelayHash(name + [b], true) != ScriptHash(name + [b])
  {
    AgreeIff(name + [b], true);
    AsciiHasNoOffset(name);
    assert (name + [b])[..|name|] == name;
  }

  // ------------------------------------------------------------------- shards

  const COLON: Byte := 0x3A

  /** The part of an account's name before the first colon. */
  function TopName(name: seq<Byte>): (r: seq<Byte>)
    ensures COLON !in r && r <= name
  {
    if name == [] || name[0] == COLON then [] else [name[0]] + TopName(name[1..])
  }

  function RelayShard(name: seq<Byte>, signed: bool, shards: nat): nat
    requires shards > 0
  {
    RelayHash(TopName(name), signed) % shards
  }

  function ScriptShard(name: seq<Byte>, shards: nat): nat
    requires shards > 0
  {
    ScriptHash(TopName(name)) % shards
  }

  /** For every ASCII name and every number of shards the script puts an account
      where the relay looks for it. */
  lemma AsciiAgrees(name: seq<Byte>, signed: bool, shards: nat)
    requires Ascii(TopName(name)) && shards > 0
    ensures RelayShard(name, signed, shards) == ScriptShard(name, shards) < shards
  {
    AsciiHasNoOffset(TopName(name));
    AgreeIff(TopName(name), signed);
  }

  lemma {:induction false} TopOfTree(top: seq<Byte>, rest: seq<Byte>)
    requires COLON !in top && (rest == [] || rest[0] == COLON)
    ensures TopName(top + rest) == top
    decreases |top|
  {
    if top == [] {
      assert top + rest == rest;
    } else {
      assert (top + rest)[0] == top[0] && (top + rest)[1..] == top[1..] + rest;
      TopOfTree(top[1..], rest);
    }
  }

  /** All accounts of one tree are on its top account's shard, on either side. */
  lemma OneTreeOneShard(top: seq<Byte>, rest: seq<Byte>, signed: bool, shards: nat)
    requires COLON !in top && (rest == [] || rest[0] == COLON) && shards > 0
    ensures RelayShard(top + rest, signed, shards) == RelayShard(top, signed, shards)
    ensures ScriptShard(top + rest, shards) == ScriptShard(top, shards)
  {
    TopOfTree(top, rest);
    TopOfTree(top, []);
    assert top + [] == top;
  }
}
