/**
 * The hand-written UTF-8 decoder of the mobile app (account-security-logic.ts),
 * against section 3 of RFC 3629.
 *
 * JavaScript's operators on these small numbers are written as arithmetic:
 * `x << 6 | y` is 64 * x + y, `x & 0x3f` is x % 64, `x >> 10` is x / 1024.
 */
module Utf8 {
  import opened Wrappers

  type CodePoint = c: int | 0 <= c <= 0x10FFFF
  type CodeUnit = u: int | 0 <= u < 0x10000

  /** The shortest-form encoding; the surrogate range, which RFC 3629 excludes, is encoded alike. */
  function Encode(c: CodePoint): seq<Byte> {
    if c < 0x80 then [c]
    else if c < 0x800 then [0xC0 + c / 64, 0x80 + c % 64]
    else if c < 0x10000 then [0xE0 + c / 4096, 0x80 + c / 64 % 64, 0x80 + c % 64]
    else [0xF0 + c / 262144, 0x80 + c / 4096 % 64, 0x80 + c / 64 % 64, 0x80 + c % 64]
  }

  function EncodeAll(cs: seq<CodePoint>): seq<Byte> {
    if cs == [] then [] else Encode(cs[0]) + EncodeAll(cs[1..])
  }

  /** The UTF-16 form of a code point. */
  function Utf16(c: CodePoint): seq<CodeUnit> {
    if c < 0x10000 then [c] else [0xD800 + (c - 0x10000) / 1024, 0xDC00 + (c - 0x10000) % 1024]
  }

  function Utf16All(cs: seq<CodePoint>): seq<CodeUnit> {
    if cs == [] then [] else Utf16(cs[0]) + Utf16All(cs[1..])
  }

  predicate IsSurrogate(c: int) { 0xD800 <= c <= 0xDFFF }

  // One character.

  predicate IsContinuation(b: Byte) { b / 64 == 2 }

  /** The number of bytes a lead byte announces; 0 for a byte that cannot lead. */
  function LengthOf(lead: Byte): nat {
    if lead < 0x80 then 1
    else if 0xC0 <= lead <= 0xDF then 2
    else if 0xE0 <= lead <= 0xEF then 3
    else if 0xF0 <= lead <= 0xF7 then 4
    else 0
  }

  /** `byte & 0x3f`. */
  function Low6(b: Byte): (v: int)
    ensures 0 <= v < 64
  {
    b % 64
  }

  /** The bits of the lead byte that count. */
  function LeadBits(lead: Byte): (v: int)
    ensures 0 <= v < 128
  {
    if lead < 0x80 then lead
    else if lead <= 0xDF then lead % 32
    else if lead <= 0xEF then lead % 16
    else lead % 8
  }

  /** The lead bits followed by those of the next `k - 1` bytes. */
  function Accumulated(bytes: seq<Byte>, start: nat, leadBits: nat, k: nat): nat
    requires 1 <= k && start + k <= |bytes|
  {
    if k == 1 then leadBits else Accumulated(bytes, start, leadBits, k - 1) * 64 + Low6(bytes[start + k - 1])
  }

  /** The `length - 1` bytes after `start` are there and are continuation bytes. */
  ghost predicate Continues(bytes: seq<Byte>, start: nat, length: nat) {
    start + length <= |bytes| && forall i :: start < i < start + length ==> IsContinuation(bytes[i])
  }

  /** The closure `continuation` of the decoder. */
  method Continuation(bytes: seq<Byte>, leadBits: nat, length: nat, start: nat) returns (r: Option<nat>)
    requires 1 <= length && start < |bytes|
    ensures r.Some? <==> Continues(bytes, start, length)
    ensures r.Some? ==> r.value == Accumulated(bytes, start, leadBits, length)
  {
    var accumulator: nat := leadBits;
    for k := 1 to length
      invariant start + k <= |bytes|
      invariant forall i :: start < i < start + k ==> IsContinuation(bytes[i])
      invariant accumulator == Accumulated(bytes, start, leadBits, k)
    {
      if start + k >= |bytes| || !IsContinuation(bytes[start + k]) {
        return None;
      }
      accumulator := accumulator * 64 + Low6(bytes[start + k]);
    }
    r := Some(accumulator);
  }

  /** The encoding of `c` starts at `start`. */
  ghost predicate EncodedAt(bytes: seq<Byte>, start: nat, c: CodePoint) {
    start + |Encode(c)| <= |bytes| && forall i :: 0 <= i < |Encode(c)| ==> bytes[start + i] == Encode(c)[i]
  }

  /** The value the decoder computes for the character led by bytes[start]. */
  function ValueAt(bytes: seq<Byte>, start: nat): nat
    requires start < |bytes|
    requires LengthOf(bytes[start]) > 0 && start + LengthOf(bytes[start]) <= |bytes|
  {
    Accumulated(bytes, start, LeadBits(bytes[start]), LengthOf(bytes[start]))
  }

  /** All the decoder's tests on the character led by bytes[start]. */
  ghost predicate Accepts(bytes: seq<Byte>, start: nat)
    requires start < |bytes|
  {
    var length := LengthOf(bytes[start]);
    && length > 0 && Continues(bytes, start, length)
    && (length == 2 ==> ValueAt(bytes, start) >= 0x80)
    && (length == 3 ==> ValueAt(bytes, start) >= 0x800)
    && (length == 4 ==> 0x10000 <= ValueAt(bytes, start) <= 0x10FFFF)
  }

  /** The value of one character, in closed form. */
  function ValueOf(e: seq<Byte>): int
    requires 1 <= |e|
  {
    var lead := LeadBits(e[0]);
    if |e| == 1 then lead
    else if |e| == 2 then lead * 64 + Low6(e[1])
    else if |e| == 3 then lead * 4096 + Low6(e[1]) * 64 + Low6(e[2])
    else if |e| == 4 then lead * 262144 + Low6(e[1]) * 4096 + Low6(e[2]) * 64 + Low6(e[3])
    else 0
  }

  lemma ValueIs(bytes: seq<Byte>, start: nat)
    requires start < |bytes| && LengthOf(bytes[start]) > 0 && Continues(bytes, start, LengthOf(bytes[start]))
    ensures ValueAt(bytes, start) == ValueOf(bytes[start..start + LengthOf(bytes[start])])
  {
    var length, lead := LengthOf(bytes[start]), LeadBits(bytes[start]);
    assert Accumulated(bytes, start, lead, 1) == lead;
    assert length >= 2 ==> Accumulated(bytes, start, lead, 2) == lead * 64 + Low6(bytes[start + 1]);
    assert length >= 3 ==>
      Accumulated(bytes, start, lead, 3) == Accumulated(bytes, start, lead, 2) * 64 + Low6(bytes[start + 2]);
  }

  /** The bytes of one character: a lead byte that announces their number, then continuation bytes. */
  ghost predicate Character(e: seq<Byte>) {
    && 1 <= |e| == LengthOf(e[0])
    && (forall i :: 1 <= i < |e| ==> IsContinuation(e[i]))
    && (|e| == 2 ==> ValueOf(e) >= 0x80)
    && (|e| == 3 ==> ValueOf(e) >= 0x800)
    && (|e| == 4 ==> 0x10000 <= ValueOf(e) <= 0x10FFFF)
  }

  lemma Sextets(h: int, l: int)
    requires 0 <= l < 64
    ensures (h * 64 + l) / 64 == h && (h * 64 + l) % 64 == l
  {
  }

  /** Taking a number apart into three groups of six bits below the rest. */
  lemma SextetsOf(c: int, w: int, x: int, y: int, z: int)
    requires c == w * 262144 + x * 4096 + y * 64 + z && 0 <= x < 64 && 0 <= y < 64 && 0 <= z < 64
    ensures c % 64 == z && c / 64 % 64 == y && c / 4096 % 64 == x && c / 262144 == w && c / 4096 == w * 64 + x
  {
    Sextets((w * 64 + x) * 64 + y, z);
    Sextets(w * 64 + x, y);
    Sextets(w, x);
    assert c / 4096 == c / 64 / 64;
    assert c / 262144 == c / 4096 / 64;
  }

  lemma CharacterIsEncoding(e: seq<Byte>)
    requires Character(e)
    ensures 0 <= ValueOf(e) <= 0x10FFFF && Encode(ValueOf(e)) == e
  {
    var c, lead := ValueOf(e), LeadBits(e[0]);
    var n := |e|;
    if n == 1 {
      assert e == [c];
    } else if n == 2 {
      SextetsOf(c, 0, 0, lead, Low6(e[1]));
      assert IsContinuation(e[1]);
      assert e == [0xC0 + c / 64, 0x80 + c % 64];
    } else if n == 3 {
      SextetsOf(c, 0, lead, Low6(e[1]), Low6(e[2]));
      assert IsContinuation(e[1]) && IsContinuation(e[2]);
      assert e == [0xE0 + c / 4096, 0x80 + c / 64 % 64, 0x80 + c % 64];
    } else {
      SextetsOf(c, lead, Low6(e[1]), Low6(e[2]), Low6(e[3]));
      assert IsContinuation(e[1]) && IsContinuation(e[2]) && IsContinuation(e[3]);
      assert e == [0xF0 + c / 262144, 0x80 + c / 4096 % 64, 0x80 + c / 64 % 64, 0x80 + c % 64];
    }
  }

  lemma ThreeGroups(c: int)
    requires 0 <= c
    ensures c == c / 64 * 64 + c % 64
    ensures c / 64 == c / 4096 * 64 + c / 64 % 64
    ensures c / 4096 == c / 262144 * 64 + c / 4096 % 64
  {
    assert c / 4096 == c / 64 / 64;
    assert c / 262144 == c / 4096 / 64;
  }

  lemma ContinuationByte(x: int)
    requires 0 <= x < 64
    ensures IsContinuation(0x80 + x) && Low6(0x80 + x) == x
  {
  }

  lemma LeadByte(x: int)
    ensures 0 <= x < 32 ==> LengthOf(0xC0 + x) == 2 && LeadBits(0xC0 + x) == x
    ensures 0 <= x < 16 ==> LengthOf(0xE0 + x) == 3 && LeadBits(0xE0 + x) == x
    ensures 0 <= x < 8 ==> LengthOf(0xF0 + x) == 4 && LeadBits(0xF0 + x) == x
  {
  }

  lemma LastByte(c: CodePoint)
    ensures var e := Encode(c);
      && (|e| == 1 ==> e[0] == c) && |e| <= 4
      && (|e| > 1 ==> e[|e| - 1] == 0x80 + c % 64)
      && (|e| > 2 ==> e[|e| - 2] == 0x80 + c / 64 % 64)
      && (|e| > 3 ==> e[|e| - 3] == 0x80 + c / 4096 % 64)
  {
  }

  lemma EncodingIsCharacter(c: CodePoint)
    ensures Character(Encode(c)) && ValueOf(Encode(c)) == c
  {
    ThreeGroups(c);
    var e := Encode(c);
    LastByte(c);
    ContinuationByte(c % 64);
    ContinuationByte(c / 64 % 64);
    ContinuationByte(c / 4096 % 64);
    LeadByte(if |e| == 2 then c / 64 else if |e| == 3 then c / 4096 else c / 262144);
    assert ValueOf(e) == c;
  }

  /** What passes the tests is a shortest-form encoding of the value computed. */
  lemma AcceptedIsEncoded(bytes: seq<Byte>, start: nat)
    requires start < |bytes| && Accepts(bytes, start)
    ensures ValueAt(bytes, start) <= 0x10FFFF && EncodedAt(bytes, start, ValueAt(bytes, start))
    ensures |Encode(ValueAt(bytes, start))| == LengthOf(bytes[start])
  {
    ValueIs(bytes, start);
    CharacterIsEncoding(bytes[start..start + LengthOf(bytes[start])]);
  }

  /** Every shortest-form encoding passes the tests, with its code point as the value. */
  lemma EncodedIsAccepted(bytes: seq<Byte>, start: nat, c: CodePoint)
    requires EncodedAt(bytes, start, c)
    ensures start < |bytes| && Accepts(bytes, start) && ValueAt(bytes, start) == c
    ensures LengthOf(bytes[start]) == |Encode(c)|
  {
    EncodingIsCharacter(c);
    var e := Encode(c);
    assert bytes[start] == bytes[start + 0] == e[0];
    assert bytes[start..start + |e|] == e;
    forall i | start < i < start + |e| ensures IsContinuation(bytes[i]) {
      assert bytes[start + (i - start)] == e[i - start];
    }
    ValueIs(bytes, start);
  }

  // Whole strings.

  lemma AllCons(c: CodePoint, cs: seq<CodePoint>)
    ensures EncodeAll([c] + cs) == Encode(c) + EncodeAll(cs)
    ensures Utf16All([c] + cs) == Utf16(c) + Utf16All(cs)
  {
    assert ([c] + cs)[1..] == cs;
  }

  lemma Associative<T>(a: seq<T>, b: seq<T>, c: seq<T>)
    ensures (a + b) + c == a + (b + c)
  {
  }

  lemma {:induction false} EncodeAllAppend(cs: seq<CodePoint>, c: CodePoint)
    ensures EncodeAll(cs + [c]) == EncodeAll(cs) + Encode(c)
    ensures Utf16All(cs + [c]) == Utf16All(cs) + Utf16(c)
  {
    if cs == [] {
      assert [c] + [] == [c] == [] + [c];
      AllCons(c, []);
    } else {
      assert cs + [c] == [cs[0]] + (cs[1..] + [c]);
      EncodeAllAppend(cs[1..], c);
      AllCons(cs[0], cs[1..] + [c]);
      Associative(Encode(cs[0]), EncodeAll(cs[1..]), Encode(c));
      Associative(Utf16(cs[0]), Utf16All(cs[1..]), Utf16(c));
    }
  }

  lemma SameFirst(c: CodePoint, rest: seq<Byte>, all: seq<CodePoint>)
    requires Encode(c) + rest == EncodeAll(all)
    ensures all != [] && all[0] == c && rest == EncodeAll(all[1..])
  {
    var bytes := EncodeAll(all);
    assert |Encode(c)| >= 1;
    assert EncodedAt(bytes, 0, c);
    assert EncodedAt(bytes, 0, all[0]);
    EncodedIsAccepted(bytes, 0, c);
    EncodedIsAccepted(bytes, 0, all[0]);
    assert rest == bytes[|Encode(c)|..];
    assert EncodeAll(all[1..]) == bytes[|Encode(c)|..];
  }

  /** Shortest forms are a prefix code: what comes after a common beginning is common too. */
  lemma {:induction false} PrefixCode(cs: seq<CodePoint>, rest: seq<Byte>, all: seq<CodePoint>)
    requires EncodeAll(cs) + rest == EncodeAll(all)
    ensures |cs| <= |all| && cs == all[..|cs|] && rest == EncodeAll(all[|cs|..])
    decreases |cs|
  {
    if cs == [] {
      assert all[0..] == all;
    } else {
      var bytes := EncodeAll(all);
      assert bytes == Encode(cs[0]) + (EncodeAll(cs[1..]) + rest);
      SameFirst(cs[0], EncodeAll(cs[1..]) + rest, all);
      PrefixCode(cs[1..], rest, all[1..]);
      assert all[|cs|..] == all[1..][|cs| - 1..];
    }
  }

  /** UTF-8 encoding loses nothing. */
  lemma EncodingIsInjective(a: seq<CodePoint>, b: seq<CodePoint>)
    requires EncodeAll(a) == EncodeAll(b)
    ensures a == b
  {
    assert EncodeAll(a) + [] == EncodeAll(b);
    PrefixCode(a, [], b);
    if |b| > |a| {
      EncodingIsCharacter(b[|a|]);
    }
  }

  ghost predicate WellFormed(bytes: seq<Byte>) {
    exists cs :: EncodeAll(cs) == bytes
  }

  /**
   * `utf8BytesToString`: an answer exactly for concatenations of shortest-form
   * encodings of code points 0 to 0x10FFFF, and then their UTF-16 form.
   */
  method Utf8BytesToString(bytes: seq<Byte>) returns (r: Option<seq<CodeUnit>>)
    ensures r.Some? <==> WellFormed(bytes)
    ensures forall cs :: EncodeAll(cs) == bytes ==> r == Some(Utf16All(cs))
  {
    var result: seq<CodeUnit> := [];
    var index := 0;
    ghost var seen: seq<CodePoint> := [];
    while index < |bytes|
      invariant index <= |bytes|
      invariant bytes[..index] == EncodeAll(seen) && result == Utf16All(seen)
    {
      var lead := bytes[index];
      var length := LengthOf(lead);
      RestIsEncoded(bytes, index, seen);
      if length == 0 {
        return None;
      }
      var codePoint := Continuation(bytes, LeadBits(lead), length, index);
      if codePoint.None? || (length == 2 && codePoint.value < 0x80) || (length == 3 && codePoint.value < 0x800)
         || (length == 4 && (codePoint.value < 0x10000 || codePoint.value > 0x10FFFF)) {
        assert !Accepts(bytes, index);
        return None;
      }
      OneMoreCharacter(bytes, index, seen);
      var c: CodePoint := codePoint.value;
      result := result + Utf16(c);
      seen := seen + [c];
      index := index + length;
    }
    assert bytes[..index] == bytes;
    forall cs | EncodeAll(cs) == bytes ensures cs == seen {
      EncodingIsInjective(cs, seen);
    }
    r := Some(result);
  }

  lemma OneMoreCharacter(bytes: seq<Byte>, index: nat, seen: seq<CodePoint>)
    requires index < |bytes| && bytes[..index] == EncodeAll(seen) && Accepts(bytes, index)
    ensures var c := ValueAt(bytes, index);
      && c <= 0x10FFFF && bytes[..index + LengthOf(bytes[index])] == EncodeAll(seen + [c])
      && Utf16All(seen + [c]) == Utf16All(seen) + Utf16(c)
  {
    AcceptedIsEncoded(bytes, index);
    var c, length := ValueAt(bytes, index), LengthOf(bytes[index]);
    EncodeAllAppend(seen, c);
    assert bytes[..index + length] == bytes[..index] + bytes[index..index + length];
    assert bytes[index..index + length] == Encode(c);
  }

  /** If the whole input is well formed, a character starts wherever an encoded prefix ends. */
  lemma RestIsEncoded(bytes: seq<Byte>, index: nat, seen: seq<CodePoint>)
    requires index < |bytes| && bytes[..index] == EncodeAll(seen)
    ensures WellFormed(bytes) ==> Accepts(bytes, index)
  {
    if WellFormed(bytes) {
      var cs :| EncodeAll(cs) == bytes;
      assert EncodeAll(seen) + bytes[index..] == EncodeAll(cs);
      PrefixCode(seen, bytes[index..], cs);
      var rest := cs[|seen|..];
      assert rest != [];
      assert bytes[index..][..|Encode(rest[0])|] == Encode(rest[0]);
      assert forall i :: 0 <= i < |Encode(rest[0])| ==> bytes[index + i] == bytes[index..][i];
      EncodedIsAccepted(bytes, index, rest[0]);
    }
  }

  // Back from UTF-16.

  ghost predicate Scalars(cs: seq<CodePoint>) {
    forall c <- cs :: !IsSurrogate(c)
  }

  /** On scalar values, RFC 3629's own domain, the string determines what was encoded. */
  lemma {:induction false} Utf16IsInjectiveOnScalars(a: seq<CodePoint>, b: seq<CodePoint>)
    requires Scalars(a) && Scalars(b) && Utf16All(a) == Utf16All(b)
    ensures a == b
    decreases |a|
  {
    if a == [] {
      assert b == [];
    } else {
      assert b != [];
      var u := Utf16All(a);
      assert a[0] in a && b[0] in b;
      assert u[0] == Utf16(a[0])[0] == Utf16(b[0])[0];
      if a[0] >= 0x10000 {
        assert u[1] == Utf16(a[0])[1] == Utf16(b[0])[1];
      }
      assert a[0] == b[0];
      assert Utf16All(a[1..]) == u[|Utf16(a[0])|..] == Utf16All(b[1..]);
      Utf16IsInjectiveOnScalars(a[1..], b[1..]);
    }
  }

  /** With encoded surrogates it does not: a pair of them reads as one supplementary character. */
  lemma SurrogatesCollide(c: CodePoint)
    requires c >= 0x10000
    ensures var pair: seq<CodePoint> := [0xD800 + (c - 0x10000) / 1024, 0xDC00 + (c - 0x10000) % 1024];
      Utf16All(pair) == Utf16All([c]) && EncodeAll(pair) != EncodeAll([c])
  {
    var pair: seq<CodePoint> := [0xD800 + (c - 0x10000) / 1024, 0xDC00 + (c - 0x10000) % 1024];
    assert pair[1..] == [pair[1]] && [c][1..] == [] && pair[1..][1..] == [];
    if EncodeAll(pair) == EncodeAll([c]) {
      EncodingIsInjective(pair, [c]);
    }
  }

  predicate IsHigh(c: int) { 0xD800 <= c <= 0xDBFF }

  predicate IsLow(c: int) { 0xDC00 <= c <= 0xDFFF }

  /** The supplementary character of a surrogate pair. */
  function PairOf(high: int, low: int): CodePoint
    requires IsHigh(high) && IsLow(low)
  {
    0x10000 + (high - 0xD800) * 1024 + (low - 0xDC00)
  }

  /** Every encoded high surrogate and the encoded low one after it, read as the character of the pair. */
  function Merged(cs: seq<CodePoint>): seq<CodePoint> {
    if cs == [] then []
    else if |cs| >= 2 && IsHigh(cs[0]) && IsLow(cs[1]) then [PairOf(cs[0], cs[1])] + Merged(cs[2..])
    else [cs[0]] + Merged(cs[1..])
  }

  /** How a UTF-16 string reads: pairs where there are any, single units otherwise. */
  function Read16(units: seq<CodeUnit>): seq<CodePoint> {
    if units == [] then []
    else if |units| >= 2 && IsHigh(units[0]) && IsLow(units[1]) then [PairOf(units[0], units[1])] + Read16(units[2..])
    else [units[0]] + Read16(units[1..])
  }

  lemma PairIsUtf16(c: CodePoint)
    requires c >= 0x10000
    ensures var u := Utf16(c); IsHigh(u[0]) && IsLow(u[1]) && PairOf(u[0], u[1]) == c
  {
  }

  lemma PairsAre(high: int, low: int)
    requires IsHigh(high) && IsLow(low)
    ensures Utf16(PairOf(high, low)) == [high, low]
  {
  }

  /** The first unit of the rest is that of its first code point. */
  lemma FirstUnit(cs: seq<CodePoint>)
    requires cs != []
    ensures Utf16All(cs) != [] && (IsLow(Utf16All(cs)[0]) <==> IsLow(cs[0]))
  {
    if cs[0] >= 0x10000 {
      PairIsUtf16(cs[0]);
    }
  }

  lemma {:induction false} ReadsAsMerged(cs: seq<CodePoint>)
    ensures Read16(Utf16All(cs)) == Merged(cs)
    decreases |cs|
  {
    if cs != [] {
      var u, rest := Utf16All(cs), Utf16All(cs[1..]);
      ReadsAsMerged(cs[1..]);
      if cs[0] >= 0x10000 {
        PairIsUtf16(cs[0]);
        assert u[0] == Utf16(cs[0])[0] && u[1] == Utf16(cs[0])[1] && u[2..] == rest;
      } else if |cs| >= 2 && IsHigh(cs[0]) && IsLow(cs[1]) {
        ReadsAsMerged(cs[2..]);
        assert cs[1..][1..] == cs[2..];
        assert rest == [cs[1]] + Utf16All(cs[2..]);
        assert u[0] == cs[0] && u[1] == cs[1] && u[2..] == Utf16All(cs[2..]);
      } else {
        assert u[0] == cs[0] && u[1..] == rest;
        if cs[1..] != [] {
          FirstUnit(cs[1..]);
          assert u[1] == rest[0];
        }
      }
    }
  }

  lemma {:induction false} MergedWritesTheSame(cs: seq<CodePoint>)
    ensures Utf16All(Merged(cs)) == Utf16All(cs)
    decreases |cs|
  {
    if cs == [] {
    } else if |cs| >= 2 && IsHigh(cs[0]) && IsLow(cs[1]) {
      PairsAre(cs[0], cs[1]);
      MergedWritesTheSame(cs[2..]);
      AllCons(PairOf(cs[0], cs[1]), Merged(cs[2..]));
      TwoUnits(cs[0], cs[1], cs[2..]);
      assert cs == [cs[0], cs[1]] + cs[2..];
    } else {
      MergedWritesTheSame(cs[1..]);
      AllCons(cs[0], Merged(cs[1..]));
    }
  }

  lemma TwoUnits(high: CodePoint, low: CodePoint, cs: seq<CodePoint>)
    requires high < 0x10000 && low < 0x10000
    ensures Utf16All([high, low] + cs) == [high, low] + Utf16All(cs)
  {
    assert [high, low] + cs == [high] + ([low] + cs);
    AllCons(low, cs);
    AllCons(high, [low] + cs);
    assert [high, low] == [high] + [low];
    Associative(Utf16(high), Utf16(low), Utf16All(cs));
  }

  /**
   * Exactly what the decoder's string tells: two sequences of code points, surrogates
   * allowed, decode to the same string if and only if they are the same once adjacent
   * high and low surrogates are merged.
   */
  lemma SameStringIff(a: seq<CodePoint>, b: seq<CodePoint>)
    ensures Utf16All(a) == Utf16All(b) <==> Merged(a) == Merged(b)
  {
    ReadsAsMerged(a);
    ReadsAsMerged(b);
    MergedWritesTheSame(a);
    MergedWritesTheSame(b);
  }
}
