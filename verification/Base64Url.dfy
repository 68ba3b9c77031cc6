/**
 * The hand-written base64url decoder of the mobile app (account-security-logic.ts),
 * against sections 4 and 5 of RFC 4648.
 *
 * The meaning of a segment is a stream of bits, six from every character, most
 * significant first; of a byte sequence, eight from every byte.  JavaScript's
 * `buffer << 6 | value` is written 64 * buffer + value, `buffer >> k` is Shr and
 * `buffer & (1 << k) - 1` is Low; the decoder keeps `buffer` below 2^13, far from
 * 32-bit wrap-around.
 */
module Base64Url {
  import opened Wrappers

  type Sextet = v: int | 0 <= v < 64

  /** The alphabet A-Z a-z 0-9 followed by `+` and `/`, or by `-` and `_` (tables 1 and 2). */
  function CharOf(v: Sextet, url: bool): char {
    if v < 26 then 'A' + v as char
    else if v < 52 then 'a' + (v - 26) as char
    else if v < 62 then '0' + (v - 52) as char
    else if v == 62 then (if url then '-' else '+')
    else (if url then '_' else '/')
  }

  function Pow2(n: nat): (p: nat)
    ensures p >= 1
  {
    if n == 0 then 1 else 2 * Pow2(n - 1)
  }

  /** The low `w` bits of `n`, most significant first. */
  function Bits(n: nat, w: nat): (bits: seq<bool>)
    ensures |bits| == w
  {
    if w == 0 then [] else Bits(n / 2, w - 1) + [n % 2 == 1]
  }

  function Shr(n: nat, k: nat): nat {
    if k == 0 then n else Shr(n / 2, k - 1)
  }

  function Low(n: nat, k: nat): nat {
    if k == 0 then 0 else 2 * Low(n / 2, k - 1) + n % 2
  }

  /** `n & 0xff`. */
  function LowByte(n: nat): Byte { n % 256 }

  /** The lookup table and the two URL-safe characters. */
  function ValueOf(c: char): Option<Sextet> {
    if c == '-' then Some(62)
    else if c == '_' then Some(63)
    else if 'A' <= c <= 'Z' then Some(c as int - 'A' as int)
    else if 'a' <= c <= 'z' then Some(c as int - 'a' as int + 26)
    else if '0' <= c <= '9' then Some(c as int - '0' as int + 52)
    else if c == '+' then Some(62)
    else if c == '/' then Some(63)
    else None
  }

  /** Both alphabets are read back, whichever is used. */
  lemma ReadsBothAlphabets(v: Sextet, url: bool)
    ensures ValueOf(CharOf(v, url)) == Some(v) && CharOf(v, url) != '='
  {
  }

  /** A character has a value exactly if it is in one of the alphabets, and then its place there. */
  lemma ReadsNothingElse(c: char, v: Sextet)
    ensures ValueOf(c) == Some(v) <==> c == CharOf(v, false) || c == CharOf(v, true)
  {
  }

  /** The alphabets of tables 1 and 2 by their blocks: where these begin and end, and that they run on in between. */
  lemma AlphabetIs(v: Sextet, url: bool)
    ensures CharOf(0, url) == 'A' && CharOf(25, url) == 'Z' && CharOf(26, url) == 'a' && CharOf(51, url) == 'z'
    ensures CharOf(52, url) == '0' && CharOf(61, url) == '9'
    ensures CharOf(62, false) == '+' && CharOf(63, false) == '/' && CharOf(62, true) == '-' && CharOf(63, true) == '_'
    ensures v < 61 && v != 25 && v != 51 ==> CharOf(v + 1, url) as int == CharOf(v, url) as int + 1
  {
  }

  function Compact(segment: string): (compact: string)
    ensures '=' !in compact
    ensures '=' !in segment ==> compact == segment
  {
    if segment == "" then ""
    else if segment[0] == '=' then Compact(segment[1..])
    else [segment[0]] + Compact(segment[1..])
  }

  /** Character by character, the padding goes and everything else stays in its order. */
  lemma {:induction false} CompactDropsPadding(segment: string, c: char)
    ensures Compact(segment + [c]) == Compact(segment) + if c == '=' then [] else [c]
    ensures Compact("") == ""
  {
    if segment == "" {
      assert segment + [c] == [c];
    } else {
      CompactDropsPadding(segment[1..], c);
      assert (segment + [c])[1..] == segment[1..] + [c];
    }
  }

  ghost predicate Foreign(compact: string) {
    exists i :: 0 <= i < |compact| && ValueOf(compact[i]).None?
  }

  function SextetBits(compact: string): (bits: seq<bool>)
    ensures |bits| == 6 * |compact|
  {
    if compact == "" then [] else
    SextetBits(compact[..|compact| - 1])
    + Bits(match ValueOf(compact[|compact| - 1]) case Some(v) => v case None => 0, 6)
  }

  function ByteBits(bytes: seq<Byte>): (bits: seq<bool>)
    ensures |bits| == 8 * |bytes|
  {
    if bytes == [] then [] else ByteBits(bytes[..|bytes| - 1]) + Bits(bytes[|bytes| - 1], 8)
  }

  // Bit streams.

  /** Cutting off the low `k` bits of a number cuts its bit stream. */
  lemma {:induction false} BitsSplit(n: nat, a: nat, k: nat)
    ensures Bits(n, a + k) == Bits(Shr(n, k), a) + Bits(Low(n, k), k)
    ensures Low(n, k) < Pow2(k)
    decreases k
  {
    if k > 0 {
      BitsSplit(n / 2, a, k - 1);
      assert Low(n, k) / 2 == Low(n / 2, k - 1) && Low(n, k) % 2 == n % 2;
      assert Bits(n, a + k) == Bits(n / 2, a + k - 1) + [n % 2 == 1];
      assert Bits(Low(n, k), k) == Bits(Low(n / 2, k - 1), k - 1) + [n % 2 == 1];
    } else {
      assert Bits(n, a) == Bits(n, a) + Bits(0, 0);
    }
  }

  lemma {:induction false} ShrBelow(n: nat, k: nat)
    requires n < Pow2(8 + k)
    ensures Shr(n, k) < 256
    decreases k
  {
    SmallPowers();
    if k > 0 {
      assert Pow2(8 + k) == 2 * Pow2(8 + (k - 1));
      ShrBelow(n / 2, k - 1);
    }
  }

  lemma Halves(q: nat, r: nat, p: nat)
    ensures (q * (2 * p) + r) / 2 == q * p + r / 2 && (q * (2 * p) + r) % 2 == r % 2
  {
    assert q * (2 * p) == 2 * (q * p);
  }

  /** Joining numbers joins their bit streams. */
  lemma {:induction false} JoinBits(q: nat, r: nat, a: nat, k: nat)
    requires r < Pow2(k)
    ensures Bits(q * Pow2(k) + r, a + k) == Bits(q, a) + Bits(r, k)
    decreases k
  {
    if k == 0 {
      assert Bits(q, a) == Bits(q, a) + [];
    } else {
      var n := q * Pow2(k) + r;
      Halves(q, r, Pow2(k - 1));
      JoinBits(q, r / 2, a, k - 1);
      assert Bits(n, a + k) == Bits(n / 2, a + (k - 1)) + [n % 2 == 1];
      assert Bits(r, k) == Bits(r / 2, k - 1) + [r % 2 == 1];
    }
  }

  lemma {:induction false} BitsInjective(m: nat, n: nat, w: nat)
    requires m < Pow2(w) && n < Pow2(w) && Bits(m, w) == Bits(n, w)
    ensures m == n
  {
    if w > 0 {
      var x, y := Bits(m, w), Bits(n, w);
      assert x[..w - 1] == Bits(m / 2, w - 1) && y[..w - 1] == Bits(n / 2, w - 1);
      assert x[w - 1] == (m % 2 == 1) && y[w - 1] == (n % 2 == 1);
      BitsInjective(m / 2, n / 2, w - 1);
    }
  }

  lemma SmallPowers()
    ensures Pow2(0) == 1 && Pow2(2) == 4 && Pow2(4) == 16 && Pow2(6) == 64 && Pow2(8) == 256
  {
    assert Pow2(2) == 2 * Pow2(1);
    assert Pow2(4) == 2 * Pow2(3) && Pow2(3) == 2 * Pow2(2);
    assert Pow2(6) == 2 * Pow2(5) && Pow2(5) == 2 * Pow2(4);
    assert Pow2(8) == 2 * Pow2(7) && Pow2(7) == 2 * Pow2(6);
  }

  lemma {:induction false} ByteBitsInjective(a: seq<Byte>, b: seq<Byte>)
    requires ByteBits(a) == ByteBits(b)
    ensures a == b
    decreases |a|
  {
    if a != [] {
      var n := |a| - 1;
      assert |b| == |a|;
      assert ByteBits(a)[..8 * n] == ByteBits(a[..n]) && ByteBits(b)[..8 * n] == ByteBits(b[..n]);
      assert ByteBits(a)[8 * n..] == Bits(a[n], 8) && ByteBits(b)[8 * n..] == Bits(b[n], 8);
      SmallPowers();
      BitsInjective(a[n], b[n], 8);
      ByteBitsInjective(a[..n], b[..n]);
      assert a == a[..n] + [a[n]] && b == b[..n] + [b[n]];
    }
  }

  // The decoder.

  /**
   * What decoding a segment has to give: nothing when the length leaves a lone
   * six-bit group or a character is foreign, and otherwise the whole bytes of the
   * bit stream.
   */
  ghost predicate Decodes(segment: string, r: Option<seq<Byte>>) {
    var compact := Compact(segment);
    if |compact| % 4 == 1 || Foreign(compact) then r == None
    else
      && r.Some? && |r.value| == 6 * |compact| / 8
      && ByteBits(r.value) == SextetBits(compact)[..8 * |r.value|]
  }

  /** At most one answer is right. */
  lemma DecodesOneWay(segment: string, r: Option<seq<Byte>>, s: Option<seq<Byte>>)
    requires Decodes(segment, r) && Decodes(segment, s)
    ensures r == s
  {
    if r.Some? && s.Some? {
      ByteBitsInjective(r.value, s.value);
    }
  }

  /** What is out already and the `width` bits waiting in the buffer, in order, are what was read. */
  ghost predicate Waiting(bytes: seq<Byte>, buffer: nat, width: nat, seen: string) {
    buffer < Pow2(width) && ByteBits(bytes) + Bits(buffer, width) == SextetBits(seen)
  }

  lemma JoinSextet(high: nat, low: Sextet, a: nat)
    ensures Bits(high * 64 + low, a + 6) == Bits(high, a) + Bits(low, 6)
  {
    SmallPowers();
    JoinBits(high, low, a, 6);
  }

  lemma SixMore(n: nat, width: nat, v: Sextet)
    requires n < Pow2(width)
    ensures n * 64 + v < Pow2(width + 6)
    ensures width <= 7 ==> n * 64 + v < 8192
  {
    SmallPowers();
    var a, b := Pow2(width + 1), Pow2(width + 2);
    var c, d := Pow2(width + 3), Pow2(width + 4);
    assert a == 2 * Pow2(width) && b == 2 * a && c == 2 * b && d == 2 * c && Pow2(width + 5) == 2 * d;
    if width <= 7 {
      Pow2Grows(width, 7);
      assert Pow2(7) == 2 * Pow2(6);
    }
  }

  lemma {:induction false} Pow2Grows(m: nat, n: nat)
    requires m <= n
    ensures Pow2(m) <= Pow2(n)
    decreases n
  {
    if m < n {
      Pow2Grows(m, n - 1);
    }
  }

  /** Shifting one sextet in: the waiting bits and the new ones, in order, never above 2^13. */
  lemma ShiftIn(bytes: seq<Byte>, buffer: nat, width: nat, seen: string, c: char)
    requires Waiting(bytes, buffer, width, seen) && ValueOf(c).Some?
    ensures Waiting(bytes, buffer * 64 + ValueOf(c).value, width + 6, seen + [c])
    ensures width <= 7 ==> buffer * 64 + ValueOf(c).value < 8192
  {
    var value := ValueOf(c).value;
    SixMore(buffer, width, value);
    JoinSextet(buffer, value, width);
    SextetBitsAppend(seen, c);
    Associative(ByteBits(bytes), Bits(buffer, width), Bits(value, 6));
  }

  lemma Associative(a: seq<bool>, b: seq<bool>, c: seq<bool>)
    ensures a + b + c == a + (b + c)
  {
  }

  lemma SextetBitsAppend(seen: string, c: char)
    requires ValueOf(c).Some?
    ensures SextetBits(seen + [c]) == SextetBits(seen) + Bits(ValueOf(c).value, 6)
  {
    assert (seen + [c])[..|seen|] == seen;
  }

  lemma ByteBitsAppend(bytes: seq<Byte>, b: Byte)
    ensures ByteBits(bytes + [b]) == ByteBits(bytes) + Bits(b, 8)
  {
    assert (bytes + [b])[..|bytes|] == bytes;
  }

  /** Taking the first eight of the waiting bits out as a byte. */
  lemma TakeByte(bytes: seq<Byte>, buffer: nat, left: nat, seen: string)
    requires Waiting(bytes, buffer, 8 + left, seen)
    ensures Waiting(bytes + [LowByte(Shr(buffer, left))], Low(buffer, left), left, seen)
  {
    var high, low := Shr(buffer, left), Low(buffer, left);
    ShrBelow(buffer, left);
    assert LowByte(high) == high;
    BitsSplit(buffer, 8, left);
    Reassemble(bytes, high, Bits(low, left));
  }

  lemma Reassemble(bytes: seq<Byte>, b: Byte, rest: seq<bool>)
    ensures ByteBits(bytes + [b]) + rest == ByteBits(bytes) + (Bits(b, 8) + rest)
  {
    ByteBitsAppend(bytes, b);
    Associative(ByteBits(bytes), Bits(b, 8), rest);
  }

  /** One round of the decoder's loop. */
  lemma OneCharacter(bytes: seq<Byte>, buffer: nat, bits: nat, seen: string, c: char)
    requires bits <= 7 && Waiting(bytes, buffer, bits, seen) && ValueOf(c).Some?
    ensures var shifted := buffer * 64 + ValueOf(c).value;
      && shifted < 8192
      && if bits + 6 >= 8 then
           Waiting(bytes + [LowByte(Shr(shifted, bits - 2))], Low(shifted, bits - 2), bits - 2, seen + [c])
         else
           Waiting(bytes, shifted, bits + 6, seen + [c])
  {
    ShiftIn(bytes, buffer, bits, seen, c);
    if bits >= 2 {
      TakeByte(bytes, buffer * 64 + ValueOf(c).value, bits - 2, seen + [c]);
    }
  }

  ghost predicate Reading(bytes: seq<Byte>, buffer: nat, bits: nat, seen: string) {
    bits <= 7 && Waiting(bytes, buffer, bits, seen)
  }

  /** The loop body: `buffer` never reaches 2^13. */
  method TakeCharacter(bytes: seq<Byte>, buffer: nat, bits: nat, value: Sextet, ghost seen: string, ghost c: char)
    returns (bytes': seq<Byte>, buffer': nat, bits': nat)
    requires Reading(bytes, buffer, bits, seen) && ValueOf(c) == Some(value)
    ensures Reading(bytes', buffer', bits', seen + [c])
  {
    OneCharacter(bytes, buffer, bits, seen, c);
    bytes', buffer', bits' := bytes, buffer * 64 + value, bits + 6;
    assert buffer' < 8192;
    if bits' >= 8 {
      bits' := bits' - 8;
      bytes' := bytes' + [LowByte(Shr(buffer', bits'))];
      buffer' := Low(buffer', bits');
    }
  }

  /** The loop over the characters; None at one without a value. */
  method DecodeCharacters(compact: string) returns (bytes: Option<seq<Byte>>, ghost buffer: nat, ghost bits: nat)
    ensures bytes.None? <==> Foreign(compact)
    ensures bytes.Some? ==> Reading(bytes.value, buffer, bits, compact)
  {
    var out: seq<Byte>, buffer', bits' := [], 0, 0;
    buffer, bits := 0, 0;
    for i := 0 to |compact|
      invariant Reading(out, buffer', bits', compact[..i]) && Known(compact, i)
    {
      var value := ValueOf(compact[i]);
      if value.None? {
        return None, buffer, bits;
      }
      assert compact[..i] + [compact[i]] == compact[..i + 1];
      out, buffer', bits' := TakeCharacter(out, buffer', bits', value.value, compact[..i], compact[i]);
    }
    assert compact[..|compact|] == compact;
    bytes, buffer, bits := Some(out), buffer', bits';
  }

  /** `decodeBase64UrlBytes`. */
  method DecodeBase64UrlBytes(segment: string) returns (r: Option<seq<Byte>>)
    ensures Decodes(segment, r)
  {
    var compact := Compact(segment);
    NoAnswer(segment);
    if |compact| % 4 == 1 {
      return None;
    }
    ghost var buffer, bits;
    r, buffer, bits := DecodeCharacters(compact);
    if r.Some? {
      WholeBytes(segment, r.value, buffer, bits);
    }
  }

  lemma NoAnswer(segment: string)
    ensures |Compact(segment)| % 4 == 1 || Foreign(Compact(segment)) ==> Decodes(segment, None)
  {
  }

  /** The first `n` characters all have a value. */
  ghost predicate Known(compact: string, n: nat)
    requires n <= |compact|
  {
    forall k :: 0 <= k < n ==> ValueOf(compact[k]).Some?
  }

  /** Once everything is read, the bytes out are the answer; fewer than eight bits wait. */
  lemma WholeBytes(segment: string, bytes: seq<Byte>, buffer: nat, bits: nat)
    requires |Compact(segment)| % 4 != 1 && !Foreign(Compact(segment))
    requires Reading(bytes, buffer, bits, Compact(segment))
    ensures Decodes(segment, Some(bytes))
  {
    assert |ByteBits(bytes) + Bits(buffer, bits)| == 8 * |bytes| + bits;
  }
}
