/**
 * The encoders of sections 4 and 5 of RFC 4648, the way back from the decoder of module
 * Base64Url, and what that decoder accepts beyond what they write.
 */
module Base64Encoding {
  import opened Wrappers
  import opened Base64Url

  /** Three bytes to four sextets; one or two bytes left over to two or three, filled with zero bits. */
  function Sextets(bytes: seq<Byte>): (vs: seq<Sextet>)
    ensures |vs| == (4 * |bytes| + 2) / 3
  {
    if bytes == [] then []
    else if |bytes| == 1 then [bytes[0] / 4, bytes[0] % 4 * 16]
    else if |bytes| == 2 then [bytes[0] / 4, bytes[0] % 4 * 16 + bytes[1] / 16, bytes[1] % 16 * 4]
    else Quartet(bytes[0], bytes[1], bytes[2]) + Sextets(bytes[3..])
  }

  function Quartet(x: Byte, y: Byte, z: Byte): seq<Sextet> {
    [x / 4, x % 4 * 16 + y / 16, y % 16 * 4 + z / 64, z % 64]
  }

  function Text(vs: seq<Sextet>, url: bool): (text: string)
    ensures |text| == |vs|
    ensures forall i :: 0 <= i < |vs| ==> text[i] == CharOf(vs[i], url)
  {
    if vs == [] then "" else Text(vs[..|vs| - 1], url) + [CharOf(vs[|vs| - 1], url)]
  }

  function Padding(n: nat): string {
    if n % 3 == 1 then "==" else if n % 3 == 2 then "=" else ""
  }

  function Encode(bytes: seq<Byte>, url: bool, pad: bool): string {
    Text(Sextets(bytes), url) + PaddingFor(|bytes|, pad)
  }

  function GroupBits(vs: seq<Sextet>): (bits: seq<bool>)
    ensures |bits| == 6 * |vs|
  {
    if vs == [] then [] else Bits(vs[0], 6) + GroupBits(vs[1..])
  }

  lemma {:induction false} GroupBitsAppend(vs: seq<Sextet>, v: Sextet)
    ensures GroupBits(vs + [v]) == GroupBits(vs) + Bits(v, 6)
    decreases |vs|
  {
    if vs == [] {
      assert [v][1..] == [];
    } else {
      assert (vs + [v])[1..] == vs[1..] + [v];
      GroupBitsAppend(vs[1..], v);
      Associative(Bits(vs[0], 6), GroupBits(vs[1..]), Bits(v, 6));
    }
  }

  /** Written in either alphabet, the sextets read back as their own bits. */
  lemma {:induction false} TextBits(vs: seq<Sextet>, url: bool)
    ensures SextetBits(Text(vs, url)) == GroupBits(vs)
    decreases |vs|
  {
    if vs != [] {
      var front, last := vs[..|vs| - 1], vs[|vs| - 1];
      assert vs == front + [last];
      assert SextetBits(Text(front + [last], url)) == GroupBits(front + [last]) by {
        TextBits(front, url);
        TextBitsOne(front, last, url);
      }
    }
  }

  lemma TextBitsOne(vs: seq<Sextet>, v: Sextet, url: bool)
    requires SextetBits(Text(vs, url)) == GroupBits(vs)
    ensures SextetBits(Text(vs + [v], url)) == GroupBits(vs + [v])
  {
    assert (vs + [v])[..|vs|] == vs;
    assert Text(vs + [v], url) == Text(vs, url) + [CharOf(v, url)];
    ReadsBothAlphabets(v, url);
    GroupBitsAppend(vs, v);
    SextetBitsAppend(Text(vs, url), CharOf(v, url));
  }

  /** A byte and the first bits of the next, over two sextets. */
  lemma FirstPair(x: Byte, a: Sextet, t: nat, b: Sextet, u: nat)
    requires x == a * 4 + t && t < 4 && b == t * 16 + u && u < 16
    ensures Bits(a, 6) + Bits(b, 6) == Bits(x, 8) + Bits(u, 4)
  {
    SmallPowers();
    JoinBits(a, t, 6, 2);
    JoinBits(t, u, 2, 4);
    Associative(Bits(a, 6), Bits(t, 2), Bits(u, 4));
  }

  /** The rest of a byte and the first bits of the next. */
  lemma SecondPair(y: Byte, u: nat, t: nat, c: Sextet, v: nat)
    requires y == u * 16 + t && t < 16 && c == t * 4 + v && v < 4
    ensures Bits(u, 4) + Bits(c, 6) == Bits(y, 8) + Bits(v, 2)
  {
    SmallPowers();
    JoinBits(u, t, 4, 4);
    JoinBits(t, v, 4, 2);
    Associative(Bits(u, 4), Bits(t, 4), Bits(v, 2));
  }

  lemma LastPair(z: Byte, v: nat, d: Sextet)
    requires z == v * 64 + d
    ensures Bits(v, 2) + Bits(d, 6) == Bits(z, 8)
  {
    SmallPowers();
    JoinBits(v, d, 2, 6);
  }

  lemma {:induction false} ByteBitsFront(b: Byte, bytes: seq<Byte>)
    ensures ByteBits([b] + bytes) == Bits(b, 8) + ByteBits(bytes)
    decreases |bytes|
  {
    if bytes == [] {
      assert [b] + bytes == [] + [b];
      ByteBitsAppend([], b);
    } else {
      var n := |bytes| - 1;
      ByteBitsFront(b, bytes[..n]);
      assert [b] + bytes == ([b] + bytes[..n]) + [bytes[n]];
      ByteBitsAppend([b] + bytes[..n], bytes[n]);
      Associative(Bits(b, 8), ByteBits(bytes[..n]), Bits(bytes[n], 8));
    }
  }

  /** How many zero bits fill the last sextet. */
  function Filler(n: nat): nat {
    if n % 3 == 1 then 4 else if n % 3 == 2 then 2 else 0
  }

  /** Four groups that regroup pairwise into three bytes. */
  lemma Regroup(a: seq<bool>, b: seq<bool>, c: seq<bool>, d: seq<bool>, x: seq<bool>, y: seq<bool>, z: seq<bool>,
                p: seq<bool>, q: seq<bool>, rest: seq<bool>)
    requires a + b == x + p && p + c == y + q && q + d == z
    ensures a + (b + (c + (d + rest))) == x + (y + (z + rest))
    ensures a + (b + (c + rest)) == x + (y + (q + rest))
    ensures a + (b + rest) == x + (p + rest)
  {
    Associative(a, b, c + (d + rest));
    Associative(x, p, c + (d + rest));
    Associative(p, c, d + rest);
    Associative(y, q, d + rest);
    Associative(q, d, rest);
    Associative(a, b, c + rest);
    Associative(x, p, c + rest);
    Associative(p, c, rest);
    Associative(y, q, rest);
    Associative(a, b, rest);
    Associative(x, p, rest);
  }

  lemma GroupBitsCons(v: Sextet, vs: seq<Sextet>)
    ensures GroupBits([v] + vs) == Bits(v, 6) + GroupBits(vs)
  {
    assert ([v] + vs)[1..] == vs;
  }

  lemma TwoGroups(u: Sextet, v: Sextet)
    ensures GroupBits([u, v]) == Bits(u, 6) + Bits(v, 6)
  {
    GroupBitsCons(v, []);
    GroupBitsCons(u, [v]);
    assert [u] + [v] == [u, v] && [v] + [] == [v];
    assert Bits(v, 6) + [] == Bits(v, 6);
  }

  lemma ThreeGroups(u: Sextet, v: Sextet, w: Sextet, x: seq<bool>, y: seq<bool>, p: seq<bool>, q: seq<bool>)
    requires Bits(u, 6) + Bits(v, 6) == x + p && p + Bits(w, 6) == y + q
    ensures GroupBits([u, v, w]) == x + (y + q)
  {
    TwoGroups(v, w);
    GroupBitsCons(u, [v, w]);
    assert [u] + [v, w] == [u, v, w];
    Associative(Bits(u, 6), Bits(v, 6), Bits(w, 6));
    Associative(x, p, Bits(w, 6));
  }

  lemma FourGroups(vs: seq<Sextet>, rest: seq<Sextet>)
    requires |vs| == 4
    ensures GroupBits(vs + rest)
      == Bits(vs[0], 6) + (Bits(vs[1], 6) + (Bits(vs[2], 6) + (Bits(vs[3], 6) + GroupBits(rest))))
  {
    GroupBitsCons(vs[3], rest);
    GroupBitsCons(vs[2], [vs[3]] + rest);
    GroupBitsCons(vs[1], [vs[2]] + ([vs[3]] + rest));
    GroupBitsCons(vs[0], [vs[1]] + ([vs[2]] + ([vs[3]] + rest)));
    assert vs + rest == [vs[0]] + ([vs[1]] + ([vs[2]] + ([vs[3]] + rest)));
  }

  lemma OneLeft(x: Byte)
    ensures GroupBits([x / 4, x % 4 * 16]) == Bits(x, 8) + Bits(0, 4)
  {
    FirstPair(x, x / 4, x % 4, x % 4 * 16, 0);
    TwoGroups(x / 4, x % 4 * 16);
  }

  lemma TwoLeft(x: Byte, y: Byte)
    ensures GroupBits([x / 4, x % 4 * 16 + y / 16, y % 16 * 4]) == Bits(x, 8) + (Bits(y, 8) + Bits(0, 2))
  {
    var a, b, c: Sextet := x / 4, x % 4 * 16 + y / 16, y % 16 * 4;
    FirstPair(x, a, x % 4, b, y / 16);
    SecondPair(y, y / 16, y % 16, c, 0);
    ThreeGroups(a, b, c, Bits(x, 8), Bits(y, 8), Bits(y / 16, 4), Bits(0, 2));
  }

  /** Four sextets carry the bits of three bytes; p and q are the parts of a byte in the second and the third. */
  ghost predicate Carry24(vs: seq<Sextet>, x: seq<bool>, y: seq<bool>, z: seq<bool>, p: seq<bool>, q: seq<bool>) {
    && |vs| == 4 && Bits(vs[0], 6) + Bits(vs[1], 6) == x + p
    && p + Bits(vs[2], 6) == y + q && q + Bits(vs[3], 6) == z
  }

  lemma QuartetRegroups(vs: seq<Sextet>, rest: seq<Sextet>, x: seq<bool>, y: seq<bool>, z: seq<bool>,
                        p: seq<bool>, q: seq<bool>)
    requires Carry24(vs, x, y, z, p, q)
    ensures GroupBits(vs + rest) == x + (y + (z + GroupBits(rest)))
  {
    FourGroups(vs, rest);
    Regroup(Bits(vs[0], 6), Bits(vs[1], 6), Bits(vs[2], 6), Bits(vs[3], 6), x, y, z, p, q, GroupBits(rest));
  }

  lemma QuartetCarries(x: Byte, y: Byte, z: Byte)
    ensures Carry24(Quartet(x, y, z), Bits(x, 8), Bits(y, 8), Bits(z, 8), Bits(y / 16, 4), Bits(z / 64, 2))
  {
    var vs := Quartet(x, y, z);
    FirstPair(x, vs[0], x % 4, vs[1], y / 16);
    SecondPair(y, y / 16, y % 16, vs[2], z / 64);
    LastPair(z, z / 64, vs[3]);
  }

  lemma QuartetGroup(x: Byte, y: Byte, z: Byte, rest: seq<Sextet>)
    ensures GroupBits(Quartet(x, y, z) + rest) == Bits(x, 8) + (Bits(y, 8) + (Bits(z, 8) + GroupBits(rest)))
  {
    QuartetCarries(x, y, z);
    QuartetRegroups(Quartet(x, y, z), rest, Bits(x, 8), Bits(y, 8), Bits(z, 8), Bits(y / 16, 4), Bits(z / 64, 2));
  }

  lemma ThreeBytes(x: Byte, y: Byte, z: Byte, rest: seq<Byte>)
    ensures ByteBits([x, y, z] + rest) == Bits(x, 8) + (Bits(y, 8) + (Bits(z, 8) + ByteBits(rest)))
  {
    ByteBitsFront(z, rest);
    ByteBitsFront(y, [z] + rest);
    ByteBitsFront(x, [y] + ([z] + rest));
    assert [x, y, z] + rest == [x] + ([y] + ([z] + rest));
  }

  lemma FewBytes(x: Byte, y: Byte)
    ensures ByteBits([x]) == Bits(x, 8) && ByteBits([x, y]) == Bits(x, 8) + Bits(y, 8)
  {
    ByteBitsFront(y, []);
    ByteBitsFront(x, []);
    ByteBitsFront(x, [y]);
    assert [x] + [] == [x] && [y] + [] == [y] && [x] + [y] == [x, y];
    assert Bits(x, 8) + [] == Bits(x, 8) && Bits(y, 8) + [] == Bits(y, 8);
  }

  ghost predicate Carries(bytes: seq<Byte>) {
    GroupBits(Sextets(bytes)) == ByteBits(bytes) + Bits(0, Filler(|bytes|))
  }

  lemma OneCarries(x: Byte)
    ensures Carries([x])
  {
    OneLeft(x);
    FewBytes(x, 0);
  }

  lemma TwoCarry(bytes: seq<Byte>)
    requires |bytes| == 2
    ensures Carries(bytes)
  {
    var x, y := bytes[0], bytes[1];
    assert bytes == [x, y];
    assert Sextets(bytes) == [x / 4, x % 4 * 16 + y / 16, y % 16 * 4] by {
      assert bytes != [];
    }
    TwoLeft(x, y);
    FewBytes(x, y);
    Associative(Bits(x, 8), Bits(y, 8), Bits(0, 2));
  }

  lemma SextetsOfMore(x: Byte, y: Byte, z: Byte, rest: seq<Byte>)
    ensures Sextets([x, y, z] + rest) == Quartet(x, y, z) + Sextets(rest)
    ensures Filler(|[x, y, z] + rest|) == Filler(|rest|)
  {
    assert ([x, y, z] + rest)[3..] == rest;
  }

  lemma ThreeMoreCarry(x: Byte, y: Byte, z: Byte, rest: seq<Byte>)
    requires Carries(rest)
    ensures Carries([x, y, z] + rest)
  {
    SextetsOfMore(x, y, z, rest);
    QuartetGroup(x, y, z, Sextets(rest));
    ThreeBytes(x, y, z, rest);
    Outer(Bits(x, 8), Bits(y, 8), Bits(z, 8), ByteBits(rest), Bits(0, Filler(|rest|)));
  }

  /** The sextets of the encoder carry the bytes' bits and then zero bits. */
  lemma {:induction false} SextetsCarryTheBytes(bytes: seq<Byte>)
    ensures Carries(bytes)
    decreases |bytes|
  {
    if bytes == [] {
      assert Bits(0, 0) == [];
    } else if |bytes| == 1 {
      OneCarries(bytes[0]);
      assert bytes == [bytes[0]];
    } else if |bytes| == 2 {
      TwoCarry(bytes);
    } else {
      SextetsCarryTheBytes(bytes[3..]);
      ThreeMoreCarry(bytes[0], bytes[1], bytes[2], bytes[3..]);
      assert bytes == [bytes[0], bytes[1], bytes[2]] + bytes[3..];
    }
  }

  lemma Outer(x: seq<bool>, y: seq<bool>, z: seq<bool>, rest: seq<bool>, end: seq<bool>)
    ensures x + (y + (z + (rest + end))) == x + (y + (z + rest)) + end
  {
  }

  lemma {:induction false} CompactOfPadded(text: string, pad: string)
    requires '=' !in text && (pad == "" || pad == "=" || pad == "==")
    ensures Compact(text + pad) == text
    decreases |text|
  {
    if text == "" {
      assert text + pad == pad;
      assert pad == "==" ==> pad[1..] == "=" && pad[1..][1..] == "";
      assert pad == "=" ==> pad[1..] == "";
    } else {
      assert (text + pad)[1..] == text[1..] + pad;
      CompactOfPadded(text[1..], pad);
    }
  }

  lemma TextIsClean(vs: seq<Sextet>, url: bool, pad: string)
    requires pad == "" || pad == "=" || pad == "=="
    ensures Compact(Text(vs, url) + pad) == Text(vs, url) && !Foreign(Text(vs, url))
  {
    var text := Text(vs, url);
    forall i | 0 <= i < |text| ensures ValueOf(text[i]).Some? && text[i] != '=' {
      ReadsBothAlphabets(vs[i], url);
    }
    CompactOfPadded(text, pad);
  }

  lemma EncodedBits(bytes: seq<Byte>, url: bool)
    ensures var bits := SextetBits(Text(Sextets(bytes), url));
      bits == ByteBits(bytes) + Bits(0, Filler(|bytes|)) && bits[..8 * |bytes|] == ByteBits(bytes)
  {
    TextBits(Sextets(bytes), url);
    SextetsCarryTheBytes(bytes);
  }

  lemma LengthsFit(n: nat, length: nat)
    requires length == (4 * n + 2) / 3
    ensures length % 4 != 1 && 6 * length / 8 == n
  {
    var k, r := n / 3, n % 3;
    assert n == 3 * k + r;
    assert length == 4 * k + (4 * r + 2) / 3;
  }

  /** A segment whose clean text has these bits decodes to these bytes. */
  lemma DecodesByBits(segment: string, text: string, bytes: seq<Byte>)
    requires Compact(segment) == text && |text| % 4 != 1 && !Foreign(text)
    requires |bytes| == 6 * |text| / 8 && SextetBits(text)[..8 * |bytes|] == ByteBits(bytes)
    ensures Decodes(segment, Some(bytes))
  {
  }

  /**
   * Decoding gives back any byte sequence from its standard or URL-safe encoding,
   * padded or not.
   */
  lemma RoundTrip(bytes: seq<Byte>, url: bool, pad: bool)
    ensures Decodes(Encode(bytes, url, pad), Some(bytes))
  {
    var vs := Sextets(bytes);
    TextIsClean(vs, url, PaddingFor(|bytes|, pad));
    EncodedBits(bytes, url);
    var text := Text(vs, url);
    LengthsFit(|bytes|, |text|);
    DecodesByBits(Encode(bytes, url, pad), Text(vs, url), bytes);
  }

  lemma {:induction false} SextetBitsDetermine(vs: seq<Sextet>, ws: seq<Sextet>)
    requires GroupBits(vs) == GroupBits(ws)
    ensures vs == ws
    decreases |vs|
  {
    if vs != [] {
      assert |ws| == |vs|;
      assert GroupBits(vs)[..6] == Bits(vs[0], 6) && GroupBits(ws)[..6] == Bits(ws[0], 6);
      assert GroupBits(vs)[6..] == GroupBits(vs[1..]) && GroupBits(ws)[6..] == GroupBits(ws[1..]);
      SmallPowers();
      BitsInjective(vs[0], ws[0], 6);
      SextetBitsDetermine(vs[1..], ws[1..]);
      assert vs == [vs[0]] + vs[1..] && ws == [ws[0]] + ws[1..];
    }
  }

  lemma {:induction false} TextDetermines(vs: seq<Sextet>, ws: seq<Sextet>, url: bool)
    requires Text(vs, url) == Text(ws, url)
    ensures vs == ws
  {
    forall i | 0 <= i < |vs| ensures vs[i] == ws[i] {
      assert Text(vs, url)[i] == CharOf(vs[i], url) && Text(ws, url)[i] == CharOf(ws[i], url);
      ReadsBothAlphabets(vs[i], url);
      ReadsBothAlphabets(ws[i], url);
    }
  }

  lemma DecodedBits(vs: seq<Sextet>, url: bool, bytes: seq<Byte>)
    requires |vs| % 4 != 1 && Decodes(Text(vs, url), Some(bytes))
    ensures |bytes| == 6 * |vs| / 8 && GroupBits(vs)[..8 * |bytes|] == ByteBits(bytes)
  {
    TextIsClean(vs, url, "");
    assert Text(vs, url) + "" == Text(vs, url);
    TextBits(vs, url);
  }

  lemma LeftOverFits(n: nat, length: nat)
    requires length % 4 != 1 && n == 6 * length / 8
    ensures 6 * length - 8 * n == Filler(n)
  {
    var k, r := length / 4, length % 4;
    assert length == 4 * k + r;
    assert n == 3 * k + 6 * r / 8;
  }

  /**
   * Of unpadded text in one alphabet: when `bytes` is what the decoder makes of it,
   * encoding them again gives the text back exactly if the bits the decoder has dropped
   * at the end are all zero.
   */
  lemma CanonicalText(vs: seq<Sextet>, url: bool, bytes: seq<Byte>)
    requires |vs| % 4 != 1 && Decodes(Text(vs, url), Some(bytes))
    ensures 8 * |bytes| <= |GroupBits(vs)|
    ensures Encode(bytes, url, false) == Text(vs, url)
            <==> GroupBits(vs)[8 * |bytes|..] == Bits(0, Filler(|bytes|))
  {
    DecodedBits(vs, url, bytes);
    UnpaddedIs(bytes, url);
    SplitAt(GroupBits(vs), ByteBits(bytes), Bits(0, Filler(|bytes|)));
    SameTextIff(vs, url, bytes);
  }

  lemma SplitAt(g: seq<bool>, b: seq<bool>, z: seq<bool>)
    requires |b| <= |g| && g[..|b|] == b
    ensures g[|b|..] == z <==> g == b + z
  {
    assert g == g[..|b|] + g[|b|..];
  }

  lemma SameTextIff(vs: seq<Sextet>, url: bool, bytes: seq<Byte>)
    ensures Text(Sextets(bytes), url) == Text(vs, url)
      <==> GroupBits(vs) == ByteBits(bytes) + Bits(0, Filler(|bytes|))
  {
    SextetsCarryTheBytes(bytes);
    if Text(Sextets(bytes), url) == Text(vs, url) {
      TextDetermines(Sextets(bytes), vs, url);
    }
    if GroupBits(vs) == ByteBits(bytes) + Bits(0, Filler(|bytes|)) {
      SextetBitsDetermine(vs, Sextets(bytes));
    }
  }

  /** Every character is written in the one alphabet. */
  ghost predicate InAlphabet(text: string, url: bool) {
    forall i :: 0 <= i < |text| ==> ValueOf(text[i]).Some? && text[i] == CharOf(ValueOf(text[i]).value, url)
  }

  ghost predicate AllZero(bits: seq<bool>) {
    forall i :: 0 <= i < |bits| ==> !bits[i]
  }

  lemma {:induction false} ZeroBits(n: nat)
    ensures AllZero(Bits(0, n))
  {
    if n > 0 {
      ZeroBits(n - 1);
    }
  }

  lemma ZeroIsAllZero(bits: seq<bool>, n: nat)
    requires |bits| == n
    ensures bits == Bits(0, n) <==> AllZero(bits)
  {
    ZeroBits(n);
  }

  function Values(text: string): (vs: seq<Sextet>)
    ensures |vs| == |text|
  {
    seq(|text|, i requires 0 <= i < |text| => match ValueOf(text[i]) case Some(v) => v case None => 0)
  }

  lemma TextOfValues(text: string, url: bool)
    requires InAlphabet(text, url)
    ensures Text(Values(text), url) == text
  {
    forall i | 0 <= i < |text| ensures Text(Values(text), url)[i] == text[i] {
    }
  }

  lemma TextIsInAlphabet(vs: seq<Sextet>, url: bool)
    ensures InAlphabet(Text(vs, url), url)
  {
    forall i | 0 <= i < |vs| ensures ValueOf(Text(vs, url)[i]) == Some(vs[i]) {
      ReadsBothAlphabets(vs[i], url);
    }
  }

  /** The padding section 4 of RFC 4648 asks for after `n` bytes, or none. */
  function PaddingFor(n: nat, pad: bool): string {
    if pad then Padding(n) else ""
  }

  /** What is left of an accepted segment's bit stream behind the bytes read from it. */
  ghost function LeftOver(segment: string, bytes: seq<Byte>): seq<bool>
    requires Decodes(segment, Some(bytes))
  {
    SextetBits(Compact(segment))[8 * |bytes|..]
  }

  lemma CanonicalIsEncoded(segment: string, bytes: seq<Byte>, url: bool, pad: bool)
    requires Decodes(segment, Some(bytes)) && InAlphabet(Compact(segment), url) && AllZero(LeftOver(segment, bytes))
    requires segment == Compact(segment) + PaddingFor(|bytes|, pad)
    ensures segment == Encode(bytes, url, pad)
  {
    var text := Compact(segment);
    var vs := Values(text);
    TextOfValues(text, url);
    LeftOverIs(segment, vs, url, bytes);
    CanonicalText(vs, url, bytes);
    UnpaddedIs(bytes, url);
  }

  lemma UnpaddedIs(bytes: seq<Byte>, url: bool)
    ensures Encode(bytes, url, false) == Text(Sextets(bytes), url)
  {
    assert Text(Sextets(bytes), url) + "" == Text(Sextets(bytes), url);
  }

  /** What is left over of a segment, in terms of its sextets. */
  lemma LeftOverIs(segment: string, vs: seq<Sextet>, url: bool, bytes: seq<Byte>)
    requires Decodes(segment, Some(bytes)) && Compact(segment) == Text(vs, url)
    ensures |vs| % 4 != 1 && Decodes(Text(vs, url), Some(bytes)) && 8 * |bytes| <= |GroupBits(vs)|
    ensures GroupBits(vs)[8 * |bytes|..] == Bits(0, Filler(|bytes|)) <==> AllZero(LeftOver(segment, bytes))
  {
    TextBits(vs, url);
    LeftOverFits(|bytes|, |vs|);
    assert LeftOver(segment, bytes) == GroupBits(vs)[8 * |bytes|..];
    ZeroIsAllZero(LeftOver(segment, bytes), Filler(|bytes|));
  }

  lemma EncodedIsCanonical(bytes: seq<Byte>, url: bool, pad: bool)
    ensures var segment := Encode(bytes, url, pad);
      && Decodes(segment, Some(bytes)) && InAlphabet(Compact(segment), url)
      && segment == Compact(segment) + PaddingFor(|bytes|, pad) && AllZero(LeftOver(segment, bytes))
  {
    RoundTrip(bytes, url, pad);
    TextIsClean(Sextets(bytes), url, PaddingFor(|bytes|, pad));
    TextIsInAlphabet(Sextets(bytes), url);
    EncodedBits(bytes, url);
    ZeroBits(Filler(|bytes|));
    assert LeftOver(Encode(bytes, url, pad), bytes) == Bits(0, Filler(|bytes|));
  }

  /**
   * Exactly which accepted segments an encoder writes.  Whatever the decoder accepts is
   * the encoding of the bytes it answers, in a given alphabet and padded or not, if and
   * only if all its characters are of that alphabet, it has just the padding that goes
   * with that many bytes, and the bits left over at its end are zero.
   */
  lemma CanonicalSegment(segment: string, bytes: seq<Byte>, url: bool, pad: bool)
    requires Decodes(segment, Some(bytes))
    ensures segment == Encode(bytes, url, pad) <==>
      && InAlphabet(Compact(segment), url)
      && segment == Compact(segment) + PaddingFor(|bytes|, pad)
      && AllZero(LeftOver(segment, bytes))
  {
    EncodedIsCanonical(bytes, url, pad);
    if InAlphabet(Compact(segment), url) && segment == Compact(segment) + PaddingFor(|bytes|, pad)
       && AllZero(LeftOver(segment, bytes)) {
      CanonicalIsEncoded(segment, bytes, url, pad);
    }
  }
}
