/** Base64, sections 4 and 5 of RFC 4648 (3rdparty/stout/base64.hpp). Binary data is bytes, encoded text is chars. */
module Base64 {
  import opened Wrappers

  /** A six-bit value. */
  type Sextet = x: bv8 | x < 64

  /** The 64 characters of an alphabet, which differ in the last two. */
  function CharAt(i: nat, c62: char, c63: char): char
    requires i < 64
  {
    if i < 26 then 'A' + i as char
    else if i < 52 then 'a' + (i - 26) as char
    else if i < 62 then '0' + (i - 52) as char
    else if i == 62 then c62
    else c63
  }

  /** The first `n` characters of an alphabet. */
  function Chars(n: nat, c62: char, c63: char): (chars: string)
    requires n <= 64
    ensures |chars| == n && forall i :: 0 <= i < n ==> chars[i] == CharAt(i, c62, c63)
  {
    if n == 0 then "" else Chars(n - 1, c62, c63) + [CharAt(n - 1, c62, c63)]
  }

  function StandardChars(): string { Chars(64, '+', '/') }

  function UrlSafeChars(): string { Chars(64, '-', '_') }

  predicate IsAlnum(c: char) { 'A' <= c <= 'Z' || 'a' <= c <= 'z' || '0' <= c <= '9' }

  predicate IsAlphabet(chars: string) {
    && |chars| == 64 && chars[62] != chars[63] && chars[62] != '=' && chars[63] != '='
    && !IsAlnum(chars[62]) && !IsAlnum(chars[63])
    && (forall i :: 0 <= i < 64 ==> chars[i] == CharAt(i, chars[62], chars[63]))
  }

  predicate IsBase64(c: char, chars: string)
    requires |chars| == 64
  {
    IsAlnum(c) || c == chars[62] || c == chars[63]
  }

  /** `find` of the string class: the first position, or the length for `npos`. */
  function Find(chars: string, c: char): (i: nat)
    ensures i <= |chars| && (i < |chars| ==> chars[i] == c) && forall k :: 0 <= k < i ==> chars[k] != c
  {
    if chars == [] then 0 else if chars[0] == c then 0 else 1 + Find(chars[1..], c)
  }

  /** `find` cast to a byte, which turns `npos` into all ones. */
  function ValueOf(chars: string, c: char): bv8
    requires |chars| == 64
  {
    var i := Find(chars, c);
    if i < 64 then i as bv8 else 0xff
  }

  /** The six-bit values of three bytes. */
  function S0(a: bv8): Sextet { (a & 0xfc) >> 2 }
  function S1(a: bv8, b: bv8): Sextet { ((a & 0x03) << 4) + ((b & 0xf0) >> 4) }
  function S2(b: bv8, c: bv8): Sextet { ((b & 0x0f) << 2) + ((c & 0xc0) >> 6) }
  function S3(c: bv8): Sextet { c & 0x3f }

  /** The bytes of four six-bit values. */
  function O0(p: bv8, q: bv8): bv8 { (p << 2) + ((q & 0x30) >> 4) }
  function O1(q: bv8, r: bv8): bv8 { ((q & 0x0f) << 4) + ((r & 0x3c) >> 2) }
  function O2(r: bv8, s: bv8): bv8 { ((r & 0x03) << 6) + s }

  function Quad(a: bv8, b: bv8, c: bv8): seq<Sextet> { [S0(a), S1(a, b), S2(b, c), S3(c)] }

  function Triple(p: bv8, q: bv8, r: bv8, s: bv8): seq<bv8> { [O0(p, q), O1(q, r), O2(r, s)] }

  function Filled(g: seq<bv8>, i: nat, filler: bv8): bv8 {
    if i < |g| then g[i] else filler
  }

  /** A group of up to three bytes, filled up with zeros, gives one six-bit value more than it has bytes. */
  function GroupSextets(g: seq<bv8>): (q: seq<Sextet>)
    requires 0 < |g| <= 3
    ensures |q| == |g| + 1
  {
    Quad(g[0], Filled(g, 1, 0), Filled(g, 2, 0))[..|g| + 1]
  }

  /** A group of up to four six-bit values, filled up in some way, gives one byte less than it has values. */
  function GroupOctets(g: seq<bv8>, filler: bv8): (t: seq<bv8>)
    requires 0 < |g| <= 4
    ensures |t| == |g| - 1
  {
    Triple(g[0], Filled(g, 1, filler), Filled(g, 2, filler), Filled(g, 3, filler))[..|g| - 1]
  }

  /** All groups are whole but the last. */
  function Sextets(s: seq<bv8>): seq<Sextet> {
    if s == [] then [] else if |s| <= 3 then GroupSextets(s) else GroupSextets(s[..3]) + Sextets(s[3..])
  }

  function Octets(t: seq<bv8>, filler: bv8): seq<bv8> {
    if t == [] then []
    else if |t| <= 4 then GroupOctets(t, filler)
    else GroupOctets(t[..4], filler) + Octets(t[4..], filler)
  }

  function CharOf(chars: string, x: Sextet): char
    requires |chars| == 64
  {
    chars[x as nat]
  }

  function Text(chars: string, t: seq<Sextet>): (text: string)
    requires |chars| == 64
    ensures |text| == |t| && forall i :: 0 <= i < |t| ==> text[i] == CharOf(chars, t[i])
  {
    if t == [] then [] else Text(chars, t[..|t| - 1]) + [CharOf(chars, t[|t| - 1])]
  }

  function ValuesOf(chars: string, text: string): (t: seq<bv8>)
    requires |chars| == 64
    ensures |t| == |text| && forall i :: 0 <= i < |t| ==> t[i] == ValueOf(chars, text[i])
  {
    if text == [] then [] else ValuesOf(chars, text[..|text| - 1]) + [ValueOf(chars, text[|text| - 1])]
  }

  function Equals(n: nat): string { seq(n, _ => '=') }

  /** Padding up to a multiple of four characters. */
  function Pad(n: nat): string {
    if n % 3 == 0 then "" else Equals(3 - n % 3)
  }

  function TextOf(s: seq<bv8>, chars: string): string
    requires |chars| == 64
  {
    Text(chars, Sextets(s))
  }

  function Encoded(s: seq<bv8>, chars: string, padding: bool): string
    requires |chars| == 64
  {
    TextOf(s, chars) + if padding then Pad(|s|) else ""
  }

  /** The text before the first padding character. */
  function Unpadded(text: string): (r: string)
    ensures r <= text && '=' !in r && (|r| < |text| ==> text[|r|] == '=')
  {
    if text == [] || text[0] == '=' then [] else [text[0]] + Unpadded(text[1..])
  }

  predicate AllBase64(text: string, chars: string)
    requires |chars| == 64
  {
    forall i :: 0 <= i < |text| ==> IsBase64(text[i], chars)
  }

  function Decoded(text: string, chars: string): Try<seq<bv8>>
    requires |chars| == 64
  {
    if AllBase64(Unpadded(text), chars) then Ok(Octets(ValuesOf(chars, Unpadded(text)), 0xff)) else Error
  }

  /** `base64::encode` and `base64::decode` with the standard alphabet. */
  function EncodedStandard(s: seq<bv8>): string { Encoded(s, StandardChars(), true) }

  function DecodedStandard(text: string): Try<seq<bv8>> { Decoded(text, StandardChars()) }

  // ------------------------------------------------------------ the alphabets

  lemma {:induction false} AlphabetsAreAlphabets()
    ensures IsAlphabet(StandardChars()) && IsAlphabet(UrlSafeChars())
  {
  }

  lemma {:induction false} FindChar(chars: string, x: Sextet)
    requires IsAlphabet(chars)
    ensures ValueOf(chars, CharOf(chars, x)) == x && IsBase64(CharOf(chars, x), chars) && CharOf(chars, x) != '='
  {
    var i := x as nat;
    var k := Find(chars, chars[i]);
    assert k <= i;
    assert chars[i] == CharAt(i, chars[62], chars[63]) && chars[k] == CharAt(k, chars[62], chars[63]);
    CharsDiffer(k, i, chars[62], chars[63]);
  }

  lemma {:induction false} CharsDiffer(k: nat, i: nat, c62: char, c63: char)
    requires k <= i < 64 && c62 != c63 && !IsAlnum(c62) && !IsAlnum(c63)
    requires CharAt(k, c62, c63) == CharAt(i, c62, c63)
    ensures k == i && (i < 62 ==> IsAlnum(CharAt(i, c62, c63)))
  {
  }

  /** Every character that passes the test has a value. */
  lemma {:induction false} CharFound(chars: string, c: char)
    requires IsAlphabet(chars) && IsBase64(c, chars)
    ensures ValueOf(chars, c) < 64 && CharOf(chars, ValueOf(chars, c)) == c
  {
    var i: nat := if 'A' <= c <= 'Z' then (c - 'A') as nat
                  else if 'a' <= c <= 'z' then (c - 'a') as nat + 26
                  else if '0' <= c <= '9' then (c - '0') as nat + 52
                  else if c == chars[62] then 62 else 63;
    assert chars[i] == CharAt(i, chars[62], chars[63]) == c;
    var k := Find(chars, c);
    assert k <= i;
    ByteOf(k);
  }

  lemma {:induction false} ByteOf(k: nat)
    requires k < 64
    ensures k as bv8 < 64 && (k as bv8) as nat == k
  {
  }

  // ------------------------------------------------------------ bits

  lemma {:induction false} BitsBack(a: bv8, b: bv8, c: bv8)
    ensures O0(S0(a), S1(a, b)) == a && O1(S1(a, b), S2(b, c)) == b && O2(S2(b, c), S3(c)) == c
  {
  }

  lemma {:induction false} BitsForth(p: Sextet, q: Sextet, r: Sextet, s: Sextet)
    ensures S0(O0(p, q)) == p && S1(O0(p, q), O1(q, r)) == q && S2(O1(q, r), O2(r, s)) == r && S3(O2(r, s)) == s
  {
  }

  /** The last value of an incomplete group comes back if its low bits, which belong to no byte, are zero. */
  lemma {:induction false} LastBits(p: Sextet, q: Sextet, r: Sextet)
    ensures S1(O0(p, q), 0) == q <==> q & 0x0f == 0
    ensures S2(O1(q, r), 0) == r <==> r & 0x03 == 0
  {
  }

  /** What an incomplete group is filled up with never reaches the output. */
  lemma {:induction false} GroupFillerIsDropped(g: seq<bv8>, x: bv8, y: bv8)
    requires 0 < |g| <= 4
    ensures GroupOctets(g, x) == GroupOctets(g, y)
  {
    assert |g| <= 3 || g == [g[0], g[1], g[2], g[3]];
  }

  lemma {:induction false} FillerIsDropped(t: seq<bv8>, x: bv8, y: bv8)
    ensures Octets(t, x) == Octets(t, y)
  {
    if t != [] && |t| <= 4 {
      GroupFillerIsDropped(t, x, y);
    } else if t != [] {
      GroupFillerIsDropped(t[..4], x, y);
      FillerIsDropped(t[4..], x, y);
    }
  }

  lemma {:induction false} GroupBack(g: seq<bv8>, filler: bv8)
    requires 0 < |g| <= 3
    ensures GroupOctets(GroupSextets(g), filler) == g
  {
    var b, c := Filled(g, 1, 0), Filled(g, 2, 0);
    BitsBack(g[0], b, c);
  }

  /** Six-bit values back to the bytes they came from. */
  lemma {:induction false} OctetsSextets(s: seq<bv8>)
    ensures Octets(Sextets(s), 0xff) == s
  {
    if s != [] && |s| <= 3 {
      GroupBack(s, 0xff);
    } else if s != [] {
      GroupBack(s[..3], 0xff);
      OctetsSextets(s[3..]);
      var t := Sextets(s);
      assert t[..4] == GroupSextets(s[..3]) && t[4..] == Sextets(s[3..]);
      assert Sextets(s[3..]) != [];
      assert s == s[..3] + s[3..];
    }
  }

  // ------------------------------------------------------------ the round trip

  /** Decoding undoes encoding: every byte string, either alphabet, padded or not. */
  lemma {:induction false} DecodeEncode(s: seq<bv8>, chars: string, padding: bool)
    requires IsAlphabet(chars)
    ensures Decoded(Encoded(s, chars, padding), chars) == Ok(s)
  {
    var t := Sextets(s);
    var text := Text(chars, t);
    forall i | 0 <= i < |t|
      ensures text[i] != '=' && IsBase64(text[i], chars) && ValueOf(chars, text[i]) == t[i]
    {
      FindChar(chars, t[i]);
    }
    assert ValuesOf(chars, text) == t;
    UnpaddedText(text, if padding then Pad(|s|) else "");
    OctetsSextets(s);
  }

  lemma {:induction false} DecodeEncodeStandard(s: seq<bv8>)
    ensures DecodedStandard(EncodedStandard(s)) == Ok(s)
  {
    AlphabetsAreAlphabets();
    DecodeEncode(s, StandardChars(), true);
  }

  lemma {:induction false} UnpaddedText(text: string, pad: string)
    requires (forall i :: 0 <= i < |text| ==> text[i] != '=') && (pad == "" || pad[0] == '=')
    ensures Unpadded(text + pad) == text
  {
    if text == [] {
      assert text + pad == pad;
    } else {
      assert (text + pad)[1..] == text[1..] + pad;
      UnpaddedText(text[1..], pad);
    }
  }

  /** The lengths of RFC 4648: four characters for every three bytes begun, or as many as the bits need. */
  lemma {:induction false} EncodedLength(s: seq<bv8>, chars: string)
    requires |chars| == 64
    ensures |Encoded(s, chars, true)| == (|s| + 2) / 3 * 4
    ensures |Encoded(s, chars, false)| == (|s| * 8 + 5) / 6
  {
    SextetCount(s);
    PaddedCount(|s|);
  }

  lemma {:induction false} SextetCount(s: seq<bv8>)
    ensures |Sextets(s)| == (|s| * 8 + 5) / 6
  {
    if |s| > 3 { SextetCount(s[3..]); }
  }

  lemma {:induction false} PaddedCount(n: nat)
    ensures (n * 8 + 5) / 6 + |Pad(n)| == (n + 2) / 3 * 4
  {
    if n >= 3 { PaddedCount(n - 3); }
  }

  /** No lone value in the last group, and no bits set in the last value that belong to no byte. */
  predicate Canonical(t: seq<bv8>) {
    if |t| > 4 then Canonical(t[4..])
    else |t| != 1 && (|t| == 2 ==> t[1] & 0x0f == 0) && (|t| == 3 ==> t[2] & 0x03 == 0)
  }

  lemma {:induction false} GroupForth(g: seq<Sextet>)
    requires 1 < |g| <= 4
    ensures GroupSextets(GroupOctets(g, 0)) == g <==> Canonical(g)
  {
    var r, s := Filled(g, 2, 0), Filled(g, 3, 0);
    BitsForth(g[0], g[1], r, s);
    LastBits(g[0], g[1], r);
    var h := GroupSextets(GroupOctets(g, 0));
    assert h[0] == g[0];
    assert |g| == 2 ==> h[1] == S1(O0(g[0], g[1]), 0);
    assert |g| == 3 ==> h[1] == g[1] && h[2] == S2(O1(g[1], r), 0);
    assert |g| == 4 ==> h[1] == g[1] && h[2] == r && h[3] == s;
  }

  /** Encoding gives back exactly the canonical texts. */
  lemma {:induction false} SextetsOctets(t: seq<Sextet>)
    ensures Sextets(Octets(t, 0xff)) == t <==> Canonical(t)
  {
    if |t| > 4 {
      var head, rest := t[..4], t[4..];
      var g, s := GroupOctets(head, 0), Octets(rest, 0xff);
      GroupFillerIsDropped(head, 0xff, 0);
      GroupForth(head);
      SextetsOctets(rest);
      SextetsConcat(g, s, 1);
      ConcatEqual(GroupSextets(g), Sextets(s), head, rest);
      assert t == head + rest;
    } else if |t| > 1 {
      GroupFillerIsDropped(t, 0xff, 0);
      GroupForth(t);
    } else if |t| == 1 {
      assert Octets(t, 0xff) == [];
    }
  }

  lemma {:induction false} ConcatEqual(a: seq<bv8>, b: seq<bv8>, c: seq<bv8>, d: seq<bv8>)
    requires |a| == |c|
    ensures a + b == c + d <==> a == c && b == d
  {
    if a + b == c + d {
      assert a == (a + b)[..|a|] && b == (a + b)[|a|..] && c == (c + d)[..|a|] && d == (c + d)[|a|..];
    }
  }

  lemma {:induction false} TextInjective(chars: string, a: seq<Sextet>, b: seq<Sextet>)
    requires IsAlphabet(chars) && Text(chars, a) == Text(chars, b)
    ensures a == b
  {
    var text := Text(chars, a);
    forall i | 0 <= i < |a| ensures a[i] == b[i] {
      assert text[i] == CharOf(chars, a[i]) == CharOf(chars, b[i]);
      FindChar(chars, a[i]);
      FindChar(chars, b[i]);
    }
  }

  lemma {:induction false} SextetsOf(chars: string, text: string) returns (t: seq<Sextet>)
    requires IsAlphabet(chars) && AllBase64(text, chars)
    ensures t == ValuesOf(chars, text) && Text(chars, t) == text
  {
    var n: nat := 0;
    t := [];
    while n < |text|
      invariant n == |t| <= |text|
      invariant forall k :: 0 <= k < n ==> t[k] == ValueOf(chars, text[k]) && CharOf(chars, t[k]) == text[k]
    {
      CharFound(chars, text[n]);
      t := t + [ValueOf(chars, text[n])];
      n := n + 1;
    }
  }

  /** The padding that follows `n` characters, if there is to be one. */
  function Padding(n: nat, padding: bool): string {
    if padding then Equals((4 - n % 4) % 4) else ""
  }

  lemma {:induction false} CanonicalPad(t: seq<bv8>)
    requires Canonical(t)
    ensures Pad(|Octets(t, 0xff)|) == Padding(|t|, true)
  {
    if |t| > 4 {
      CanonicalPad(t[4..]);
      assert |Octets(t, 0xff)| == 3 + |Octets(t[4..], 0xff)|;
    } else if t != [] {
      assert |Octets(t, 0xff)| == |t| - 1;
    }
  }

  lemma {:induction false} BodyBack(body: string, chars: string)
    requires IsAlphabet(chars) && AllBase64(body, chars)
    ensures TextOf(Octets(ValuesOf(chars, body), 0xff), chars) == body <==> Canonical(ValuesOf(chars, body))
  {
    var t := SextetsOf(chars, body);
    SextetsOctets(t);
    var u := Sextets(Octets(t, 0xff));
    if Text(chars, u) == body { TextInjective(chars, u, t); }
  }

  lemma {:induction false} TextHasNoPad(s: seq<bv8>, chars: string, pad: string)
    requires IsAlphabet(chars) && (pad == "" || pad[0] == '=')
    ensures Unpadded(TextOf(s, chars) + pad) == TextOf(s, chars)
  {
    var t, text := Sextets(s), TextOf(s, chars);
    forall i | 0 <= i < |text| ensures text[i] != '=' { FindChar(chars, t[i]); }
    UnpaddedText(text, pad);
  }

  /**
   Encoding undoes decoding exactly on the texts whose body is canonical and is followed by the padding of its length,
   or by nothing where none is written.
   */
  lemma {:induction false} EncodeDecode(text: string, chars: string, padding: bool)
    requires IsAlphabet(chars) && Decoded(text, chars).Ok?
    ensures var body := Unpadded(text);
            Encoded(Decoded(text, chars).value, chars, padding) == text <==>
            Canonical(ValuesOf(chars, body)) && text == body + Padding(|body|, padding)
  {
    var body := Unpadded(text);
    var t := ValuesOf(chars, body);
    var value := Octets(t, 0xff);
    var pad := if padding then Pad(|value|) else "";
    BodyBack(body, chars);
    TextHasNoPad(value, chars, pad);
    if Canonical(t) { CanonicalPad(t); }
  }

  // ------------------------------------------------------------ the code

  lemma {:induction false} TextConcat(chars: string, t: seq<Sextet>, u: seq<Sextet>)
    requires |chars| == 64
    ensures Text(chars, t + u) == Text(chars, t) + Text(chars, u)
  {
  }

  /** The characters of a group of `i` bytes, filled up with zeros. */
  method Emit(group: array<bv8>, i: nat, chars: string) returns (r: string)
    requires group.Length == 3 && 0 < i <= 3 && |chars| == 64 && forall k :: i <= k < 3 ==> group[k] == 0
    ensures r == Text(chars, GroupSextets(group[..i]))
  {
    var quad := new Sextet[4][S0(group[0]), S1(group[0], group[1]), S2(group[1], group[2]), S3(group[2])];
    ghost var q := Quad(group[0], group[1], group[2]);
    r := Translate(quad, q, chars, i + 1);
    assert Filled(group[..i], 1, 0) == group[1] && Filled(group[..i], 2, 0) == group[2];
  }

  method Translate(quad: array<Sextet>, ghost q: seq<Sextet>, chars: string, count: nat) returns (r: string)
    requires quad.Length == 4 && quad[..] == q && |chars| == 64 && count <= 4
    ensures r == Text(chars, q[..count])
  {
    r := "";
    for j := 0 to count
      invariant r == Text(chars, q[..j])
    {
      r := r + [CharOf(chars, quad[j])];
      assert q[..j + 1][..j] == q[..j];
    }
  }

  /** Whole groups of three can be encoded apart. */
  lemma {:induction false} SextetsConcat(s: seq<bv8>, rest: seq<bv8>, m: nat)
    requires |s| == 3 * m
    ensures Sextets(s + rest) == Sextets(s) + Sextets(rest)
  {
    if m == 0 || rest == [] {
      assert s + rest == if m == 0 then rest else s;
    } else {
      var tail := s[3..];
      SextetsConcat(tail, rest, m - 1);
      assert (s + rest)[..3] == s[..3] && (s + rest)[3..] == tail + rest;
      assert Sextets(s) == GroupSextets(s[..3]) + Sextets(tail);
    }
  }

  lemma {:induction false} OctetsConcat(t: seq<bv8>, rest: seq<bv8>, m: nat)
    requires |t| == 4 * m
    ensures Octets(t + rest, 0xff) == Octets(t, 0xff) + Octets(rest, 0xff)
  {
    if m == 0 || rest == [] {
      assert t + rest == if m == 0 then rest else t;
    } else {
      var tail := t[4..];
      OctetsConcat(tail, rest, m - 1);
      assert (t + rest)[..4] == t[..4] && (t + rest)[4..] == tail + rest;
      assert Octets(t, 0xff) == GroupOctets(t[..4], 0xff) + Octets(tail, 0xff);
    }
  }

  lemma {:induction false} NextGroup(s: seq<bv8>, m: nat, g: seq<bv8>, chars: string)
    requires 0 < |g| <= 3 && 3 * m + |g| <= |s| && g == s[3 * m..3 * m + |g|] && |chars| == 64
    ensures TextOf(s[..3 * m + |g|], chars) == TextOf(s[..3 * m], chars) + Text(chars, GroupSextets(g))
  {
    var n := 3 * m;
    assert s[..n + |g|] == s[..n] + g;
    SextetsConcat(s[..n], g, m);
    TextConcat(chars, Sextets(s[..n]), GroupSextets(g));
  }

  lemma {:induction false} LastGroup(s: seq<bv8>, m: nat, g: seq<bv8>, chars: string, padding: bool, last: string)
    requires 0 < |g| < 3 && |s| == 3 * m + |g| && g == s[3 * m..] && |chars| == 64
    requires last == Text(chars, GroupSextets(g)) + if padding then Pad(|g|) else ""
    ensures TextOf(s[..3 * m], chars) + last == Encoded(s, chars, padding)
  {
    NextGroup(s, m, g, chars);
    assert s[..|s|] == s;
    SamePad(m, |g|);
    JoinTexts(TextOf(s[..3 * m], chars), Text(chars, GroupSextets(g)), if padding then Pad(|g|) else "");
  }

  lemma {:induction false} SamePad(m: nat, i: nat)
    requires i < 3
    ensures Pad(3 * m + i) == Pad(i)
  {
  }

  lemma {:induction false} JoinTexts(a: string, b: string, c: string)
    ensures a + (b + c) == a + b + c
  {
  }

  /** The first `m` groups are encoded, and the bytes `g` behind them are read. */
  ghost predicate Encoding(s: seq<bv8>, chars: string, m: nat, g: seq<bv8>, result: string)
    requires |chars| == 64
  {
    3 * m + |g| <= |s| && g == s[3 * m..3 * m + |g|] && result == TextOf(s[..3 * m], chars)
  }

  lemma {:induction false} EncodeStep(s: seq<bv8>, chars: string, m: nat, g: seq<bv8>, result: string)
    requires |chars| == 64 && Encoding(s, chars, m, g, result) && 3 * m + |g| < |s|
    ensures Encoding(s, chars, m, g + [s[3 * m + |g|]], result)
  {
  }

  lemma {:induction false} EncodeGroup(s: seq<bv8>, chars: string, m: nat, g: seq<bv8>, result: string)
    requires |chars| == 64 && Encoding(s, chars, m, g, result) && |g| == 3
    ensures Encoding(s, chars, m + 1, [], result + Text(chars, GroupSextets(g)))
  {
    NextGroup(s, m, g, chars);
    assert 3 * (m + 1) == 3 * m + |g|;
  }

  lemma {:induction false} EncodeEnd(s: seq<bv8>, chars: string, padding: bool, m: nat, g: seq<bv8>, result: string,
                                     last: string)
    requires |chars| == 64 && Encoding(s, chars, m, g, result) && |g| < 3 && 3 * m + |g| == |s|
    requires last == if g == [] then "" else Text(chars, GroupSextets(g)) + if padding then Pad(|g|) else ""
    ensures result + last == Encoded(s, chars, padding)
  {
    assert s[..|s|] == s;
    if g == [] {
      SamePad(m, 0);
      assert result + last == result;
    } else {
      LastGroup(s, m, g, chars, padding, last);
    }
  }

  /** Takes one more byte into the group, and empties it when it is full. */
  method Push(b: bv8, group: array<bv8>, i: nat, chars: string) returns (i': nat, text: string)
    requires group.Length == 3 && i < 3 && |chars| == 64
    modifies group
    ensures i' == if i == 2 then 0 else i + 1
    ensures i < 2 ==> text == "" && group[..i'] == old(group[..i]) + [b]
    ensures i == 2 ==> text == Text(chars, GroupSextets(old(group[..i]) + [b]))
  {
    group[i] := b;
    assert group[..i + 1] == old(group[..i]) + [b];
    i', text := i + 1, "";
    if i' == 3 {
      text := Emit(group, 3, chars);
      i' := 0;
    }
  }

  method Encode(s: seq<bv8>, chars: string, padding: bool) returns (result: string)
    requires |chars| == 64
    ensures result == Encoded(s, chars, padding)
  {
    var group := new bv8[3];
    var i: nat := 0;
    ghost var m: nat := 0;
    result := "";
    for n := 0 to |s|
      invariant i < 3 && n == 3 * m + i && Encoding(s, chars, m, group[..i], result)
    {
      ghost var g := group[..i];
      EncodeStep(s, chars, m, g, result);
      var text;
      i, text := Push(s[n], group, i, chars);
      if i == 0 {
        EncodeGroup(s, chars, m, g + [s[n]], result);
        m := m + 1;
        assert group[..i] == [];
      }
      result := result + text;
    }
    ghost var g := group[..i];
    var last := "";
    if i != 0 {
      last := Finish(group, i, chars, padding);
    }
    EncodeEnd(s, chars, padding, m, g, result, last);
    result := result + last;
  }

  /** The incomplete last group. */
  method Finish(group: array<bv8>, i: nat, chars: string, padding: bool) returns (result: string)
    requires group.Length == 3 && 0 < i < 3 && |chars| == 64
    modifies group
    ensures result == Text(chars, GroupSextets(old(group[..i]))) + if padding then Pad(i) else ""
  {
    for j := i to 3
      invariant group[..i] == old(group[..i])
      invariant forall k :: i <= k < j ==> group[k] == 0
    {
      group[j] := 0;
    }
    result := Emit(group, i, chars);
    if padding {
      for j := i to 3
        invariant result == Text(chars, GroupSextets(old(group[..i]))) + Equals(j - i)
      {
        result := result + "=";
      }
    }
  }

  // ------------------------------------------------------------ decoding

  function GroupBytes(g: string, chars: string): seq<bv8>
    requires 0 < |g| <= 4 && |chars| == 64
  {
    GroupOctets(ValuesOf(chars, g), 0xff)
  }

  /** The characters of a group by their values, of which all but one byte are taken. */
  method Take(group: array<char>, i: nat, chars: string) returns (bytes: seq<bv8>)
    requires group.Length == 4 && 0 < i <= 4 && |chars| == 64
    ensures bytes == GroupBytes(group[..i], chars)
  {
    var quad := new bv8[4](_ => 0xff);
    for j := 0 to i
      invariant forall k :: 0 <= k < j ==> quad[k] == ValueOf(chars, group[k])
      invariant forall k :: j <= k < 4 ==> quad[k] == 0xff
    {
      quad[j] := ValueOf(chars, group[j]);
    }
    var triple := [O0(quad[0], quad[1]), O1(quad[1], quad[2]), O2(quad[2], quad[3])];
    bytes := triple[..i - 1];
  }

  lemma {:induction false} ValuesConcat(chars: string, a: string, b: string)
    requires |chars| == 64
    ensures ValuesOf(chars, a + b) == ValuesOf(chars, a) + ValuesOf(chars, b)
  {
  }

  function BytesOf(text: string, chars: string): seq<bv8>
    requires |chars| == 64
  {
    Octets(ValuesOf(chars, text), 0xff)
  }

  lemma {:induction false} NextBytes(text: string, m: nat, g: string, chars: string)
    requires 0 < |g| <= 4 && 4 * m + |g| <= |text| && g == text[4 * m..4 * m + |g|] && |chars| == 64
    ensures BytesOf(text[..4 * m + |g|], chars) == BytesOf(text[..4 * m], chars) + GroupBytes(g, chars)
  {
    var n := 4 * m;
    assert text[..n + |g|] == text[..n] + g;
    ValuesConcat(chars, text[..n], g);
    OctetsConcat(ValuesOf(chars, text[..n]), ValuesOf(chars, g), m);
  }

  ghost predicate Decoding(text: string, chars: string, m: nat, g: string, result: seq<bv8>)
    requires |chars| == 64
  {
    4 * m + |g| <= |text| && g == text[4 * m..4 * m + |g|] && result == BytesOf(text[..4 * m], chars)
  }

  lemma {:induction false} DecodeStart(text: string, chars: string)
    requires |chars| == 64
    ensures Decoding(text, chars, 0, [], [])
  {
    assert text[..0] == [];
  }

  lemma {:induction false} DecodeStep(text: string, chars: string, m: nat, g: string, result: seq<bv8>)
    requires |chars| == 64 && Decoding(text, chars, m, g, result) && 4 * m + |g| < |text|
    ensures Decoding(text, chars, m, g + [text[4 * m + |g|]], result)
  {
  }

  lemma {:induction false} DecodeGroup(text: string, chars: string, m: nat, g: string, result: seq<bv8>)
    requires |chars| == 64 && Decoding(text, chars, m, g, result) && |g| == 4
    ensures Decoding(text, chars, m + 1, [], result + GroupBytes(g, chars))
  {
    NextBytes(text, m, g, chars);
    assert 4 * (m + 1) == 4 * m + |g|;
  }

  lemma {:induction false} DecodeEnd(text: string, chars: string, m: nat, g: string, result: seq<bv8>, last: seq<bv8>)
    requires |chars| == 64 && Decoding(text, chars, m, g, result) && |g| < 4
    requires last == if g == [] then [] else GroupBytes(g, chars)
    ensures result + last == BytesOf(text[..4 * m + |g|], chars)
  {
    if g == [] {
      assert result + last == result;
    } else {
      NextBytes(text, m, g, chars);
    }
  }

  method PushChar(c: char, group: array<char>, i: nat, chars: string) returns (i': nat, bytes: seq<bv8>)
    requires group.Length == 4 && i < 4 && |chars| == 64
    modifies group
    ensures i' == if i == 3 then 0 else i + 1
    ensures i < 3 ==> bytes == [] && group[..i'] == old(group[..i]) + [c]
    ensures i == 3 ==> bytes == GroupBytes(old(group[..i]) + [c], chars)
  {
    group[i] := c;
    assert group[..i + 1] == old(group[..i]) + [c];
    i', bytes := i + 1, [];
    if i' == 4 {
      bytes := Take(group, 4, chars);
      i' := 0;
    }
  }

  /** The loop over the characters, up to the padding or a bad character: the bytes of the whole groups, and the begun one. */
  method Scan(text: string, chars: string)
    returns (n: nat, group: array<char>, i: nat, ghost m: nat, result: seq<bv8>)
    requires |chars| == 64
    ensures n <= |text| && ValidUpTo(text, n, chars) && (n < |text| && text[n] != '=' ==> !IsBase64(text[n], chars))
    ensures group.Length == 4 && i < 4 && n == 4 * m + i && Decoding(text, chars, m, group[..i], result)
  {
    group := new char[4];
    n, i, m, result := 0, 0, 0, [];
    DecodeStart(text, chars);
    assert group[..i] == [];
    while n < |text| && text[n] != '=' && IsBase64(text[n], chars)
      invariant i < 4 && n == 4 * m + i <= |text|
      invariant Decoding(text, chars, m, group[..i], result) && ValidUpTo(text, n, chars)
    {
      ValidNext(text, n, chars);
      m, i, result := Advance(text, chars, m, text[n], group, i, result);
      n := n + 1;
    }
  }

  method Advance(ghost text: string, chars: string, ghost m: nat, c: char, group: array<char>, i: nat, result: seq<bv8>)
    returns (ghost m': nat, i': nat, result': seq<bv8>)
    requires group.Length == 4 && i < 4 && |chars| == 64 && Decoding(text, chars, m, group[..i], result)
    requires 4 * m + i < |text| && c == text[4 * m + i]
    modifies group
    ensures i' < 4 && 4 * m' + i' == 4 * m + i + 1 && Decoding(text, chars, m', group[..i'], result')
  {
    ghost var g := group[..i];
    DecodeStep(text, chars, m, g, result);
    var bytes;
    i', bytes := PushChar(c, group, i, chars);
    m', result' := m, result + bytes;
    if i' == 0 {
      DecodeGroup(text, chars, m, g + [c], result);
      m' := m + 1;
      assert group[..i'] == [];
    } else {
      assert result' == result;
    }
  }

  method TakeLast(group: array<char>, i: nat, chars: string) returns (bytes: seq<bv8>)
    requires group.Length == 4 && i < 4 && |chars| == 64
    ensures bytes == if i == 0 then [] else GroupBytes(group[..i], chars)
  {
    bytes := [];
    if i != 0 {
      bytes := Take(group, i, chars);
    }
  }

  method Decode(text: string, chars: string) returns (answer: Try<seq<bv8>>)
    requires |chars| == 64
    ensures answer == Decoded(text, chars)
  {
    var n, group, i, m, result := Scan(text, chars);
    if n < |text| && text[n] != '=' {
      InvalidChar(text, n, chars);
      answer := Error;
    } else {
      var last := TakeLast(group, i, chars);
      DecodeFinish(text, chars, n, m, group[..i], result, last);
      answer := Ok(result + last);
    }
  }

  lemma {:induction false} DecodeFinish(text: string, chars: string, n: nat, m: nat, g: string, result: seq<bv8>,
                                        last: seq<bv8>)
    requires |chars| == 64 && Decoding(text, chars, m, g, result) && |g| < 4 && n == 4 * m + |g|
    requires ValidUpTo(text, n, chars) && (n < |text| ==> text[n] == '=')
    requires last == if g == [] then [] else GroupBytes(g, chars)
    ensures Decoded(text, chars) == Ok(result + last)
  {
    DecodeEnd(text, chars, m, g, result, last);
    ReadUpTo(text, n, chars);
  }

  lemma {:induction false} ValidNext(text: string, n: nat, chars: string)
    requires n < |text| && |chars| == 64 && ValidUpTo(text, n, chars) && text[n] != '=' && IsBase64(text[n], chars)
    ensures ValidUpTo(text, n + 1, chars)
  {
  }

  predicate ValidUpTo(text: string, n: nat, chars: string)
    requires n <= |text| && |chars| == 64
  {
    forall k :: 0 <= k < n ==> text[k] != '=' && IsBase64(text[k], chars)
  }

  /** Reading stops at the first padding character; what is behind it is not looked at. */
  lemma {:induction false} ReadUpTo(text: string, n: nat, chars: string)
    requires n <= |text| && |chars| == 64 && ValidUpTo(text, n, chars) && (n < |text| ==> text[n] == '=')
    ensures Decoded(text, chars) == Ok(BytesOf(text[..n], chars))
  {
    var r := Unpadded(text);
    assert '=' !in r;
    assert |r| >= n;
    assert r == text[..n];
  }

  lemma {:induction false} InvalidChar(text: string, n: nat, chars: string)
    requires n < |text| && |chars| == 64 && ValidUpTo(text, n, chars) && text[n] != '=' && !IsBase64(text[n], chars)
    ensures Decoded(text, chars) == Error
  {
    var r := Unpadded(text);
    assert |r| > n;
    assert r[n] == text[n];
  }
}
