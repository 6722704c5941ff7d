/** base64.RawStdEncoding: the standard alphabet of section 4 of RFC 4648, without padding. */
module Base64 {
  import opened Wrappers

  type byte = x: nat | x < 256
  type sextet = x: nat | x < 64

  // ----- the alphabet -----

  predicate InAlphabet(c: char) {
    'A' <= c <= 'Z' || 'a' <= c <= 'z' || '0' <= c <= '9' || c == '+' || c == '/'
  }

  function Symbol(n: sextet): (c: char)
    ensures InAlphabet(c) && Index(c) == n
  {
    if n < 26 then 'A' + n as char
    else if n < 52 then 'a' + (n - 26) as char
    else if n < 62 then '0' + (n - 52) as char
    else if n == 62 then '+'
    else '/'
  }

  function Index(c: char): sextet
    requires InAlphabet(c)
  {
    if c == '+' then 62
    else if c == '/' then 63
    else if c <= '9' then (c - '0') as int + 52
    else if c <= 'Z' then (c - 'A') as int
    else (c - 'a') as int + 26
  }

  function Symbols(n: seq<sextet>): (s: string)
    ensures |s| == |n| && forall i :: 0 <= i < |n| ==> s[i] == Symbol(n[i])
    ensures AllInAlphabet(s)
  {
    if n == [] then "" else [Symbol(n[0])] + Symbols(n[1..])
  }

  predicate AllInAlphabet(s: string) {
    forall i :: 0 <= i < |s| ==> InAlphabet(s[i])
  }

  function Indices(s: string): (n: seq<sextet>)
    requires AllInAlphabet(s)
    ensures |n| == |s| && forall i :: 0 <= i < |s| ==> n[i] == Index(s[i])
  {
    if s == "" then [] else [Index(s[0])] + Indices(s[1..])
  }

  lemma IndicesOfSymbols(n: seq<sextet>)
    ensures Indices(Symbols(n)) == n
  {
    assert forall i :: 0 <= i < |n| ==> Indices(Symbols(n))[i] == Index(Symbol(n[i])) == n[i];
  }

  lemma SymbolOfIndex(c: char)
    requires InAlphabet(c)
    ensures Symbol(Index(c)) == c
  {
  }

  lemma SymbolsOfIndices(s: string)
    requires AllInAlphabet(s)
    ensures Symbols(Indices(s)) == s
  {
    forall i | 0 <= i < |s| ensures Symbols(Indices(s))[i] == s[i] {
      SymbolOfIndex(s[i]);
    }
  }

  // ----- regrouping bits -----

  function Pow2(w: nat): nat {
    if w == 0 then 1 else 2 * Pow2(w - 1)
  }

  /** The `w` bits of a number, the highest first. */
  function Bits(n: nat, w: nat): (bits: seq<bool>)
    requires n < Pow2(w)
    ensures |bits| == w
  {
    if w == 0 then [] else Bits(n / 2, w - 1) + [n % 2 == 1]
  }

  function Number(bits: seq<bool>): (n: nat)
    ensures n < Pow2(|bits|)
  {
    if bits == [] then 0
    else 2 * Number(bits[..|bits| - 1]) + if bits[|bits| - 1] then 1 else 0
  }

  lemma {:induction false} NumberOfBits(n: nat, w: nat)
    requires n < Pow2(w)
    ensures Number(Bits(n, w)) == n
  {
    if w > 0 {
      NumberOfBits(n / 2, w - 1);
      assert Bits(n, w)[..w - 1] == Bits(n / 2, w - 1);
    }
  }

  lemma {:induction false} BitsOfNumber(bits: seq<bool>)
    ensures Bits(Number(bits), |bits|) == bits
  {
    if bits != [] {
      BitsOfNumber(bits[..|bits| - 1]);
      assert bits == bits[..|bits| - 1] + [bits[|bits| - 1]];
    }
  }

  predicate Fit(ns: seq<nat>, w: nat) {
    forall i :: 0 <= i < |ns| ==> ns[i] < Pow2(w)
  }

  /** The length of `count` groups. */
  function Size(count: nat, w: nat): nat {
    if count == 0 then 0 else w + Size(count - 1, w)
  }

  /** The groups written one after the other as bits. */
  function Stream(ns: seq<nat>, w: nat): (bits: seq<bool>)
    requires Fit(ns, w)
    ensures |bits| == Size(|ns|, w)
  {
    if ns == [] then [] else Bits(ns[0], w) + Stream(ns[1..], w)
  }

  /** The first `count` groups of a stream. */
  function Cut(bits: seq<bool>, w: nat, count: nat): (ns: seq<nat>)
    requires Size(count, w) <= |bits|
    ensures |ns| == count && Fit(ns, w)
  {
    if count == 0 then [] else [Number(bits[..w])] + Cut(bits[w..], w, count - 1)
  }

  lemma {:induction false} CutOfStream(ns: seq<nat>, w: nat, tail: seq<bool>)
    requires Fit(ns, w)
    ensures Cut(Stream(ns, w) + tail, w, |ns|) == ns
  {
    if ns != [] {
      var first, rest := Bits(ns[0], w), Stream(ns[1..], w) + tail;
      assert Stream(ns, w) + tail == first + rest;
      assert (first + rest)[..w] == first && (first + rest)[w..] == rest;
      NumberOfBits(ns[0], w);
      CutOfStream(ns[1..], w, tail);
    }
  }

  lemma {:induction false} StreamOfCut(bits: seq<bool>, w: nat, count: nat)
    requires Size(count, w) <= |bits|
    ensures Stream(Cut(bits, w, count), w) == bits[..Size(count, w)]
  {
    if count > 0 {
      var ns, rest := Cut(bits, w, count), bits[w..];
      assert ns[1..] == Cut(rest, w, count - 1);
      BitsOfNumber(bits[..w]);
      StreamOfCut(rest, w, count - 1);
      assert bits[..w] + rest[..Size(count - 1, w)] == bits[..Size(count, w)];
    }
  }

  lemma SizeOf(count: nat)
    ensures Size(count, 6) == 6 * count && Size(count, 8) == 8 * count
  {
  }

  // ----- bytes and sextets -----

  function Zeros(k: nat): (bits: seq<bool>)
    ensures |bits| == k && forall i :: 0 <= i < k ==> !bits[i]
  {
    if k == 0 then [] else Zeros(k - 1) + [false]
  }

  function ByteStream(d: seq<byte>): (bits: seq<bool>)
    ensures |bits| == 8 * |d|
  {
    assert Pow2(8) == 256;
    SizeOf(|d|);
    Stream(d, 8)
  }

  function SextetStream(n: seq<sextet>): (bits: seq<bool>)
    ensures |bits| == 6 * |n|
  {
    assert Pow2(6) == 64;
    SizeOf(|n|);
    Stream(n, 6)
  }

  /** Bytes regrouped by six bits, the last group filled up with zero bits. */
  function Pack(d: seq<byte>): (n: seq<sextet>)
    ensures |n| == (8 * |d| + 5) / 6
  {
    assert Pow2(6) == 64;
    SizeOf((8 * |d| + 5) / 6);
    Cut(ByteStream(d) + Zeros(5), 6, (8 * |d| + 5) / 6)
  }

  /** Sextets regrouped by eight bits; the spare bits are dropped unread. */
  function Unpack(n: seq<sextet>): (d: seq<byte>)
    ensures |d| == 6 * |n| / 8
  {
    assert Pow2(8) == 256;
    SizeOf(6 * |n| / 8);
    Cut(SextetStream(n), 8, 6 * |n| / 8)
  }

  /** How many bits the whole bytes take up. */
  function Kept(n: seq<sextet>): (k: nat)
    ensures k <= 6 * |n|
  {
    8 * (6 * |n| / 8)
  }

  function SpareBits(n: seq<sextet>): seq<bool> {
    SextetStream(n)[Kept(n)..]
  }

  lemma StreamOfPack(d: seq<byte>)
    ensures SextetStream(Pack(d)) == ByteStream(d) + Zeros(6 * |Pack(d)| - 8 * |d|)
  {
    var filled := ByteStream(d) + Zeros(5);
    SizeOf(|Pack(d)|);
    StreamOfCut(filled, 6, |Pack(d)|);
  }

  lemma UnpackOfPack(d: seq<byte>)
    ensures Unpack(Pack(d)) == d
  {
    StreamOfPack(d);
    CutOfStream(d, 8, Zeros(6 * |Pack(d)| - 8 * |d|));
  }

  lemma StreamIsInjective(n: seq<sextet>, n': seq<sextet>)
    requires SextetStream(n) == SextetStream(n')
    ensures n == n'
  {
    CutOfStream(n, 6, []);
    CutOfStream(n', 6, []);
  }

  predicate NoneSet(bits: seq<bool>) {
    forall i :: 0 <= i < |bits| ==> !bits[i]
  }

  /** No whole group is lost or gained when the last group has no lone symbol. */
  lemma GroupCount(k: nat)
    requires k % 4 != 1
    ensures (8 * (6 * k / 8) + 5) / 6 == k
  {
    var q := k / 4;
    if k % 4 == 0 {
      assert 6 * k / 8 == 3 * q;
    } else if k % 4 == 2 {
      assert 6 * k / 8 == 3 * q + 1;
    } else {
      assert 6 * k / 8 == 3 * q + 2;
    }
  }

  lemma StreamOfUnpack(n: seq<sextet>)
    ensures ByteStream(Unpack(n)) == SextetStream(n)[..Kept(n)]
  {
    SizeOf(6 * |n| / 8);
    StreamOfCut(SextetStream(n), 8, 6 * |n| / 8);
  }

  lemma StreamOfRepacked(n: seq<sextet>)
    requires |n| % 4 != 1
    ensures SextetStream(Pack(Unpack(n))) == SextetStream(n)[..Kept(n)] + Zeros(6 * |n| - Kept(n))
  {
    var d := Unpack(n);
    var kept := 8 * |d|;
    assert |Pack(d)| == |n| by {
      GroupCount(|n|);
    }
    StreamOfPack(d);
    StreamOfUnpack(n);
    assert kept == Kept(n);
  }

  /** Packing gives the sextets back exactly when the spare bits are zero. */
  lemma PackOfUnpack(n: seq<sextet>)
    requires |n| % 4 != 1
    ensures Pack(Unpack(n)) == n <==> NoneSet(SpareBits(n))
  {
    StreamOfRepacked(n);
    SameWithZeros(SextetStream(n), Kept(n));
    if NoneSet(SpareBits(n)) {
      StreamIsInjective(Pack(Unpack(n)), n);
    }
  }

  lemma SameWithZeros(bits: seq<bool>, kept: nat)
    requires kept <= |bits|
    ensures bits[..kept] + Zeros(|bits| - kept) == bits <==> NoneSet(bits[kept..])
  {
    var zeros := Zeros(|bits| - kept);
    assert bits == bits[..kept] + bits[kept..];
    assert (bits[..kept] + zeros)[kept..] == zeros;
    if NoneSet(bits[kept..]) {
      assert bits[kept..] == zeros;
    }
  }

  lemma PackLength(d: seq<byte>)
    ensures |Pack(d)| % 4 != 1
  {
  }

  // ----- the codec -----

  function Encode(data: seq<byte>): (s: string)
    ensures AllInAlphabet(s)
  {
    Symbols(Pack(data))
  }

  /** The decoder skips line breaks wherever they stand. */
  function SkipBreaks(s: string): (r: string)
    ensures '\r' !in s && '\n' !in s ==> r == s
  {
    if s == "" then ""
    else if s[0] in {'\r', '\n'} then SkipBreaks(s[1..])
    else [s[0]] + SkipBreaks(s[1..])
  }

  /** A character outside the alphabet, '=' included, is corrupt input, and so is a last group of one symbol. */
  function Decode(s: string): Option<seq<byte>> {
    var symbols := SkipBreaks(s);
    if AllInAlphabet(symbols) && |symbols| % 4 != 1 then Some(Unpack(Indices(symbols))) else None
  }

  lemma NoBreaksInAlphabet(s: string)
    requires AllInAlphabet(s)
    ensures SkipBreaks(s) == s
  {
    assert !InAlphabet('\r') && !InAlphabet('\n');
  }

  lemma DecodeOfEncode(data: seq<byte>)
    ensures Decode(Encode(data)) == Some(data)
  {
    NoBreaksInAlphabet(Encode(data));
    PackLength(data);
    IndicesOfSymbols(Pack(data));
    UnpackOfPack(data);
  }

  /** Re-encoding gives an accepted text back exactly when it has no line break and no spare bit set. */
  lemma EncodeOfDecode(s: string)
    requires Decode(s).Some?
    ensures Encode(Decode(s).value) == s <==> AllInAlphabet(s) && NoneSet(SpareBits(Indices(s)))
  {
    var data := Decode(s).value;
    if AllInAlphabet(s) {
      NoBreaksInAlphabet(s);
      PackOfUnpack(Indices(s));
      SymbolsOfIndices(s);
      IndicesOfSymbols(Pack(data));
    }
  }

  /** A line break anywhere makes no difference. */
  lemma {:induction false} BreaksAreIgnored(a: string, c: char, b: string)
    requires c in {'\r', '\n'}
    ensures SkipBreaks(a + [c] + b) == SkipBreaks(a + b) && Decode(a + [c] + b) == Decode(a + b)
  {
    if a == "" {
      assert a + [c] + b == [c] + b && ([c] + b)[1..] == b && a + b == b;
    } else {
      assert (a + [c] + b)[1..] == a[1..] + [c] + b && (a + b)[1..] == a[1..] + b;
      BreaksAreIgnored(a[1..], c, b);
    }
  }

  /** Without line breaks, a text decodes exactly when it is all symbols and not one more than whole groups. */
  lemma DecodesIff(s: string)
    requires '\r' !in s && '\n' !in s
    ensures Decode(s).Some? <==>
            && |s| % 4 != 1
            && forall c :: c in s ==>
                             'A' <= c <= 'Z' || 'a' <= c <= 'z' || '0' <= c <= '9' || c == '+' || c == '/'
  {
    assert forall i :: 0 <= i < |s| ==> s[i] in s;
  }
}
