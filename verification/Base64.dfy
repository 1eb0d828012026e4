/** The text codec for opaque blobs carried in event metadata (section 4 of
    RFC 4648). Shifts and masks are written as the arithmetic they perform:
    x << k is x * 2^k modulo 2^32, (x >> k) & (2^m - 1) is x / 2^k % 2^m, and
    an or of disjoint fields is their sum. */
module Base64 {
  import Ranges

  const TWO_32 := 0x1_0000_0000

  type byte = x: int | 0 <= x < 256
  type sextet = x: int | 0 <= x < 64
  type uint32 = x: int | 0 <= x < TWO_32

  /** One byte of text. */
  type latin = c: char | c < 256 as char witness 'A'
  type text = seq<latin>

  /** Table 1 of RFC 4648: the symbol of a 6-bit digit. */
  function Symbol(d: sextet): latin
  {
    if d < 26 then (d + 65) as char
    else if d < 52 then (d + 71) as char
    else if d < 62 then (d - 4) as char
    else if d == 62 then '+'
    else '/'
  }

  /** The digit a symbol stands for, or -1. */
  function Digit(c: latin): (d: int)
    ensures -1 <= d < 64
    ensures d >= 0 ==> Symbol(d) == c
  {
    if 'A' <= c <= 'Z' then c as int - 65
    else if 'a' <= c <= 'z' then c as int - 71
    else if '0' <= c <= '9' then c as int + 4
    else if c == '+' then 62
    else if c == '/' then 63
    else -1
  }

  lemma DigitOfSymbol(d: sextet)
    ensures Digit(Symbol(d)) == d && Symbol(d) != '='
  {
  }

  // ----- Encoding -----

  function Pow2(k: nat): (x: nat)
    ensures x > 0
  {
    if k == 0 then 1 else 2 * Pow2(k - 1)
  }

  /** (v >> shift) & 0x3f */
  function Sextet(v: uint32, shift: nat): sextet
  {
    v / Pow2(shift) % 64
  }

  /** Up to three bytes, left-aligned in 24 bits. */
  function Group(p: seq<byte>): (v: uint32)
    requires 0 < |p| <= 3
    ensures v < 0x100_0000
  {
    var p0: int, p1: int, p2: int :=
      p[0], if |p| > 1 then p[1] else 0, if |p| > 2 then p[2] else 0;
    p0 * 0x1_0000 + p1 * 0x100 + p2
  }

  /** The four symbols of the 24-bit group v that holds have bytes. */
  function Symbols(v: uint32, have: int): (t: text)
    ensures |t| == 4
  {
    [Symbol(Sextet(v, 18)), Symbol(Sextet(v, 12)),
     if have > 1 then Symbol(Sextet(v, 6)) else '=',
     if have > 2 then Symbol(Sextet(v, 0)) else '=']
  }

  function Encoded(p: seq<byte>): text {
    if p == [] then []
    else if |p| <= 3 then Symbols(Group(p), |p|)
    else Symbols(Group(p[..3]), 3) + Encoded(p[3..])
  }

  lemma EncodedStep(p: seq<byte>, have: int)
    requires p != [] && have == if |p| < 3 then |p| else 3
    ensures Encoded(p) == Symbols(Group(p[..have]), have) + Encoded(p[have..])
  {
    if |p| <= 3 {
      assert p[..have] == p && p[have..] == [];
    }
  }

  method Encode(p: seq<byte>) returns (out: text)
    ensures out == Encoded(p)
  {
    hide Symbol, Sextet, Group, Encoded;
    out := [];
    assert Encoded([]) == [] && p[0..] == p by { EncodedEmpty(); }
    if |p| == 0 {
      return;
    }
    var i := 0;
    while i < |p|
      invariant 0 <= i
      invariant out + Encoded(if i < |p| then p[i..] else []) == Encoded(p)
    {
      var v: uint32, have := (p[i] as int) * 0x1_0000, 1;
      if i + 1 < |p| { v := v + (p[i + 1] as int) * 0x100; have := 2; }
      if i + 2 < |p| { v := v + p[i + 2]; have := 3; }
      GroupAt(p, i, v, have);
      ghost var before := out;
      out := out + [Symbol(Sextet(v, 18))];
      out := out + [Symbol(Sextet(v, 12))];
      out := out + [if have > 1 then Symbol(Sextet(v, 6)) else '='];
      out := out + [if have > 2 then Symbol(Sextet(v, 0)) else '='];
      assert out == before + Symbols(v, have);
      i := i + 3;
    }
  }

  lemma EncodedEmpty()
    ensures Encoded([]) == []
  {
  }

  lemma GroupAt(p: seq<byte>, i: nat, v: uint32, have: int)
    requires i < |p| && have == if |p| - i < 3 then |p| - i else 3
    requires v == (p[i] as int) * 0x1_0000 + (if have > 1 then (p[i + 1] as int) * 0x100 else 0)
                  + (if have > 2 then p[i + 2] as int else 0)
    ensures Encoded(p[i..]) == Symbols(v, have) + Encoded(if i + 3 < |p| then p[i + 3..] else [])
  {
  }

  // ----- Decoding -----

  datatype Decoder = Decoder(acc: uint32, bits: nat, out: seq<byte>) {
    /** Shift one digit in; emit a byte once eight bits are there. */
    function Feed(d: sextet): Decoder
    {
      var a := (acc * 64 + d) % TWO_32;
      var b := bits + 6;
      if b >= 8 then Decoder(a, b - 8, out + [a / Pow2(b - 8) % 256])
      else Decoder(a, b, out)
    }
  }

  const START := Decoder(0, 0, [])

  function DecodedFrom(st: Decoder, s: text): seq<byte>
    decreases |s|
  {
    if s == [] || s[0] == '=' then st.out
    else if Digit(s[0]) < 0 then DecodedFrom(st, s[1..])
    else DecodedFrom(st.Feed(Digit(s[0])), s[1..])
  }

  function Decoded(s: text): seq<byte> { DecodedFrom(START, s) }

  method Decode(s: text) returns (out: seq<byte>)
    ensures out == Decoded(s)
  {
    var rev := new int[256](_ => -1);
    for i := 0 to 64
      invariant forall c: latin :: rev[c as int] == if 0 <= Digit(c) < i then Digit(c) else -1
    {
      DigitOfSymbol(i);
      rev[Symbol(i) as int] := i;
    }
    out := [];
    var acc: uint32, bits: nat := 0, 0;
    for k := 0 to |s|
      invariant DecodedFrom(Decoder(acc, bits, out), s[k..]) == Decoded(s)
    {
      var c := s[k];
      assert s[k..][1..] == s[k + 1..];
      if c == '=' {
        break;
      }
      var d := rev[c as int];
      if d < 0 {
        continue;
      }
      acc := (acc * 64 + d) % TWO_32;
      bits := bits + 6;
      if bits >= 8 {
        bits := bits - 8;
        out := out + [acc / Pow2(bits) % 256];
      }
    }
  }

  // ----- Round trip -----

  /** The four sextets of a 24-bit group are its base-64 numeral. */
  lemma Sextets(v: uint32, a: sextet, b: sextet, c: sextet, d: sextet)
    requires v == ((a * 64 + b) * 64 + c) * 64 + d
    ensures Sextet(v, 18) == a && Sextet(v, 12) == b && Sextet(v, 6) == c && Sextet(v, 0) == d
  {
    assert Pow2(6) == 64 && Pow2(12) == 64 * Pow2(6) && Pow2(18) == 64 * Pow2(12);
    assert v / 0x4_0000 == a;
    assert v / 0x1000 == a * 64 + b;
    assert v / 0x40 == (a * 64 + b) * 64 + c;
  }

  /** The bits that have left the byte window are never looked at again: a
      digit fed with r pending bits emits exactly the byte those bits and the
      digit make, whatever the accumulator wrapped to. */
  lemma FeedEmits(st: Decoder, d: sextet)
    requires st.bits in {2, 4, 6}
    ensures var r, left := st.acc % Pow2(st.bits), Pow2(st.bits - 2);
      var next := st.Feed(d);
      && next.bits == st.bits - 2 && next.acc % left == d % left
      && (r * 64 + d) / left < 256 && next.out == st.out + [(r * 64 + d) / left]
  {
    Pow2Values();
    hide Pow2;
    var left := Pow2(st.bits - 2);
    EmittedBits(st.acc, d, left);
  }

  lemma EmittedBits(acc: uint32, d: sextet, left: nat)
    requires left in {1, 4, 16}
    ensures var a, r := (acc * 64 + d) % TWO_32, acc % (4 * left);
      && a % left == d % left && a / left % 256 == (r * 64 + d) / left < 256
  {
    var q, r := acc / (4 * left), acc % (4 * left);
    var k := (acc * 64 + d) / TWO_32;
    WrappedLow(acc, d, q, r, left);
    LowBits((acc * 64 + d) % TWO_32, q - k * (0x100_0000 / left), left, r * 64 + d);
    LowBits(d, 0, left, d);
    assert (r * 64 + d) % left == d % left;
  }

  lemma Pow2Values()
    ensures Pow2(0) == 1 && Pow2(2) == 4 && Pow2(4) == 16 && Pow2(6) == 64
  {
  }

  /** Wrapping at 32 bits takes away whole multiples of the byte window. */
  lemma WrappedLow(acc: nat, d: int, q: int, r: int, left: nat)
    requires left in {1, 4, 16} && acc == q * (4 * left) + r
    ensures (acc * 64 + d) % TWO_32
         == (q - (acc * 64 + d) / TWO_32 * (0x100_0000 / left)) * (256 * left) + (r * 64 + d)
  {
  }

  /** Only the low bits of a number show in the byte just above `left`. */
  lemma LowBits(y: int, m: int, left: nat, low: nat)
    requires left in {1, 4, 16} && low < 256 * left && y == m * (256 * left) + low
    ensures y / left % 256 == low / left < 256 && y % left == low % left
  {
    var q, r := low / left, low % left;
    assert y == (m * 256 + q) * left + r;
    Ranges.DivRem(y, m * 256 + q, left, r);
    Ranges.DivRem(m * 256 + q, m, 256, q);
  }

  lemma FeedFirst(st: Decoder, d: sextet)
    requires st.bits == 0
    ensures st.Feed(d).bits == 6 && st.Feed(d).acc % Pow2(6) == d && st.Feed(d).out == st.out
  {
  }

  /** The pending bits and the next digit of a group give back its bytes. */
  lemma Recombine(x: int, y: int, z: int)
    requires 0 <= x < 256 && 0 <= y < 256 && 0 <= z < 256
    ensures Pow2(0) == 1 && Pow2(2) == 4 && Pow2(4) == 16 && Pow2(6) == 64
    ensures var a, b, c, d := x / 4, x % 4 * 16 + y / 16, y % 16 * 4 + z / 64, z % 64;
      && (a * 64 + b) / 16 == x && (b % 16 * 64 + c) / 4 == y && (c % 4 * 64 + d) / 1 == z
  {
  }

  /** The digits of a group of |p| bytes: one more than its bytes. */
  function Digits(p: seq<byte>): (ds: seq<sextet>)
    requires 0 < |p| <= 3
    ensures |ds| == |p| + 1
  {
    var x: int, y: int, z: int := p[0], if |p| > 1 then p[1] else 0, if |p| > 2 then p[2] else 0;
    [x / 4, x % 4 * 16 + y / 16, y % 16 * 4 + z / 64, z % 64][..|p| + 1]
  }

  function FeedAll(st: Decoder, ds: seq<sextet>): Decoder
  {
    if ds == [] then st else FeedAll(st, ds[..|ds| - 1]).Feed(ds[|ds| - 1])
  }

  /** From a byte boundary, a group's digits emit its bytes; a whole group ends
      on a byte boundary again. */
  lemma FeedGroup(st: Decoder, p: seq<byte>)
    requires st.bits == 0 && 0 < |p| <= 3
    ensures FeedAll(st, Digits(p)).out == st.out + p
    ensures |p| == 3 ==> FeedAll(st, Digits(p)).bits == 0
  {
    hide Decoder.Feed, Pow2;
    var x: int, y: int, z: int := p[0], if |p| > 1 then p[1] else 0, if |p| > 2 then p[2] else 0;
    var ds := Digits(p);
    Recombine(x, y, z);
    FeedFirst(st, ds[0]);
    var s1 := st.Feed(ds[0]);
    FeedEmits(s1, ds[1]);
    var s2 := s1.Feed(ds[1]);
    FeedAllFirst(st, ds);
    assert FeedAll(st, ds[..2]) == s2 && s2.out == st.out + [p[0]];
    if |p| == 1 {
      assert ds[..2] == ds;
    } else {
      FeedEmits(s2, ds[2]);
      var s3 := s2.Feed(ds[2]);
      FeedAllNext(st, ds, 2);
      assert FeedAll(st, ds[..3]) == s3 && s3.out == st.out + [p[0], p[1]];
      if |p| == 2 {
        assert ds[..3] == ds;
      } else {
        FeedEmits(s3, ds[3]);
        FeedAllNext(st, ds, 3);
        assert ds[..4] == ds;
      }
    }
  }

  lemma FeedAllFirst(st: Decoder, ds: seq<sextet>)
    requires |ds| >= 2
    ensures FeedAll(st, ds[..2]) == st.Feed(ds[0]).Feed(ds[1])
  {
    hide Decoder.Feed;
    FeedAllNext(st, ds, 0);
    FeedAllNext(st, ds, 1);
  }

  lemma FeedAllNext(st: Decoder, ds: seq<sextet>, n: nat)
    requires n < |ds|
    ensures FeedAll(st, ds[..n + 1]) == FeedAll(st, ds[..n]).Feed(ds[n])
  {
    assert ds[..n + 1][..n] == ds[..n];
  }

  function SymbolsOf(ds: seq<sextet>): text
  {
    seq(|ds|, i requires 0 <= i < |ds| => Symbol(ds[i]))
  }

  lemma {:induction false} DecodeSymbols(st: Decoder, ds: seq<sextet>, rest: text)
    ensures DecodedFrom(st, SymbolsOf(ds) + rest) == DecodedFrom(FeedAll(st, ds), rest)
  {
    if ds == [] {
      assert SymbolsOf(ds) + rest == rest;
    } else {
      var front, d := ds[..|ds| - 1], ds[|ds| - 1];
      assert SymbolsOf(ds) + rest == SymbolsOf(front) + ([Symbol(d)] + rest);
      DecodeSymbols(st, front, [Symbol(d)] + rest);
      DigitOfSymbol(d);
      assert ([Symbol(d)] + rest)[1..] == rest;
    }
  }

  lemma GroupSymbols(p: seq<byte>)
    requires 0 < |p| <= 3
    ensures Symbols(Group(p), |p|) == SymbolsOf(Digits(p)) + ['=', '='][..3 - |p|]
  {
    var x: int, y: int, z: int := p[0], if |p| > 1 then p[1] else 0, if |p| > 2 then p[2] else 0;
    Sextets(Group(p), x / 4, x % 4 * 16 + y / 16, y % 16 * 4 + z / 64, z % 64);
  }

  /** Decoding an encoded byte string of any length returns it. */
  lemma {:induction false} RoundTripFrom(st: Decoder, p: seq<byte>)
    requires st.bits == 0
    ensures DecodedFrom(st, Encoded(p)) == st.out + p
    decreases |p|
  {
    if p != [] {
      var have := if |p| < 3 then |p| else 3;
      var group, rest := p[..have], p[have..];
      var pad := ['=', '='][..3 - have];
      assert group + rest == p;
      EncodedGroup(p, have);
      hide Encoded, Digits, FeedAll, SymbolsOf, DecodedFrom, Decoder.Feed, Pow2;
      DecodeSymbols(st, Digits(group), pad + Encoded(rest));
      FeedGroup(st, group);
      if have == 3 {
        assert pad + Encoded(rest) == Encoded(rest);
        RoundTripFrom(FeedAll(st, Digits(group)), rest);
      } else {
        DecodePadding(FeedAll(st, Digits(group)), pad + Encoded(rest));
      }
    }
  }

  lemma DecodePadding(st: Decoder, s: text)
    requires s != [] && s[0] == '='
    ensures DecodedFrom(st, s) == st.out
  {
  }

  lemma EncodedGroup(p: seq<byte>, have: int)
    requires p != [] && have == if |p| < 3 then |p| else 3
    ensures Encoded(p) == SymbolsOf(Digits(p[..have])) + (['=', '='][..3 - have] + Encoded(p[have..]))
  {
    hide Digits, Symbols, SymbolsOf;
    EncodedStep(p, have);
    GroupSymbols(p[..have]);
  }

  lemma RoundTrip(p: seq<byte>)
    ensures Decoded(Encoded(p)) == p
  {
    RoundTripFrom(START, p);
  }

  // ----- The text itself -----

  const UPPER: text := "ABCDEFGHIJKLMNOPQRSTUVWXYZ"
  const LOWER: text := "abcdefghijklmnopqrstuvwxyz"
  const REST: text := "0123456789+/"

  /** A digit's symbol is the character at its place in the standard's alphabet. */
  lemma SymbolIsInAlphabet(d: sextet)
    ensures |UPPER| == |LOWER| == 26 && |REST| == 12 && (UPPER + LOWER + REST)[d] == Symbol(d)
  {
    if d < 26 {
      assert UPPER[d] == (d + 65) as char;
    } else if d < 52 {
      assert LOWER[d - 26] == (d + 71) as char;
    } else {
      assert REST[d - 52] == Symbol(d);
    }
  }

  /** The k-th character of the text: of each three bytes four digits, the highest bits
      first, as far as there are bytes, and padding in place of the digits that would
      hold none. */
  function CharAt(p: seq<byte>, k: nat): latin
    requires k / 4 * 3 < |p|
  {
    var i := k / 4 * 3;
    var x: int, y: int, z: int := p[i], if i + 1 < |p| then p[i + 1] else 0, if i + 2 < |p| then p[i + 2] else 0;
    if k % 4 == 0 then Symbol(x / 4)
    else if k % 4 == 1 then Symbol(x % 4 * 16 + y / 16)
    else if i + 1 >= |p| then '='
    else if k % 4 == 2 then Symbol(y % 16 * 4 + z / 64)
    else if i + 2 >= |p| then '='
    else Symbol(z % 64)
  }

  lemma FirstChars(p: seq<byte>, have: int, k: nat)
    requires p != [] && have == (if |p| < 3 then |p| else 3) && k < 4
    ensures Symbols(Group(p[..have]), have)[k] == CharAt(p, k)
  {
    var q := p[..have];
    var x: int, y: int, z: int := q[0], if |q| > 1 then q[1] else 0, if |q| > 2 then q[2] else 0;
    Sextets(Group(q), x / 4, x % 4 * 16 + y / 16, y % 16 * 4 + z / 64, z % 64);
    hide Symbol, Sextet, Pow2, Group;
  }

  lemma LaterChars(p: seq<byte>, k: nat)
    requires |p| > 3 && k >= 4 && k / 4 * 3 < |p|
    ensures CharAt(p, k) == CharAt(p[3..], k - 4)
  {
    hide Symbol;
    var i := k / 4 * 3;
    assert (k - 4) / 4 * 3 == i - 3 && k % 4 == (k - 4) % 4;
    assert p[3..][i - 3] == p[i];
  }

  /** The text, character by character: four for each three bytes begun. */
  lemma {:induction false} EncodedIs(p: seq<byte>)
    ensures |Encoded(p)| == (|p| + 2) / 3 * 4
    ensures forall k | 0 <= k < |Encoded(p)| :: Encoded(p)[k] == CharAt(p, k)
    decreases |p|
  {
    hide CharAt, Symbols, Group;
    if p != [] {
      var have := if |p| < 3 then |p| else 3;
      EncodedStep(p, have);
      EncodedIs(p[have..]);
      forall k | 0 <= k < |Encoded(p)| ensures Encoded(p)[k] == CharAt(p, k) {
        hide Encoded;
        if k < 4 { FirstChars(p, have, k); } else { LaterChars(p, k); }
      }
    }
  }

  /** Decoding skips what is not in the alphabet, and ends at the padding. */
  lemma {:induction false} DecodeSkips(st: Decoder, a: text, c: latin, b: text)
    requires Digit(c) < 0
    ensures DecodedFrom(st, a + [c] + b) == DecodedFrom(st, if c == '=' then a else a + b)
    decreases |a|
  {
    hide Decoder.Feed;
    if a == [] {
      assert [] + [c] + b == [c] + b && ([c] + b)[1..] == b && [] + b == b;
    } else {
      assert a + [c] + b == [a[0]] + (a[1..] + [c] + b) && a + b == [a[0]] + (a[1..] + b);
      DecodeSkips(st, a[1..], c, b);
      if Digit(a[0]) >= 0 { DecodeSkips(st.Feed(Digit(a[0])), a[1..], c, b); }
    }
  }
}
