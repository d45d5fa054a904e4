/** LEB128 numbers, as WebAssembly encodes its sizes (section 5.2.2 of the core
    specification). */
module Leb128 {
  import opened Wrappers
  import opened Bytes

  datatype LebError = Truncated

  const MAX_BYTES: nat := 5
  const WORD: nat := 0x1_0000_0000

  /** How many bytes the number at the front takes: up to the first without a continuation bit. */
  function Span(s: seq<byte>, limit: nat): (r: Option<nat>)
    ensures r.Some? ==> 1 <= r.value <= limit && r.value <= |s|
  {
    if s == [] || limit == 0 then None
    else if s[0] < 128 then Some(1)
    else
      match Span(s[1..], limit - 1)
      case None => None
      case Some(n) => Some(n + 1)
  }

  /** The number the seven-bit groups spell, least significant first. */
  function Sum(s: seq<byte>): nat {
    if s == [] then 0 else s[0] % 128 + 128 * Sum(s[1..])
  }

  /** `read_leb128_u32`: at most five bytes, and the value they spell modulo 2^32. */
  function ReadLeb(s: seq<byte>): (r: Result<(nat, nat), LebError>)
    ensures r.Ok? ==> 1 <= r.value.1 <= |s| && r.value.1 <= MAX_BYTES && r.value.0 < WORD
  {
    match Span(s, MAX_BYTES)
    case None => Err(Truncated)
    case Some(n) => Ok((Sum(s[..n]) % WORD, n))
  }

  /** `enc` is an encoding of `v`, padded or not. */
  predicate Encodes(enc: seq<byte>, v: nat) {
    && 1 <= |enc| <= MAX_BYTES && enc[|enc| - 1] < 128
    && (forall i :: 0 <= i < |enc| - 1 ==> enc[i] >= 128)
    && Sum(enc) == v
  }

  /** The shortest encoding. */
  function Encode(v: nat): (r: seq<byte>)
    ensures r != []
  {
    if v < 128 then [v] else [v % 128 + 128] + Encode(v / 128)
  }

  function Pow128(n: nat): (p: nat)
    ensures p >= 1
  {
    if n == 0 then 1 else 128 * Pow128(n - 1)
  }

  lemma {:induction false} SpanOfEncoding(enc: seq<byte>, rest: seq<byte>, limit: nat)
    requires 1 <= |enc| <= limit && enc[|enc| - 1] < 128 && forall i :: 0 <= i < |enc| - 1 ==> enc[i] >= 128
    ensures Span(enc + rest, limit) == Some(|enc|)
  {
    if |enc| > 1 {
      assert (enc + rest)[1..] == enc[1..] + rest;
      SpanOfEncoding(enc[1..], rest, limit - 1);
    }
  }

  /** `enc` is an encoding that is read as the word `v`: of `v`, or of a number that is `v`
      modulo 2^32. */
  predicate ReadsAsWord(enc: seq<byte>, v: nat) {
    Encodes(enc, Sum(enc)) && v == Sum(enc) % WORD
  }

  /** Reading undoes every encoding, whatever follows. */
  lemma ReadWord(enc: seq<byte>, v: nat, rest: seq<byte>)
    requires ReadsAsWord(enc, v)
    ensures ReadLeb(enc + rest) == Ok((v, |enc|))
  {
    SpanOfEncoding(enc, rest, MAX_BYTES);
    assert (enc + rest)[..|enc|] == enc;
  }

  /** Reading undoes every encoding of a 32-bit number, whatever follows. */
  lemma ReadEncoded(enc: seq<byte>, v: nat, rest: seq<byte>)
    requires Encodes(enc, v) && v < WORD
    ensures ReadLeb(enc + rest) == Ok((v, |enc|))
  {
    ReadWord(enc, v, rest);
  }

  lemma {:induction false} SpanIsEncoding(s: seq<byte>, limit: nat)
    requires Span(s, limit).Some?
    ensures var n := Span(s, limit).value;
      s[n - 1] < 128 && forall i :: 0 <= i < n - 1 ==> s[i] >= 128
  {
    if s[0] >= 128 {
      SpanIsEncoding(s[1..], limit - 1);
      var n := Span(s, limit).value;
      assert s[n - 1] == s[1..][n - 2];
      assert forall i :: 1 <= i < n - 1 ==> s[i] == s[1..][i - 1];
    }
  }

  /** Whatever is read was an encoding of at most five bytes, of the value modulo 2^32. */
  lemma ReadWasEncoded(s: seq<byte>)
    requires ReadLeb(s).Ok?
    ensures var (v, n) := ReadLeb(s).value;
      Encodes(s[..n], Sum(s[..n])) && v == Sum(s[..n]) % WORD
  {
    SpanIsEncoding(s, MAX_BYTES);
  }

  /** The shortest encoding of a number below 128^n takes at most `n` bytes. */
  lemma {:induction false} EncodeFits(v: nat, n: nat)
    requires v < Pow128(n) && n >= 1
    ensures |Encode(v)| <= n
  {
    if v >= 128 && n > 1 { EncodeFits(v / 128, n - 1); }
  }

  lemma {:induction false} EncodeShape(v: nat)
    ensures var e := Encode(v); e[|e| - 1] < 128 && (forall i :: 0 <= i < |e| - 1 ==> e[i] >= 128) && Sum(e) == v
  {
    if v >= 128 {
      EncodeShape(v / 128);
      var e := Encode(v);
      assert e[1..] == Encode(v / 128);
      assert forall i :: 1 <= i < |e| ==> e[i] == e[1..][i - 1];
    }
  }

  /** Reading undoes encoding, for every 32-bit number. */
  lemma LebRoundTrip(v: nat, rest: seq<byte>)
    requires v < WORD
    ensures Encodes(Encode(v), v)
    ensures ReadLeb(Encode(v) + rest) == Ok((v, |Encode(v)|))
  {
    assert Pow128(5) == 128 * 128 * 128 * 128 * 128;
    EncodeFits(v, 5);
    EncodeShape(v);
    ReadEncoded(Encode(v), v, rest);
  }

  // ---- The reading loop ----

  lemma {:induction false} SumBack(s: seq<byte>, b: byte)
    ensures Sum(s + [b]) == Sum(s) + b % 128 * Pow128(|s|)
  {
    if s == [] {
      assert s + [b] == [b];
    } else {
      assert (s + [b])[1..] == s[1..] + [b];
      SumBack(s[1..], b);
      Scale(b % 128, Pow128(|s| - 1));
    }
  }

  lemma Scale(c: nat, p: nat)
    ensures 128 * (c * p) == c * (128 * p)
  {}

  lemma {:induction false} SumBelow(s: seq<byte>)
    ensures Sum(s) < Pow128(|s|)
  {
    if s != [] { SumBelow(s[1..]); }
  }

  lemma Remainder(a: nat, q: nat, r: nat)
    requires a == q * WORD + r && r < WORD
    ensures a % WORD == r
  {}

  lemma FifthGroup(result: nat, group: nat, q: nat, g: nat)
    requires group == q * 16 + g && g < 16 && result < 0x1000_0000
    ensures result + group * 0x1000_0000 % WORD == (result + group * 0x1000_0000) % WORD
  {
    Remainder(group * 0x1000_0000, q, g * 0x1000_0000);
    Remainder(result + group * 0x1000_0000, q, result + g * 0x1000_0000);
  }

  /** A group shifted in, its high bits dropped, beside what is already there. */
  lemma ShiftIn(result: nat, group: nat, n: nat)
    requires n < MAX_BYTES && result < Pow128(n) && group < 128
    ensures result + group * Pow128(n) % WORD == (result + group * Pow128(n)) % WORD
  {
    if n == 4 {
      assert Pow128(4) == 0x1000_0000;
      var q, g := group / 16, group % 16;
      FifthGroup(result, group, q, g);
    } else {
      assert Pow128(3) == 0x20_0000 && Pow128(2) == 0x4000 && Pow128(1) == 128;
      assert Pow128(n) <= 0x20_0000;
      EarlierGroup(result, group, Pow128(n));
    }
  }

  lemma EarlierGroup(result: nat, group: nat, p: nat)
    requires result < p <= 0x20_0000 && group < 128
    ensures result + group * p % WORD == (result + group * p) % WORD
  {
    SmallProduct(group, p);
    var product := group * p;
    Remainder(product, 0, product);
    Remainder(result + product, 0, result + product);
  }

  lemma SmallProduct(group: nat, p: nat)
    requires group < 128 && p <= 0x20_0000
    ensures group * p <= 127 * 0x20_0000
  {
    assert group * p <= 127 * p;
  }

  lemma {:induction false} SpanSoFar(s: seq<byte>, n: nat, limit: nat)
    requires n <= |s| && n <= limit && forall i :: 0 <= i < n ==> s[i] >= 128
    ensures Span(s, limit) == match Span(s[n..], limit - n) case None => None case Some(k) => Some(n + k)
  {
    if n == 0 { assert s[0..] == s; }
    else {
      SpanSoFar(s[1..], n - 1, limit - 1);
      assert s[1..][n - 1..] == s[n..];
    }
  }

  /** The loop of `read_leb128_u32`: `place` is 2 to the shift, and a group is shifted in
      with the bits past the word dropped. */
  method ReadLebLoop(w: seq<byte>, off: nat) returns (r: Result<(nat, nat), LebError>)
    requires off <= |w|
    ensures r == match ReadLeb(w[off..]) case Err(e) => Err(e) case Ok((v, n)) => Ok((v, off + n))
  {
    ghost var s := w[off..];
    var result, place, n := 0, 1, 0;
    while true
      invariant n <= MAX_BYTES && off + n <= |w| && place == Pow128(n)
      invariant forall i :: 0 <= i < n ==> s[i] >= 128
      invariant n < MAX_BYTES ==> result == Sum(s[..n])
      decreases MAX_BYTES - n
    {
      SpanSoFar(s, n, MAX_BYTES);
      if off + n >= |w| || n >= MAX_BYTES { return Err(Truncated); }
      var b := w[off + n];
      SumBack(s[..n], b);
      SumBelow(s[..n]);
      assert s[..n + 1] == s[..n] + [b];
      ShiftIn(result, b % 128, n);
      result := result + b % 128 * place % WORD;
      n, place := n + 1, 128 * place;
      if b < 128 {
        assert Span(s, MAX_BYTES) == Some(n);
        return Ok((result, off + n));
      }
      if n < MAX_BYTES { SmallSum(s[..n]); }
    }
  }

  lemma SmallSum(s: seq<byte>)
    requires |s| < MAX_BYTES
    ensures Sum(s) < WORD && Sum(s) % WORD == Sum(s)
  {
    SumBelow(s);
    assert Pow128(4) == 128 * 128 * 128 * 128 && Pow128(3) == 128 * 128 * 128 && Pow128(2) == 128 * 128 && Pow128(1) == 128;
  }
}
