/** Byte strings as text: a byte is the character with its code. Splitting, trimming,
    case-insensitive comparison, and decimal numerals. */
module Text {
  import opened Wrappers

  // ---- Splitting ----

  /** The first place of `c` in `s`. */
  function IndexOf(s: string, c: char): (r: Option<nat>)
    ensures r.Some? ==> r.value < |s| && s[r.value] == c && forall j :: 0 <= j < r.value ==> s[j] != c
    ensures r.None? ==> forall j :: 0 <= j < |s| ==> s[j] != c
  {
    if s == [] then None
    else if s[0] == c then Some(0)
    else
      var r := IndexOf(s[1..], c);
      if r.None? then None else Some(r.value + 1)
  }

  /** `split_once`: what comes before and after the first separator. */
  function SplitOnce(s: string, sep: char): (r: Option<(string, string)>)
    ensures r.None? <==> sep !in s
    ensures r.Some? ==> s == r.value.0 + [sep] + r.value.1 && sep !in r.value.0
  {
    var i := IndexOf(s, sep);
    if i.None? then None else Some((s[..i.value], s[i.value + 1..]))
  }

  lemma SplitJoined(a: string, sep: char, b: string)
    requires sep !in a
    ensures SplitOnce(a + [sep] + b, sep) == Some((a, b))
  {
    var s := a + [sep] + b;
    assert s[|a|] == sep;
    assert forall i :: 0 <= i < |a| ==> s[i] == a[i];
    assert IndexOf(s, sep) == Some(|a|);
    assert s[..|a|] == a && s[|a| + 1..] == b;
  }

  // ---- Trimming, for any notion of whitespace ----

  predicate Blank(ws: char -> bool, s: string) { forall i :: 0 <= i < |s| ==> ws(s[i]) }

  function TrimFront(ws: char -> bool, s: string): (r: string)
    ensures |r| <= |s|
    ensures r != [] ==> !ws(r[0])
  {
    if s != [] && ws(s[0]) then TrimFront(ws, s[1..]) else s
  }

  function TrimBack(ws: char -> bool, s: string): (r: string)
    ensures |r| <= |s|
    ensures r != [] ==> !ws(r[|r| - 1])
  {
    if s != [] && ws(s[|s| - 1]) then TrimBack(ws, s[..|s| - 1]) else s
  }

  function TrimBoth(ws: char -> bool, s: string): string { TrimBack(ws, TrimFront(ws, s)) }

  /** Nothing to trim at either end. */
  predicate Trimmed(ws: char -> bool, s: string) { s == [] || (!ws(s[0]) && !ws(s[|s| - 1])) }

  lemma {:induction false} TrimFrontIs(ws: char -> bool, lead: string, rest: string)
    requires Blank(ws, lead) && (rest == [] || !ws(rest[0]))
    ensures TrimFront(ws, lead + rest) == rest
  {
    if lead == [] { assert lead + rest == rest; }
    else {
      assert (lead + rest)[1..] == lead[1..] + rest;
      TrimFrontIs(ws, lead[1..], rest);
    }
  }

  lemma {:induction false} TrimBackIs(ws: char -> bool, rest: string, trail: string)
    requires Blank(ws, trail) && (rest == [] || !ws(rest[|rest| - 1]))
    ensures TrimBack(ws, rest + trail) == rest
  {
    if trail == [] { assert rest + trail == rest; }
    else {
      var n := |trail| - 1;
      assert (rest + trail)[..|rest| + n] == rest + trail[..n];
      TrimBackIs(ws, rest, trail[..n]);
    }
  }

  /** Trimming undoes padding. */
  lemma TrimPadded(ws: char -> bool, lead: string, value: string, trail: string)
    requires Blank(ws, lead) && Blank(ws, trail) && Trimmed(ws, value)
    ensures TrimBoth(ws, lead + value + trail) == value
  {
    if value == [] {
      assert lead + value + trail == (lead + trail) + [];
      TrimFrontIs(ws, lead + trail, []);
    } else {
      assert lead + value + trail == lead + (value + trail);
      TrimFrontIs(ws, lead, value + trail);
      TrimBackIs(ws, value, trail);
    }
  }

  lemma {:induction false} FrontIsPadding(ws: char -> bool, s: string) returns (lead: string)
    ensures Blank(ws, lead) && s == lead + TrimFront(ws, s)
  {
    if s != [] && ws(s[0]) {
      var more := FrontIsPadding(ws, s[1..]);
      lead := [s[0]] + more;
      assert s == [s[0]] + s[1..];
    } else {
      lead := [];
    }
  }

  lemma {:induction false} BackIsPadding(ws: char -> bool, f: string) returns (trail: string)
    ensures Blank(ws, trail) && f == TrimBack(ws, f) + trail
  {
    if f != [] && ws(f[|f| - 1]) {
      var more := BackIsPadding(ws, f[..|f| - 1]);
      trail := more + [f[|f| - 1]];
      assert f == f[..|f| - 1] + [f[|f| - 1]];
    } else {
      trail := [];
    }
  }

  lemma JoinThree(s: string, a: string, f: string, v: string, b: string)
    requires s == a + f && f == v + b
    ensures s == a + v + b
  {}

  /** Whatever is trimmed was padding. */
  lemma TrimIsPadding(ws: char -> bool, s: string) returns (lead: string, trail: string)
    ensures Blank(ws, lead) && Blank(ws, trail) && Trimmed(ws, TrimBoth(ws, s)) && s == lead + TrimBoth(ws, s) + trail
  {
    lead := FrontIsPadding(ws, s);
    trail := BackIsPadding(ws, TrimFront(ws, s));
    JoinThree(s, lead, TrimFront(ws, s), TrimBoth(ws, s), trail);
    assert TrimBoth(ws, s) != [] ==> TrimBoth(ws, s)[0] == TrimFront(ws, s)[0];
  }

  // ---- Case ----

  function Lower(c: char): char {
    if 'A' <= c <= 'Z' then c - 'A' + 'a' else c
  }

  predicate EqIgnoreCase(a: string, b: string) {
    |a| == |b| && forall i :: 0 <= i < |a| ==> Lower(a[i]) == Lower(b[i])
  }

  /** The same byte, or one letter in its two cases. */
  predicate SameLetter(c: char, d: char) {
    || c == d
    || ('A' <= c <= 'Z' && d as int == c as int + 32)
    || ('A' <= d <= 'Z' && c as int == d as int + 32)
  }

  /** Ignoring case, texts are equal exactly when they agree letter by letter. */
  lemma EqIgnoreCaseIff(a: string, b: string)
    ensures EqIgnoreCase(a, b) <==> |a| == |b| && forall i :: 0 <= i < |a| ==> SameLetter(a[i], b[i])
  {
    forall c: char, d: char ensures Lower(c) == Lower(d) <==> SameLetter(c, d) { LowerIff(c, d); }
  }

  lemma LowerIff(c: char, d: char)
    ensures Lower(c) == Lower(d) <==> SameLetter(c, d)
  {}

  // ---- Decimal numerals ----

  predicate IsDigit(c: char) { '0' <= c <= '9' }

  predicate AllDigits(s: string) { forall i :: 0 <= i < |s| ==> IsDigit(s[i]) }

  function DigitChar(d: nat): (c: char)
    requires d < 10
    ensures IsDigit(c) && DigitValue(c) == d
  {
    '0' + d as char
  }

  function DigitValue(c: char): (d: nat)
    requires IsDigit(c)
    ensures d < 10
  {
    (c - '0') as nat
  }

  function Digits(v: nat): (s: string)
    ensures s != [] && AllDigits(s)
  {
    if v < 10 then [DigitChar(v)] else Digits(v / 10) + [DigitChar(v % 10)]
  }

  function Value(s: string): nat
    requires AllDigits(s)
  {
    if s == [] then 0 else Value(s[..|s| - 1]) * 10 + DigitValue(s[|s| - 1])
  }

  function Pow10(n: nat): (p: nat)
    ensures p >= 1
  {
    if n == 0 then 1 else 10 * Pow10(n - 1)
  }

  lemma {:induction false} ValueOfDigits(v: nat)
    ensures Value(Digits(v)) == v
  {
    if v >= 10 {
      ValueOfDigits(v / 10);
      assert Digits(v)[..|Digits(v)| - 1] == Digits(v / 10);
    }
  }

  /** A number has at most `n` digits exactly below `10^n`. */
  lemma {:induction false} DigitCount(v: nat, n: nat)
    requires n >= 1
    ensures |Digits(v)| <= n <==> v < Pow10(n)
  {
    if v >= 10 {
      if n == 1 { assert Pow10(1) == 10 * Pow10(0); }
      else { DigitCount(v / 10, n - 1); }
    } else {
      assert Pow10(n) == 10 * Pow10(n - 1);
    }
  }

  /** A longer numeral is no smaller. */
  lemma {:induction false} ValueMonotone(s: string, k: nat)
    requires AllDigits(s) && k <= |s|
    ensures Value(s[..k]) <= Value(s)
  {
    if k == |s| { assert s[..k] == s; }
    else {
      ValueMonotone(s[..|s| - 1], k);
      assert s[..|s| - 1][..k] == s[..k];
    }
  }

  /** Leading zeros. */
  function ZeroDigits(n: nat): (s: string)
    ensures |s| == n && AllDigits(s)
  {
    if n == 0 then [] else ZeroDigits(n - 1) + ['0']
  }

  lemma {:induction false} ValueOfZeros(n: nat)
    ensures Value(ZeroDigits(n)) == 0
  {
    if n > 0 {
      ValueOfZeros(n - 1);
      assert ZeroDigits(n)[..n - 1] == ZeroDigits(n - 1);
    }
  }

  lemma {:induction false} ValueOfNumeral(zeros: nat, v: nat)
    ensures Value(ZeroDigits(zeros) + Digits(v)) == v
  {
    var s := ZeroDigits(zeros) + Digits(v);
    if v < 10 {
      ValueOfZeros(zeros);
      assert s[..|s| - 1] == ZeroDigits(zeros);
    } else {
      ValueOfNumeral(zeros, v / 10);
      assert s[..|s| - 1] == ZeroDigits(zeros) + Digits(v / 10);
    }
  }

  lemma DigitIsChar(c: char)
    requires IsDigit(c)
    ensures DigitChar(DigitValue(c)) == c
  {}

  /** One more digit after a numeral. */
  lemma NumeralGrows(t: string, c: char, zeros: nat) returns (zeros': nat)
    requires AllDigits(t) && t == ZeroDigits(zeros) + Digits(Value(t)) && IsDigit(c)
    ensures t + [c] == ZeroDigits(zeros') + Digits(Value(t) * 10 + DigitValue(c))
  {
    DigitIsChar(c);
    var v := Value(t) * 10 + DigitValue(c);
    if Value(t) == 0 {
      zeros' := zeros + 1;
      assert Digits(0) == ['0'] && Digits(v) == [c];
      assert t == ZeroDigits(zeros');
    } else {
      zeros' := zeros;
      assert v / 10 == Value(t) && v % 10 == DigitValue(c);
      assert t + [c] == ZeroDigits(zeros) + (Digits(Value(t)) + [c]);
    }
  }

  /** Every numeral is its value's digits after zeros. */
  lemma {:induction false} NumeralIsDigits(s: string) returns (zeros: nat)
    requires s != [] && AllDigits(s)
    ensures s == ZeroDigits(zeros) + Digits(Value(s))
  {
    var n := |s| - 1;
    assert s == s[..n] + [s[n]];
    if n == 0 {
      DigitIsChar(s[0]);
      assert s[..0] == [] && Value(s) == DigitValue(s[0]);
      zeros := 0;
    } else {
      zeros := NumeralIsDigits(s[..n]);
      zeros := NumeralGrows(s[..n], s[n], zeros);
    }
  }

  /** `s` spells `v`, after any zeros, in at most `width` digits. */
  ghost predicate Spells(s: string, v: nat, width: nat) {
    exists zeros: nat :: zeros + |Digits(v)| <= width && s == ZeroDigits(zeros) + Digits(v)
  }

  lemma SpellsDigits(s: string, v: nat, width: nat)
    requires Spells(s, v, width)
    ensures s != [] && AllDigits(s)
  {}

  /** A numeral is read exactly when it spells a value that the word holds. */
  lemma ParseDigitsIff(s: string, width: nat, max: nat, v: nat)
    ensures ParseDigits(s, width, max) == Some(v) <==> v <= max && Spells(s, v, width)
  {
    if ParseDigits(s, width, max) == Some(v) { var zeros := NumeralIsDigits(s); }
    forall zeros: nat | s == ZeroDigits(zeros) + Digits(v)
      ensures s != [] && AllDigits(s) && |s| == zeros + |Digits(v)| && Value(s) == v
    {
      ValueOfNumeral(zeros, v);
    }
  }

  /** A numeral of at most `width` digits whose value a machine word up to `max` holds. */
  function ParseDigits(s: string, width: nat, max: nat): Option<nat> {
    if s == [] || |s| > width || !AllDigits(s) || Value(s) > max then None else Some(Value(s))
  }

  /** `parse_decimal`. */
  function ParseDecimal(s: string, max: nat): Option<nat> { ParseDigits(s, 10, max) }

  /** It inverts printing exactly below `10^10`, for every number the word holds. */
  lemma DecimalRoundTrip(v: nat, max: nat)
    requires v <= max
    ensures ParseDecimal(Digits(v), max) == (if v < Pow10(10) then Some(v) else None)
  {
    ValueOfDigits(v);
    DigitCount(v, 10);
  }

  /** The running value, refused at the first digit that overflows the word. */
  method ReadDigits(s: string, width: nat, max: nat) returns (r: Option<nat>)
    ensures r == ParseDigits(s, width, max)
  {
    if s == [] || |s| > width { return None; }
    var n, i := 0, 0;
    while i < |s|
      invariant i <= |s| && AllDigits(s[..i]) && n == Value(s[..i]) <= max
    {
      if !IsDigit(s[i]) { return None; }
      assert s[..i + 1][..i] == s[..i];
      assert AllDigits(s[..i + 1]);
      n := n * 10 + DigitValue(s[i]);
      if n > max {
        if AllDigits(s) { ValueMonotone(s, i + 1); }
        return None;
      }
      i := i + 1;
    }
    assert s[..i] == s;
    return Some(n);
  }

  /** Digits, least significant first, filled in from the back of the buffer. */
  method PrintDecimal(v: nat) returns (s: string)
    ensures s == Digits(v)
  {
    var rest: nat := v / 10;
    s := [DigitChar(v % 10)];
    while rest != 0
      invariant rest == 0 ==> s == Digits(v)
      invariant rest != 0 ==> Digits(rest) + s == Digits(v)
    {
      ghost var was := rest;
      s := [DigitChar(rest % 10)] + s;
      rest := rest / 10;
      if rest != 0 { assert Digits(rest) + s == Digits(was) + s[1..]; }
      else { assert Digits(was) + s[1..] == s; }
    }
  }

  method Trim(ws: char -> bool, s: string) returns (r: string)
    ensures r == TrimBoth(ws, s)
  {
    r := s;
    while r != [] && ws(r[0])
      invariant TrimFront(ws, r) == TrimFront(ws, s)
    {
      r := r[1..];
    }
    while r != [] && ws(r[|r| - 1])
      invariant TrimBack(ws, r) == TrimBoth(ws, s)
    {
      r := r[..|r| - 1];
    }
  }
}
