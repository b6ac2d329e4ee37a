/**
 * The two pieces of Rust's standard library the converter leans on when it reads
 * text: `str::trim` (strip Unicode white space at both ends) and `u8::from_str`
 * (an optional `+`, one or more ASCII digits, a value that fits in eight bits).
 */
module StdText {
  import opened Wrappers

  /** An unsigned eight-bit integer, Rust's `u8`. */
  newtype u8 = x: int | 0 <= x < 256

  /** Rust's `char::is_whitespace`: the Unicode White_Space property. */
  predicate IsWhitespace(c: char) {
    ('\t' <= c <= '\r') || c == ' ' || c == '\U{0085}' || c == '\U{00A0}' || c == '\U{1680}'
    || ('\U{2000}' <= c <= '\U{200A}') || c == '\U{2028}' || c == '\U{2029}'
    || c == '\U{202F}' || c == '\U{205F}' || c == '\U{3000}'
  }

  predicate AllWhitespace(s: string) {
    forall i :: 0 <= i < |s| ==> IsWhitespace(s[i])
  }

  /** Drops leading white space: the result is a suffix of `s` that does not start with white space. */
  function TrimStart(s: string): (r: string)
    ensures |r| <= |s| && r == s[|s| - |r|..]
    ensures r == [] || !IsWhitespace(r[0])
  {
    if |s| > 0 && IsWhitespace(s[0]) then TrimStart(s[1..]) else s
  }

  /** Drops trailing white space: the result is a prefix of `s` that does not end with white space. */
  function TrimEnd(s: string): (r: string)
    ensures |r| <= |s| && r == s[..|r|]
    ensures r == [] || !IsWhitespace(r[|r| - 1])
  {
    if |s| > 0 && IsWhitespace(s[|s| - 1]) then TrimEnd(s[..|s| - 1]) else s
  }

  /** Rust's `str::trim`: the longest slice of `s` that neither starts nor ends with white space. */
  function Trim(s: string): (r: string)
    ensures |r| <= |s|
    ensures r == [] || (!IsWhitespace(r[0]) && !IsWhitespace(r[|r| - 1]))
  {
    TrimEnd(TrimStart(s))
  }

  /** Everything `TrimStart` drops is white space. */
  lemma {:induction false} TrimStartDropsWhitespace(s: string)
    ensures AllWhitespace(s[..|s| - |TrimStart(s)|])
  {
    if |s| > 0 && IsWhitespace(s[0]) {
      TrimStartDropsWhitespace(s[1..]);
      var k := |s| - |TrimStart(s)|;
      forall i | 0 <= i < k ensures IsWhitespace(s[..k][i]) {
        if i > 0 {
          assert s[..k][i] == s[1..][..k - 1][i - 1];
        }
      }
    }
  }

  /** Everything `TrimEnd` drops is white space. */
  lemma {:induction false} TrimEndDropsWhitespace(s: string)
    ensures AllWhitespace(s[|TrimEnd(s)|..])
  {
    if |s| > 0 && IsWhitespace(s[|s| - 1]) {
      var t := s[..|s| - 1];
      TrimEndDropsWhitespace(t);
      var k := |TrimEnd(s)|;
      forall i | 0 <= i < |s| - k ensures IsWhitespace(s[k..][i]) {
        if k + i < |s| - 1 {
          assert s[k..][i] == t[k..][i];
        }
      }
    }
  }

  /** `Trim` cuts `s` into white space, the result, and white space, in that order. */
  lemma TrimIsSlice(s: string)
    ensures exists i, j :: 0 <= i <= j <= |s| && Trim(s) == s[i..j] && AllWhitespace(s[..i]) && AllWhitespace(s[j..])
  {
    var t := TrimStart(s);
    var r := TrimEnd(t);
    var i := |s| - |t|;
    var j := i + |r|;
    TrimStartDropsWhitespace(s);
    TrimEndDropsWhitespace(t);
    assert r == s[i..j];
    assert s[j..] == t[|r|..];
    assert AllWhitespace(s[j..]);
  }

  /** White space around a text never reaches what `Trim` returns. */
  lemma {:induction false} TrimIgnoresPadding(w1: string, s: string, w2: string)
    requires AllWhitespace(w1) && AllWhitespace(w2)
    ensures Trim(w1 + s + w2) == Trim(s)
  {
    assert w1 + s + w2 == w1 + (s + w2);
    TrimStartIgnoresPrefix(w1, s + w2);
    var t := TrimStart(s);
    if t == [] {
      TrimStartDropsWhitespace(s);
      assert s[..|s|] == s;
      TrimStartIgnoresPrefix(s, w2);
      TrimStartOfWhitespace(w2);
      assert TrimStart(w1 + s + w2) == [];
    } else {
      TrimStartKeepsSuffix(s, w2);
      TrimEndIgnoresSuffix(t, w2);
      assert TrimStart(w1 + s + w2) == t + w2;
    }
  }

  lemma {:induction false} TrimStartIgnoresPrefix(w: string, s: string)
    requires AllWhitespace(w)
    ensures TrimStart(w + s) == TrimStart(s)
  {
    if w != [] {
      assert (w + s)[0] == w[0] && IsWhitespace(w[0]);
      assert (w + s)[1..] == w[1..] + s;
      assert AllWhitespace(w[1..]) by {
        forall i | 0 <= i < |w[1..]| ensures IsWhitespace(w[1..][i]) {
          assert w[1..][i] == w[i + 1];
        }
      }
      TrimStartIgnoresPrefix(w[1..], s);
    } else {
      assert w + s == s;
    }
  }

  lemma {:induction false} TrimStartOfWhitespace(w: string)
    requires AllWhitespace(w)
    ensures TrimStart(w) == []
  {
    if w != [] {
      assert IsWhitespace(w[0]);
      assert AllWhitespace(w[1..]) by {
        forall i | 0 <= i < |w[1..]| ensures IsWhitespace(w[1..][i]) {
          assert w[1..][i] == w[i + 1];
        }
      }
      TrimStartOfWhitespace(w[1..]);
    }
  }

  lemma {:induction false} TrimStartKeepsSuffix(s: string, w: string)
    requires TrimStart(s) != []
    ensures TrimStart(s + w) == TrimStart(s) + w
  {
    if IsWhitespace(s[0]) {
      assert (s + w)[1..] == s[1..] + w;
      TrimStartKeepsSuffix(s[1..], w);
    }
  }

  lemma {:induction false} TrimEndIgnoresSuffix(s: string, w: string)
    requires AllWhitespace(w)
    ensures TrimEnd(s + w) == TrimEnd(s)
  {
    if w != [] {
      var n := |w| - 1;
      assert (s + w)[|s + w| - 1] == w[n] && IsWhitespace(w[n]);
      assert (s + w)[..|s + w| - 1] == s + w[..n];
      assert AllWhitespace(w[..n]) by {
        forall i | 0 <= i < n ensures IsWhitespace(w[..n][i]) {
          assert w[..n][i] == w[i];
        }
      }
      TrimEndIgnoresSuffix(s, w[..n]);
    } else {
      assert s + w == s;
    }
  }

  /** A text that neither starts nor ends with white space is its own trim. */
  lemma TrimKeepsUnpadded(s: string)
    requires s == [] || (!IsWhitespace(s[0]) && !IsWhitespace(s[|s| - 1]))
    ensures Trim(s) == s
  {
    assert TrimStart(s) == s;
  }

  /** Trimming twice changes nothing further. */
  lemma TrimIdempotent(s: string)
    ensures Trim(Trim(s)) == Trim(s)
  {
    var r := Trim(s);
    if r != [] {
      assert TrimStart(r) == r;
      assert TrimEnd(r) == r;
    }
  }

  predicate IsDigit(c: char) {
    '0' <= c <= '9'
  }

  predicate AllDigits(s: string) {
    forall i :: 0 <= i < |s| ==> IsDigit(s[i])
  }

  /** The value of a run of decimal digits, most significant first. */
  function DigitsValue(s: string): nat
    requires AllDigits(s)
  {
    if s == [] then 0
    else
      assert IsDigit(s[|s| - 1]);
      DigitsValue(s[..|s| - 1]) * 10 + (s[|s| - 1] as int - '0' as int)
  }

  /** Rust's `u8::from_str`: an optional `+` sign, then at least one ASCII digit, and the value below 256. */
  function ParseU8(s: string): (r: Option<u8>)
  {
    var digits := if |s| > 0 && s[0] == '+' then s[1..] else s;
    if digits == [] || !AllDigits(digits) then None
    else if DigitsValue(digits) < 256 then Some(DigitsValue(digits) as u8)
    else None
  }

  /** The shortest decimal spelling of `n`, the way Rust's `Display` writes an integer. */
  function DecimalText(n: nat): (r: string)
    ensures r != [] && AllDigits(r)
  {
    var last := ['0' + ((n % 10) as char)];
    if n < 10 then last else DecimalText(n / 10) + last
  }

  /** Reading back the spelling of a number gives that number. */
  lemma {:induction false} DigitsValueOfDecimal(n: nat)
    ensures DigitsValue(DecimalText(n)) == n
  {
    if n >= 10 {
      var s := DecimalText(n);
      assert s[..|s| - 1] == DecimalText(n / 10);
      DigitsValueOfDecimal(n / 10);
    }
  }

  /** Every eight-bit value round-trips through its decimal spelling, with or without a `+`. */
  lemma ParseU8OfDecimal(n: u8)
    ensures ParseU8(DecimalText(n as nat)) == Some(n)
    ensures ParseU8("+" + DecimalText(n as nat)) == Some(n)
  {
    DigitsValueOfDecimal(n as nat);
    assert ("+" + DecimalText(n as nat))[1..] == DecimalText(n as nat);
  }

  /** A number at or above 256 does not fit: Rust reports overflow. */
  lemma ParseU8Overflow(n: nat)
    requires n >= 256
    ensures ParseU8(DecimalText(n)) == None
  {
    DigitsValueOfDecimal(n);
  }

  /** A text that parses holds only digits after its optional sign, so it has no letters or white space. */
  lemma ParseU8OnlyDigits(s: string)
    requires ParseU8(s).Some?
    ensures s != [] && s != "+"
    ensures forall i :: 0 <= i < |s| ==> IsDigit(s[i]) || (i == 0 && s[i] == '+')
  {
    var digits := if |s| > 0 && s[0] == '+' then s[1..] else s;
    assert digits != [];
    assert AllDigits(digits);
    forall i | 0 <= i < |s| ensures IsDigit(s[i]) || (i == 0 && s[i] == '+') {
      if |s| > 0 && s[0] == '+' {
        if i > 0 {
          assert s[i] == digits[i - 1];
        }
      } else {
        assert s[i] == digits[i];
      }
    }
  }
}
