/** The string primitives the quiz relies on: `String.prototype.trim`,
    `toLowerCase` (ASCII letters only), `parseInt(s, 10)` and `String(n)`. */
module Text {
  import opened Types

  /** The ECMAScript WhiteSpace and LineTerminator code points, which both
      `trim` and `parseInt` skip. */
  predicate IsWhite(c: char) {
    var n := c as int;
    n == 0x20 || 0x09 <= n <= 0x0D || n == 0xA0 || n == 0x1680
    || 0x2000 <= n <= 0x200A || n == 0x2028 || n == 0x2029 || n == 0x202F
    || n == 0x205F || n == 0x3000 || n == 0xFEFF
  }

  function TrimStart(s: string): (r: string)
    ensures r == [] || !IsWhite(r[0])
    ensures |r| <= |s| && r == s[|s| - |r|..]
  {
    if s != [] && IsWhite(s[0]) then TrimStart(s[1..]) else s
  }

  function TrimEnd(s: string): (r: string)
    ensures r == [] || !IsWhite(r[|r| - 1])
    ensures |r| <= |s| && r == s[..|r|]
  {
    if s != [] && IsWhite(s[|s| - 1]) then TrimEnd(s[..|s| - 1]) else s
  }

  function Trim(s: string): string {
    TrimEnd(TrimStart(s))
  }

  predicate AllWhite(s: string) {
    forall i :: 0 <= i < |s| ==> IsWhite(s[i])
  }

  function LowerChar(c: char): char {
    if 'A' <= c <= 'Z' then (c as int + 32) as char else c
  }

  function Lower(s: string): (r: string)
    ensures |r| == |s|
  {
    seq(|s|, i requires 0 <= i < |s| => LowerChar(s[i]))
  }

  lemma {:induction false} TrimStartOfWhite(ws: string, s: string)
    requires AllWhite(ws)
    ensures TrimStart(ws + s) == TrimStart(s)
    decreases |ws|
  {
    if ws == [] {
      assert ws + s == s;
    } else {
      assert (ws + s)[0] == ws[0] && IsWhite(ws[0]);
      assert (ws + s)[1..] == ws[1..] + s;
      assert TrimStart(ws + s) == TrimStart(ws[1..] + s);
      TrimStartOfWhite(ws[1..], s);
    }
  }

  lemma {:induction false} TrimEndOfWhite(s: string, ws: string)
    requires AllWhite(ws)
    ensures TrimEnd(s + ws) == TrimEnd(s)
    decreases |ws|
  {
    if ws == [] {
      assert s + ws == s;
    } else {
      var ws' := ws[..|ws| - 1];
      assert (s + ws)[|s + ws| - 1] == ws[|ws| - 1] && IsWhite(ws[|ws| - 1]);
      assert (s + ws)[..|s + ws| - 1] == s + ws';
      assert TrimEnd(s + ws) == TrimEnd(s + ws');
      TrimEndOfWhite(s, ws');
    }
  }

  lemma {:induction false} TrimStartBeforeWhite(s: string, ws: string)
    requires AllWhite(ws)
    ensures AllWhite(s) ==> TrimStart(s + ws) == []
    ensures !AllWhite(s) ==> TrimStart(s + ws) == TrimStart(s) + ws
    decreases |s|
  {
    if s == [] {
      assert s + ws == ws + [];
      TrimStartOfWhite(ws, []);
    } else if IsWhite(s[0]) {
      assert (s + ws)[0] == s[0];
      assert (s + ws)[1..] == s[1..] + ws;
      assert AllWhite(s) <==> AllWhite(s[1..]) by {
        assert forall i :: 0 < i < |s| ==> s[i] == s[1..][i - 1];
      }
      TrimStartBeforeWhite(s[1..], ws);
    } else {
      assert (s + ws)[0] == s[0];
      assert !AllWhite(s);
    }
  }

  lemma {:induction false} TrimStartAllWhite(s: string)
    ensures TrimStart(s) == [] <==> AllWhite(s)
    decreases |s|
  {
    if s != [] {
      TrimStartAllWhite(s[1..]);
      if IsWhite(s[0]) {
        assert AllWhite(s) <==> AllWhite(s[1..]);
      }
    }
  }

  /** Whitespace around the text makes no difference to `trim`. */
  lemma SurroundingWhiteIgnored(ws: string, s: string, ws': string)
    requires AllWhite(ws) && AllWhite(ws')
    ensures Trim(ws + s + ws') == Trim(s)
  {
    assert ws + s + ws' == ws + (s + ws');
    TrimStartOfWhite(ws, s + ws');
    TrimStartBeforeWhite(s, ws');
    if AllWhite(s) {
      TrimStartAllWhite(s);
    } else {
      TrimEndOfWhite(TrimStart(s), ws');
    }
  }

  /** `s.trim()` is empty exactly when `s` is nothing but whitespace. */
  lemma TrimEmptyIffWhite(s: string)
    ensures Trim(s) == [] <==> AllWhite(s)
  {
    TrimStartAllWhite(s);
    var t := TrimStart(s);
    if t != [] {
      assert TrimEnd(t) != [] by {
        assert !IsWhite(t[0]);
        TrimEndKeepsNonWhite(t);
      }
    }
  }

  lemma {:induction false} TrimEndKeepsNonWhite(t: string)
    requires t != [] && !IsWhite(t[0])
    ensures TrimEnd(t) != []
    decreases |t|
  {
    if IsWhite(t[|t| - 1]) {
      TrimEndKeepsNonWhite(t[..|t| - 1]);
    }
  }

  lemma LowerIdempotent(s: string)
    ensures Lower(Lower(s)) == Lower(s)
  {
  }

  // ---- parseInt(s, 10) and String(n) ----

  predicate IsDigit(c: char) {
    '0' <= c <= '9'
  }

  function DigitValue(c: char): nat
    requires IsDigit(c)
  {
    c as int - '0' as int
  }

  function DigitChar(d: nat): (c: char)
    requires d < 10
    ensures IsDigit(c) && DigitValue(c) == d
  {
    ('0' as int + d) as char
  }

  /** The longest prefix of `s` made of decimal digits. */
  function DigitPrefix(s: string): (r: string)
    ensures |r| <= |s| && r == s[..|r|]
    ensures forall i :: 0 <= i < |r| ==> IsDigit(r[i])
    ensures |r| < |s| ==> !IsDigit(s[|r|])
  {
    if s != [] && IsDigit(s[0]) then [s[0]] + DigitPrefix(s[1..]) else []
  }

  /** The value of a string of decimal digits, most significant first. */
  function DigitsValue(d: string): nat
    requires forall i :: 0 <= i < |d| ==> IsDigit(d[i])
  {
    if d == [] then 0 else DigitsValue(d[..|d| - 1]) * 10 + DigitValue(d[|d| - 1])
  }

  /** `parseInt(s, 10)`: leading whitespace, an optional sign, then the longest
      run of digits; `None` plays NaN when there is no digit. */
  function ParseInt(s: string): Option<int> {
    var t := TrimStart(s);
    var negative := t != [] && t[0] == '-';
    var body := if t != [] && (t[0] == '-' || t[0] == '+') then t[1..] else t;
    var digits := DigitPrefix(body);
    if digits == [] then None
    else
      var value: int := if negative then 0 - DigitsValue(digits) else DigitsValue(digits);
      Some(value)
  }

  /** `String(n)` for a natural number. */
  function DecimalString(n: nat): (r: string)
    ensures r != [] && forall i :: 0 <= i < |r| ==> IsDigit(r[i])
  {
    if n < 10 then [DigitChar(n)] else DecimalString(n / 10) + [DigitChar(n % 10)]
  }

  lemma {:induction false} DecimalStringValue(n: nat)
    ensures DigitsValue(DecimalString(n)) == n
  {
    if n >= 10 {
      var s := DecimalString(n);
      assert s[..|s| - 1] == DecimalString(n / 10);
      DecimalStringValue(n / 10);
    }
  }

  lemma {:induction false} DigitPrefixOfDigits(s: string)
    requires forall i :: 0 <= i < |s| ==> IsDigit(s[i])
    ensures DigitPrefix(s) == s
    decreases |s|
  {
    if s != [] {
      DigitPrefixOfDigits(s[1..]);
    }
  }

  lemma DigitNotWhite(c: char)
    requires IsDigit(c)
    ensures !IsWhite(c)
  {
  }

  lemma TrimStartAtDigit(s: string)
    requires s != [] && IsDigit(s[0])
    ensures TrimStart(s) == s
  {
    DigitNotWhite(s[0]);
  }

  /** A string of digits is read back as its value: no whitespace to skip,
      no sign, and every character belongs to the digit run. */
  lemma ParseDigits(s: string)
    requires s != [] && forall i :: 0 <= i < |s| ==> IsDigit(s[i])
    ensures ParseInt(s) == Some(DigitsValue(s))
  {
    TrimStartAtDigit(s);
    assert s[0] != '-' && s[0] != '+';
    DigitPrefixOfDigits(s);
  }

  /** `parseInt(String(n), 10) === n`, for `n` as an unbounded integer. */
  lemma ParseDecimalString(n: nat)
    ensures ParseInt(DecimalString(n)) == Some(n)
  {
    DecimalStringValue(n);
    ParseDigits(DecimalString(n));
  }
}
