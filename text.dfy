/**
 * The few Python string operations the dataset code relies on:
 * `str.split()` (runs of whitespace), `str.strip()`, `str.split(',')` and `int(token)`.
 */
module Text {
  import opened Wrappers

  /** Python's `str.isspace` for one character: the separators `str.split()` and `str.strip()` use. */
  predicate IsSpace(c: char) {
    || '\t' <= c <= '\r'
    || '\U{1c}' <= c <= '\U{1f}'
    || c == ' ' || c == '\U{85}' || c == '\U{a0}' || c == '\U{1680}'
    || '\U{2000}' <= c <= '\U{200a}'
    || c == '\U{2028}' || c == '\U{2029}' || c == '\U{202f}' || c == '\U{205f}' || c == '\U{3000}'
  }

  predicate NoSpace(s: string) {
    forall k :: 0 <= k < |s| ==> !IsSpace(s[k])
  }

  /** A token of `str.split()`: non-empty and free of whitespace. */
  predicate IsWord(w: string) {
    w != [] && NoSpace(w)
  }

  // ---------------------------------------------------------------- str.split()

  /** Length of the longest prefix of `s` that holds no whitespace. */
  function WordLength(s: string): (n: nat)
    ensures n <= |s|
    ensures NoSpace(s[..n])
    ensures n < |s| ==> IsSpace(s[n])
  {
    if s == [] || IsSpace(s[0]) then 0 else 1 + WordLength(s[1..])
  }

  /** `s.split()`: the maximal whitespace-free runs of `s`, in order. */
  function Words(s: string): (ws: seq<string>)
    ensures forall i :: 0 <= i < |ws| ==> IsWord(ws[i])
    decreases |s|
  {
    if s == [] then []
    else if IsSpace(s[0]) then Words(s[1..])
    else
      var n := WordLength(s);
      [s[..n]] + Words(s[n..])
  }

  /** `' '.join(ws)`. */
  function Unwords(ws: seq<string>): string {
    if |ws| == 0 then ""
    else if |ws| == 1 then ws[0]
    else ws[0] + " " + Unwords(ws[1..])
  }

  lemma {:induction false} WordLengthOfWord(w: string, t: string)
    requires NoSpace(w)
    requires t == [] || IsSpace(t[0])
    ensures WordLength(w + t) == |w|
  {
    if w != [] {
      assert (w + t)[1..] == w[1..] + t;
      WordLengthOfWord(w[1..], t);
    } else {
      assert w + t == t;
    }
  }

  lemma WordsOfWordThen(w: string, t: string)
    requires IsWord(w)
    requires t == [] || IsSpace(t[0])
    ensures Words(w + t) == [w] + Words(t)
  {
    WordLengthOfWord(w, t);
    assert (w + t)[0] == w[0];
    assert (w + t)[..|w|] == w;
    assert (w + t)[|w|..] == t;
  }

  /** Splitting a space-joined list of tokens gives the tokens back. */
  lemma {:induction false} WordsOfUnwords(ws: seq<string>)
    requires forall i :: 0 <= i < |ws| ==> IsWord(ws[i])
    ensures Words(Unwords(ws)) == ws
  {
    if |ws| == 1 {
      WordsOfWordThen(ws[0], "");
      assert ws[0] + "" == ws[0];
    } else if |ws| > 1 {
      var rest := " " + Unwords(ws[1..]);
      assert ws[0] + " " + Unwords(ws[1..]) == ws[0] + rest;
      WordsOfWordThen(ws[0], rest);
      assert rest[1..] == Unwords(ws[1..]);
      WordsOfUnwords(ws[1..]);
      assert [ws[0]] + ws[1..] == ws;
    }
  }

  // ---------------------------------------------------------------- str.strip()

  function TrimStart(s: string): (r: string)
    ensures |r| <= |s| && r == s[|s| - |r|..]
    ensures r == [] || !IsSpace(r[0])
  {
    if s != [] && IsSpace(s[0]) then TrimStart(s[1..]) else s
  }

  function TrimEnd(s: string): (r: string)
    ensures |r| <= |s| && r == s[..|r|]
    ensures r == [] || !IsSpace(r[|r| - 1])
  {
    if s != [] && IsSpace(s[|s| - 1]) then TrimEnd(s[..|s| - 1]) else s
  }

  /** `s.strip()`: `s` without leading and trailing whitespace. */
  function Strip(s: string): string {
    TrimEnd(TrimStart(s))
  }

  /** A run of whitespace only. */
  predicate AllSpace(s: string) {
    forall k :: 0 <= k < |s| ==> IsSpace(s[k])
  }

  /**
   * `s.strip()` is a slice `s[a..b]` that neither starts nor ends with whitespace, and what is
   * cut off on either side is whitespace.
   */
  lemma StripSlice(s: string)
    ensures var r := Strip(s); r == [] || (!IsSpace(r[0]) && !IsSpace(r[|r| - 1]))
    ensures exists a, b :: 0 <= a <= b <= |s| && Strip(s) == s[a..b] && AllSpace(s[..a]) && AllSpace(s[b..])
  {
    var t := TrimStart(s);
    var r := TrimEnd(t);
    var a := |s| - |t|;
    var b := a + |r|;
    TrimStartCut(s);
    TrimEndCut(t);
    assert s[b..] == t[|r|..];
    assert Strip(s) == r == s[a..b];
    assert r != [] ==> r[0] == t[0];
  }

  lemma {:induction false} TrimStartCut(s: string)
    ensures AllSpace(s[..|s| - |TrimStart(s)|])
  {
    if s != [] && IsSpace(s[0]) {
      var rest := s[1..];
      TrimStartCut(rest);
      var m := |rest| - |TrimStart(rest)|;
      assert |s| - |TrimStart(s)| == m + 1;
      var cut, restCut := s[..m + 1], rest[..m];
      forall k | 0 <= k < |cut| ensures IsSpace(cut[k]) {
        if k > 0 {
          assert cut[k] == restCut[k - 1];
        }
      }
    }
  }

  lemma {:induction false} TrimEndCut(s: string)
    ensures AllSpace(s[|TrimEnd(s)|..])
  {
    if s != [] && IsSpace(s[|s| - 1]) {
      var init := s[..|s| - 1];
      TrimEndCut(init);
      assert s[|TrimEnd(s)|..] == init[|TrimEnd(init)|..] + [s[|s| - 1]];
    }
  }

  // ---------------------------------------------------------------- str.split(',')

  function Occurrences(s: string, c: char): nat {
    if s == [] then 0 else (if s[0] == c then 1 else 0) + Occurrences(s[1..], c)
  }

  /** `s.split(sep)` for a one-character separator: every occurrence cuts, empty fields are kept. */
  function SplitOn(s: string, sep: char): (fields: seq<string>)
    ensures |fields| >= 1
  {
    if s == [] then [""]
    else
      var rest := SplitOn(s[1..], sep);
      if s[0] == sep then [""] + rest else [[s[0]] + rest[0]] + rest[1..]
  }

  /** `sep.join(fields)`. */
  function JoinOn(fields: seq<string>, sep: char): string
    requires |fields| >= 1
  {
    if |fields| == 1 then fields[0] else fields[0] + [sep] + JoinOn(fields[1..], sep)
  }

  /** Splitting cuts at each separator: one more field than separators, none holding one, rejoined to the original. */
  lemma {:induction false} SplitOnInverse(s: string, sep: char)
    ensures |SplitOn(s, sep)| == Occurrences(s, sep) + 1
    ensures forall i :: 0 <= i < |SplitOn(s, sep)| ==> sep !in SplitOn(s, sep)[i]
    ensures JoinOn(SplitOn(s, sep), sep) == s
  {
    if s != [] {
      SplitOnInverse(s[1..], sep);
      var rest := SplitOn(s[1..], sep);
      if s[0] == sep {
        assert SplitOn(s, sep)[1..] == rest;
        assert s == [sep] + s[1..];
      } else {
        var fields := SplitOn(s, sep);
        assert fields[1..] == rest[1..];
        if |rest| == 1 {
          assert JoinOn(fields, sep) == [s[0]] + rest[0];
        } else {
          assert JoinOn(rest, sep) == rest[0] + [sep] + JoinOn(rest[1..], sep);
        }
        assert s == [s[0]] + s[1..];
      }
    }
  }

  // ---------------------------------------------------------------- int(token)

  predicate IsDigit(c: char) { '0' <= c <= '9' }

  /**
   * The digit part Python's `int()` accepts in base 10: ASCII digits, with single
   * underscores allowed between two digits.
   */
  predicate IsDigitString(t: string) {
    && t != []
    && IsDigit(t[0])
    && forall k :: 0 <= k < |t| ==> IsDigit(t[k]) || (t[k] == '_' && 0 < k < |t| - 1 && IsDigit(t[k + 1]))
  }

  /** The value of a digit string, underscores skipped. */
  function DigitsValue(t: string): nat {
    if t == [] then 0
    else if IsDigit(t[|t| - 1]) then DigitsValue(t[..|t| - 1]) * 10 + (t[|t| - 1] as int - '0' as int)
    else DigitsValue(t[..|t| - 1])
  }

  /** `int(token)`: an optional sign then a digit string; anything else is `None` (a ValueError). */
  function ParseInt(t: string): Option<int> {
    if t != [] && (t[0] == '-' || t[0] == '+') then
      if IsDigitString(t[1..]) then
        Some(if t[0] == '-' then -(DigitsValue(t[1..]) as int) else DigitsValue(t[1..]))
      else None
    else if IsDigitString(t) then Some(DigitsValue(t))
    else None
  }

  /**
   * Every non-empty run of ASCII digits is accepted by `int()`; an accepted token holds nothing
   * but a sign, digits and underscores (so no whitespace), and is negative only after a '-'.
   */
  lemma ParseIntTokens(t: string)
    ensures (t != [] && forall k :: 0 <= k < |t| ==> IsDigit(t[k])) ==> ParseInt(t).Some?
    ensures ParseInt(t).Some? ==> t != [] && forall k :: 0 <= k < |t| ==> IsDigit(t[k]) || t[k] == '+' || t[k] == '-' || t[k] == '_'
    ensures ParseInt(t).Some? && ParseInt(t).value < 0 ==> t[0] == '-'
  {
    if t != [] && (t[0] == '-' || t[0] == '+') && IsDigitString(t[1..]) {
      var u := t[1..];
      DigitStringChars(u);
      forall k | 0 <= k < |t| ensures IsDigit(t[k]) || t[k] == '+' || t[k] == '-' || t[k] == '_' {
        if k > 0 {
          assert t[k] == u[k - 1];
        }
      }
    } else if IsDigitString(t) {
      DigitStringChars(t);
    }
  }

  lemma DigitStringChars(u: string)
    requires IsDigitString(u)
    ensures forall k :: 0 <= k < |u| ==> IsDigit(u[k]) || u[k] == '_'
  {
    forall k | 0 <= k < |u| ensures IsDigit(u[k]) || u[k] == '_' {
      assert IsDigit(u[k]) || (u[k] == '_' && 0 < k < |u| - 1 && IsDigit(u[k + 1]));
    }
  }

  function DigitChar(d: nat): char
    requires d < 10
  {
    ('0' as int + d) as char
  }

  /** `str(n)` for a non-negative integer. */
  function FormatNat(n: nat): string {
    if n < 10 then [DigitChar(n)] else FormatNat(n / 10) + [DigitChar(n % 10)]
  }

  /** `str(n)`. */
  function FormatInt(n: int): string {
    if n < 0 then "-" + FormatNat(-n) else FormatNat(n)
  }

  lemma {:induction false} FormatNatDigits(n: nat)
    ensures FormatNat(n) != []
    ensures forall k :: 0 <= k < |FormatNat(n)| ==> IsDigit(FormatNat(n)[k])
    ensures DigitsValue(FormatNat(n)) == n
  {
    if n >= 10 {
      FormatNatDigits(n / 10);
      var s := FormatNat(n);
      assert s[..|s| - 1] == FormatNat(n / 10);
    }
  }

  /** The decimal text of an integer is a single token that `int()` reads back as that integer. */
  lemma FormatIntParses(n: int)
    ensures IsWord(FormatInt(n))
    ensures ParseInt(FormatInt(n)) == Some(n)
  {
    if n < 0 {
      assert FormatInt(n) == "-" + FormatNat(-n);
      NegativeParses(-n);
    } else {
      assert FormatInt(n) == FormatNat(n);
      NaturalParses(n);
    }
  }

  lemma NaturalParses(m: nat)
    ensures IsWord(FormatNat(m)) && ParseInt(FormatNat(m)) == Some(m)
  {
    FormatNatDigits(m);
    var d := FormatNat(m);
    DigitsAreDigitString(d);
    assert !IsSpace(d[0]) && d[0] != '-' && d[0] != '+';
    assert forall k :: 0 <= k < |d| ==> !IsSpace(d[k]);
  }

  lemma NegativeParses(m: nat)
    requires m > 0
    ensures IsWord("-" + FormatNat(m)) && ParseInt("-" + FormatNat(m)) == Some(-(m as int))
  {
    FormatNatDigits(m);
    DigitsAreDigitString(FormatNat(m));
    SignedDigitsParse(FormatNat(m));
    SignedDigitsNoSpace(FormatNat(m));
  }

  lemma SignedDigitsParse(d: string)
    requires IsDigitString(d)
    ensures ParseInt("-" + d) == Some(-(DigitsValue(d) as int))
  {
    assert ("-" + d)[1..] == d;
  }

  lemma SignedDigitsNoSpace(d: string)
    requires forall k :: 0 <= k < |d| ==> IsDigit(d[k])
    ensures NoSpace("-" + d)
  {
    var s := "-" + d;
    forall k | 0 <= k < |s| ensures !IsSpace(s[k]) {
      if k > 0 {
        assert s[k] == d[k - 1];
      }
    }
  }

  /** A non-empty run of ASCII digits is a digit string. */
  lemma DigitsAreDigitString(t: string)
    requires t != [] && forall k :: 0 <= k < |t| ==> IsDigit(t[k])
    ensures IsDigitString(t)
  {
  }
}
