/**
  The string operations of Rust's standard library that the conversion engine
  relies on: `char::is_whitespace`, `str::trim`, `str::split_whitespace`,
  `join(" ")` on a list of strings, `i64::to_string` and `str::parse::<i64>`.
*/
module Text {
  import opened Wrappers

  const MinI64: int := -0x8000_0000_0000_0000
  const MaxI64: int := 0x7FFF_FFFF_FFFF_FFFF

  /** Rust's `i64`: the integers an interpreter `Int` can hold. */
  type i64 = n: int | MinI64 <= n <= MaxI64

  /** `char::is_whitespace`: the characters with the Unicode White_Space property. */
  predicate IsWhitespace(c: char) {
    || 0x09 <= c as int <= 0x0D
    || c as int == 0x20
    || c as int == 0x85
    || c as int == 0xA0
    || c as int == 0x1680
    || 0x2000 <= c as int <= 0x200A
    || c as int == 0x2028
    || c as int == 0x2029
    || c as int == 0x202F
    || c as int == 0x205F
    || c as int == 0x3000
  }

  /** A non-empty run of non-whitespace characters: the pieces `split_whitespace` yields. */
  predicate IsWord(w: string) {
    |w| > 0 && forall i :: 0 <= i < |w| ==> !IsWhitespace(w[i])
  }

  /** No whitespace at either end: what `trim` leaves behind. */
  predicate IsTrimmed(s: string) {
    |s| == 0 || (!IsWhitespace(s[0]) && !IsWhitespace(s[|s| - 1]))
  }

  // ---------------------------------------------------------------- trim

  /** Where `trim_start` stops: the first index at or after `k` that holds no whitespace, or `|s|`. */
  function SkipWhitespace(s: string, k: nat): (j: nat)
    requires k <= |s|
    ensures k <= j <= |s|
    ensures forall i :: k <= i < j ==> IsWhitespace(s[i])
    ensures j == |s| || !IsWhitespace(s[j])
    decreases |s| - k
  {
    if k < |s| && IsWhitespace(s[k]) then SkipWhitespace(s, k + 1) else k
  }

  /** Where `trim_end` stops within `s[j..n]`: the end once trailing whitespace down to `j` is dropped. */
  function SkipTrailingWhitespace(s: string, j: nat, n: nat): (m: nat)
    requires j <= n <= |s|
    ensures j <= m <= n
    ensures forall i :: m <= i < n ==> IsWhitespace(s[i])
    ensures m == j || !IsWhitespace(s[m - 1])
    decreases n
  {
    if n > j && IsWhitespace(s[n - 1]) then SkipTrailingWhitespace(s, j, n - 1) else n
  }

  /** `str::trim`: the slice of `s` left after dropping whitespace at both ends. */
  function Trim(s: string): (r: string)
    ensures IsTrimmed(r)
    ensures |r| <= |s|
  {
    var j := SkipWhitespace(s, 0);
    s[j..SkipTrailingWhitespace(s, j, |s|)]
  }

  /**
    Trimming removes whitespace at the two ends and nothing else: the result
    is the slice of `s` that starts at its first non-whitespace character,
    and every character before or after that slice is whitespace.
  */
  lemma TrimIsInnerSlice(s: string)
    ensures var j := SkipWhitespace(s, 0);
            var n := j + |Trim(s)|;
            && n <= |s|
            && Trim(s) == s[j..n]
            && (forall i :: 0 <= i < j ==> IsWhitespace(s[i]))
            && (forall i :: n <= i < |s| ==> IsWhitespace(s[i]))
  {
    var j := SkipWhitespace(s, 0);
    var m := SkipTrailingWhitespace(s, j, |s|);
    assert Trim(s) == s[j..m];
  }

  /** Trimming a string that already has no whitespace at its ends changes nothing. */
  lemma TrimOfTrimmed(s: string)
    requires IsTrimmed(s)
    ensures Trim(s) == s
  {
    if |s| > 0 {
      assert SkipWhitespace(s, 0) == 0;
      assert SkipTrailingWhitespace(s, 0, |s|) == |s|;
    }
  }

  /** Trimming is idempotent. */
  lemma TrimIdempotent(s: string)
    ensures Trim(Trim(s)) == Trim(s)
  {
    TrimOfTrimmed(Trim(s));
  }

  // ---------------------------------------------------------------- split_whitespace

  /** Length of the longest whitespace-free prefix of `s`. */
  function WordLength(s: string): (n: nat)
    ensures n <= |s|
    ensures forall i :: 0 <= i < n ==> !IsWhitespace(s[i])
    ensures n == |s| || IsWhitespace(s[n])
  {
    if |s| == 0 || IsWhitespace(s[0]) then 0 else 1 + WordLength(s[1..])
  }

  /** `str::split_whitespace`: the maximal whitespace-free runs of `s`, in order. */
  function Words(s: string): (ws: seq<string>)
    ensures forall i :: 0 <= i < |ws| ==> IsWord(ws[i])
    decreases |s|
  {
    if |s| == 0 then []
    else if IsWhitespace(s[0]) then Words(s[1..])
    else
      var n := WordLength(s);
      [s[..n]] + Words(s[n..])
  }

  /** `join(" ")`: the strings with exactly one space between neighbours; "" for none. */
  function Join(ws: seq<string>): string {
    if |ws| == 0 then ""
    else if |ws| == 1 then ws[0]
    else ws[0] + " " + Join(ws[1..])
  }

  lemma {:induction false} WordLengthOfWord(w: string, t: string)
    requires forall i :: 0 <= i < |w| ==> !IsWhitespace(w[i])
    requires |t| == 0 || IsWhitespace(t[0])
    ensures WordLength(w + t) == |w|
  {
    if |w| > 0 {
      assert (w + t)[1..] == w[1..] + t;
      WordLengthOfWord(w[1..], t);
    }
  }

  /** A word followed by whitespace (or nothing) splits off as one piece. */
  lemma WordsOfWord(w: string, t: string)
    requires IsWord(w)
    requires |t| == 0 || IsWhitespace(t[0])
    ensures Words(w + t) == [w] + Words(t)
  {
    WordLengthOfWord(w, t);
    assert (w + t)[..|w|] == w;
    assert (w + t)[|w|..] == t;
  }

  /** Splitting the single-space join of words gives the words back. */
  lemma {:induction false} WordsOfJoin(ws: seq<string>)
    requires forall i :: 0 <= i < |ws| ==> IsWord(ws[i])
    ensures Words(Join(ws)) == ws
  {
    if |ws| == 1 {
      WordsOfWord(ws[0], "");
      assert ws[0] + "" == ws[0];
    } else if |ws| > 1 {
      var rest := Join(ws[1..]);
      WordsOfJoin(ws[1..]);
      WordsOfWord(ws[0], " " + rest);
      assert (" " + rest)[1..] == rest;
      assert ws[0] + " " + rest == ws[0] + (" " + rest);
      assert [ws[0]] + ws[1..] == ws;
    }
  }

  /** The single-space join of words starts and ends with a non-whitespace character. */
  lemma {:induction false} JoinOfWordsIsTrimmed(ws: seq<string>)
    requires forall i :: 0 <= i < |ws| ==> IsWord(ws[i])
    ensures IsTrimmed(Join(ws))
    ensures |ws| > 0 ==> |Join(ws)| > 0
  {
    if |ws| > 1 {
      JoinOfWordsIsTrimmed(ws[1..]);
    }
  }

  // ---------------------------------------------------------------- integers

  predicate IsDigit(c: char) {
    '0' <= c <= '9'
  }

  predicate AllDigits(s: string) {
    forall i :: 0 <= i < |s| ==> IsDigit(s[i])
  }

  /** The decimal digits of `n`, most significant first, without leading zeros. */
  function Digits(n: nat): (s: string)
    ensures |s| > 0 && AllDigits(s)
    decreases n
  {
    if n < 10 then [('0' as int + n) as char]
    else Digits(n / 10) + [('0' as int + n % 10) as char]
  }

  /** The number a string of decimal digits denotes ("" denotes 0). */
  function DigitsValue(s: string): nat
    requires AllDigits(s)
  {
    if |s| == 0 then 0
    else DigitsValue(s[..|s| - 1]) * 10 + (s[|s| - 1] as int - '0' as int)
  }

  /** `i64::to_string`: an optional minus sign followed by the decimal digits. */
  function RenderInt(n: int): (s: string)
    ensures IsWord(s)
  {
    if n < 0 then "-" + Digits(-n) else Digits(n)
  }

  /**
    `str::parse::<i64>`: an optional `+` or `-`, then at least one decimal
    digit; the value must fit in an i64. Whitespace is never accepted, so
    the conversion engine trims before it parses.
  */
  function ParseInt(s: string): (r: Option<i64>)
    ensures r.Some? ==> |s| > 0 && !IsWhitespace(s[0]) && !IsWhitespace(s[|s| - 1])
  {
    if |s| == 0 then None
    else if (s[0] == '+' || s[0] == '-') && |s| == 1 then None
    else
      var digits := if s[0] == '+' || s[0] == '-' then s[1..] else s;
      if !AllDigits(digits) then None
      else
        var n: int := if s[0] == '-' then -(DigitsValue(digits) as int) else DigitsValue(digits);
        if MinI64 <= n <= MaxI64 then Some(n) else None
  }

  lemma {:induction false} DigitsValueOfDigits(n: nat)
    ensures DigitsValue(Digits(n)) == n
    decreases n
  {
    if n >= 10 {
      var s := Digits(n);
      DigitsValueOfDigits(n / 10);
      assert s[..|s| - 1] == Digits(n / 10);
    }
  }

  lemma ParseNegativeDigits(m: nat)
    requires 0 < m <= -MinI64
    ensures ParseInt("-" + Digits(m)) == Some(-(m as int))
  {
    var s := "-" + Digits(m);
    assert s[0] == '-' && |s| > 1;
    assert s[1..] == Digits(m);
    DigitsValueOfDigits(m);
  }

  lemma ParseDigits(n: nat)
    requires n <= MaxI64
    ensures ParseInt(Digits(n)) == Some(n)
  {
    var s := Digits(n);
    assert IsDigit(s[0]);
    DigitsValueOfDigits(n);
  }

  /** Parsing the rendering of an i64 gives the same i64 back. */
  lemma ParseRenderInt(n: i64)
    ensures ParseInt(RenderInt(n)) == Some(n)
  {
    if n < 0 {
      ParseNegativeDigits(-(n as int));
    } else {
      ParseDigits(n);
    }
  }
}
