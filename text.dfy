/**
 * String helpers with the semantics of the Rust standard library calls the bot makes:
 * `char::is_whitespace`, `trim`, `split_whitespace`, `strip_prefix`/`strip_suffix`,
 * `replace`, `join`, `format!("{}", n)` on integers and `str::parse` for `i64`, `u32`, `u64`.
 */
module Text {
  import opened Wrappers

  /** Rust's `char::is_whitespace`: the Unicode White_Space property. */
  predicate IsWhitespace(c: char) {
    ('\t' <= c <= '\r') || c == ' ' || c == '\U{0085}' || c == '\U{00A0}' || c == '\U{1680}'
    || ('\U{2000}' <= c <= '\U{200A}') || c == '\U{2028}' || c == '\U{2029}'
    || c == '\U{202F}' || c == '\U{205F}' || c == '\U{3000}'
  }

  predicate IsDigit(c: char) {
    '0' <= c <= '9'
  }

  predicate NoWhitespace(s: string) {
    forall k :: 0 <= k < |s| ==> !IsWhitespace(s[k])
  }

  predicate StartsWith(s: string, prefix: string) {
    |prefix| <= |s| && s[..|prefix|] == prefix
  }

  predicate EndsWith(s: string, suffix: string) {
    |suffix| <= |s| && s[|s| - |suffix|..] == suffix
  }

  /** `str::strip_prefix`. */
  function StripPrefix(s: string, prefix: string): (r: Option<string>)
    ensures r.Some? <==> StartsWith(s, prefix)
    ensures r.Some? ==> s == prefix + r.value
  {
    if StartsWith(s, prefix) then
      assert s == s[..|prefix|] + s[|prefix|..];
      Some(s[|prefix|..])
    else None
  }

  /** `str::strip_suffix`. */
  function StripSuffix(s: string, suffix: string): (r: Option<string>)
    ensures r.Some? <==> EndsWith(s, suffix)
    ensures r.Some? ==> s == r.value + suffix
  {
    if EndsWith(s, suffix) then
      assert s == s[..|s| - |suffix|] + s[|s| - |suffix|..];
      Some(s[..|s| - |suffix|])
    else None
  }

  /** The index of the first non-whitespace character at or after `i`, or `|s|`. */
  function SkipWhitespace(s: string, i: nat): (r: nat)
    requires i <= |s|
    ensures i <= r <= |s|
    ensures r == |s| || !IsWhitespace(s[r])
    ensures forall k :: i <= k < r ==> IsWhitespace(s[k])
    decreases |s| - i
  {
    if i < |s| && IsWhitespace(s[i]) then SkipWhitespace(s, i + 1) else i
  }

  /** The index just past the last non-whitespace character in `s[lo..j]`, or `lo`. */
  function SkipWhitespaceBack(s: string, lo: nat, j: nat): (r: nat)
    requires lo <= j <= |s|
    ensures lo <= r <= j
    ensures r == lo || !IsWhitespace(s[r - 1])
    ensures forall k :: r <= k < j ==> IsWhitespace(s[k])
  {
    if lo < j && IsWhitespace(s[j - 1]) then SkipWhitespaceBack(s, lo, j - 1) else j
  }

  /** `str::trim`: drops the leading and the trailing whitespace. */
  function Trim(s: string): string
  {
    var i := SkipWhitespace(s, 0);
    s[i..SkipWhitespaceBack(s, i, |s|)]
  }

  /** Trimming leaves a whitespace-free border: the result is a slice of the input, what was
      cut is whitespace, and the result neither starts nor ends with whitespace. */
  lemma TrimIsSlice(s: string)
    ensures var i := SkipWhitespace(s, 0);
      && i + |Trim(s)| <= |s| && Trim(s) == s[i..i + |Trim(s)|]
      && (forall k :: 0 <= k < i ==> IsWhitespace(s[k]))
      && (forall k :: i + |Trim(s)| <= k < |s| ==> IsWhitespace(s[k]))
    ensures Trim(s) == [] || (!IsWhitespace(Trim(s)[0]) && !IsWhitespace(Trim(s)[|Trim(s)| - 1]))
  {
    var i := SkipWhitespace(s, 0);
    var j := SkipWhitespaceBack(s, i, |s|);
    assert |Trim(s)| == j - i;
    if i < j {
      assert Trim(s)[0] == s[i] && Trim(s)[j - i - 1] == s[j - 1];
    }
  }

  /** Trimming adds no character. */
  lemma TrimKeepsAbsent(s: string, c: char)
    requires c !in s
    ensures c !in Trim(s)
  {
    TrimIsSlice(s);
    var i := SkipWhitespace(s, 0);
    assert forall k :: 0 <= k < |Trim(s)| ==> Trim(s)[k] == s[i + k];
  }

  /** Length of the leading run of non-whitespace characters. */
  function WordLength(s: string): (n: nat)
    ensures n <= |s|
    ensures NoWhitespace(s[..n])
    ensures n == |s| || IsWhitespace(s[n])
  {
    if |s| == 0 || IsWhitespace(s[0]) then 0 else 1 + WordLength(s[1..])
  }

  /** `str::split_whitespace`: the maximal runs of non-whitespace characters, in order. */
  function SplitWhitespace(s: string): (r: seq<string>)
    ensures |r| <= |s|
    ensures forall k :: 0 <= k < |r| ==> r[k] != [] && NoWhitespace(r[k])
    decreases |s|
  {
    if s == [] then []
    else if IsWhitespace(s[0]) then SplitWhitespace(s[1..])
    else
      var n := WordLength(s);
      [s[..n]] + SplitWhitespace(s[n..])
  }

  predicate AllWhitespace(s: string) {
    forall k :: 0 <= k < |s| ==> IsWhitespace(s[k])
  }

  /** Leading whitespace produces no token. */
  lemma {:induction false} SplitSkipsWhitespace(ws: string, rest: string)
    requires AllWhitespace(ws)
    ensures SplitWhitespace(ws + rest) == SplitWhitespace(rest)
  {
    if ws != [] {
      assert (ws + rest)[0] == ws[0];
      assert (ws + rest)[1..] == ws[1..] + rest;
      SplitSkipsWhitespace(ws[1..], rest);
    } else {
      assert ws + rest == rest;
    }
  }

  lemma {:induction false} WordLengthOfWord(w: string, rest: string)
    requires NoWhitespace(w)
    requires rest == [] || IsWhitespace(rest[0])
    ensures WordLength(w + rest) == |w|
  {
    if w != [] {
      assert (w + rest)[1..] == w[1..] + rest;
      WordLengthOfWord(w[1..], rest);
    } else {
      assert w + rest == rest;
    }
  }

  /** A word ended by whitespace or by the end of the text is one token. */
  lemma SplitTakesWord(w: string, rest: string)
    requires w != [] && NoWhitespace(w)
    requires rest == [] || IsWhitespace(rest[0])
    ensures SplitWhitespace(w + rest) == [w] + SplitWhitespace(rest)
  {
    WordLengthOfWord(w, rest);
    assert (w + rest)[..|w|] == w;
    assert (w + rest)[|w|..] == rest;
  }

  lemma AppendAssoc(x: string, y: string, z: string)
    ensures (x + y) + z == x + (y + z)
  {
  }

  /** Two words with any whitespace around and between them split into exactly those words. */
  lemma SplitTwoWords(before: string, a: string, between: string, b: string, after: string)
    requires AllWhitespace(before) && AllWhitespace(between) && AllWhitespace(after) && between != []
    requires a != [] && NoWhitespace(a) && b != [] && NoWhitespace(b)
    ensures SplitWhitespace(before + a + between + b + after) == [a, b]
  {
    var tail := b + after;
    var mid := between + tail;
    var word := a + mid;
    AppendAssoc(before + a + between, b, after);
    AppendAssoc(before + a, between, tail);
    AppendAssoc(before, a, mid);
    SplitSkipsWhitespace(before, word);
    assert mid[0] == between[0];
    SplitTakesWord(a, mid);
    assert SplitWhitespace(word) == [a] + SplitWhitespace(mid);
    SplitSkipsWhitespace(between, tail);
    SplitLastWord(b, after);
    assert SplitWhitespace(mid) == [b];
  }

  lemma SplitLastWord(w: string, ws: string)
    requires w != [] && NoWhitespace(w) && AllWhitespace(ws)
    ensures SplitWhitespace(w + ws) == [w]
  {
    SplitTakesWord(w, ws);
    SplitSkipsWhitespace(ws, []);
    assert ws + [] == ws;
  }

  /** Tokens laid out between whitespace gaps: gap, token, gap, ..., token, gap. */
  function Spread(gaps: seq<string>, tokens: seq<string>): string
    requires |gaps| == |tokens| + 1
    decreases |tokens|
  {
    if tokens == [] then gaps[0] else gaps[0] + tokens[0] + Spread(gaps[1..], tokens[1..])
  }

  /** Gaps of whitespace, the ones between two tokens non-empty. */
  predicate Gaps(gaps: seq<string>)
  {
    && (forall k :: 0 <= k < |gaps| ==> AllWhitespace(gaps[k]))
    && (forall k :: 0 < k < |gaps| - 1 ==> gaps[k] != [])
  }

  predicate Words(tokens: seq<string>)
  {
    forall k :: 0 <= k < |tokens| ==> tokens[k] != [] && NoWhitespace(tokens[k])
  }

  /** The whitespace around and between the tokens of `s`. */
  function GapsOf(s: string): (g: seq<string>)
    ensures |g| == |SplitWhitespace(s)| + 1
    ensures s != [] && IsWhitespace(s[0]) ==> g[0] != []
    decreases |s|
  {
    if s == [] then [[]]
    else if IsWhitespace(s[0]) then
      var g := GapsOf(s[1..]);
      [[s[0]] + g[0]] + g[1..]
    else
      [[]] + GapsOf(s[WordLength(s)..])
  }

  lemma {:induction false} SpreadWiderGap(x: string, gaps: seq<string>, tokens: seq<string>)
    requires |gaps| == |tokens| + 1
    ensures Spread([x + gaps[0]] + gaps[1..], tokens) == x + Spread(gaps, tokens)
  {
    var g := [x + gaps[0]] + gaps[1..];
    assert g[1..] == gaps[1..];
    if tokens != [] {
      AppendAssoc(x, gaps[0], tokens[0]);
      AppendAssoc(x, gaps[0] + tokens[0], Spread(gaps[1..], tokens[1..]));
    }
  }

  /** `split_whitespace` loses only whitespace: `s` is its tokens laid out between gaps of
      whitespace, with at least one whitespace character between two tokens. */
  lemma {:induction false} SplitSpreads(s: string)
    ensures Gaps(GapsOf(s)) && Spread(GapsOf(s), SplitWhitespace(s)) == s
    decreases |s|
  {
    if s != [] && IsWhitespace(s[0]) {
      SplitSpreads(s[1..]);
      SpreadsAfterSpace(s);
    } else if s != [] {
      SplitSpreads(s[WordLength(s)..]);
      SpreadsAfterWord(s);
    }
  }

  lemma SpreadsAfterSpace(s: string)
    requires s != [] && IsWhitespace(s[0])
    requires Gaps(GapsOf(s[1..])) && Spread(GapsOf(s[1..]), SplitWhitespace(s[1..])) == s[1..]
    ensures Gaps(GapsOf(s)) && Spread(GapsOf(s), SplitWhitespace(s)) == s
  {
    var g := GapsOf(s[1..]);
    var tokens := SplitWhitespace(s[1..]);
    assert GapsOf(s) == [[s[0]] + g[0]] + g[1..];
    assert SplitWhitespace(s) == tokens;
    SpreadWiderGap([s[0]], g, tokens);
    assert [s[0]] + s[1..] == s;
    GapsWiden([s[0]], g);
  }

  lemma GapsWiden(x: string, g: seq<string>)
    requires |g| > 0 && AllWhitespace(x) && Gaps(g)
    ensures Gaps([x + g[0]] + g[1..])
  {
    var g2 := [x + g[0]] + g[1..];
    assert forall k :: 0 < k < |g2| ==> g2[k] == g[k];
    var w := x + g[0];
    assert forall k :: 0 <= k < |w| ==> w[k] == if k < |x| then x[k] else g[0][k - |x|];
  }

  lemma SpreadsAfterWord(s: string)
    requires s != [] && !IsWhitespace(s[0])
    requires var n := WordLength(s);
      Gaps(GapsOf(s[n..])) && Spread(GapsOf(s[n..]), SplitWhitespace(s[n..])) == s[n..]
    ensures Gaps(GapsOf(s)) && Spread(GapsOf(s), SplitWhitespace(s)) == s
  {
    var n := WordLength(s);
    var g := GapsOf(s[n..]);
    var tokens := SplitWhitespace(s[n..]);
    GapsAfterWord(s, n, g);
    SplitAtWord(s, n, tokens);
    SpreadJoin(s, n, g, tokens);
  }

  lemma SpreadJoin(s: string, n: nat, g: seq<string>, tokens: seq<string>)
    requires n <= |s| && |g| == |tokens| + 1 && Spread(g, tokens) == s[n..]
    ensures Spread([[]] + g, [s[..n]] + tokens) == s
  {
    SpreadCons([], s[..n], g, tokens);
    assert s == [] + s[..n] + s[n..];
  }

  lemma SplitAtWord(s: string, n: nat, tokens: seq<string>)
    requires s != [] && !IsWhitespace(s[0]) && n == WordLength(s) && tokens == SplitWhitespace(s[n..])
    ensures SplitWhitespace(s) == [s[..n]] + tokens
  {
  }

  lemma SpreadCons(gap: string, token: string, gaps: seq<string>, tokens: seq<string>)
    requires |gaps| == |tokens| + 1
    ensures Spread([gap] + gaps, [token] + tokens) == gap + token + Spread(gaps, tokens)
  {
    assert ([gap] + gaps)[1..] == gaps && ([token] + tokens)[1..] == tokens;
  }

  lemma GapsAfterWord(s: string, n: nat, g: seq<string>)
    requires s != [] && !IsWhitespace(s[0]) && n == WordLength(s) && g == GapsOf(s[n..]) && Gaps(g)
    ensures GapsOf(s) == [[]] + g && Gaps([[]] + g)
  {
    var g2 := [[]] + g;
    if |g| >= 2 {
      assert s[n..] != [] && IsWhitespace(s[n..][0]);
    }
    assert forall k :: 0 < k < |g2| ==> g2[k] == g[k - 1];
  }

  /** Conversely, tokens laid out between gaps of whitespace split back into exactly those
      tokens: together with `SplitSpreads`, the tokens are the maximal non-whitespace runs of
      `s`, in order. */
  lemma {:induction false} SpreadSplits(gaps: seq<string>, tokens: seq<string>)
    requires |gaps| == |tokens| + 1 && Gaps(gaps) && Words(tokens)
    ensures SplitWhitespace(Spread(gaps, tokens)) == tokens
    decreases |tokens|
  {
    if tokens == [] {
      SplitSkipsWhitespace(gaps[0], []);
      assert gaps[0] + [] == gaps[0];
    } else {
      var rest := Spread(gaps[1..], tokens[1..]);
      assert Gaps(gaps[1..]) by {
        assert forall k :: 0 <= k < |gaps| - 1 ==> gaps[1..][k] == gaps[k + 1];
      }
      assert Words(tokens[1..]) by {
        assert forall k :: 0 <= k < |tokens| - 1 ==> tokens[1..][k] == tokens[k + 1];
      }
      SpreadSplits(gaps[1..], tokens[1..]);
      if tokens[1..] != [] {
        assert gaps[1] != [];
        assert rest[0] == gaps[1][0];
      }
      SplitTakesWord(tokens[0], rest);
      AppendAssoc(gaps[0], tokens[0], rest);
      SplitSkipsWhitespace(gaps[0], tokens[0] + rest);
      assert tokens == [tokens[0]] + tokens[1..];
    }
  }

  /** `[T]::join` on strings. */
  function Join(sep: string, parts: seq<string>): string
  {
    if |parts| == 0 then ""
    else if |parts| == 1 then parts[0]
    else parts[0] + sep + Join(sep, parts[1..])
  }

  /** `str::replace(pattern, replacement)`: left to right, non-overlapping occurrences. */
  function ReplaceAll(s: string, pattern: string, replacement: string): string
    requires pattern != []
    decreases |s|
  {
    if |s| < |pattern| then s
    else if s[..|pattern|] == pattern then replacement + ReplaceAll(s[|pattern|..], pattern, replacement)
    else [s[0]] + ReplaceAll(s[1..], pattern, replacement)
  }

  /** `str::replace(char, replacement)`. */
  function ReplaceChar(s: string, c: char, replacement: string): (r: string)
    ensures c !in replacement ==> c !in r
  {
    if s == [] then ""
    else (if s[0] == c then replacement else [s[0]]) + ReplaceChar(s[1..], c, replacement)
  }

  /** Replacing a character brings in no character that neither the text nor the replacement
      holds. */
  lemma {:induction false} ReplaceCharKeepsAbsent(s: string, c: char, replacement: string, d: char)
    requires d !in s && d !in replacement
    ensures d !in ReplaceChar(s, c, replacement)
  {
    if s != [] {
      ReplaceCharKeepsAbsent(s[1..], c, replacement, d);
    }
  }

  /** Replacing a character by one character keeps the length and changes exactly the
      occurrences of that character. */
  lemma {:induction false} ReplaceCharPointwise(s: string, c: char, d: char)
    ensures |ReplaceChar(s, c, [d])| == |s|
    ensures forall k :: 0 <= k < |s| ==> ReplaceChar(s, c, [d])[k] == (if s[k] == c then d else s[k])
  {
    if s != [] {
      ReplaceCharPointwise(s[1..], c, d);
      assert ReplaceChar(s, c, [d]) == [if s[0] == c then d else s[0]] + ReplaceChar(s[1..], c, [d]);
    }
  }

  /** A string without `c` is unchanged by replacing `c`. */
  lemma {:induction false} ReplaceCharAbsent(s: string, c: char, replacement: string)
    requires c !in s
    ensures ReplaceChar(s, c, replacement) == s
  {
    if s != [] {
      ReplaceCharAbsent(s[1..], c, replacement);
    }
  }

  /** `pattern` occurs in `s` at position `i`. */
  predicate OccursAt(s: string, pattern: string, i: int)
  {
    0 <= i && i + |pattern| <= |s| && s[i..i + |pattern|] == pattern
  }

  /** `pattern` occurs nowhere in `s`. */
  ghost predicate Lacks(s: string, pattern: string)
  {
    forall i :: !OccursAt(s, pattern, i)
  }

  /** A string in which `pattern` does not occur is unchanged by replacing it. */
  lemma {:induction false} ReplaceAllAbsent(s: string, pattern: string, replacement: string)
    requires pattern != [] && Lacks(s, pattern)
    ensures ReplaceAll(s, pattern, replacement) == s
    decreases |s|
  {
    if |s| >= |pattern| {
      assert !OccursAt(s, pattern, 0);
      assert Lacks(s[1..], pattern) by {
        forall i
          ensures !OccursAt(s[1..], pattern, i)
        {
          assert !OccursAt(s, pattern, i + 1);
          if 0 <= i && i + |pattern| <= |s[1..]| {
            assert s[1..][i..i + |pattern|] == s[i + 1..i + 1 + |pattern|];
          }
        }
      }
      ReplaceAllAbsent(s[1..], pattern, replacement);
      assert [s[0]] + s[1..] == s;
    }
  }

  /** A string with no whitespace at either end is its own trim. */
  lemma TrimmedIsFixpoint(s: string)
    requires s == [] || (!IsWhitespace(s[0]) && !IsWhitespace(s[|s| - 1]))
    ensures Trim(s) == s
  {
  }

  /** ASCII lower-casing of one character. */
  function LowerAscii(c: char): char
  {
    if 'A' <= c <= 'Z' then (c as int + 32) as char else c
  }

  // ---------------------------------------------------------------------------------------
  // Integers as text.

  function DigitChar(d: nat): char
    requires d < 10
  {
    ('0' as int + d) as char
  }

  function DigitValue(c: char): nat
    requires IsDigit(c)
  {
    c as int - '0' as int
  }

  /** `format!("{}", n)` for a non-negative integer: shortest decimal form. */
  function NatToString(n: nat): (r: string)
    ensures |r| > 0 && forall k :: 0 <= k < |r| ==> IsDigit(r[k])
    ensures |r| > 1 ==> r[0] != '0'
  {
    if n < 10 then [DigitChar(n)] else NatToString(n / 10) + [DigitChar(n % 10)]
  }

  /** `format!("{}", i)` for any integer. */
  function IntToString(i: int): string
  {
    if i < 0 then "-" + NatToString(-i) else NatToString(i)
  }

  predicate IsDigits(s: string) {
    |s| > 0 && forall k :: 0 <= k < |s| ==> IsDigit(s[k])
  }

  /** Decimal value of a string of ASCII digits (leading zeros allowed). */
  function DigitsValue(s: string): nat
    requires forall k :: 0 <= k < |s| ==> IsDigit(s[k])
  {
    if s == [] then 0 else 10 * DigitsValue(s[..|s| - 1]) + DigitValue(s[|s| - 1])
  }

  /** Reading back the decimal form of a number gives the number. */
  lemma {:induction false} DigitsValueOfNatToString(n: nat)
    ensures DigitsValue(NatToString(n)) == n
  {
    if n >= 10 {
      DigitsValueOfNatToString(n / 10);
      var s := NatToString(n);
      assert s[..|s| - 1] == NatToString(n / 10);
    }
  }

  /** Integer division rounding toward zero, as Rust's `/` on integers and chrono's
      `num_days`/`num_hours`/`num_minutes` do (Dafny's own `/` is Euclidean). */
  function TruncDiv(a: int, b: int): int
    requires b > 0
  {
    if a >= 0 then a / b else -((-a) / b)
  }

  const I64Min: int := -0x8000_0000_0000_0000
  const I64Max: int := 0x7FFF_FFFF_FFFF_FFFF
  const U32Max: int := 0xFFFF_FFFF
  const U64Max: int := 0xFFFF_FFFF_FFFF_FFFF

  /** A 64-bit signed integer, as serde_json's `as_i64` gives it. */
  type Int64 = i: int | I64Min <= i <= I64Max

  /** The unbounded value of an optional sign followed by at least one ASCII digit. */
  function ParseSigned(s: string): Option<int>
  {
    if |s| > 0 && (s[0] == '-' || s[0] == '+') then
      if IsDigits(s[1..]) then
        var magnitude: int := DigitsValue(s[1..]);
        Some(if s[0] == '-' then -magnitude else magnitude)
      else None
    else if IsDigits(s) then Some(DigitsValue(s))
    else None
  }

  /** `s.parse::<i64>()`: optional sign, ASCII digits, value in the 64-bit signed range. */
  function ParseI64(s: string): (r: Option<int>)
    ensures r.Some? ==> I64Min <= r.value <= I64Max
    ensures s == [] ==> r.None?
  {
    match ParseSigned(s)
    case Some(v) => if I64Min <= v <= I64Max then Some(v) else None
    case None => None
  }

  /** `s.parse::<u32>()` / `s.parse::<u64>()`: optional '+', ASCII digits, value at most `max`. */
  function ParseUnsigned(s: string, max: nat): (r: Option<nat>)
    ensures r.Some? ==> r.value <= max
  {
    var digits := if |s| > 0 && s[0] == '+' then s[1..] else s;
    if IsDigits(digits) && DigitsValue(digits) <= max then Some(DigitsValue(digits)) else None
  }

  /** Every 64-bit integer printed with `{}` parses back to itself. */
  lemma IntToStringRoundTrip(i: int)
    requires I64Min <= i <= I64Max
    ensures ParseI64(IntToString(i)) == Some(i)
  {
    var s := IntToString(i);
    if i < 0 {
      DigitsValueOfNatToString(-i);
      assert s[0] == '-' && s[1..] == NatToString(-i);
      assert IsDigits(s[1..]);
      assert ParseSigned(s) == Some(i);
    } else {
      DigitsValueOfNatToString(i);
      assert IsDigit(s[0]) && IsDigits(s);
      assert ParseSigned(s) == Some(i);
    }
  }
}
