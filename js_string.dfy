/** The JavaScript string and number primitives that the chatbot code relies on:
    the `\s` character class, `includes`, `trim`, `toLowerCase`, template-literal
    rendering of integers, `join`, `split(/\s+/)` and `parseInt(_, 10)`.
    Strings are sequences of Unicode scalar values. */
module JsString {

  /** ECMAScript LineTerminator: the characters that `.` in a regular expression does not match. */
  predicate IsLineTerminator(c: char) {
    c == '\n' || c == '\r' || c == '\U{2028}' || c == '\U{2029}'
  }

  /** ECMAScript WhiteSpace or LineTerminator: the `\s` class, and what `trim` removes. */
  predicate IsWhiteSpace(c: char) {
    || IsLineTerminator(c)
    || c == '\t' || c == '\U{000B}' || c == '\U{000C}' || c == ' '
    || c == '\U{00A0}' || c == '\U{1680}' || ('\U{2000}' <= c <= '\U{200A}')
    || c == '\U{202F}' || c == '\U{205F}' || c == '\U{3000}' || c == '\U{FEFF}'
  }

  /** `\d`: ASCII decimal digits only. */
  predicate IsDigit(c: char) {
    '0' <= c <= '9'
  }

  /** `s.includes(t)`. */
  predicate Includes(s: string, t: string) {
    exists k | 0 <= k <= |s| :: t <= s[k..]
  }

  /** Every string includes itself and the empty string. */
  lemma IncludesSelfAndEmpty(s: string)
    ensures Includes(s, s) && Includes(s, "")
  {
    assert s <= s[0..];
    assert "" <= s[0..];
  }

  /** A string includes anything that a piece of it includes. */
  lemma IncludesTransitive(s: string, mid: string, t: string)
    requires Includes(s, mid) && Includes(mid, t)
    ensures Includes(s, t)
  {
    var i :| 0 <= i <= |s| && mid <= s[i..];
    var j :| 0 <= j <= |mid| && t <= mid[j..];
    assert t <= s[i + j..] by {
      forall n | 0 <= n < |t| ensures t[n] == s[i + j..][n] {
        assert t[n] == mid[j + n];
      }
    }
  }

  /** A concatenation includes each of its parts. */
  lemma IncludesInConcat(a: string, t: string, b: string)
    ensures Includes(a + t + b, t)
  {
    assert t <= (a + t + b)[|a|..];
  }

  /** Number of consecutive `\s` characters of `s` from index `i`. */
  function WhiteSpaceRun(s: string, i: nat): (n: nat)
    requires i <= |s|
    ensures i + n <= |s|
    ensures i + n == |s| || !IsWhiteSpace(s[i + n])
    decreases |s| - i
  {
    if i < |s| && IsWhiteSpace(s[i]) then 1 + WhiteSpaceRun(s, i + 1) else 0
  }

  /** Every character of the run is white space. */
  lemma {:induction false} WhiteSpaceRunAll(s: string, i: nat)
    requires i <= |s|
    ensures forall k | i <= k < i + WhiteSpaceRun(s, i) :: IsWhiteSpace(s[k])
    decreases |s| - i
  {
    if i < |s| && IsWhiteSpace(s[i]) {
      WhiteSpaceRunAll(s, i + 1);
    }
  }

  /** Number of consecutive `\d` characters of `s` from index `i`. */
  function DigitRun(s: string, i: nat): (n: nat)
    requires i <= |s|
    ensures i + n <= |s|
    ensures i + n == |s| || !IsDigit(s[i + n])
    decreases |s| - i
  {
    if i < |s| && IsDigit(s[i]) then 1 + DigitRun(s, i + 1) else 0
  }

  /** Every character of the run is a digit. */
  lemma {:induction false} DigitRunAll(s: string, i: nat)
    requires i <= |s|
    ensures forall k | i <= k < i + DigitRun(s, i) :: IsDigit(s[k])
    decreases |s| - i
  {
    if i < |s| && IsDigit(s[i]) {
      DigitRunAll(s, i + 1);
    }
  }

  /** `s.trimStart()`. */
  function TrimStart(s: string): (r: string)
    ensures |r| <= |s|
    ensures r == [] || !IsWhiteSpace(r[0])
  {
    if |s| > 0 && IsWhiteSpace(s[0]) then TrimStart(s[1..]) else s
  }

  /** `trimStart` removes a prefix made of white space only. */
  lemma {:induction false} TrimStartRemovesWhiteSpace(s: string)
    ensures var r := TrimStart(s);
            r == s[|s| - |r|..] && forall k | 0 <= k < |s| - |r| :: IsWhiteSpace(s[k])
  {
    if |s| > 0 && IsWhiteSpace(s[0]) {
      TrimStartRemovesWhiteSpace(s[1..]);
      var r := TrimStart(s);
      assert r == TrimStart(s[1..]);
      forall k | 1 <= k < |s| - |r| ensures IsWhiteSpace(s[k]) {
        assert s[k] == s[1..][k - 1];
      }
    }
  }

  /** `s.trimEnd()`. */
  function TrimEnd(s: string): (r: string)
    ensures |r| <= |s|
    ensures r == [] || !IsWhiteSpace(r[|r| - 1])
  {
    if |s| > 0 && IsWhiteSpace(s[|s| - 1]) then TrimEnd(s[..|s| - 1]) else s
  }

  /** `trimEnd` removes a suffix made of white space only. */
  lemma {:induction false} TrimEndRemovesWhiteSpace(s: string)
    ensures var r := TrimEnd(s);
            r == s[..|r|] && forall k | |r| <= k < |s| :: IsWhiteSpace(s[k])
  {
    if |s| > 0 && IsWhiteSpace(s[|s| - 1]) {
      TrimEndRemovesWhiteSpace(s[..|s| - 1]);
      var r := TrimEnd(s);
      assert r == TrimEnd(s[..|s| - 1]);
      forall k | |r| <= k < |s| - 1 ensures IsWhiteSpace(s[k]) {
        assert s[k] == s[..|s| - 1][k];
      }
    }
  }

  /** `r` is `s[a..b]`, and everything of `s` outside `a..b` is white space. */
  predicate TrimmedSlice(s: string, r: string, a: nat, b: nat)
    requires a <= b <= |s|
  {
    && r == s[a..b]
    && (forall k | 0 <= k < a :: IsWhiteSpace(s[k]))
    && (forall k | b <= k < |s| :: IsWhiteSpace(s[k]))
  }

  /** `s.trim()`: the middle of `s` left once the white space at both ends is removed. */
  function Trim(s: string): (r: string)
    ensures |r| <= |s|
  {
    TrimEnd(TrimStart(s))
  }

  /** What `trim` leaves occurs in `s`, is a slice of `s` with only white space around it, and
      neither starts nor ends with white space. */
  lemma TrimIsSlice(s: string)
    ensures var r := Trim(s);
            && (r == [] || (!IsWhiteSpace(r[0]) && !IsWhiteSpace(r[|r| - 1])))
            && Includes(s, r)
            && exists a, b | 0 <= a <= b <= |s| :: TrimmedSlice(s, r, a, b)
  {
    var t := TrimStart(s);
    var r := TrimEnd(t);
    TrimStartRemovesWhiteSpace(s);
    TrimEndRemovesWhiteSpace(t);
    TrimOfTrimStart(s, t, r);
  }

  /** Trimming the end of what `trimStart` left is a slice of `s` with white space outside it. */
  lemma TrimOfTrimStart(s: string, t: string, r: string)
    requires |t| <= |s| && t == s[|s| - |t|..] && forall k | 0 <= k < |s| - |t| :: IsWhiteSpace(s[k])
    requires |r| <= |t| && r == t[..|r|] && forall k | |r| <= k < |t| :: IsWhiteSpace(t[k])
    ensures Includes(s, r)
    ensures TrimmedSlice(s, r, |s| - |t|, |s| - |t| + |r|)
  {
    var a := |s| - |t|;
    SliceOfSuffix(s, t, r, a);
    PrefixOfSuffixIncluded(s, r, a);
  }

  /** Whatever starts at position `a` of `s` occurs in `s`. */
  lemma PrefixOfSuffixIncluded(s: string, r: string, a: nat)
    requires a <= |s| && r <= s[a..]
    ensures Includes(s, r)
  {
  }

  /** A prefix `r` of the suffix `t == s[a..]` is `s[a..a + |r|]`, and what follows it in `t`
      follows it in `s`. */
  lemma SliceOfSuffix(s: string, t: string, r: string, a: nat)
    requires a <= |s| && t == s[a..] && |r| <= |t| && r == t[..|r|]
    requires forall k | |r| <= k < |t| :: IsWhiteSpace(t[k])
    requires forall k | 0 <= k < a :: IsWhiteSpace(s[k])
    ensures r == s[a..a + |r|]
    ensures TrimmedSlice(s, r, a, a + |r|)
  {
    forall k | a + |r| <= k < |s| ensures IsWhiteSpace(s[k]) {
      assert s[k] == t[k - a];
    }
  }

  /** Trimmed text has nothing left for `trimStart` to remove. */
  lemma TrimStartOfTrimmed(s: string)
    ensures TrimStart(Trim(s)) == Trim(s)
  {
    TrimIsSlice(s);
  }

  /** `toLowerCase` on one character. Only the ASCII and fullwidth Latin capitals are mapped;
      every other character is left as it is. */
  function LowerChar(c: char): char {
    if 'A' <= c <= 'Z' || '\U{FF21}' <= c <= '\U{FF3A}' then (c as int + 32) as char else c
  }

  /** A character is cased when `LowerChar` changes it or produces it. */
  predicate IsCased(c: char) {
    'A' <= c <= 'Z' || 'a' <= c <= 'z' || '\U{FF21}' <= c <= '\U{FF3A}' || '\U{FF41}' <= c <= '\U{FF5A}'
  }

  /** `s.toLowerCase()`, character by character. */
  function ToLower(s: string): (r: string)
    ensures |r| == |s|
    ensures forall k | 0 <= k < |s| :: r[k] == LowerChar(s[k])
  {
    seq(|s|, k requires 0 <= k < |s| => LowerChar(s[k]))
  }

  /** Lower-casing never turns an uncased character into another one, nor any other character into an uncased one. */
  lemma LowerCharUncased(c: char, d: char)
    requires !IsCased(d)
    ensures LowerChar(c) == d <==> c == d
  {
  }

  /** For a needle without cased characters, searching the lower-cased text is the same as
      searching the text itself. */
  lemma {:induction false} IncludesLowerUncased(s: string, t: string)
    requires forall k | 0 <= k < |t| :: !IsCased(t[k])
    ensures Includes(ToLower(s), t) <==> Includes(s, t)
  {
    var ls := ToLower(s);
    if Includes(ls, t) {
      var k :| 0 <= k <= |ls| && t <= ls[k..];
      forall n | 0 <= n < |t| ensures t[n] == s[k..][n] {
        LowerCharUncased(s[k + n], t[n]);
      }
      assert t <= s[k..];
    }
    if Includes(s, t) {
      var k :| 0 <= k <= |s| && t <= s[k..];
      forall n | 0 <= n < |t| ensures t[n] == ls[k..][n] {
        LowerCharUncased(s[k + n], t[n]);
      }
      assert t <= ls[k..];
    }
  }

  /** The decimal digit character for `d`. */
  function DigitChar(d: nat): (c: char)
    requires d < 10
    ensures IsDigit(c) && c as int - '0' as int == d
  {
    ('0' as int + d) as char
  }

  /** The decimal rendering of a non-negative integer, as a template literal produces it. */
  function NatToString(n: nat): (r: string)
    ensures |r| >= 1 && forall k | 0 <= k < |r| :: IsDigit(r[k])
    ensures |r| > 1 ==> r[0] != '0'
    decreases n
  {
    if n < 10 then [DigitChar(n)] else NatToString(n / 10) + [DigitChar(n % 10)]
  }

  /** The value of a string of decimal digits. */
  function DigitsValue(s: string): nat
    requires forall k | 0 <= k < |s| :: IsDigit(s[k])
  {
    if s == [] then 0
    else
      var last := s[|s| - 1];
      assert IsDigit(last);
      DigitsValue(s[..|s| - 1]) * 10 + (last as int - '0' as int)
  }

  /** Reading back a rendered number gives the number. */
  lemma {:induction false} NatToStringRoundTrip(n: nat)
    ensures DigitsValue(NatToString(n)) == n
    decreases n
  {
    var r := NatToString(n);
    if n >= 10 {
      NatToStringRoundTrip(n / 10);
      assert r[..|r| - 1] == NatToString(n / 10);
    }
  }

  /** Rendering is injective: different numbers give different strings. */
  lemma NatToStringInjective(m: nat, n: nat)
    requires NatToString(m) == NatToString(n)
    ensures m == n
  {
    NatToStringRoundTrip(m);
    NatToStringRoundTrip(n);
  }

  /** The left-to-right concatenation that `text += part` in a loop builds. */
  function Concat(parts: seq<string>): string {
    if parts == [] then "" else Concat(parts[..|parts| - 1]) + parts[|parts| - 1]
  }

  /** A concatenation is empty exactly when every part is. */
  lemma {:induction false} ConcatEmpty(parts: seq<string>)
    ensures Concat(parts) == "" <==> forall k | 0 <= k < |parts| :: parts[k] == ""
  {
    if parts != [] {
      ConcatEmpty(parts[..|parts| - 1]);
      var init := parts[..|parts| - 1];
      assert forall k | 0 <= k < |init| :: init[k] == parts[k];
    }
  }

  /** `parts.join(sep)`. */
  function Join(parts: seq<string>, sep: string): string {
    if parts == [] then "" else if |parts| == 1 then parts[0] else parts[0] + sep + Join(parts[1..], sep)
  }

  /** Every part occurs in the joined text. */
  lemma {:induction false} JoinIncludesParts(parts: seq<string>, sep: string, k: nat)
    requires k < |parts|
    ensures Includes(Join(parts, sep), parts[k])
  {
    if |parts| == 1 {
      IncludesInConcat([], parts[0], []);
      assert [] + parts[0] + [] == parts[0];
    } else if k == 0 {
      IncludesInConcat([], parts[0], sep + Join(parts[1..], sep));
      assert [] + parts[0] + (sep + Join(parts[1..], sep)) == Join(parts, sep);
    } else {
      JoinIncludesParts(parts[1..], sep, k - 1);
      IncludesInConcat(parts[0] + sep, Join(parts[1..], sep), []);
      assert parts[0] + sep + Join(parts[1..], sep) + [] == Join(parts, sep);
      IncludesTransitive(Join(parts, sep), Join(parts[1..], sep), parts[k]);
    }
  }

  /** Index of the first `\s` character of `s` at or after `i`, or `|s|` when there is none. */
  function FirstWhiteSpace(s: string, i: nat): (j: nat)
    requires i <= |s|
    ensures i <= j <= |s|
    ensures j < |s| ==> IsWhiteSpace(s[j])
    decreases |s| - i
  {
    if i == |s| || IsWhiteSpace(s[i]) then i else FirstWhiteSpace(s, i + 1)
  }

  /** No `\s` comes before the one `FirstWhiteSpace` finds. */
  lemma {:induction false} FirstWhiteSpaceAll(s: string, i: nat)
    requires i <= |s|
    ensures forall k | i <= k < FirstWhiteSpace(s, i) :: !IsWhiteSpace(s[k])
    decreases |s| - i
  {
    if i < |s| && !IsWhiteSpace(s[i]) {
      FirstWhiteSpaceAll(s, i + 1);
    }
  }

  /** A non-empty run of `\s` characters. */
  predicate IsWhiteSpaceRun(w: string) {
    w != [] && forall k | 0 <= k < |w| :: IsWhiteSpace(w[k])
  }

  /** `pieces[0] + runs[0] + pieces[1] + … + runs[n-1] + pieces[n]`. */
  function Interleave(pieces: seq<string>, runs: seq<string>): string
    requires |pieces| == |runs| + 1
    decreases |runs|
  {
    if runs == [] then pieces[0] else pieces[0] + runs[0] + Interleave(pieces[1..], runs[1..])
  }

  /** `runs` are non-empty runs of `\s` that, put back between `pieces`, give `s`. */
  predicate Reassembles(s: string, pieces: seq<string>, runs: seq<string>) {
    && |pieces| == |runs| + 1
    && (forall j | 0 <= j < |runs| :: IsWhiteSpaceRun(runs[j]))
    && s == Interleave(pieces, runs)
  }

  /** `s.split(/\s+/)`: the pieces between maximal runs of `\s`; a leading or trailing run
      yields an empty first or last piece, and the empty string yields `[""]`. */
  function SplitOnWhiteSpace(s: string): (pieces: seq<string>)
    ensures |pieces| >= 1
    decreases |s|
  {
    var i := FirstWhiteSpace(s, 0);
    if i == |s| then [s]
    else [s[..i]] + SplitOnWhiteSpace(s[i + WhiteSpaceRun(s, i)..])
  }

  /** `pieces` split `s` on white space: no piece contains white space, putting non-empty runs
      of white space back between the pieces gives `s`, the first piece is everything before
      the first `\s`, and every piece strictly between the first and the last is non-empty. */
  ghost predicate SplitsOnWhiteSpace(s: string, pieces: seq<string>) {
    && |pieces| >= 1
    && (forall p | p in pieces :: forall k | 0 <= k < |p| :: !IsWhiteSpace(p[k]))
    && pieces[0] == s[..FirstWhiteSpace(s, 0)]
    && (forall k | 0 < k < |pieces| - 1 :: pieces[k] != [])
    && (exists runs :: Reassembles(s, pieces, runs))
  }

  /** What `split(/\s+/)` returns splits the text on white space. */
  lemma {:induction false} SplitOnWhiteSpaceSplits(s: string)
    ensures SplitsOnWhiteSpace(s, SplitOnWhiteSpace(s))
    decreases |s|
  {
    var i := FirstWhiteSpace(s, 0);
    if i == |s| {
      FirstWhiteSpaceAll(s, 0);
      assert Reassembles(s, [s], []);
    } else {
      var n := WhiteSpaceRun(s, i);
      var rest := s[i + n..];
      var tail := SplitOnWhiteSpace(rest);
      SplitOnWhiteSpaceSplits(rest);
      SplitStep(s, i, n, rest, tail);
      SplitStepRuns(s, i, n, rest, tail);
    }
  }

  /** One step of the split, for the pieces: the piece before the first run, then the pieces
      of the rest. */
  lemma SplitStep(s: string, i: nat, n: nat, rest: string, tail: seq<string>)
    requires i == FirstWhiteSpace(s, 0) && i < |s| && n == WhiteSpaceRun(s, i) && rest == s[i + n..]
    requires SplitsOnWhiteSpace(rest, tail)
    requires rest == [] ==> |tail| == 1
    ensures var pieces := [s[..i]] + tail;
            && (forall p | p in pieces :: forall k | 0 <= k < |p| :: !IsWhiteSpace(p[k]))
            && (forall k | 0 < k < |pieces| - 1 :: pieces[k] != [])
  {
    var pieces := [s[..i]] + tail;
    FirstWhiteSpaceAll(s, 0);
    assert forall p | p in pieces :: p == s[..i] || p in tail;
    if |tail| > 1 {
      assert rest != [] && rest[0] == s[i + n];
      assert FirstWhiteSpace(rest, 0) > 0;
    }
    forall k | 0 < k < |pieces| - 1 ensures pieces[k] != [] {
      assert pieces[k] == tail[k - 1];
    }
  }

  /** One step of the split, for the runs: the run at the first white space goes in front of
      the runs of the rest. */
  lemma SplitStepRuns(s: string, i: nat, n: nat, rest: string, tail: seq<string>)
    requires i == FirstWhiteSpace(s, 0) && i < |s| && n == WhiteSpaceRun(s, i) && rest == s[i + n..]
    requires exists runs :: Reassembles(rest, tail, runs)
    ensures exists runs :: Reassembles(s, [s[..i]] + tail, runs)
  {
    var runs' :| Reassembles(rest, tail, runs');
    var w := s[i..i + n];
    WhiteSpaceRunAll(s, i);
    InterleaveCons(s[..i], w, tail, runs');
    SplitThree(s, i, i + n);
    var runs := [w] + runs';
    forall j | 0 <= j < |runs| ensures IsWhiteSpaceRun(runs[j]) {
      if j > 0 { assert runs[j] == runs'[j - 1]; }
    }
    assert Reassembles(s, [s[..i]] + tail, runs);
  }

  /** Interleaving after one more piece and run. */
  lemma InterleaveCons(p: string, w: string, pieces: seq<string>, runs: seq<string>)
    requires |pieces| == |runs| + 1
    ensures Interleave([p] + pieces, [w] + runs) == p + w + Interleave(pieces, runs)
  {
    assert ([p] + pieces)[1..] == pieces && ([w] + runs)[1..] == runs;
  }

  /** A string is its three slices at `i <= j`. */
  lemma SplitThree(s: string, i: nat, j: nat)
    requires i <= j <= |s|
    ensures s == s[..i] + s[i..j] + s[j..]
  {
  }

  /** A string that starts with `\s` splits into an empty first piece. */
  lemma SplitLeadingWhiteSpace(s: string)
    requires |s| > 0 && IsWhiteSpace(s[0])
    ensures "" in SplitOnWhiteSpace(s)
  {
    SplitOnWhiteSpaceSplits(s);
    assert SplitOnWhiteSpace(s)[0] == "";
  }

  /** A string that ends with `\s` splits into an empty last piece. */
  lemma SplitTrailingWhiteSpace(s: string)
    requires |s| > 0 && IsWhiteSpace(s[|s| - 1])
    ensures var pieces := SplitOnWhiteSpace(s); pieces[|pieces| - 1] == "" && "" in pieces
  {
    SplitOnWhiteSpaceSplits(s);
    var pieces := SplitOnWhiteSpace(s);
    var runs :| Reassembles(s, pieces, runs);
    var last := pieces[|pieces| - 1];
    InterleaveEndsWithLast(pieces, runs);
    SuffixEndsLikeText(s, last);
  }

  /** A non-empty suffix of `s` ends with the last character of `s`. */
  lemma SuffixEndsLikeText(s: string, t: string)
    requires |t| <= |s| && s[|s| - |t|..] == t && |s| > 0 && IsWhiteSpace(s[|s| - 1])
    ensures t == [] || IsWhiteSpace(t[|t| - 1])
  {
    assert t != [] ==> t[|t| - 1] == s[|s| - 1];
  }

  /** The interleaving ends with the last piece. */
  lemma {:induction false} InterleaveEndsWithLast(pieces: seq<string>, runs: seq<string>)
    requires |pieces| == |runs| + 1
    ensures var r, last := Interleave(pieces, runs), pieces[|pieces| - 1];
            |last| <= |r| && r[|r| - |last|..] == last
    decreases |runs|
  {
    if runs != [] {
      InterleaveEndsWithLast(pieces[1..], runs[1..]);
      var rest := Interleave(pieces[1..], runs[1..]);
      var head := pieces[0] + runs[0];
      assert Interleave(pieces, runs) == head + rest;
      assert (head + rest)[|head| + |rest| - |pieces[|pieces| - 1]|..] == rest[|rest| - |pieces[|pieces| - 1]|..];
    }
  }

  /** The result of `parseInt`: a number or NaN. The model's numbers are exact integers; `-0` is
      read as `0`. */
  datatype NumberValue = NaN | Num(value: int)

  /** Number of leading decimal digits of `s`. */
  function LeadingDigits(s: string): (n: nat)
    ensures n <= |s|
    ensures forall k | 0 <= k < n :: IsDigit(s[k])
    ensures n == |s| || !IsDigit(s[n])
  {
    DigitRunAll(s, 0);
    DigitRun(s, 0)
  }

  /** The digits at the start of `body` read as a number, or NaN when there are none. */
  function ParseDigits(body: string): NumberValue {
    var n := LeadingDigits(body);
    if n == 0 then NaN else Num(DigitsValue(body[..n]))
  }

  /** Unary minus; NaN stays NaN. */
  function Negate(v: NumberValue): NumberValue {
    if v.NaN? then NaN else Num(-v.value)
  }

  /** `parseInt` once leading white space is gone: one optional sign, then the digits. */
  function ParseSigned(t: string): NumberValue {
    if |t| > 0 && t[0] == '-' then Negate(ParseDigits(t[1..]))
    else if |t| > 0 && t[0] == '+' then ParseDigits(t[1..])
    else ParseDigits(t)
  }

  /** `parseInt(s, 10)` as section 19.2.5 of ECMAScript 2023 defines it: leading white space is
      skipped, one optional sign is read, and the longest run of decimal digits that follows is
      the value; without such digits the result is NaN. */
  function ParseInt(s: string): NumberValue {
    ParseSigned(TrimStart(s))
  }

  /** `trimStart` removes exactly a white-space prefix in front of a non-white-space character. */
  lemma {:induction false} TrimStartSkips(ws: string, t: string)
    requires forall k | 0 <= k < |ws| :: IsWhiteSpace(ws[k])
    requires t == [] || !IsWhiteSpace(t[0])
    ensures TrimStart(ws + t) == t
    decreases |ws|
  {
    if ws != [] {
      assert (ws + t)[0] == ws[0];
      assert (ws + t)[1..] == ws[1..] + t;
      TrimStartSkips(ws[1..], t);
    } else {
      assert ws + t == t;
    }
  }

  /** A run of exactly `n` digits from `i`, ended by a non-digit or the end, is what `DigitRun`
      measures. */
  lemma {:induction false} DigitRunExact(s: string, i: nat, n: nat)
    requires i + n <= |s|
    requires forall k | i <= k < i + n :: IsDigit(s[k])
    requires i + n == |s| || !IsDigit(s[i + n])
    ensures DigitRun(s, i) == n
    decreases n
  {
    if n > 0 {
      DigitRunExact(s, i + 1, n - 1);
    }
  }

  /** The digits of a rendered number followed by a non-digit read back as that number. */
  lemma ParseDigitsNumeral(n: nat, rest: string)
    requires rest == [] || !IsDigit(rest[0])
    ensures ParseDigits(NatToString(n) + rest) == Num(n)
  {
    var d, s := NatToString(n), NatToString(n) + rest;
    assert forall k | 0 <= k < |d| :: s[k] == d[k];
    DigitRunExact(s, 0, |d|);
    assert s[..|d|] == d;
    NatToStringRoundTrip(n);
  }

  /** After the white space: an optional sign and a rendered number followed by a non-digit. */
  lemma ParseSignedNumeral(sign: string, n: nat, rest: string)
    requires sign in {"", "+", "-"}
    requires rest == [] || !IsDigit(rest[0])
    ensures ParseSigned(sign + (NatToString(n) + rest)) == Num(if sign == "-" then -(n as int) else n)
  {
    var u := NatToString(n) + rest;
    var t := sign + u;
    ParseDigitsNumeral(n, rest);
    assert u[0] == NatToString(n)[0];
    if sign != "" {
      assert t[0] == sign[0] && t[1..] == u;
    } else {
      assert t == u;
    }
  }

  /** `parseInt` on white space, an optional sign, a rendered number and a tail that does not
      start with a digit reads back the signed number. */
  lemma ParseIntNumeral(ws: string, sign: string, n: nat, rest: string)
    requires forall k | 0 <= k < |ws| :: IsWhiteSpace(ws[k])
    requires sign in {"", "+", "-"}
    requires rest == [] || !IsDigit(rest[0])
    ensures ParseInt(ws + (sign + (NatToString(n) + rest))) == Num(if sign == "-" then -(n as int) else n)
  {
    var u := NatToString(n) + rest;
    assert u[0] == NatToString(n)[0];
    assert (sign + u)[0] == (if sign == "" then u[0] else sign[0]);
    TrimStartSkips(ws, sign + u);
    ParseSignedNumeral(sign, n, rest);
  }

  /** After the white space: without a digit after the optional sign, the result is NaN. */
  lemma ParseSignedWithoutDigits(sign: string, rest: string)
    requires sign in {"", "+", "-"}
    requires rest == [] || (!IsDigit(rest[0]) && (sign == "" ==> rest[0] != '+' && rest[0] != '-'))
    ensures ParseSigned(sign + rest) == NaN
  {
    assert LeadingDigits(rest) == 0;
    if sign != "" {
      assert (sign + rest)[0] == sign[0] && (sign + rest)[1..] == rest;
    } else {
      assert sign + rest == rest;
    }
  }

  /** Without a digit after the optional sign, `parseInt` gives NaN. */
  lemma ParseIntWithoutDigits(ws: string, sign: string, rest: string)
    requires forall k | 0 <= k < |ws| :: IsWhiteSpace(ws[k])
    requires sign in {"", "+", "-"}
    requires rest == [] || (!IsDigit(rest[0]) && (sign == "" ==> !IsWhiteSpace(rest[0]) && rest[0] != '+' && rest[0] != '-'))
    ensures ParseInt(ws + (sign + rest)) == NaN
  {
    if sign + rest != [] {
      assert (sign + rest)[0] == (if sign == "" then rest[0] else sign[0]);
    }
    TrimStartSkips(ws, sign + rest);
    ParseSignedWithoutDigits(sign, rest);
  }
}
