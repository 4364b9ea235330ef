/** Extraction of `{id, name}` pairs from the free-text answer of the subsidy list agent.
    Three regular expressions are tried in tiers; each is modelled as the ECMAScript matcher
    runs it: scanning start positions from `lastIndex`, greedy `\d+` and `\s*` trying their
    longest run first and backing off, lazy `.+?` trying its shortest run first and growing, and
    `.` refusing line terminators. */
module SubsidyIdExtractor {
  import opened Wrappers
  import opened JsString

  /** One extracted subsidy. */
  datatype SubsidyInfo = SubsidyInfo(id: string, name: string)

  /** A subsidy id: `subsidy_` followed by one or more ASCII digits. */
  predicate WellFormedId(id: string) {
    IdStartsAt(id, 0) && forall k | 8 <= k < |id| :: IsDigit(id[k])
  }

  /** A well-formed id needs no escaping in a form-encoded payload. */
  lemma WellFormedIdIsPlain(id: string)
    requires WellFormedId(id)
    ensures '&' !in id && '=' !in id && '+' !in id && '%' !in id
  {
    forall k | 0 <= k < |id| ensures id[k] != '&' && id[k] != '=' && id[k] != '+' && id[k] != '%' {
    }
  }

  /** The text spells `subsidy_` followed by a digit at position `p`. */
  predicate IdStartsAt(s: string, p: nat) {
    && p + 9 <= |s|
    && s[p] == 's' && s[p + 1] == 'u' && s[p + 2] == 'b' && s[p + 3] == 's'
    && s[p + 4] == 'i' && s[p + 5] == 'd' && s[p + 6] == 'y' && s[p + 7] == '_'
    && IsDigit(s[p + 8])
  }

  /** `subsidy_\d+` matches `s[i..i + m]` with its digit run taken whole: the text there is a
      well-formed id and the next character, if any, is not a digit. */
  predicate IdAt(s: string, i: nat, m: nat) {
    i + m <= |s| && WellFormedId(s[i..i + m]) && (i + m == |s| || !IsDigit(s[i + m]))
  }

  /** Length of the match of `subsidy_\d+` at `i` (the prefix and the longest digit run), or 0
      when there is none. */
  function IdLength(s: string, i: nat): (n: nat)
    requires i <= |s|
    ensures n > 0 <==> IdStartsAt(s, i)
    ensures n > 0 ==> 8 < n && i + n <= |s|
    ensures n > 0 ==> i + n == |s| || !IsDigit(s[i + n])
  {
    if IdStartsAt(s, i) then 8 + DigitRun(s, i + 8) else 0
  }

  /** The text `IdLength` measures is a well-formed id. */
  lemma IdLengthWellFormed(s: string, i: nat)
    requires i <= |s| && IdLength(s, i) > 0
    ensures WellFormedId(s[i..i + IdLength(s, i)])
  {
    var n := IdLength(s, i);
    var id := s[i..i + n];
    DigitRunAll(s, i + 8);
    assert forall k | 0 <= k < n :: id[k] == s[i + k];
  }

  /** The id text at an id start is a well-formed id. */
  lemma IdTextWellFormed(s: string, i: nat)
    requires i <= |s| && IdLength(s, i) > 0
    ensures WellFormedId(Substring(s, i, i + IdLength(s, i)))
  {
    IdLengthWellFormed(s, i);
    SubstringIsSlice(s, i, i + IdLength(s, i));
  }

  /** `s[a..b]`, taken one character at a time. Captured text is built with it, so that the
      reasoning about match positions does not unfold it. */
  function Substring(s: string, a: nat, b: nat): (r: string)
    requires a <= b <= |s|
    ensures |r| == b - a
    decreases b - a
  {
    if a == b then [] else [s[a]] + Substring(s, a + 1, b)
  }

  /** `Substring` is the slice. */
  lemma {:induction false} SubstringIsSlice(s: string, a: nat, b: nat)
    requires a <= b <= |s|
    ensures Substring(s, a, b) == s[a..b]
    decreases b - a
  {
    if a < b {
      SubstringIsSlice(s, a + 1, b);
      assert s[a..b] == [s[a]] + s[a + 1..b];
    }
  }

  /** A slice known to be `t` is taken one character at a time as `t`. */
  lemma SubstringIs(s: string, a: nat, b: nat, t: string)
    requires a <= b <= |s| && s[a..b] == t
    ensures Substring(s, a, b) == t
  {
    SubstringIsSlice(s, a, b);
  }

  /** The greedy `\d+` makes `IdLength` the one length at which an id is matched, and 0 exactly
      when none is. */
  lemma IdLengthGreedy(s: string, i: nat)
    requires i <= |s|
    ensures forall m: nat :: IdAt(s, i, m) <==> IdLength(s, i) > 0 && m == IdLength(s, i)
  {
    IdAtStarts(s, i);
    if IdStartsAt(s, i) {
      IdAtGreedy(s, i);
      IdLengthWellFormed(s, i);
    }
  }

  /** A digit run of exactly `d` characters followed by a non-digit is what `DigitRun` finds. */
  lemma DigitRunExact(s: string, j: nat, d: nat)
    requires j + d <= |s| && forall k | j <= k < j + d :: IsDigit(s[k])
    requires j + d == |s| || !IsDigit(s[j + d])
    ensures DigitRun(s, j) == d
    decreases d
  {
    if d > 0 {
      DigitRunExact(s, j + 1, d - 1);
    }
  }

  /** The only id matched at an id start is the one with the longest digit run. */
  lemma IdAtGreedy(s: string, i: nat)
    requires IdStartsAt(s, i)
    ensures forall m: nat :: IdAt(s, i, m) ==> m == 8 + DigitRun(s, i + 8)
  {
    forall m: nat | IdAt(s, i, m) ensures m == 8 + DigitRun(s, i + 8) {
      var id := s[i..i + m];
      forall k | i + 8 <= k < i + m ensures IsDigit(s[k]) {
        assert s[k] == id[k - i];
      }
      DigitRunExact(s, i + 8, m - 8);
    }
  }

  /** An id is matched only where the text spells `subsidy_<digit>`. */
  lemma IdAtStarts(s: string, i: nat)
    ensures forall m: nat :: IdAt(s, i, m) ==> IdStartsAt(s, i)
  {
    forall m: nat | IdAt(s, i, m) ensures IdStartsAt(s, i) {
      var id := s[i..i + m];
      assert forall k | 0 <= k < 9 :: s[i + k] == id[k];
    }
  }

  /** No id starts strictly inside a matched id: `subsidy_` cannot overlap itself, and digits are
      not `s`. */
  lemma IdsDoNotOverlap(s: string, p: nat)
    requires p <= |s| && IdLength(s, p) > 0
    ensures forall q | p < q < p + IdLength(s, p) :: !IdStartsAt(s, q)
  {
    var n := IdLength(s, p);
    var id := s[p..p + n];
    IdLengthWellFormed(s, p);
    forall q | p < q < p + n ensures !IdStartsAt(s, q) {
      if q >= p + 8 {
        assert s[q] == id[q - p];
      } else if q == p + 3 {
        assert s[q + 1] == 'i';
      } else {
        assert q == p + 1 || q == p + 2 || q == p + 4 || q == p + 5 || q == p + 6 || q == p + 7;
      }
    }
  }

  /** A match of one of the patterns: where it starts and ends (`lastIndex` afterwards), where
      its id capture sits, the id, and the untrimmed name capture. */
  datatype RawMatch = RawMatch(start: nat, end: nat, idPos: nat, id: string, name: string)

  /** `m` is a match in `s`: it spans part of `s`, and its id is a well-formed id spelled at
      `m.idPos`. */
  predicate ValidMatch(s: string, m: RawMatch) {
    && m.start < m.end <= |s|
    && IdStartsAt(s, m.idPos) && WellFormedId(m.id)
    && m.idPos + |m.id| <= |s| && m.id == Substring(s, m.idPos, m.idPos + |m.id|)
  }

  /** No line terminator in `s[a..b]`: what `.` may consume. */
  predicate SingleLine(s: string, a: nat, b: nat) {
    a <= b <= |s| && forall k | a <= k < b :: !IsLineTerminator(s[k])
  }

  /** `open(subsidy_\d+)close` spans `s[e..e + m + 2]`. */
  predicate BracketedIdAt(s: string, e: nat, open: char, close: char, m: nat) {
    e + 1 + m < |s| && s[e] == open && WellFormedId(s[e + 1..e + 1 + m]) && s[e + 1 + m] == close
  }

  /** The id length of `open(subsidy_\d+)close` at `e`, or 0. Backing off the greedy `\d+` can
      never help, because the character after a shorter digit run is a digit, not `close`. */
  function BracketedId(s: string, e: nat, open: char, close: char): (n: nat)
    requires e <= |s| && !IsDigit(close)
  {
    if e < |s| && s[e] == open then
      var n := IdLength(s, e + 1);
      if n > 0 && e + 1 + n < |s| && s[e + 1 + n] == close then n else 0
    else 0
  }

  /** The bracketed id is found exactly when there is one, and it is the only one. */
  lemma BracketedIdUnique(s: string, e: nat, open: char, close: char)
    requires e <= |s| && !IsDigit(close)
    ensures BracketedId(s, e, open, close) > 0 ==> IdStartsAt(s, e + 1)
    ensures forall m: nat :: BracketedIdAt(s, e, open, close, m) <==> BracketedId(s, e, open, close) > 0 && m == BracketedId(s, e, open, close)
  {
    if e < |s| {
      IdLengthGreedy(s, e + 1);
      if BracketedId(s, e, open, close) > 0 {
        IdLengthWellFormed(s, e + 1);
      }
      assert forall m: nat | BracketedIdAt(s, e, open, close, m) :: IdAt(s, e + 1, m);
    }
  }

  // ---------------------------------------------------------------------------------------
  // Pattern 1: /(\d+)\.\s*(.+?)（(subsidy_\d+)）/g

  /** `（(subsidy_\d+)）` at `e`: the id length, or 0. */
  function Tail1(s: string, e: nat): nat
    requires e <= |s|
  {
    BracketedId(s, e, '（', '）')
  }

  /** `(.+?)（(subsidy_\d+)）` can match with the name `s[q..e]`. */
  predicate NameTail1(s: string, q: nat, e: nat) {
    q < e && SingleLine(s, q, e) && Tail1(s, e) > 0
  }

  /** The lazy `(.+?)` of pattern 1 started at `q`, having consumed `s[q..e]`: it extends one
      non-line-terminator at a time and stops at the first end where the tail matches. */
  function LazyName1(s: string, q: nat, e: nat): (r: Option<nat>)
    requires q < e <= |s| && SingleLine(s, q, e - 1)
    decreases |s| - e
  {
    if IsLineTerminator(s[e - 1]) then None
    else if Tail1(s, e) > 0 then Some(e)
    else if e == |s| then None
    else LazyName1(s, q, e + 1)
  }

  /** Where the name of pattern 1 started at `q` ends: the shortest name after which the tail
      matches, or `None` when no name does. */
  function NameEnd1(s: string, q: nat): (r: Option<nat>)
    requires q <= |s|
  {
    if q < |s| then LazyName1(s, q, q + 1) else None
  }

  /** The lazy name grows one character at a time from `e` on: it stops at the first end where
      the rest of the pattern matches, and fails only when there is none. */
  lemma {:induction false} LazyName1Shortest(s: string, q: nat, e: nat)
    requires q < e <= |s| && SingleLine(s, q, e - 1)
    ensures var r := LazyName1(s, q, e);
            && (r.Some? ==> e <= r.value && NameTail1(s, q, r.value))
            && (r.Some? ==> forall e' | e <= e' < r.value :: !NameTail1(s, q, e'))
            && (r.None? ==> forall e' | e <= e' :: !NameTail1(s, q, e'))
    decreases |s| - e
  {
    if !IsLineTerminator(s[e - 1]) && !NameTail1(s, q, e) && e < |s| {
      LazyName1Shortest(s, q, e + 1);
    }
  }

  /** The name is the shortest one after which the rest of the pattern matches, and there is
      none exactly when no name does. */
  lemma NameEnd1Shortest(s: string, q: nat)
    requires q <= |s|
    ensures var r := NameEnd1(s, q);
            && (r.Some? ==> NameTail1(s, q, r.value))
            && (r.Some? ==> forall e | q < e < r.value :: !NameTail1(s, q, e))
            && (r.None? <==> forall e: nat :: !NameTail1(s, q, e))
  {
    if q < |s| {
      LazyName1Shortest(s, q, q + 1);
    }
  }

  /** The match of pattern 1 started at `p`, whose name runs over `s[q..e]`. */
  function Match1(s: string, p: nat, q: nat, e: nat): (m: RawMatch)
    requires p < q && NameTail1(s, q, e)
    ensures m.start == p < m.end <= |s|
  {
    var n := Tail1(s, e);
    RawMatch(p, e + n + 2, e + 1, Substring(s, e + 1, e + 1 + n), Substring(s, q, e))
  }

  /** The match is a match in `s`: its id is the well-formed id right after the `（`. */
  lemma Match1Valid(s: string, p: nat, q: nat, e: nat)
    requires p < q && NameTail1(s, q, e)
    ensures ValidMatch(s, Match1(s, p, q, e))
  {
    BracketedIdUnique(s, e, '（', '）');
    IdTextWellFormed(s, e + 1);
  }

  /** The match captures the name `s[q..e]`, a non-empty run without line terminators, and the
      id between the full-width parentheses right after it; it ends after the `）`. */
  lemma Match1Captures(s: string, p: nat, q: nat, e: nat)
    requires p < q && NameTail1(s, q, e)
    ensures var m := Match1(s, p, q, e);
            && ValidMatch(s, m) && m.end == e + |m.id| + 2
            && m.idPos == e + 1 && BracketedIdAt(s, e, '（', '）', |m.id|) && m.name == s[q..e]
            && |m.name| >= 1 && forall k | 0 <= k < |m.name| :: !IsLineTerminator(m.name[k])
  {
    Match1Valid(s, p, q, e);
    BracketedIdUnique(s, e, '（', '）');
    SubstringIsSlice(s, q, e);
    var name := s[q..e];
    assert forall k | 0 <= k < |name| :: name[k] == s[q + k];
  }

  /** `\s*` of pattern 1 having taken `w` white-space characters after `q0`: while the name
      cannot start where the gap ends, the gap gives one character back, so the name starts at
      the last position of `q0..q0 + w` that admits one. */
  function LastNameStart1(s: string, q0: nat, w: nat): (r: Option<nat>)
    requires q0 + w <= |s|
    ensures r.Some? ==> q0 <= r.value <= q0 + w && NameEnd1(s, r.value).Some?
    decreases w
  {
    if NameEnd1(s, q0 + w).Some? then Some(q0 + w)
    else if w == 0 then None
    else LastNameStart1(s, q0, w - 1)
  }

  /** No later start admits a name, and there is none only when no start in `q0..q0 + w`
      admits one. */
  lemma {:induction false} LastNameStart1Last(s: string, q0: nat, w: nat)
    requires q0 + w <= |s|
    ensures var r := LastNameStart1(s, q0, w);
            && (r.Some? ==> forall q | r.value < q <= q0 + w :: NameEnd1(s, q).None?)
            && (r.None? ==> forall q | q0 <= q <= q0 + w :: NameEnd1(s, q).None?)
    decreases w
  {
    if NameEnd1(s, q0 + w).None? && w > 0 {
      LastNameStart1Last(s, q0, w - 1);
    }
  }

  /** After `(\d+)\.` at `p`, `\s*` can stop at `q`. Only the longest `\d+` can be followed by
      `.`. */
  predicate Gap1(s: string, p: nat, q: nat) {
    && p <= |s|
    && var d := DigitRun(s, p);
    && d > 0 && p + d < |s| && s[p + d] == '.' && p + d + 1 <= q <= |s|
    && forall k | p + d + 1 <= k < q :: IsWhiteSpace(s[k])
  }

  /** The gaps after `\d+\.` are exactly the prefixes of its white-space run. */
  lemma Gap1Range(s: string, p: nat, q0: nat, w: nat)
    requires p <= |s| && DigitRun(s, p) > 0 && p + DigitRun(s, p) < |s| && s[p + DigitRun(s, p)] == '.'
    requires q0 == p + DigitRun(s, p) + 1 && w == WhiteSpaceRun(s, q0)
    ensures forall q: nat :: Gap1(s, p, q) <==> q0 <= q <= q0 + w
  {
    WhiteSpaceRunAll(s, q0);
    forall q: nat | Gap1(s, p, q) ensures q <= q0 + w {

    }
  }

  /** Pattern 1 tried at position `p`. */
  function Pattern1At(s: string, p: nat): (r: Option<RawMatch>)
    requires p <= |s|
    ensures r.Some? ==> r.value.start == p < r.value.end <= |s|
  {
    var d := DigitRun(s, p);
    if d > 0 && p + d < |s| && s[p + d] == '.' then
      var q := LastNameStart1(s, p + d + 1, WhiteSpaceRun(s, p + d + 1));
      if q.Some? then NameEnd1Shortest(s, q.value); Some(Match1(s, p, q.value, NameEnd1(s, q.value).value)) else None
    else None
  }

  /** Pattern 1 matches at `p` exactly when some gap after `\d+\.` admits a name; the `\s*` is
      then the longest such gap, and the match carries the shortest name after it and the id
      that follows that name. */
  lemma Pattern1AtSpec(s: string, p: nat)
    requires p <= |s|
    ensures Pattern1At(s, p).None? <==> forall q | Gap1(s, p, q) :: NameEnd1(s, q).None?
    ensures var r := Pattern1At(s, p);
            r.Some? ==> exists q, e | Gap1(s, p, q) && NameEnd1(s, q) == Some(e) && NameTail1(s, q, e) ::
              && r.value == Match1(s, p, q, e)
              && forall q' | q < q' && Gap1(s, p, q') :: NameEnd1(s, q').None?
  {
    Pattern1AtNone(s, p);
    Pattern1AtFound(s, p);
  }

  /** Pattern 1 fails at `p` exactly when no gap after `\d+\.` admits a name. */
  lemma Pattern1AtNone(s: string, p: nat)
    requires p <= |s|
    ensures Pattern1At(s, p).None? <==> forall q | Gap1(s, p, q) :: NameEnd1(s, q).None?
  {
    var d := DigitRun(s, p);
    if d > 0 && p + d < |s| && s[p + d] == '.' {
      var q0, w := p + d + 1, WhiteSpaceRun(s, p + d + 1);
      Gap1Range(s, p, q0, w);
      LastNameStart1Last(s, q0, w);
    }
  }

  /** A match of pattern 1 at `p` is built from the longest gap that admits a name and the
      shortest name after it. */
  lemma Pattern1AtFound(s: string, p: nat)
    requires p <= |s|
    ensures var r := Pattern1At(s, p);
            r.Some? ==> exists q, e | Gap1(s, p, q) && NameEnd1(s, q) == Some(e) && NameTail1(s, q, e) ::
              && r.value == Match1(s, p, q, e)
              && forall q' | q < q' && Gap1(s, p, q') :: NameEnd1(s, q').None?
  {
    var d := DigitRun(s, p);
    if d > 0 && p + d < |s| && s[p + d] == '.' {
      var q0, w := p + d + 1, WhiteSpaceRun(s, p + d + 1);
      Gap1Range(s, p, q0, w);
      LastNameStart1Last(s, q0, w);
      var q := LastNameStart1(s, q0, w);
      if q.Some? {
        NameEnd1Shortest(s, q.value);
        var e := NameEnd1(s, q.value).value;
        assert Pattern1At(s, p) == Some(Match1(s, p, q.value, e));
        assert Gap1(s, p, q.value) && NameTail1(s, q.value, e);
        assert forall q' | q.value < q' && Gap1(s, p, q') :: NameEnd1(s, q').None?;
        assert NameEnd1(s, q.value) == Some(e);
      }
    }
  }

  /** A match of pattern 1 at `p` is a match in `s`: its id is well formed and spelled in `s`. */
  lemma Pattern1AtValid(s: string, p: nat)
    requires p <= |s|
    ensures Pattern1At(s, p).Some? ==> ValidMatch(s, Pattern1At(s, p).value)
  {
    Pattern1AtFound(s, p);
    if Pattern1At(s, p).Some? {
      var q, e :| Gap1(s, p, q) && NameTail1(s, q, e) && Pattern1At(s, p).value == Match1(s, p, q, e);
      Match1Valid(s, p, q, e);
    }
  }

  /** The format the list agent writes for pattern 1: a number and `.` right before a name that
      does not start with white space, has no line terminator and no `（`, followed by `（id）`.
      Tried at the number, pattern 1 matches with exactly that id and that name, and the entry
      pushed for it is the id with the trimmed name. */
  lemma Pattern1AtFormat(s: string, pre: string, number: string, name: string, id: string, post: string)
    requires s == pre + number + ['.'] + name + ['（'] + id + ['）'] + post
    requires number != [] && forall k | 0 <= k < |number| :: IsDigit(number[k])
    requires WellFormedId(id) && name != [] && !IsWhiteSpace(name[0])
    requires forall k | 0 <= k < |name| :: !IsLineTerminator(name[k]) && name[k] != '（'
    ensures var r := Pattern1At(s, |pre|);
            r.Some? && r.value.id == id && r.value.name == name
            && InfoOf(r.value) == SubsidyInfo(id, Trim(name))
  {
    FormatAt1(s, pre, number, name, id, post);
    Pattern1AtLayout(s, |pre|, |number|, name, id);
  }

  /** Where the pieces of `pre + number + . + name + （id） + post` sit in the text. */
  lemma FormatAt1(s: string, pre: string, number: string, name: string, id: string, post: string)
    requires s == pre + number + ['.'] + name + ['（'] + id + ['）'] + post
    requires number != [] && forall k | 0 <= k < |number| :: IsDigit(number[k])
    requires WellFormedId(id) && name != [] && !IsWhiteSpace(name[0])
    requires forall k | 0 <= k < |name| :: !IsLineTerminator(name[k]) && name[k] != '（'
    ensures var p, d := |pre|, |number|;
            var q0, e := p + d + 1, p + d + 1 + |name|;
            && (forall k | p <= k < p + d :: IsDigit(s[k])) && s[p + d] == '.'
            && !IsWhiteSpace(s[q0]) && SingleLine(s, q0, e) && (forall k | q0 <= k < e :: s[k] != '（')
            && BracketedIdAt(s, e, '（', '）', |id|) && s[e + 1..e + 1 + |id|] == id
            && s[q0..e] == name
  {
    var p, d, n := |pre|, |number|, |id|;
    var q0, e := p + d + 1, p + d + 1 + |name|;
    assert forall k | p <= k < p + d :: s[k] == number[k - p];
    assert forall k | q0 <= k < e :: s[k] == name[k - q0];
    assert forall k | e + 1 <= k < e + 1 + n :: s[k] == id[k - e - 1];
    assert s[e + 1..e + 1 + n] == id;
    assert s[q0..e] == name;
  }

  /** Digits `s[p..p + d]` and `.`, then a name that does not start with white space and has no
      line terminator and no `（`, then `（id）`: pattern 1 matches at `p` with that id and that
      name. */
  lemma Pattern1AtLayout(s: string, p: nat, d: nat, name: string, id: string)
    requires var q0 := p + d + 1;
             var e := q0 + |name|;
             && 0 < d && q0 < e <= |s| && (forall k | p <= k < p + d :: IsDigit(s[k])) && s[p + d] == '.'
             && !IsWhiteSpace(s[q0]) && SingleLine(s, q0, e) && (forall k | q0 <= k < e :: s[k] != '（')
             && BracketedIdAt(s, e, '（', '）', |id|) && s[e + 1..e + 1 + |id|] == id
             && s[q0..e] == name
    ensures var r := Pattern1At(s, p);
            r.Some? && r.value.id == id && r.value.name == name
  {
    var n, q0 := |id|, p + d + 1;
    var e := q0 + |name|;
    DigitRunExact(s, p, d);
    BracketedIdUnique(s, e, '（', '）');
    NameEnd1At(s, q0, e);
    assert WhiteSpaceRun(s, q0) == 0;
    Pattern1AtIs(s, p, q0, e);
    Match1Is(s, p, q0, e, id, name);
  }

  /** Pattern 1 at `p` with no white space after `\d+\.` and the name from `q0` ending at `e`. */
  lemma Pattern1AtIs(s: string, p: nat, q0: nat, e: nat)
    requires p <= |s| && DigitRun(s, p) > 0 && p + DigitRun(s, p) < |s| && s[p + DigitRun(s, p)] == '.'
    requires q0 == p + DigitRun(s, p) + 1 && WhiteSpaceRun(s, q0) == 0 && NameEnd1(s, q0) == Some(e)
    requires NameTail1(s, q0, e)
    ensures Pattern1At(s, p) == Some(Match1(s, p, q0, e))
  {
    assert LastNameStart1(s, q0, 0) == Some(q0);
  }

  /** The match whose tail at `e` holds `id` and whose name is `s[q..e]` captures that id and
      that name. */
  lemma Match1Is(s: string, p: nat, q: nat, e: nat, id: string, name: string)
    requires p < q && NameTail1(s, q, e) && Tail1(s, e) == |id|
    requires e + 1 + |id| <= |s| && s[e + 1..e + 1 + |id|] == id && s[q..e] == name
    ensures Match1(s, p, q, e).id == id && Match1(s, p, q, e).name == name
  {
    SubstringIs(s, e + 1, e + 1 + |id|, id);
    SubstringIs(s, q, e, name);
  }

  /** A single-line name from `q` with no `（` before the `（id）` at `e` is the name pattern 1
      takes from `q`. */
  lemma NameEnd1At(s: string, q: nat, e: nat)
    requires q < e <= |s| && SingleLine(s, q, e) && Tail1(s, e) > 0
    requires forall k | q <= k < e :: s[k] != '（'
    ensures NameEnd1(s, q) == Some(e)
  {
    assert NameTail1(s, q, e);
    NameEnd1Shortest(s, q);
    NoOpenBefore(s, q, e, NameEnd1(s, q).value);
  }

  /** No position before `e` of a run without `（` starts a `（id）`. */
  lemma NoOpenBefore(s: string, q: nat, e: nat, e': nat)
    requires q <= e' <= |s| && e <= |s| && forall k | q <= k < e :: s[k] != '（'
    ensures e' < e ==> Tail1(s, e') == 0
  {
  }

  /** `pattern1.exec(s)` with `lastIndex == i`: the match at the first position from `i` on. */
  function Exec1(s: string, i: nat): (r: Option<RawMatch>)
    requires i <= |s|
    ensures r.Some? ==> i <= r.value.start < r.value.end <= |s|
    decreases |s| - i
  {
    var m := Pattern1At(s, i);
    if m.Some? then m else if i == |s| then None else Exec1(s, i + 1)
  }

  /** `exec` reports the match at the leftmost position where the pattern matches. */
  lemma {:induction false} Exec1Leftmost(s: string, i: nat)
    requires i <= |s|
    ensures Exec1(s, i).Some? ==> Pattern1At(s, Exec1(s, i).value.start) == Exec1(s, i)
    ensures Exec1(s, i).Some? ==> forall p | i <= p < Exec1(s, i).value.start :: Pattern1At(s, p).None?
    ensures Exec1(s, i).None? ==> forall p | i <= p <= |s| :: Pattern1At(s, p).None?
    decreases |s| - i
  {
    var at := Table1(s);
    Exec1IsFirstMatch(s, i);
    FirstMatchLeftmost(at, i);
    if Exec1(s, i).Some? {
      var j :| i <= j < |at| && at[j] == Exec1(s, i) && forall p | i <= p < j :: at[p].None?;
      assert at[j] == Pattern1At(s, j);
      forall p | i <= p < j ensures Pattern1At(s, p).None? {
        assert at[p] == Pattern1At(s, p);
      }
    } else {
      forall p | i <= p <= |s| ensures Pattern1At(s, p).None? {
        assert at[p] == Pattern1At(s, p);
      }
    }
  }

  /** Every `exec` result of pattern 1 is a match in `s`. */
  lemma Exec1Valid(s: string)
    ensures forall i | 0 <= i <= |s| :: Exec1(s, i).Some? ==> ValidMatch(s, Exec1(s, i).value)
  {
    forall i | 0 <= i <= |s| ensures Exec1(s, i).Some? ==> ValidMatch(s, Exec1(s, i).value) {
      Exec1Leftmost(s, i);
      if Exec1(s, i).Some? {
        Pattern1AtValid(s, Exec1(s, i).value.start);
      }
    }
  }

  /** Pattern 1 tried at every position `0..|s|`. */
  function Table1(s: string): (at: seq<Option<RawMatch>>)
    ensures |at| == |s| + 1
  {
    seq(|s| + 1, p requires 0 <= p <= |s| => Pattern1At(s, p))
  }

  /** `exec` is the first match in the table of attempts. */
  lemma {:induction false} Exec1IsFirstMatch(s: string, i: nat)
    requires i <= |s|
    ensures Exec1(s, i) == FirstMatch(Table1(s), i)
    decreases |s| - i
  {
    if i < |s| {
      Exec1IsFirstMatch(s, i + 1);
    }
  }

  /** The first entry from `i` on that is a match, in a table of attempts. */
  function FirstMatch(at: seq<Option<RawMatch>>, i: nat): Option<RawMatch>
    requires i < |at|
    decreases |at| - i
  {
    if at[i].Some? then at[i] else if i == |at| - 1 then None else FirstMatch(at, i + 1)
  }

  /** A first match is preceded by failed attempts only, and no match means every attempt
      failed. */
  lemma {:induction false} FirstMatchLeftmost(at: seq<Option<RawMatch>>, i: nat)
    requires i < |at|
    ensures FirstMatch(at, i).Some? ==>
              exists j | i <= j < |at| :: at[j] == FirstMatch(at, i) && forall p | i <= p < j :: at[p].None?
    ensures FirstMatch(at, i).None? ==> forall p | i <= p < |at| :: at[p].None?
    decreases |at| - i
  {
    if at[i].None? && i < |at| - 1 {
      FirstMatchLeftmost(at, i + 1);
      if FirstMatch(at, i).Some? {
        var j :| i + 1 <= j < |at| && at[j] == FirstMatch(at, i + 1) && forall p | i + 1 <= p < j :: at[p].None?;
        assert forall p | i <= p < j :: at[p].None?;
      }
    } else if at[i].Some? {
      assert at[i] == FirstMatch(at, i);
    }
  }

  /** A table of `exec` results on `s`, one per `lastIndex` `0..|s|`: a match found from `j`
      is a match in `s` that starts at `j` or later. */
  predicate ExecTable(s: string, at: seq<Option<RawMatch>>) {
    && |at| == |s| + 1
    && forall j | 0 <= j < |at| :: at[j].Some? ==> j <= at[j].value.start && ValidMatch(s, at[j].value)
  }

  /** The matches a `while ((match = exec()))` loop visits from `lastIndex == i`, given the
      `exec` result for every `lastIndex`. */
  function LoopMatches(s: string, at: seq<Option<RawMatch>>, i: nat): seq<RawMatch>
    requires i < |at| && ExecTable(s, at)
    decreases |at| - i
  {
    match at[i]
    case None => []
    case Some(m) => [m] + LoopMatches(s, at, m.end)
  }

  /** The loop visits the successive `exec` results: the first from `i`, each next one from
      where the previous match ended, and it stops at the first failure. */
  lemma {:induction false} LoopMatchesSuccessive(s: string, at: seq<Option<RawMatch>>, i: nat)
    requires i < |at| && ExecTable(s, at)
    ensures var r := LoopMatches(s, at, i);
            && (forall k | 0 <= k < |r| :: i <= r[k].start && ValidMatch(s, r[k]))
            && (r == [] <==> at[i].None?)
            && (r != [] ==> at[i] == Some(r[0]) && at[r[|r| - 1].end].None?)
            && forall k | 0 <= k < |r| - 1 :: at[r[k].end] == Some(r[k + 1])
    decreases |at| - i
  {
    var r := LoopMatches(s, at, i);
    if r != [] {
      var m := r[0];
      var rest := LoopMatches(s, at, m.end);
      assert r == [m] + rest;
      LoopMatchesSuccessive(s, at, m.end);
      assert forall k | 1 <= k < |r| :: r[k] == rest[k - 1];
    }
  }

  /** Every match of pattern 1 from `lastIndex == i` on, as the `while ((match = exec()))` loop
      visits them: the first `exec` from `i`, then each next `exec` from where the previous
      match ended, until one fails. */
  function AllMatches1(s: string, i: nat): (r: seq<RawMatch>)
    requires i <= |s|
    decreases |s| - i
  {
    match Exec1(s, i)
    case None => []
    case Some(m) => [m] + AllMatches1(s, m.end)
  }

  /** `exec` of pattern 1 from every `lastIndex` `0..|s|`. */
  function ExecTable1(s: string): (at: seq<Option<RawMatch>>)
    ensures ExecTable(s, at)
  {
    Exec1Valid(s);
    seq(|s| + 1, j requires 0 <= j <= |s| => Exec1(s, j))
  }

  /** The recursive definition visits what the loop over the `exec` table visits. */
  lemma {:induction false} AllMatches1IsLoop(s: string, i: nat)
    requires i <= |s|
    ensures AllMatches1(s, i) == LoopMatches(s, ExecTable1(s), i)
    decreases |s| - i
  {
    match Exec1(s, i)
    case None =>
    case Some(m) => AllMatches1IsLoop(s, m.end);
  }

  /** The loop's matches are matches in `s` from `i` on, and exactly the successive `exec`
      results: the first from `i`, each next one from where the previous match ended, and the
      loop stops at the first failure. */
  lemma AllMatches1Successive(s: string, i: nat)
    requires i <= |s|
    ensures var r := AllMatches1(s, i);
            && (forall k | 0 <= k < |r| :: i <= r[k].start && ValidMatch(s, r[k]))
            && (r == [] <==> Exec1(s, i).None?)
            && (r != [] ==> Exec1(s, i) == Some(r[0]) && Exec1(s, r[|r| - 1].end).None?)
            && forall k | 0 <= k < |r| - 1 :: Exec1(s, r[k].end) == Some(r[k + 1])
  {
    AllMatches1Ends(s, i);
    AllMatches1Steps(s, i);
  }

  /** The loop's matches are matches in `s` from `i` on; it starts with the `exec` result from
      `i` and stops where `exec` fails. */
  lemma AllMatches1Ends(s: string, i: nat)
    requires i <= |s|
    ensures var r := AllMatches1(s, i);
            && (forall k | 0 <= k < |r| :: i <= r[k].start && ValidMatch(s, r[k]))
            && (r == [] <==> Exec1(s, i).None?)
            && (r != [] ==> Exec1(s, i) == Some(r[0]) && Exec1(s, r[|r| - 1].end).None?)
  {
    var at := ExecTable1(s);
    var r := AllMatches1(s, i);
    AllMatches1IsLoop(s, i);
    LoopMatchesSuccessive(s, at, i);
    assert at[i] == Exec1(s, i);
    if r != [] {
      assert at[r[|r| - 1].end] == Exec1(s, r[|r| - 1].end);
    }
  }

  /** Each next match of the loop is the `exec` result from where the previous one ended. */
  lemma AllMatches1Steps(s: string, i: nat)
    requires i <= |s|
    ensures var r := AllMatches1(s, i);
            forall k | 0 <= k < |r| - 1 :: r[k].end <= |s| && Exec1(s, r[k].end) == Some(r[k + 1])
  {
    var at := ExecTable1(s);
    var r := AllMatches1(s, i);
    AllMatches1IsLoop(s, i);
    LoopMatchesSuccessive(s, at, i);
    forall k | 0 <= k < |r| - 1 ensures r[k].end <= |s| && Exec1(s, r[k].end) == Some(r[k + 1]) {
      assert at[r[k].end] == Exec1(s, r[k].end);
    }
  }

  // ---------------------------------------------------------------------------------------
  // Pattern 2: /【(subsidy_\d+)】\s*(.+?)(?=\n|$)/g   (no `m` flag: `$` is the end of input)

  /** `【(subsidy_\d+)】` at `p`: the id length, or 0. */
  function Head2(s: string, p: nat): nat
    requires p <= |s|
  {
    BracketedId(s, p, '【', '】')
  }

  /** `(.+?)(?=\n|$)` can match with the name `s[q..e]`: a non-empty rest of the line. */
  predicate NameLine2(s: string, q: nat, e: nat) {
    q < e && SingleLine(s, q, e) && (e == |s| || s[e] == '\n')
  }

  /** The lazy `(.+?)` of pattern 2, having consumed `s[q..e]`: the first end followed by `\n` or
      the end of input. */
  function LazyName2(s: string, q: nat, e: nat): (r: Option<nat>)
    requires q < e <= |s| && SingleLine(s, q, e - 1)
    decreases |s| - e
  {
    if IsLineTerminator(s[e - 1]) then None
    else if e == |s| || s[e] == '\n' then Some(e)
    else LazyName2(s, q, e + 1)
  }

  /** Where the name of pattern 2 started at `q` ends, or `None`. */
  function NameEnd2(s: string, q: nat): (r: Option<nat>)
    requires q <= |s|
  {
    if q < |s| then LazyName2(s, q, q + 1) else None
  }

  /** The lazy name grows one character at a time from `e` on: it stops at the first end where
      the rest of the pattern matches, and fails only when there is none. */
  lemma {:induction false} LazyName2Shortest(s: string, q: nat, e: nat)
    requires q < e <= |s| && SingleLine(s, q, e - 1)
    ensures var r := LazyName2(s, q, e);
            && (r.Some? ==> e <= r.value && NameLine2(s, q, r.value))
            && (r.Some? ==> forall e' | e <= e' < r.value :: !NameLine2(s, q, e'))
            && (r.None? ==> forall e' | e <= e' :: !NameLine2(s, q, e'))
    decreases |s| - e
  {
    if !IsLineTerminator(s[e - 1]) && !NameLine2(s, q, e) && e < |s| {
      LazyName2Shortest(s, q, e + 1);
    }
  }

  /** The name is the shortest one after which the rest of the pattern matches, and there is
      none exactly when no name does. */
  lemma NameEnd2Shortest(s: string, q: nat)
    requires q <= |s|
    ensures var r := NameEnd2(s, q);
            && (r.Some? ==> NameLine2(s, q, r.value))
            && (r.Some? ==> forall e | q < e < r.value :: !NameLine2(s, q, e))
            && (r.None? <==> forall e: nat :: !NameLine2(s, q, e))
  {
    if q < |s| {
      LazyName2Shortest(s, q, q + 1);
    }
  }

  /** The match of pattern 2 started at `p`, whose name runs over `s[q..e]`. */
  function Match2(s: string, p: nat, q: nat, e: nat): (m: RawMatch)
    requires p <= |s| && Head2(s, p) > 0 && p + Head2(s, p) + 2 <= q && NameLine2(s, q, e)
    ensures m.start == p < m.end == e <= |s|
  {
    var n := Head2(s, p);
    RawMatch(p, e, p + 1, Substring(s, p + 1, p + 1 + n), Substring(s, q, e))
  }

  /** The match is a match in `s`: its id is the well-formed id right after the `【`. */
  lemma Match2Valid(s: string, p: nat, q: nat, e: nat)
    requires p <= |s| && Head2(s, p) > 0 && p + Head2(s, p) + 2 <= q && NameLine2(s, q, e)
    ensures ValidMatch(s, Match2(s, p, q, e))
  {
    BracketedIdUnique(s, p, '【', '】');
    IdTextWellFormed(s, p + 1);
  }

  /** The match captures the id between the lenticular brackets at `p` and the name `s[q..e]`,
      a non-empty run without line terminators; it ends where the name ends. */
  lemma Match2Captures(s: string, p: nat, q: nat, e: nat)
    requires p <= |s| && Head2(s, p) > 0 && p + Head2(s, p) + 2 <= q && NameLine2(s, q, e)
    ensures var m := Match2(s, p, q, e);
            && ValidMatch(s, m)
            && m.idPos == p + 1 && BracketedIdAt(s, p, '【', '】', |m.id|) && m.name == s[q..e]
            && |m.name| >= 1 && forall k | 0 <= k < |m.name| :: !IsLineTerminator(m.name[k])
  {
    Match2Valid(s, p, q, e);
    BracketedIdUnique(s, p, '【', '】');
    SubstringIsSlice(s, q, e);
    var name := s[q..e];
    assert forall k | 0 <= k < |name| :: name[k] == s[q + k];
  }

  /** `\s*` of pattern 2 having taken `w` white-space characters after `q0`: the name starts at
      the last position of `q0..q0 + w` that admits one. */
  function LastNameStart2(s: string, q0: nat, w: nat): (r: Option<nat>)
    requires q0 + w <= |s|
    ensures r.Some? ==> q0 <= r.value <= q0 + w && NameEnd2(s, r.value).Some?
    decreases w
  {
    if NameEnd2(s, q0 + w).Some? then Some(q0 + w)
    else if w == 0 then None
    else LastNameStart2(s, q0, w - 1)
  }

  /** No later start admits a name, and there is none only when no start in `q0..q0 + w`
      admits one. */
  lemma {:induction false} LastNameStart2Last(s: string, q0: nat, w: nat)
    requires q0 + w <= |s|
    ensures var r := LastNameStart2(s, q0, w);
            && (r.Some? ==> forall q | r.value < q <= q0 + w :: NameEnd2(s, q).None?)
            && (r.None? ==> forall q | q0 <= q <= q0 + w :: NameEnd2(s, q).None?)
    decreases w
  {
    if NameEnd2(s, q0 + w).None? && w > 0 {
      LastNameStart2Last(s, q0, w - 1);
    }
  }

  /** After `【(subsidy_\d+)】` at `p`, `\s*` can stop at `q`. */
  predicate Gap2(s: string, p: nat, q: nat) {
    && p <= |s|
    && var n := Head2(s, p);
    && n > 0 && p + n + 2 <= q <= |s|
    && forall k | p + n + 2 <= k < q :: IsWhiteSpace(s[k])
  }

  /** The gaps after `【id】` are exactly the prefixes of its white-space run. */
  lemma Gap2Range(s: string, p: nat, q0: nat, w: nat)
    requires p <= |s| && Head2(s, p) > 0 && q0 == p + Head2(s, p) + 2 && q0 <= |s|
    requires w == WhiteSpaceRun(s, q0)
    ensures forall q: nat :: Gap2(s, p, q) <==> q0 <= q <= q0 + w
  {
    WhiteSpaceRunAll(s, q0);
    forall q: nat | Gap2(s, p, q) ensures q <= q0 + w {

    }
  }

  /** Pattern 2 tried at position `p`. */
  function Pattern2At(s: string, p: nat): (r: Option<RawMatch>)
    requires p <= |s|
    ensures r.Some? ==> r.value.start == p < r.value.end <= |s|
  {
    var n := Head2(s, p);
    if n > 0 then
      var q := LastNameStart2(s, p + n + 2, WhiteSpaceRun(s, p + n + 2));
      if q.Some? then NameEnd2Shortest(s, q.value); Some(Match2(s, p, q.value, NameEnd2(s, q.value).value)) else None
    else None
  }

  /** Pattern 2 matches at `p` exactly when `【id】` is there and some gap after it admits a name
      running to the end of its line; the `\s*` is then the longest such gap. */
  lemma Pattern2AtSpec(s: string, p: nat)
    requires p <= |s|
    ensures Pattern2At(s, p).None? <==> forall q | Gap2(s, p, q) :: NameEnd2(s, q).None?
    ensures var r := Pattern2At(s, p);
            r.Some? ==> exists q, e | Gap2(s, p, q) && NameEnd2(s, q) == Some(e) && NameLine2(s, q, e) ::
              && r.value == Match2(s, p, q, e)
              && forall q' | q < q' && Gap2(s, p, q') :: NameEnd2(s, q').None?
  {
    Pattern2AtNone(s, p);
    Pattern2AtFound(s, p);
  }

  /** Pattern 2 fails at `p` exactly when no gap after `【id】` admits a name. */
  lemma Pattern2AtNone(s: string, p: nat)
    requires p <= |s|
    ensures Pattern2At(s, p).None? <==> forall q | Gap2(s, p, q) :: NameEnd2(s, q).None?
  {
    var n := Head2(s, p);
    if n > 0 {
      var q0, w := p + n + 2, WhiteSpaceRun(s, p + n + 2);
      Gap2Range(s, p, q0, w);
      LastNameStart2Last(s, q0, w);
    }
  }

  /** A match of pattern 2 at `p` is built from the longest gap that admits a name and the
      shortest name after it. */
  lemma Pattern2AtFound(s: string, p: nat)
    requires p <= |s|
    ensures var r := Pattern2At(s, p);
            r.Some? ==> exists q, e | Gap2(s, p, q) && NameEnd2(s, q) == Some(e) && NameLine2(s, q, e) ::
              && r.value == Match2(s, p, q, e)
              && forall q' | q < q' && Gap2(s, p, q') :: NameEnd2(s, q').None?
  {
    var n := Head2(s, p);
    if n > 0 {
      var q0, w := p + n + 2, WhiteSpaceRun(s, p + n + 2);
      Gap2Range(s, p, q0, w);
      LastNameStart2Last(s, q0, w);
      var q := LastNameStart2(s, q0, w);
      if q.Some? {
        NameEnd2Shortest(s, q.value);
        var e := NameEnd2(s, q.value).value;
        assert Pattern2At(s, p) == Some(Match2(s, p, q.value, e));
        assert Gap2(s, p, q.value) && NameLine2(s, q.value, e);
        assert forall q' | q.value < q' && Gap2(s, p, q') :: NameEnd2(s, q').None?;
        assert NameEnd2(s, q.value) == Some(e);
      }
    }
  }

  /** A match of pattern 2 at `p` is a match in `s`: its id is well formed and spelled in `s`. */
  lemma Pattern2AtValid(s: string, p: nat)
    requires p <= |s|
    ensures Pattern2At(s, p).Some? ==> ValidMatch(s, Pattern2At(s, p).value)
  {
    Pattern2AtFound(s, p);
    if Pattern2At(s, p).Some? {
      var q, e :| Gap2(s, p, q) && NameLine2(s, q, e) && Pattern2At(s, p).value == Match2(s, p, q, e);
      Match2Valid(s, p, q, e);
    }
  }

  /** The format the list agent writes for pattern 2: `【id】` right before a name that does not
      start with white space and runs to a newline or to the end of the text. Tried at the `【`,
      pattern 2 matches with exactly that id and that name, and the entry pushed for it is the
      id with the trimmed name. */
  lemma Pattern2AtFormat(s: string, pre: string, id: string, name: string, post: string)
    requires s == pre + ['【'] + id + ['】'] + name + post
    requires WellFormedId(id) && name != [] && !IsWhiteSpace(name[0])
    requires forall k | 0 <= k < |name| :: !IsLineTerminator(name[k])
    requires post == [] || post[0] == '\n'
    ensures var r := Pattern2At(s, |pre|);
            r.Some? && r.value.id == id && r.value.name == name
            && InfoOf(r.value) == SubsidyInfo(id, Trim(name))
  {
    FormatAt2(s, pre, id, name, post);
    Pattern2AtLayout(s, |pre|, id, name);
  }

  /** Where the pieces of `pre + 【id】 + name + post` sit in the text. */
  lemma FormatAt2(s: string, pre: string, id: string, name: string, post: string)
    requires s == pre + ['【'] + id + ['】'] + name + post
    requires WellFormedId(id) && name != [] && !IsWhiteSpace(name[0])
    requires forall k | 0 <= k < |name| :: !IsLineTerminator(name[k])
    requires post == [] || post[0] == '\n'
    ensures var p, n := |pre|, |id|;
            var q0, e := p + n + 2, p + n + 2 + |name|;
            && e <= |s| && BracketedIdAt(s, p, '【', '】', n) && s[p + 1..p + 1 + n] == id
            && !IsWhiteSpace(s[q0]) && SingleLine(s, q0, e) && (e == |s| || s[e] == '\n')
            && s[q0..e] == name
  {
    var p, n := |pre|, |id|;
    var q0, e := p + n + 2, p + n + 2 + |name|;
    assert forall k | p + 1 <= k < p + 1 + n :: s[k] == id[k - p - 1];
    assert s[p + 1..p + 1 + n] == id;
    assert s[q0..e] == name;
    assert forall k | q0 <= k < e :: s[k] == name[k - q0];
  }

  /** `【id】` at `p`, then a name that does not start with white space and runs to a newline or
      to the end of the text: pattern 2 matches there with that id and that name. */
  lemma Pattern2AtLayout(s: string, p: nat, id: string, name: string)
    requires var n, q0 := |id|, p + |id| + 2;
             var e := q0 + |name|;
             && q0 < e <= |s| && BracketedIdAt(s, p, '【', '】', n) && s[p + 1..p + 1 + n] == id
             && !IsWhiteSpace(s[q0]) && SingleLine(s, q0, e) && (e == |s| || s[e] == '\n')
             && s[q0..e] == name
    ensures var r := Pattern2At(s, p);
            r.Some? && r.value.id == id && r.value.name == name
  {
    var n, q0 := |id|, p + |id| + 2;
    var e := q0 + |name|;
    BracketedIdUnique(s, p, '【', '】');
    NameEnd2At(s, q0, e);
    assert WhiteSpaceRun(s, q0) == 0;
    Pattern2AtIs(s, p, q0, e);
    Match2Is(s, p, q0, e, id, name);
  }

  /** Pattern 2 at `p` with no white space after `【id】` and the name from `q0` ending at `e`. */
  lemma Pattern2AtIs(s: string, p: nat, q0: nat, e: nat)
    requires p <= |s| && Head2(s, p) > 0 && q0 == p + Head2(s, p) + 2 <= |s|
    requires WhiteSpaceRun(s, q0) == 0 && NameEnd2(s, q0) == Some(e) && NameLine2(s, q0, e)
    ensures Pattern2At(s, p) == Some(Match2(s, p, q0, e))
  {
    assert LastNameStart2(s, q0, 0) == Some(q0);
  }

  /** The match whose `【id】` is at `p` and whose name is `s[q..e]` captures that id and that
      name. */
  lemma Match2Is(s: string, p: nat, q: nat, e: nat, id: string, name: string)
    requires p <= |s| && Head2(s, p) == |id| > 0 && p + |id| + 2 <= q && NameLine2(s, q, e)
    requires s[p + 1..p + 1 + |id|] == id && s[q..e] == name
    ensures Match2(s, p, q, e).id == id && Match2(s, p, q, e).name == name
  {
    SubstringIs(s, p + 1, p + 1 + |id|, id);
    SubstringIs(s, q, e, name);
  }

  /** A single-line name from `q` to a newline or to the end of the text is the name pattern 2
      takes from `q`. */
  lemma NameEnd2At(s: string, q: nat, e: nat)
    requires q < e <= |s| && SingleLine(s, q, e) && (e == |s| || s[e] == '\n')
    ensures NameEnd2(s, q) == Some(e)
  {
    assert NameLine2(s, q, e);
    NameEnd2Shortest(s, q);
    NoLineEndBefore(s, q, e, NameEnd2(s, q).value);
  }

  /** No position before `e` of a single line is followed by `\n`. */
  lemma NoLineEndBefore(s: string, q: nat, e: nat, e': nat)
    requires q < e' <= |s| && SingleLine(s, q, e)
    ensures e' < e ==> !NameLine2(s, q, e')
  {
  }

  /** `pattern2.exec(s)` with `lastIndex == i`: the match at the first position from `i` on. */
  function Exec2(s: string, i: nat): (r: Option<RawMatch>)
    requires i <= |s|
    ensures r.Some? ==> i <= r.value.start < r.value.end <= |s|
    decreases |s| - i
  {
    var m := Pattern2At(s, i);
    if m.Some? then m else if i == |s| then None else Exec2(s, i + 1)
  }

  /** `exec` reports the match at the leftmost position where the pattern matches. */
  lemma {:induction false} Exec2Leftmost(s: string, i: nat)
    requires i <= |s|
    ensures Exec2(s, i).Some? ==> Pattern2At(s, Exec2(s, i).value.start) == Exec2(s, i)
    ensures Exec2(s, i).Some? ==> forall p | i <= p < Exec2(s, i).value.start :: Pattern2At(s, p).None?
    ensures Exec2(s, i).None? ==> forall p | i <= p <= |s| :: Pattern2At(s, p).None?
    decreases |s| - i
  {
    var at := Table2(s);
    Exec2IsFirstMatch(s, i);
    FirstMatchLeftmost(at, i);
    if Exec2(s, i).Some? {
      var j :| i <= j < |at| && at[j] == Exec2(s, i) && forall p | i <= p < j :: at[p].None?;
      assert at[j] == Pattern2At(s, j);
      forall p | i <= p < j ensures Pattern2At(s, p).None? {
        assert at[p] == Pattern2At(s, p);
      }
    } else {
      forall p | i <= p <= |s| ensures Pattern2At(s, p).None? {
        assert at[p] == Pattern2At(s, p);
      }
    }
  }

  /** Every `exec` result of pattern 2 is a match in `s`. */
  lemma Exec2Valid(s: string)
    ensures forall i | 0 <= i <= |s| :: Exec2(s, i).Some? ==> ValidMatch(s, Exec2(s, i).value)
  {
    forall i | 0 <= i <= |s| ensures Exec2(s, i).Some? ==> ValidMatch(s, Exec2(s, i).value) {
      Exec2Leftmost(s, i);
      if Exec2(s, i).Some? {
        Pattern2AtValid(s, Exec2(s, i).value.start);
      }
    }
  }

  /** Pattern 2 tried at every position `0..|s|`. */
  function Table2(s: string): (at: seq<Option<RawMatch>>)
    ensures |at| == |s| + 1
  {
    seq(|s| + 1, p requires 0 <= p <= |s| => Pattern2At(s, p))
  }

  /** `exec` is the first match in the table of attempts. */
  lemma {:induction false} Exec2IsFirstMatch(s: string, i: nat)
    requires i <= |s|
    ensures Exec2(s, i) == FirstMatch(Table2(s), i)
    decreases |s| - i
  {
    if i < |s| {
      Exec2IsFirstMatch(s, i + 1);
    }
  }

  /** Every match of pattern 2 from `lastIndex == i` on, as the `while ((match = exec()))` loop
      visits them. */
  function AllMatches2(s: string, i: nat): (r: seq<RawMatch>)
    requires i <= |s|
    decreases |s| - i
  {
    match Exec2(s, i)
    case None => []
    case Some(m) => [m] + AllMatches2(s, m.end)
  }

  /** `exec` of pattern 2 from every `lastIndex` `0..|s|`. */
  function ExecTable2(s: string): (at: seq<Option<RawMatch>>)
    ensures ExecTable(s, at)
  {
    Exec2Valid(s);
    seq(|s| + 1, j requires 0 <= j <= |s| => Exec2(s, j))
  }

  /** The recursive definition visits what the loop over the `exec` table visits. */
  lemma {:induction false} AllMatches2IsLoop(s: string, i: nat)
    requires i <= |s|
    ensures AllMatches2(s, i) == LoopMatches(s, ExecTable2(s), i)
    decreases |s| - i
  {
    match Exec2(s, i)
    case None =>
    case Some(m) => AllMatches2IsLoop(s, m.end);
  }

  /** The loop's matches are matches in `s` from `i` on, and exactly the successive `exec`
      results: the first from `i`, each next one from where the previous match ended, and the
      loop stops at the first failure. */
  lemma AllMatches2Successive(s: string, i: nat)
    requires i <= |s|
    ensures var r := AllMatches2(s, i);
            && (forall k | 0 <= k < |r| :: i <= r[k].start && ValidMatch(s, r[k]))
            && (r == [] <==> Exec2(s, i).None?)
            && (r != [] ==> Exec2(s, i) == Some(r[0]) && Exec2(s, r[|r| - 1].end).None?)
            && forall k | 0 <= k < |r| - 1 :: Exec2(s, r[k].end) == Some(r[k + 1])
  {
    AllMatches2Ends(s, i);
    AllMatches2Steps(s, i);
  }

  /** The loop's matches are matches in `s` from `i` on; it starts with the `exec` result from
      `i` and stops where `exec` fails. */
  lemma AllMatches2Ends(s: string, i: nat)
    requires i <= |s|
    ensures var r := AllMatches2(s, i);
            && (forall k | 0 <= k < |r| :: i <= r[k].start && ValidMatch(s, r[k]))
            && (r == [] <==> Exec2(s, i).None?)
            && (r != [] ==> Exec2(s, i) == Some(r[0]) && Exec2(s, r[|r| - 1].end).None?)
  {
    var at := ExecTable2(s);
    var r := AllMatches2(s, i);
    AllMatches2IsLoop(s, i);
    LoopMatchesSuccessive(s, at, i);
    assert at[i] == Exec2(s, i);
    if r != [] {
      assert at[r[|r| - 1].end] == Exec2(s, r[|r| - 1].end);
    }
  }

  /** Each next match of the loop is the `exec` result from where the previous one ended. */
  lemma AllMatches2Steps(s: string, i: nat)
    requires i <= |s|
    ensures var r := AllMatches2(s, i);
            forall k | 0 <= k < |r| - 1 :: r[k].end <= |s| && Exec2(s, r[k].end) == Some(r[k + 1])
  {
    var at := ExecTable2(s);
    var r := AllMatches2(s, i);
    AllMatches2IsLoop(s, i);
    LoopMatchesSuccessive(s, at, i);
    forall k | 0 <= k < |r| - 1 ensures r[k].end <= |s| && Exec2(s, r[k].end) == Some(r[k + 1]) {
      assert at[r[k].end] == Exec2(s, r[k].end);
    }
  }

  // ---------------------------------------------------------------------------------------
  // Pattern 3: s.match(/subsidy_\d+/g)

  /** The first position from `i` on where `subsidy_\d+` matches. */
  function Exec3(s: string, i: nat): (r: Option<nat>)
    requires i <= |s|
    ensures r.Some? ==> i <= r.value <= |s| && IdLength(s, r.value) > 0
    decreases |s| - i
  {
    if IdLength(s, i) > 0 then Some(i) else if i == |s| then None else Exec3(s, i + 1)
  }

  /** `exec` stops at the first position from `i` on where an id is matched, and finds nothing
      only when there is none. */
  lemma {:induction false} Exec3First(s: string, i: nat)
    requires i <= |s|
    ensures var r := Exec3(s, i);
            && (r.Some? ==> forall p | i <= p < r.value :: IdLength(s, p) == 0)
            && (r.None? ==> forall p | i <= p <= |s| :: IdLength(s, p) == 0)
    decreases |s| - i
  {
    if IdLength(s, i) == 0 && i < |s| {
      Exec3First(s, i + 1);
    }
  }

  /** `P` lists, in increasing order, every position from `i` on where `subsidy_<digit>` starts,
      and `r` the id matched at each. */
  predicate IdOccurrences(s: string, i: nat, r: seq<string>, P: seq<nat>) {
    IdsMatchedAt(s, i, r, P) && Increasing(P) && CoversIdStarts(s, i, P)
  }

  /** `r[k]` is the id matched at `P[k]`, a position from `i` on. */
  predicate IdsMatchedAt(s: string, i: nat, r: seq<string>, P: seq<nat>) {
    && (forall k | 0 <= k < |P| :: i <= P[k] <= |s| && IdLength(s, P[k]) > 0)
    && r == IdsAt(s, P)
  }

  /** The ids matched at the positions `P`, in their order. */
  function IdsAt(s: string, P: seq<nat>): (r: seq<string>)
    requires forall k | 0 <= k < |P| :: P[k] <= |s|
    ensures |r| == |P|
  {
    if P == [] then [] else [Substring(s, P[0], P[0] + IdLength(s, P[0]))] + IdsAt(s, P[1..])
  }

  /** Strictly increasing positions. */
  predicate Increasing(P: seq<nat>) {
    forall k | 0 < k < |P| :: P[k - 1] < P[k]
  }

  /** Every position from `i` on where `subsidy_<digit>` starts is in `P`. */
  predicate CoversIdStarts(s: string, i: nat, P: seq<nat>) {
    forall p | i <= p <= |s| && IdStartsAt(s, p) :: p in P
  }

  /** The matched strings of `s.match(/subsidy_\d+/g)` from `i` on (`[]` standing for `null`):
      the id at every place the text spells one, in text order. */
  function AllIds3(s: string, i: nat): (r: seq<string>)
    requires i <= |s|
    ensures r != [] ==> Exec3(s, i).Some?
    decreases |s| - i
  {
    match Exec3(s, i)
    case None => []
    case Some(p) =>
      var n := IdLength(s, p);
      [Substring(s, p, p + n)] + AllIds3(s, p + n)
  }

  /** Every string `match` returns is a well-formed id. */
  lemma {:induction false} AllIds3WellFormed(s: string, i: nat)
    requires i <= |s|
    ensures forall k | 0 <= k < |AllIds3(s, i)| :: WellFormedId(AllIds3(s, i)[k])
    decreases |s| - i
  {
    match Exec3(s, i)
    case None =>
    case Some(p) =>
      var n := IdLength(s, p);
      AllIds3Unfold(s, i, p);
      AllIds3WellFormed(s, p + n);
      IdTextWellFormed(s, p);
      WellFormedCons(Substring(s, p, p + n), AllIds3(s, p + n), AllIds3(s, i));
  }

  /** The ids `match` returns: the one found first, then those found after it. */
  lemma AllIds3Unfold(s: string, i: nat, p: nat)
    requires i <= |s| && Exec3(s, i) == Some(p)
    ensures AllIds3(s, i) == [Substring(s, p, p + IdLength(s, p))] + AllIds3(s, p + IdLength(s, p))
  {
  }

  /** A well-formed id in front of well-formed ids. */
  lemma WellFormedCons(id: string, rest: seq<string>, r: seq<string>)
    requires WellFormedId(id) && forall k | 0 <= k < |rest| :: WellFormedId(rest[k])
    requires r == [id] + rest
    ensures forall k | 0 <= k < |r| :: WellFormedId(r[k])
  {
    assert forall k | 1 <= k < |r| :: r[k] == rest[k - 1];
  }

  /** `match` lists the id at every place from `i` on where the text spells `subsidy_<digit>`,
      in text order: matched ids never overlap, so scanning on after each one misses none. */
  lemma {:induction false} AllIds3Occurrences(s: string, i: nat)
    requires i <= |s|
    ensures exists P: seq<nat> :: IdOccurrences(s, i, AllIds3(s, i), P)
    decreases |s| - i
  {
    Exec3First(s, i);
    match Exec3(s, i)
    case None =>
      forall p: nat | i <= p <= |s| ensures !IdStartsAt(s, p) {
        assert IdLength(s, p) == 0;
      }
      assert AllIds3(s, i) == [] && IdOccurrences(s, i, [], []);
    case Some(p) =>
      var n := IdLength(s, p);
      AllIds3Unfold(s, i, p);
      AllIds3Occurrences(s, p + n);
      IdOccurrencesCons(s, i, p, n, p + n, AllIds3(s, p + n), AllIds3(s, i));
  }

  /** The id found first, followed by the ids found after it, lists every id from `i` on. */
  lemma IdOccurrencesCons(s: string, i: nat, p: nat, n: nat, j: nat, rest: seq<string>, r: seq<string>)
    requires i <= p <= |s| && n == IdLength(s, p) > 0 && j == p + n
    requires forall p': nat | i <= p' < p :: IdLength(s, p') == 0
    requires exists P: seq<nat> :: IdOccurrences(s, j, rest, P)
    requires r == [Substring(s, p, p + n)] + rest
    ensures exists P: seq<nat> :: IdOccurrences(s, i, r, P)
  {
    var P' :| IdOccurrences(s, j, rest, P');
    var P := [p] + P';
    ConsMatched(s, i, p, n, j, rest, r, P');
    ConsIncreasing(p, j, P');
    ConsCovers(s, i, p, n, j, P');
    assert IdOccurrences(s, i, r, P);
  }

  /** The id found at `p` in front of the ids found after it. */
  lemma ConsMatched(s: string, i: nat, p: nat, n: nat, j: nat, rest: seq<string>, r: seq<string>, P': seq<nat>)
    requires i <= p <= |s| && n == IdLength(s, p) > 0 && j == p + n
    requires IdsMatchedAt(s, j, rest, P') && r == [Substring(s, p, p + n)] + rest
    ensures IdsMatchedAt(s, i, r, [p] + P')
  {
    var P := [p] + P';
    assert P[1..] == P';
    assert forall k | 1 <= k < |P| :: P[k] == P'[k - 1];
  }

  /** A position before all later ones keeps the positions increasing. */
  lemma ConsIncreasing(p: nat, j: nat, P': seq<nat>)
    requires p < j && Increasing(P') && forall k | 0 <= k < |P'| :: j <= P'[k]
    ensures Increasing([p] + P')
  {
    var P := [p] + P';
    assert forall k | 1 <= k < |P| :: P[k] == P'[k - 1];
  }

  /** No id starts between `i` and `p`, nor inside the id at `p`; so the id starts from `i` on
      are `p` and those from `j` on. */
  lemma ConsCovers(s: string, i: nat, p: nat, n: nat, j: nat, P': seq<nat>)
    requires i <= p <= |s| && n == IdLength(s, p) > 0 && j == p + n
    requires forall p': nat | i <= p' < p :: IdLength(s, p') == 0
    requires CoversIdStarts(s, j, P')
    ensures CoversIdStarts(s, i, [p] + P')
  {
    IdsDoNotOverlap(s, p);
    forall q: nat | i <= q <= |s| && IdStartsAt(s, q) ensures q in [p] + P' {
      assert IdLength(s, q) > 0;
      if j <= q {
        assert q in P';
      }
    }
  }

  // ---------------------------------------------------------------------------------------
  // Assembling the list

  /** The pushed entry for a match: its id and its trimmed name. */
  function InfoOf(m: RawMatch): SubsidyInfo {
    SubsidyInfo(m.id, Trim(m.name))
  }

  /** The entries pushed for a list of matches of either pattern: one per match, in text order,
      without de-duplication. */
  function EntriesOf(ms: seq<RawMatch>): (r: seq<SubsidyInfo>)
    ensures |r| == |ms|
  {
    if ms == [] then [] else [InfoOf(ms[0])] + EntriesOf(ms[1..])
  }

  /** The `k`-th entry is the id and the trimmed name of the `k`-th match. */
  lemma {:induction false} EntriesOfAt(ms: seq<RawMatch>)
    ensures forall k | 0 <= k < |ms| :: EntriesOf(ms)[k] == InfoOf(ms[k])
  {
    if ms != [] {
      var tail := ms[1..];
      EntriesOfAt(tail);
      var r := EntriesOf(ms);
      assert r == [InfoOf(ms[0])] + EntriesOf(tail);
      forall k | 0 <= k < |ms| ensures r[k] == InfoOf(ms[k]) {
        if k > 0 {
          assert r[k] == EntriesOf(tail)[k - 1] && ms[k] == tail[k - 1];
        }
      }
    }
  }

  /** `list.some(s => s.id === id)`. */
  predicate HasId(list: seq<SubsidyInfo>, id: string) {
    exists k | 0 <= k < |list| :: list[k].id == id
  }

  /** The ids of a list, in order. */
  function IdsOf(list: seq<SubsidyInfo>): (ids: seq<string>)
    ensures |ids| == |list| && forall k | 0 <= k < |list| :: ids[k] == list[k].id
  {
    seq(|list|, k requires 0 <= k < |list| => list[k].id)
  }

  /** Appending the tier-2 entries whose id is not listed yet, in their order. */
  function AddNew(list: seq<SubsidyInfo>, found: seq<SubsidyInfo>): (r: seq<SubsidyInfo>)
    ensures |list| <= |r| && r[..|list|] == list
    decreases |found|
  {
    if found == [] then list
    else AddNew(if HasId(list, found[0].id) then list else list + [found[0]], found[1..])
  }

  /** The appended entries have ids not seen before them, and every id of `found` ends up
      listed. */
  lemma {:induction false} AddNewDistinct(list: seq<SubsidyInfo>, found: seq<SubsidyInfo>)
    ensures var r := AddNew(list, found);
            && (forall k | |list| <= k < |r| :: !HasId(r[..k], r[k].id))
            && (forall j | 0 <= j < |found| :: HasId(r, found[j].id))
    decreases |found|
  {
    if found != [] {
      var next := if HasId(list, found[0].id) then list else list + [found[0]];
      var r := AddNew(next, found[1..]);
      assert r == AddNew(list, found);
      AddNewDistinct(next, found[1..]);
      assert r[..|list|] == next[..|list|] == list;
      assert HasId(r, found[0].id) by {
        if HasId(list, found[0].id) {
          var k :| 0 <= k < |list| && list[k].id == found[0].id;
          assert r[k] == list[k];
        } else {
          assert r[|list|] == next[|list|];
        }
      }
      forall j | 0 <= j < |found| ensures HasId(r, found[j].id) {
        if j > 0 {
          assert found[j] == found[1..][j - 1];
        }
      }
      forall k | |list| <= k < |r| ensures !HasId(r[..k], r[k].id) {
        if k < |next| {
          assert r[..k] == list;
        }
      }
    }
  }

  /** Past `list`, each entry of `r` is the first entry of `found` with its id, whose id is not
      in `list`, and these entries come in the order of their first entries. */
  predicate FirstEntriesAfter(list: seq<SubsidyInfo>, found: seq<SubsidyInfo>, r: seq<SubsidyInfo>) {
    && (forall k | |list| <= k < |r| ::
          && !HasId(list, r[k].id)
          && FirstIndex(IdsOf(found), r[k].id) < |found|
          && r[k] == found[FirstIndex(IdsOf(found), r[k].id)])
    && (forall k1, k2 | |list| <= k1 < k2 < |r| ::
          FirstIndex(IdsOf(found), r[k1].id) < FirstIndex(IdsOf(found), r[k2].id))
  }

  /** Each appended entry is the first entry of `found` with its id, whose id was not listed,
      and the appended entries come in the order of those first entries. */
  lemma {:induction false} AddNewFirstEntries(list: seq<SubsidyInfo>, found: seq<SubsidyInfo>)
    ensures FirstEntriesAfter(list, found, AddNew(list, found))
    decreases |found|
  {
    if found != [] {
      var next := if HasId(list, found[0].id) then list else list + [found[0]];
      var r := AddNew(next, found[1..]);
      assert r == AddNew(list, found);
      AddNewFirstEntries(next, found[1..]);
      AddNewStep(list, found, next, r);
    }
  }

  /** One step of `AddNew`: the first-entry facts about `r` over `next` and `found[1..]` carry
      over to `list` and `found`. */
  lemma AddNewStep(list: seq<SubsidyInfo>, found: seq<SubsidyInfo>, next: seq<SubsidyInfo>, r: seq<SubsidyInfo>)
    requires found != [] && next == (if HasId(list, found[0].id) then list else list + [found[0]])
    requires |next| <= |r| && r[..|next|] == next
    requires FirstEntriesAfter(next, found[1..], r)
    ensures FirstEntriesAfter(list, found, r)
  {
    var ids := IdsOf(found);
    assert ids[1..] == IdsOf(found[1..]);
    assert HasId(next, found[0].id) by {
      if !HasId(list, found[0].id) {
        assert next[|list|] == found[0];
      }
    }
    forall x | HasId(list, x) ensures HasId(next, x) {
      var k :| 0 <= k < |list| && list[k].id == x;
      assert next[k] == list[k];
    }
    forall k | |next| <= k < |r|
      ensures r[k].id != found[0].id && FirstIndex(ids, r[k].id) == 1 + FirstIndex(ids[1..], r[k].id)
    {
    }
    forall k | |list| <= k < |next| ensures r[k] == found[0] && FirstIndex(ids, r[k].id) == 0 {
      assert r[k] == next[k];
    }
  }

  /** Position of the first occurrence of `x` in `xs`, or `|xs|` when it does not occur. */
  function FirstIndex(xs: seq<string>, x: string): (k: nat)
    ensures k <= |xs|
    ensures k < |xs| <==> x in xs
    ensures k < |xs| ==> xs[k] == x
    ensures forall j | 0 <= j < k :: xs[j] != x
  {
    if xs == [] then 0 else if xs[0] == x then 0 else 1 + FirstIndex(xs[1..], x)
  }

  /** `[...new Set(xs)]` built on top of `acc`: each string once, at its first occurrence. */
  function Dedup(acc: seq<string>, xs: seq<string>): (r: seq<string>)
    ensures |acc| <= |r| && r[..|acc|] == acc
    ensures forall x :: x in r <==> x in acc || x in xs
    ensures forall i, j | |acc| <= i < j < |r| :: r[i] != r[j]
    ensures forall i | |acc| <= i < |r| :: r[i] !in acc
    ensures forall i, j | |acc| <= i < j < |r| :: FirstIndex(xs, r[i]) < FirstIndex(xs, r[j])
    decreases |xs|
  {
    if xs == [] then acc
    else
      var next := if xs[0] in acc then acc else acc + [xs[0]];
      var r := Dedup(next, xs[1..]);
      DedupStep(acc, xs, next, r);
      r
  }

  /** One step of `Dedup`: what holds of `r` over `next` and `xs[1..]` holds over `acc` and
      `xs`. */
  lemma DedupStep(acc: seq<string>, xs: seq<string>, next: seq<string>, r: seq<string>)
    requires xs != [] && next == (if xs[0] in acc then acc else acc + [xs[0]])
    requires |next| <= |r| && r[..|next|] == next
    requires forall x :: x in r <==> x in next || x in xs[1..]
    requires forall i, j | |next| <= i < j < |r| :: r[i] != r[j]
    requires forall i | |next| <= i < |r| :: r[i] !in next
    requires forall i, j | |next| <= i < j < |r| :: FirstIndex(xs[1..], r[i]) < FirstIndex(xs[1..], r[j])
    ensures |acc| <= |r| && r[..|acc|] == acc
    ensures forall x :: x in r <==> x in acc || x in xs
    ensures forall i, j | |acc| <= i < j < |r| :: r[i] != r[j]
    ensures forall i | |acc| <= i < |r| :: r[i] !in acc
    ensures forall i, j | |acc| <= i < j < |r| :: FirstIndex(xs, r[i]) < FirstIndex(xs, r[j])
  {
    assert r[..|acc|] == next[..|acc|];
    assert forall x :: x in xs <==> x == xs[0] || x in xs[1..];
    assert forall i | |acc| <= i < |next| :: r[i] == xs[0] && xs[0] !in acc;
    DedupStepOrdered(acc, xs, next, r);
  }

  /** The order of first occurrences in `xs[1..]` carries over to `xs` once `xs[0]` is placed
      first or already known. */
  lemma DedupStepOrdered(acc: seq<string>, xs: seq<string>, next: seq<string>, r: seq<string>)
    requires xs != [] && next == (if xs[0] in acc then acc else acc + [xs[0]])
    requires |next| <= |r| && r[..|next|] == next
    requires forall i | |next| <= i < |r| :: r[i] !in next
    requires forall i, j | |next| <= i < j < |r| :: FirstIndex(xs[1..], r[i]) < FirstIndex(xs[1..], r[j])
    ensures forall i, j | |acc| <= i < j < |r| :: FirstIndex(xs, r[i]) < FirstIndex(xs, r[j])
  {
    forall i, j | |acc| <= i < j < |r| ensures FirstIndex(xs, r[i]) < FirstIndex(xs, r[j]) {
      assert |next| <= j && xs[0] in next;
      if i >= |next| {
        assert r[i] != xs[0] by { assert xs[0] in next; }
      } else {
        assert r[i] == next[i] == xs[0];
      }
    }
  }

  const FallbackNamePrefix := "補助金 "

  /** Tier 3: every distinct bare id, named after itself. */
  function Fallback(ids: seq<string>): (r: seq<SubsidyInfo>)
    ensures |r| == |ids| && forall k | 0 <= k < |ids| :: r[k] == SubsidyInfo(ids[k], FallbackNamePrefix + ids[k])
  {
    if ids == [] then []
    else Fallback(ids[..|ids| - 1]) + [SubsidyInfo(ids[|ids| - 1], FallbackNamePrefix + ids[|ids| - 1])]
  }

  /** Tiers 1 and 2 together. */
  function Tiers12(s: string): seq<SubsidyInfo> {
    AddNew(EntriesOf(AllMatches1(s, 0)), EntriesOf(AllMatches2(s, 0)))
  }

  /** The list from the tier-1 entries, the tier-2 entries and the bare ids. */
  function Assemble(tier1: seq<SubsidyInfo>, tier2: seq<SubsidyInfo>, ids: seq<string>): seq<SubsidyInfo> {
    var list := AddNew(tier1, tier2);
    if |list| == 0 then Fallback(Dedup([], ids)) else list
  }

  /** What `extractSubsidyInfo(s)` returns. */
  function ExtractedInfo(s: string): seq<SubsidyInfo> {
    Assemble(EntriesOf(AllMatches1(s, 0)), EntriesOf(AllMatches2(s, 0)), AllIds3(s, 0))
  }

  /** Pushing the entry of the first match leaves the entries of the remaining matches to be
      pushed. */
  lemma EntriesOfCons(list: seq<SubsidyInfo>, ms: seq<RawMatch>)
    requires ms != []
    ensures (list + [InfoOf(ms[0])]) + EntriesOf(ms[1..]) == list + EntriesOf(ms)
  {
    assert EntriesOf(ms) == [InfoOf(ms[0])] + EntriesOf(ms[1..]);
  }

  /** The first `exec` loop: every pattern-1 match pushed with its trimmed name. */
  method CollectPattern1(s: string) returns (list: seq<SubsidyInfo>)
    ensures list == EntriesOf(AllMatches1(s, 0))
  {
    list := [];
    var i := 0;
    assert [] + EntriesOf(AllMatches1(s, 0)) == EntriesOf(AllMatches1(s, 0));
    while true
      invariant i <= |s|
      invariant list + EntriesOf(AllMatches1(s, i)) == EntriesOf(AllMatches1(s, 0))
      decreases |s| - i
    {
      var m := Exec1(s, i);
      if m.None? {
        assert list + EntriesOf(AllMatches1(s, i)) == list + [];
        break;
      }
      EntriesOfCons(list, AllMatches1(s, i));
      list := list + [InfoOf(m.value)];
      i := m.value.end;
    }
  }

  /** The second `exec` loop: a pattern-2 match is pushed only when `list.some(...)` finds no
      entry with its id. */
  method AddPattern2(s: string, tier1: seq<SubsidyInfo>) returns (list: seq<SubsidyInfo>)
    ensures list == AddNew(tier1, EntriesOf(AllMatches2(s, 0)))
  {
    list := tier1;
    var i := 0;
    while true
      invariant i <= |s|
      invariant AddNew(list, EntriesOf(AllMatches2(s, i))) == AddNew(tier1, EntriesOf(AllMatches2(s, 0)))
      decreases |s| - i
    {
      var m := Exec2(s, i);
      if m.None? {
        break;
      }
      ghost var found := EntriesOf(AllMatches2(s, i));
      assert AllMatches2(s, i) == [m.value] + AllMatches2(s, m.value.end);
      assert found[0] == InfoOf(m.value) && found[1..] == EntriesOf(AllMatches2(s, m.value.end));
      if !HasId(list, m.value.id) {
        list := list + [InfoOf(m.value)];
      }
      i := m.value.end;
    }
  }

  /** `[...new Set(ids)]`. */
  method UniqueIds(ids: seq<string>) returns (unique: seq<string>)
    ensures unique == Dedup([], ids)
  {
    unique := [];
    var k := 0;
    assert ids[k..] == ids;
    while k < |ids|
      invariant 0 <= k <= |ids|
      invariant Dedup(unique, ids[k..]) == Dedup([], ids)
    {
      assert ids[k..][0] == ids[k] && ids[k..][1..] == ids[k + 1..];
      assert Dedup(unique, ids[k..])
          == Dedup(if ids[k] in unique then unique else unique + [ids[k]], ids[k + 1..]);
      if ids[k] !in unique {
        unique := unique + [ids[k]];
      }
      k := k + 1;
    }
    assert ids[k..] == [];
  }

  /** `extractSubsidyInfo`: the two `exec` loops, then, when they found nothing, every distinct
      bare id pushed by `forEach`. */
  method ExtractSubsidyInfo(s: string) returns (list: seq<SubsidyInfo>)
    ensures list == ExtractedInfo(s)
  {
    list := CollectPattern1(s);
    list := AddPattern2(s, list);
    if |list| == 0 {
      var unique := UniqueIds(AllIds3(s, 0));
      list := FallbackList(unique);
    }
  }

  /** The `forEach` of tier 3: one entry per distinct id, named after it. */
  method FallbackList(unique: seq<string>) returns (list: seq<SubsidyInfo>)
    ensures list == Fallback(unique)
  {
    list := [];
    var j := 0;
    while j < |unique|
      invariant 0 <= j <= |unique|
      invariant list == Fallback(unique[..j])
    {
      assert unique[..j + 1][..j] == unique[..j];
      list := list + [SubsidyInfo(unique[j], FallbackNamePrefix + unique[j])];
      j := j + 1;
    }
    assert unique[..j] == unique;
  }

  // ---------------------------------------------------------------------------------------
  // Properties of the extracted list

  /** Every entry AddNew appends is one of the entries it was given. */
  lemma {:induction false} AddNewFromFound(list: seq<SubsidyInfo>, found: seq<SubsidyInfo>)
    ensures forall k | |list| <= k < |AddNew(list, found)| :: AddNew(list, found)[k] in found
    decreases |found|
  {
    if found != [] {
      var next := if HasId(list, found[0].id) then list else list + [found[0]];
      var r := AddNew(next, found[1..]);
      assert r == AddNew(list, found);
      AddNewFromFound(next, found[1..]);
      forall k | |list| <= k < |r| ensures r[k] in found {
        if k < |next| {
          assert r[k] == next[k] == found[0];
        } else {
          assert r[k] in found[1..];
        }
      }
    }
  }

  /** Every id of the list is well formed. */
  predicate AllIdsWellFormed(list: seq<SubsidyInfo>) {
    forall k | 0 <= k < |list| :: WellFormedId(list[k].id)
  }

  /** The entries of valid matches have well-formed ids. */
  lemma MatchIdsWellFormed(s: string, ms: seq<RawMatch>)
    requires forall k | 0 <= k < |ms| :: ValidMatch(s, ms[k])
    ensures AllIdsWellFormed(EntriesOf(ms))
  {
    var t := EntriesOf(ms);
    EntriesOfAt(ms);
    forall k | 0 <= k < |t| ensures WellFormedId(t[k].id) {
      assert t[k] == InfoOf(ms[k]) && ValidMatch(s, ms[k]);
    }
  }

  /** Appending entries with well-formed ids keeps every id well formed. */
  lemma AddNewIdsWellFormed(list: seq<SubsidyInfo>, found: seq<SubsidyInfo>)
    requires AllIdsWellFormed(list) && AllIdsWellFormed(found)
    ensures AllIdsWellFormed(AddNew(list, found))
  {
    var r := AddNew(list, found);
    AddNewFromFound(list, found);
    forall k | 0 <= k < |r| ensures WellFormedId(r[k].id) {
      if k < |list| {
        assert r[k] == r[..|list|][k] == list[k];
      } else {
        assert r[k] in found;
      }
    }
  }

  /** Fallback entries carry the ids they are built from. */
  lemma FallbackIdsWellFormed(u: seq<string>)
    requires forall k | 0 <= k < |u| :: WellFormedId(u[k])
    ensures AllIdsWellFormed(Fallback(u))
  {
    var r := Fallback(u);
    forall k | 0 <= k < |r| ensures WellFormedId(r[k].id) {
      assert r[k].id == u[k];
    }
  }

  /** Every string `[...new Set(ids)]` keeps is one of `ids`, so it keeps well-formed ids. */
  lemma DedupWithin(ids: seq<string>, u: seq<string>)
    requires forall k | 0 <= k < |ids| :: WellFormedId(ids[k])
    requires u == Dedup([], ids)
    ensures forall k | 0 <= k < |u| :: WellFormedId(u[k])
  {
    forall k | 0 <= k < |u| ensures WellFormedId(u[k]) {
      assert u[k] in u;
      var j :| 0 <= j < |ids| && ids[j] == u[k];
    }
  }

  /** Every returned id is `subsidy_` followed by at least one digit. */
  lemma ExtractedIdsWellFormed(s: string)
    ensures AllIdsWellFormed(ExtractedInfo(s))
  {
    AllMatches1Ends(s, 0);
    AllMatches2Ends(s, 0);
    MatchIdsWellFormed(s, AllMatches1(s, 0));
    MatchIdsWellFormed(s, AllMatches2(s, 0));
    AddNewIdsWellFormed(EntriesOf(AllMatches1(s, 0)), EntriesOf(AllMatches2(s, 0)));
    AllIds3WellFormed(s, 0);
    DedupWithin(AllIds3(s, 0), Dedup([], AllIds3(s, 0)));
    FallbackIdsWellFormed(Dedup([], AllIds3(s, 0)));
  }

  /** Tiers 1 and 2 find something only where the text spells an id. */
  lemma Tiers12NeedIdStart(s: string)
    requires Tiers12(s) != []
    ensures exists p: nat :: IdStartsAt(s, p)
  {
    var ms1, ms2 := AllMatches1(s, 0), AllMatches2(s, 0);
    AllMatches1Ends(s, 0);
    AllMatches2Ends(s, 0);
    if ms1 != [] {
      assert IdStartsAt(s, ms1[0].idPos);
    } else {
      assert EntriesOf(ms1) == [];
      assert AddNew([], EntriesOf(ms2)) != [];
      assert ms2 != [];
      assert IdStartsAt(s, ms2[0].idPos);
    }
  }

  /** Text without any `subsidy_<digit>` yields the empty list. */
  lemma NoIdNoInfo(s: string)
    ensures (forall p: nat :: !IdStartsAt(s, p)) ==> ExtractedInfo(s) == []
  {
    if Tiers12(s) != [] {
      Tiers12NeedIdStart(s);
    } else if AllIds3(s, 0) != [] {
      assert IdStartsAt(s, Exec3(s, 0).value);
    }
  }

  /** Tier-1 entries come first, in text order, with trimmed names and without de-duplication. */
  lemma Tier1Prefix(s: string)
    ensures var t1 := EntriesOf(AllMatches1(s, 0));
            |t1| <= |ExtractedInfo(s)| && ExtractedInfo(s)[..|t1|] == t1
  {
  }

  /** A tier-2 entry is appended only when its id is not listed before it, and every tier-2 id
      ends up listed. */
  lemma Tier2OnlyNewIds(s: string)
    ensures NoRepeatsFrom(ExtractedInfo(s), |EntriesOf(AllMatches1(s, 0))|)
    ensures forall m | m in AllMatches2(s, 0) :: HasId(ExtractedInfo(s), m.id)
    ensures Tiers12(s) != [] ==>
              FirstEntriesAfter(EntriesOf(AllMatches1(s, 0)), EntriesOf(AllMatches2(s, 0)), ExtractedInfo(s))
  {
    AddNewFirstEntries(EntriesOf(AllMatches1(s, 0)), EntriesOf(AllMatches2(s, 0)));
    var ms2 := AllMatches2(s, 0);
    var t2 := EntriesOf(ms2);
    EntriesOfAt(ms2);
    var list := ExtractedInfo(s);
    assert list == Assemble(EntriesOf(AllMatches1(s, 0)), t2, AllIds3(s, 0));
    AssembleOnlyNewIds(EntriesOf(AllMatches1(s, 0)), t2, AllIds3(s, 0));
    forall m | m in ms2 ensures HasId(list, m.id) {
      var j :| 0 <= j < |ms2| && ms2[j] == m;
      assert t2[j].id == m.id && HasId(list, t2[j].id);
    }
  }

  /** Past position `n`, no entry repeats the id of an earlier one. */
  predicate NoRepeatsFrom(list: seq<SubsidyInfo>, n: nat) {
    forall k | n <= k < |list| :: !HasId(list[..k], list[k].id)
  }

  /** The assembled list: past the tier-1 entries no id repeats an earlier one, and every tier-2
      id is listed. */
  lemma AssembleOnlyNewIds(tier1: seq<SubsidyInfo>, tier2: seq<SubsidyInfo>, ids: seq<string>)
    ensures NoRepeatsFrom(Assemble(tier1, tier2, ids), |tier1|)
    ensures forall j | 0 <= j < |tier2| :: HasId(Assemble(tier1, tier2, ids), tier2[j].id)
  {
    var list := AddNew(tier1, tier2);
    AddNewDistinct(tier1, tier2);
    if |list| == 0 {
      FallbackOfDistinctIds(ids);
      FallbackNoRepeats(Fallback(Dedup([], ids)));
    }
  }

  /** A list whose ids are pairwise distinct never repeats an earlier id. */
  lemma FallbackNoRepeats(full: seq<SubsidyInfo>)
    requires forall i, j | 0 <= i < j < |full| :: full[i].id != full[j].id
    ensures NoRepeatsFrom(full, 0)
  {
    forall k | 0 <= k < |full| ensures !HasId(full[..k], full[k].id) {
      forall j | 0 <= j < k ensures full[..k][j].id != full[k].id {
        assert full[..k][j] == full[j];
      }
    }
  }

  /** The fallback list over `ids`: each distinct id once, in the order of its first occurrence,
      named after itself. */
  lemma FallbackOfDistinctIds(ids: seq<string>)
    ensures var list := Fallback(Dedup([], ids));
            && (forall i, j | 0 <= i < j < |list| :: list[i].id != list[j].id)
            && (forall id :: id in ids <==> HasId(list, id))
            && (forall k | 0 <= k < |list| :: list[k].name == FallbackNamePrefix + list[k].id)
            && (forall i, j | 0 <= i < j < |list| :: FirstIndex(ids, list[i].id) < FirstIndex(ids, list[j].id))
  {
    var u := Dedup([], ids);
    var list := Fallback(u);
    forall id ensures id in ids <==> HasId(list, id) {
      if id in u {
        var k :| 0 <= k < |u| && u[k] == id;
        assert list[k].id == id;
      }
    }
  }

  /** The bare-id fallback runs only when tiers 1 and 2 found nothing; it then lists each
      distinct id of the text once, in the order the ids first occur, named `補助金 <id>`. */
  lemma FallbackDistinct(s: string)
    requires Tiers12(s) == []
    ensures var list := ExtractedInfo(s);
            && (forall i, j | 0 <= i < j < |list| :: list[i].id != list[j].id)
            && (forall id :: id in AllIds3(s, 0) <==> HasId(list, id))
            && (forall k | 0 <= k < |list| :: list[k].name == FallbackNamePrefix + list[k].id)
            && (forall i, j | 0 <= i < j < |list| :: FirstIndex(AllIds3(s, 0), list[i].id) < FirstIndex(AllIds3(s, 0), list[j].id))
  {
    var ids := AllIds3(s, 0);
    FallbackOfDistinctIds(ids);
    AssembleFallback(EntriesOf(AllMatches1(s, 0)), EntriesOf(AllMatches2(s, 0)), ids);
  }

  /** When the two patterns add nothing, the list is the fallback over the distinct bare ids. */
  lemma AssembleFallback(tier1: seq<SubsidyInfo>, tier2: seq<SubsidyInfo>, ids: seq<string>)
    requires AddNew(tier1, tier2) == []
    ensures Assemble(tier1, tier2, ids) == Fallback(Dedup([], ids))
  {
  }

  /** `extractSubsidyIds`: the ids of the extracted list, in the same order. */
  function ExtractSubsidyIds(s: string): (ids: seq<string>)
    ensures |ids| == |ExtractedInfo(s)|
    ensures forall k | 0 <= k < |ids| :: ids[k] == ExtractedInfo(s)[k].id && WellFormedId(ids[k])
  {
    ExtractedIdsWellFormed(s);
    var list := ExtractedInfo(s);
    seq(|list|, k requires 0 <= k < |list| => list[k].id)
  }

  /** `getFirstSubsidyId`: null exactly when nothing was extracted, else the first id. */
  function GetFirstSubsidyId(s: string): (r: Option<string>)
    ensures r.None? <==> ExtractedInfo(s) == []
    ensures r.Some? ==> r.value == ExtractedInfo(s)[0].id && WellFormedId(r.value)
  {
    ExtractedIdsWellFormed(s);
    var list := ExtractedInfo(s);
    if |list| > 0 then Some(list[0].id) else None
  }

  datatype SubsidyListResponse = SubsidyListResponse(subsidies: seq<SubsidyInfo>, hasMultiple: bool)

  /** `parseSubsidyListResponse`: the extracted list, and whether it holds more than one entry. */
  function ParseSubsidyListResponse(s: string): (r: SubsidyListResponse)
    ensures r.subsidies == ExtractedInfo(s)
    ensures r.hasMultiple <==> |r.subsidies| > 1
  {
    var list := ExtractedInfo(s);
    SubsidyListResponse(list, |list| > 1)
  }
}
