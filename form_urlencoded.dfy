/** The `application/x-www-form-urlencoded` parser behind `new URLSearchParams(string)` and its
    `get` method, as section 5.1 of the WHATWG URL Standard defines them. */
module FormUrlEncoded {
  import opened Wrappers

  /** One name/value pair of the parsed list. */
  datatype Pair = Pair(name: string, value: string)

  /** Index of the first `c` in `s` at or after `i`, or `|s|`. */
  function IndexOf(s: string, c: char, i: nat): (j: nat)
    requires i <= |s|
    ensures i <= j <= |s|
    ensures forall k | i <= k < j :: s[k] != c
    ensures j < |s| ==> s[j] == c
    decreases |s| - i
  {
    if i == |s| || s[i] == c then i else IndexOf(s, c, i + 1)
  }

  /** Splitting on `&`, keeping empty sequences (they are skipped afterwards). */
  function SplitOnAmpersand(s: string): (parts: seq<string>)
    ensures |parts| >= 1
    decreases |s|
  {
    var i := IndexOf(s, '&', 0);
    if i == |s| then [s] else [s[..i]] + SplitOnAmpersand(s[i + 1..])
  }

  /** A string without `&` is a single sequence. */
  lemma SplitWithoutAmpersand(s: string)
    requires '&' !in s
    ensures SplitOnAmpersand(s) == [s]
  {
    assert IndexOf(s, '&', 0) == |s|;
  }

  /** `IndexOf` stops at the first `c`. */
  lemma IndexOfAt(s: string, c: char, i: nat, j: nat)
    requires i <= j <= |s|
    requires forall k | i <= k < j :: s[k] != c
    requires j < |s| ==> s[j] == c
    ensures IndexOf(s, c, i) == j
  {
  }

  /** A first sequence without `&` is split off as it is. */
  lemma SplitAfterPlainPrefix(a: string, b: string)
    requires '&' !in a
    ensures SplitOnAmpersand(a + "&" + b) == [a] + SplitOnAmpersand(b)
  {
    var s := a + "&" + b;
    assert forall k | 0 <= k < |a| :: s[k] == a[k];
    IndexOfAt(s, '&', 0, |a|);
    assert s[..|a|] == a && s[|a| + 1..] == b;
  }

  predicate IsHexDigit(c: char) {
    '0' <= c <= '9' || 'a' <= c <= 'f' || 'A' <= c <= 'F'
  }

  function HexValue(c: char): (v: nat)
    requires IsHexDigit(c)
    ensures v < 16
  {
    if '0' <= c <= '9' then c as int - '0' as int
    else if 'a' <= c <= 'f' then c as int - 'a' as int + 10
    else c as int - 'A' as int + 10
  }

  /** `+` becomes a space, then percent-decoding: `%XX` with two hex digits becomes the byte XX,
      any other `%` stays. Only bytes below 0x80 (one-byte UTF-8) are decoded; an escape of a
      higher byte is kept as written. */
  function Decode(s: string): (r: string)
    decreases |s|
  {
    if s == [] then []
    else if s[0] == '%' && |s| >= 3 && IsHexDigit(s[1]) && IsHexDigit(s[2]) && HexValue(s[1]) < 8 then
      [(HexValue(s[1]) * 16 + HexValue(s[2])) as char] + Decode(s[3..])
    else
      [if s[0] == '+' then ' ' else s[0]] + Decode(s[1..])
  }

  /** Text without `+` and `%` decodes to itself. */
  lemma {:induction false} DecodePlain(s: string)
    requires '+' !in s && '%' !in s
    ensures Decode(s) == s
    decreases |s|
  {
    if s != [] {
      assert '+' !in s[1..] && '%' !in s[1..];
      DecodePlain(s[1..]);
    }
  }

  /** One non-empty sequence: split at the first `=` (no `=` gives an empty value), then decode
      both sides. */
  function ParsePair(part: string): Pair {
    var i := IndexOf(part, '=', 0);
    if i == |part| then Pair(Decode(part), "") else Pair(Decode(part[..i]), Decode(part[i + 1..]))
  }

  /** A name without `=` followed by `=` splits there. */
  lemma ParsePairAt(a: string, b: string)
    requires '=' !in a
    ensures ParsePair(a + "=" + b) == Pair(Decode(a), Decode(b))
  {
    var s := a + "=" + b;
    assert forall k | 0 <= k < |a| :: s[k] == a[k];
    IndexOfAt(s, '=', 0, |a|);
    assert s[..|a|] == a && s[|a| + 1..] == b;
  }

  /** The parsed list of `parts`, skipping empty sequences. */
  function ParseParts(parts: seq<string>): seq<Pair> {
    if parts == [] then []
    else (if parts[0] == [] then [] else [ParsePair(parts[0])]) + ParseParts(parts[1..])
  }

  /** `new URLSearchParams(init)`: a leading `?` is dropped, then the string is parsed. */
  function Parse(init: string): seq<Pair> {
    var input := if |init| > 0 && init[0] == '?' then init[1..] else init;
    ParseParts(SplitOnAmpersand(input))
  }

  /** A pair that serialises without escaping: a non-empty name free of `&`, `=`, `+` and `%`,
      and a value free of `&`, `+` and `%`. */
  predicate PlainPair(p: Pair) {
    && p.name != []
    && '&' !in p.name && '=' !in p.name && '+' !in p.name && '%' !in p.name
    && '&' !in p.value && '+' !in p.value && '%' !in p.value
  }

  /** `name=value`. */
  function Field(p: Pair): string {
    p.name + "=" + p.value
  }

  /** The pairs written as `name=value` joined by `&`, as a postback payload is written. */
  function Serialize(pairs: seq<Pair>): string {
    if pairs == [] then ""
    else if |pairs| == 1 then Field(pairs[0])
    else Field(pairs[0]) + "&" + Serialize(pairs[1..])
  }

  lemma FieldHasNoAmpersand(p: Pair)
    requires PlainPair(p)
    ensures '&' !in Field(p)
  {
    var f := Field(p);
    forall k | 0 <= k < |f| ensures f[k] != '&' {
      if k < |p.name| { assert f[k] == p.name[k]; }
      else if k > |p.name| { assert f[k] == p.value[k - |p.name| - 1]; }
    }
  }

  lemma ParsePlainField(p: Pair)
    requires PlainPair(p)
    ensures ParsePair(Field(p)) == p
  {
    ParsePairAt(p.name, p.value);
    DecodePlain(p.name);
    DecodePlain(p.value);
  }

  /** Serialising plain pairs and parsing the sequences back gives the same pairs. */
  lemma {:induction false} ParseSerializedParts(pairs: seq<Pair>)
    requires forall k | 0 <= k < |pairs| :: PlainPair(pairs[k])
    ensures ParseParts(SplitOnAmpersand(Serialize(pairs))) == pairs
    decreases |pairs|
  {
    if pairs == [] {
      SplitWithoutAmpersand("");
      assert ParseParts([""]) == [] + ParseParts([]);
    } else {
      var f := Field(pairs[0]);
      FieldHasNoAmpersand(pairs[0]);
      ParsePlainField(pairs[0]);
      assert f != [];
      if |pairs| == 1 {
        SplitWithoutAmpersand(f);
        assert [f][1..] == [];
      } else {
        var rest := Serialize(pairs[1..]);
        SplitAfterPlainPrefix(f, rest);
        var tail := SplitOnAmpersand(rest);
        assert ([f] + tail)[1..] == tail;
        ParseSerializedParts(pairs[1..]);
        assert pairs == [pairs[0]] + pairs[1..];
      }
    }
  }

  /** The round trip through `new URLSearchParams`: plain pairs whose first name does not start
      with `?` are parsed back exactly. */
  lemma ParseSerialized(pairs: seq<Pair>)
    requires forall k | 0 <= k < |pairs| :: PlainPair(pairs[k])
    requires pairs != [] ==> pairs[0].name == [] || pairs[0].name[0] != '?'
    ensures Parse(Serialize(pairs)) == pairs
  {
    var s := Serialize(pairs);
    if pairs != [] {
      if |pairs| == 1 {
        assert s[0] == pairs[0].name[0];
      } else {
        assert s[0] == Field(pairs[0])[0] == pairs[0].name[0];
      }
    }
    ParseSerializedParts(pairs);
  }

  /** `params.get(name)`: the value of the FIRST pair with that name, or null. */
  function Get(pairs: seq<Pair>, name: string): (r: Option<string>)
    ensures r.None? <==> forall k | 0 <= k < |pairs| :: pairs[k].name != name
    ensures r.Some? ==> exists k | 0 <= k < |pairs| ::
                          pairs[k].name == name && pairs[k].value == r.value
                          && forall j | 0 <= j < k :: pairs[j].name != name
  {
    if pairs == [] then None
    else if pairs[0].name == name then Some(pairs[0].value)
    else
      var r := Get(pairs[1..], name);
      assert r.Some? ==> exists k | 1 <= k < |pairs| ::
                          pairs[k].name == name && pairs[k].value == r.value
                          && forall j | 0 <= j < k :: pairs[j].name != name by {
        if r.Some? {
          var k :| 0 <= k < |pairs[1..]| && pairs[1..][k].name == name && pairs[1..][k].value == r.value
                    && forall j | 0 <= j < k :: pairs[1..][j].name != name;
          assert pairs[k + 1].name == name && forall j | 0 <= j < k + 1 :: pairs[j].name != name;
        }
      }
      r
  }
}
