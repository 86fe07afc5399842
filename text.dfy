/** The PHP string primitives the adapters use (`substr` tests, `stripos`, `strpos`, `rtrim`, `ltrim`, `trim`,
    `explode`, `implode`, `str_replace` of one character, `empty`), written over `string`, and the
    lexicographic key order object-storage providers list keys in. */
module Text {
  import opened Wrappers

  predicate StartsWith(s: string, p: string) {
    |p| <= |s| && s[..|p|] == p
  }

  predicate EndsWith(s: string, p: string) {
    |p| <= |s| && s[|s| - |p|..] == p
  }

  /** `strpos($haystack, $needle) !== false`. */
  predicate Contains(haystack: string, needle: string)
    decreases |haystack|
  {
    StartsWith(haystack, needle) || (|haystack| > 0 && Contains(haystack[1..], needle))
  }

  /** PHP's `empty()` on a string: the empty string and "0" are both empty. */
  predicate Empty(s: string) {
    s == "" || s == "0"
  }

  /** ASCII lower-casing, as `stripos` compares. */
  function Lower(c: char): char {
    if 'A' <= c <= 'Z' then (c as int + 32) as char else c
  }

  /** `0 === stripos($s, $p)`: `s` begins with `p`, ignoring ASCII case. */
  predicate StartsWithIgnoreCase(s: string, p: string) {
    |p| <= |s| && forall i :: 0 <= i < |p| ==> Lower(s[i]) == Lower(p[i])
  }

  /** Ending with a one-character suffix is having it as the last character. */
  lemma EndsWithChar(s: string, c: char)
    ensures EndsWith(s, [c]) <==> s != [] && s[|s| - 1] == c
  {
    if s != [] {
      assert s[|s| - 1..] == [s[|s| - 1]];
    }
  }

  /** `rtrim($s, c)`: every trailing `c` removed. */
  function RTrim(s: string, c: char): (r: string)
    ensures |r| <= |s| && r == s[..|r|]
    ensures r == [] || r[|r| - 1] != c
    decreases |s|
  {
    if s != [] && s[|s| - 1] == c then RTrim(s[..|s| - 1], c) else s
  }

  /** What `rtrim` removes is all `c`. */
  lemma {:induction false} RTrimDrops(s: string, c: char)
    ensures forall i :: |RTrim(s, c)| <= i < |s| ==> s[i] == c
    decreases |s|
  {
    if s != [] && s[|s| - 1] == c {
      RTrimDrops(s[..|s| - 1], c);
    }
  }

  /** `ltrim($s, c)`: every leading `c` removed. */
  function LTrim(s: string, c: char): (r: string)
    ensures |r| <= |s| && r == s[|s| - |r|..]
    ensures r == [] || r[0] != c
    decreases |s|
  {
    if s != [] && s[0] == c then LTrim(s[1..], c) else s
  }

  /** What ends the trimmed text ends the text. */
  lemma {:induction false} LTrimEndsWith(s: string, c: char, p: string)
    ensures EndsWith(LTrim(s, c), p) ==> EndsWith(s, p)
    decreases |s|
  {
    if s != [] && s[0] == c {
      LTrimEndsWith(s[1..], c, p);
      if EndsWith(s[1..], p) {
        assert s[1..][|s| - 1 - |p|..] == s[|s| - |p|..];
      }
    }
  }

  /** The directory with exactly one `/` appended when it does not end in one (what `listContents` asks
      for). */
  function Slashed(directory: string): (d: string)
    ensures EndsWith(d, "/") && StartsWith(d, directory) && |d| <= |directory| + 1
    ensures EndsWith(directory, "/") ==> d == directory
  {
    if EndsWith(directory, "/") then directory else directory + "/"
  }

  /** `trim($s, c)`. */
  function Trim(s: string, c: char): string {
    LTrim(RTrim(s, c), c)
  }

  /** Position of the first `c` in `s`. */
  function IndexOf(s: string, c: char): (r: Option<nat>)
    ensures r.Some? ==> r.value < |s| && s[r.value] == c && c !in s[..r.value]
    ensures r.None? ==> c !in s
  {
    if s == [] then None
    else if s[0] == c then Some(0)
    else
      match IndexOf(s[1..], c)
      case None => None
      case Some(k) =>
        assert s[..k + 1] == [s[0]] + s[1..][..k];
        Some(k + 1)
  }

  /** `d` occurs in `s` at position `j`. */
  predicate OccursAt(s: string, d: string, j: nat) {
    j + |d| <= |s| && s[j..j + |d|] == d
  }

  /** Position of the first occurrence of `d` in `s`. */
  function IndexOfSub(s: string, d: string): (r: Option<nat>)
    ensures r.Some? ==> OccursAt(s, d, r.value)
    ensures r.Some? ==> forall j: nat :: j < r.value ==> !OccursAt(s, d, j)
    ensures r.None? ==> forall j: nat :: !OccursAt(s, d, j)
    decreases |s|
  {
    if |s| < |d| then None
    else if s[..|d|] == d then Some(0)
    else
      var r := IndexOfSub(s[1..], d);
      assert forall j: nat :: OccursAt(s[1..], d, j) <==> OccursAt(s, d, j + 1) by {
        forall j: nat ensures OccursAt(s[1..], d, j) <==> OccursAt(s, d, j + 1) {
          if j + 1 + |d| <= |s| {
            assert s[1..][j..j + |d|] == s[j + 1..j + 1 + |d|];
          }
        }
      }
      assert !OccursAt(s, d, 0);
      match r
      case None =>
        assert forall j: nat :: !OccursAt(s, d, j) by {
          forall j: nat ensures !OccursAt(s, d, j) {
            if j > 0 {
              assert !OccursAt(s[1..], d, j - 1);
            }
          }
        }
        None
      case Some(k) =>
        assert forall j: nat :: j < k + 1 ==> !OccursAt(s, d, j) by {
          forall j: nat | j < k + 1 ensures !OccursAt(s, d, j) {
            if j > 0 {
              assert !OccursAt(s[1..], d, j - 1);
            }
          }
        }
        Some(k + 1)
  }

  /** `str_replace($from, $to, $s)` for one-character needles. */
  function ReplaceChar(s: string, from: char, to: char): (r: string)
    ensures |r| == |s|
    ensures forall i :: 0 <= i < |s| ==> r[i] == (if s[i] == from then to else s[i])
  {
    seq(|s|, i requires 0 <= i < |s| => if s[i] == from then to else s[i])
  }

  /** `explode($d, $s)`: the pieces of `s` between occurrences of `d`; never empty. */
  function Split(s: string, d: char): (parts: seq<string>)
    ensures |parts| >= 1
    ensures forall i :: 0 <= i < |parts| ==> d !in parts[i]
    decreases |s|
  {
    match IndexOf(s, d)
    case None => [s]
    case Some(i) => [s[..i]] + Split(s[i + 1..], d)
  }

  /** `implode($d, $parts)`. */
  function Join(parts: seq<string>, d: char): string
  {
    if |parts| == 0 then ""
    else if |parts| == 1 then parts[0]
    else parts[0] + [d] + Join(parts[1..], d)
  }

  lemma {:induction false} JoinSplit(s: string, d: char)
    ensures Join(Split(s, d), d) == s
    decreases |s|
  {
    match IndexOf(s, d)
    case None =>
    case Some(i) =>
      var rest := Split(s[i + 1..], d);
      var parts := [s[..i]] + rest;
      assert Split(s, d) == parts;
      JoinSplit(s[i + 1..], d);
      assert |parts| >= 2 && parts[0] == s[..i] && parts[1..] == rest;
      assert Join(parts, d) == s[..i] + [d] + s[i + 1..];
      assert s == s[..i] + [d] + s[i + 1..];
  }

  lemma {:induction false} SplitJoin(parts: seq<string>, d: char)
    requires |parts| >= 1
    requires forall i :: 0 <= i < |parts| ==> d !in parts[i]
    ensures Split(Join(parts, d), d) == parts
  {
    if |parts| == 1 {
      assert IndexOf(parts[0], d) == None;
    } else {
      SplitJoin(parts[1..], d);
      SplitCons(parts[0], Join(parts[1..], d), d);
      assert parts == [parts[0]] + parts[1..];
    }
  }

  /** Splitting a part without `d`, then `d`, then the rest, gives the part and the rest's split. */
  lemma SplitCons(p: string, rest: string, d: char)
    requires d !in p
    ensures Split(p + [d] + rest, d) == [p] + Split(rest, d)
  {
    var s := p + [d] + rest;
    assert s[..|p|] == p && s[|p| + 1..] == rest;
    IndexOfAt(s, d, |p|);
  }

  /** A `c` with none before it is the first. */
  lemma IndexOfAt(s: string, c: char, i: nat)
    requires i < |s| && s[i] == c && c !in s[..i]
    ensures IndexOf(s, c) == Some(i)
  {
    assert s[i] in s;
  }

  /** Strict lexicographic order on keys (by character code), the order providers list keys in. */
  predicate Below(a: string, b: string)
    decreases |a|
  {
    |b| > 0 && (|a| == 0 || a[0] < b[0] || (a[0] == b[0] && Below(a[1..], b[1..])))
  }

  lemma {:induction false} BelowIrreflexive(a: string)
    ensures !Below(a, a)
    decreases |a|
  {
    if |a| > 0 {
      BelowIrreflexive(a[1..]);
    }
  }

  lemma {:induction false} BelowTransitive(a: string, b: string, c: string)
    requires Below(a, b) && Below(b, c)
    ensures Below(a, c)
    decreases |a|
  {
    if |a| > 0 && a[0] == b[0] && b[0] == c[0] {
      BelowTransitive(a[1..], b[1..], c[1..]);
    }
  }

  lemma {:induction false} BelowTotal(a: string, b: string)
    ensures a == b || Below(a, b) || Below(b, a)
    decreases |a|
  {
    if |a| > 0 && |b| > 0 && a[0] == b[0] {
      BelowTotal(a[1..], b[1..]);
      if a[1..] == b[1..] {
        assert a == [a[0]] + a[1..] && b == [b[0]] + b[1..];
      }
    }
  }

  lemma BelowAsymmetric(a: string, b: string)
    requires Below(a, b)
    ensures !Below(b, a)
  {
    if Below(b, a) {
      BelowTransitive(a, b, a);
      BelowIrreflexive(a);
    }
  }

  /** A proper prefix comes first. */
  lemma {:induction false} PrefixBelow(p: string, s: string)
    requires StartsWith(s, p) && p != s
    ensures Below(p, s)
    decreases |p|
  {
    if |p| > 0 {
      assert s[1..][..|p| - 1] == p[1..];
      PrefixBelow(p[1..], s[1..]);
    }
  }

  /** The keys sharing a prefix form an interval of the order. */
  lemma {:induction false} PrefixConvex(g: string, a: string, b: string, c: string)
    requires StartsWith(a, g) && StartsWith(c, g)
    requires Below(a, b) && Below(b, c)
    ensures StartsWith(b, g)
    decreases |g|
  {
    if |g| > 0 {
      assert a[0] == g[0] && c[0] == g[0];
      assert b[0] == g[0];
      assert a[1..][..|g| - 1] == g[1..] && c[1..][..|g| - 1] == g[1..];
      PrefixConvex(g[1..], a[1..], b[1..], c[1..]);
      assert b == [b[0]] + b[1..];
    }
  }

  /** Position of the last `c` in `s`. */
  function LastIndexOf(s: string, c: char): (r: Option<nat>)
    ensures r.Some? ==> r.value < |s| && s[r.value] == c && c !in s[r.value + 1..]
    ensures r.None? ==> c !in s
    decreases |s|
  {
    if s == [] then None
    else if s[|s| - 1] == c then Some(|s| - 1)
    else
      var r := LastIndexOf(s[..|s| - 1], c);
      assert s == s[..|s| - 1] + [s[|s| - 1]];
      if r.Some? then
        assert s[r.value + 1..] == s[..|s| - 1][r.value + 1..] + [s[|s| - 1]];
        r
      else r
  }

  predicate IsDigit(c: char) {
    '0' <= c <= '9'
  }

  /** The decimal digits of `n`, as PHP writes an integer. */
  function Decimal(n: nat): (s: string)
    ensures |s| >= 1 && forall i :: 0 <= i < |s| ==> IsDigit(s[i])
  {
    if n < 10 then [('0' as int + n) as char]
    else Decimal(n / 10) + [('0' as int + n % 10) as char]
  }

  /** `intval` of a string of digits. */
  function ParseDecimal(s: string): nat
    requires forall i :: 0 <= i < |s| ==> IsDigit(s[i])
  {
    if s == [] then 0
    else
      assert IsDigit(s[|s| - 1]);
      ParseDecimal(s[..|s| - 1]) * 10 + (s[|s| - 1] as int - '0' as int)
  }

  /** Reading back the decimal text of a number gives the number. */
  lemma {:induction false} ParseDecimalOf(n: nat)
    ensures ParseDecimal(Decimal(n)) == n
  {
    var s := Decimal(n);
    if n >= 10 {
      ParseDecimalOf(n / 10);
      assert s[..|s| - 1] == Decimal(n / 10);
    }
  }
}
