/** The `java.lang.String` and commons-lang string operations the array code
    relies on: `trim`, `StringUtils.split`, `equalsIgnoreCase` against a
    lower-case ASCII word, runs of spaces, and separator joining. */
module Text {

  /** `String.trim` removes every character up to and including U+0020. */
  predicate IsBlank(c: char) {
    c <= ' '
  }

  /** The number of blanks at the start of `s`. */
  function LeadingBlanks(s: string): (k: nat)
    ensures k <= |s|
    ensures forall i :: 0 <= i < k ==> IsBlank(s[i])
    ensures k == |s| || !IsBlank(s[k])
  {
    if |s| == 0 || !IsBlank(s[0]) then 0 else 1 + LeadingBlanks(s[1..])
  }

  /** The number of blanks at the end of `s`. */
  function TrailingBlanks(s: string): (k: nat)
    ensures k <= |s|
    ensures forall i :: |s| - k <= i < |s| ==> IsBlank(s[i])
    ensures k == |s| || !IsBlank(s[|s| - k - 1])
  {
    if |s| == 0 || !IsBlank(s[|s| - 1]) then 0 else 1 + TrailingBlanks(s[..|s| - 1])
  }

  /** `String.trim`: the longest slice of `s` that neither starts nor ends
      with a blank, obtained by dropping only blanks. */
  function Trim(s: string): (r: string)
    ensures |r| <= |s|
    ensures var a := LeadingBlanks(s);
      && a + |r| <= |s|
      && r == s[a..a + |r|]
      && (forall i :: a + |r| <= i < |s| ==> IsBlank(s[i]))
    ensures r == [] || (!IsBlank(r[0]) && !IsBlank(r[|r| - 1]))
  {
    var a := LeadingBlanks(s);
    var t := s[a..];
    var b := TrailingBlanks(t);
    t[..|t| - b]
  }

  lemma TrimIdempotent(s: string)
    ensures Trim(Trim(s)) == Trim(s)
  {
    var r := Trim(s);
    assert LeadingBlanks(r) == 0;
    if r != [] {
      assert TrailingBlanks(r) == 0;
    }
  }

  /** The characters of `s` other than `c`, in order. */
  function Without(s: string, c: char): string {
    if s == [] then [] else (if s[0] == c then [] else [s[0]]) + Without(s[1..], c)
  }

  lemma {:induction false} WithoutAppend(a: string, b: string, c: char)
    ensures Without(a + b, c) == Without(a, c) + Without(b, c)
  {
    if a == [] {
      assert a + b == b;
    } else {
      var head := if a[0] == c then [] else [a[0]];
      assert (a + b)[0] == a[0];
      assert (a + b)[1..] == a[1..] + b;
      WithoutAppend(a[1..], b, c);
      assert Without(a + b, c) == head + Without(a[1..] + b, c);
    }
  }

  function Concat(parts: seq<string>): string {
    if parts == [] then [] else parts[0] + Concat(parts[1..])
  }

  /** The run of non-separator characters collected so far is `cur`; the rest
      of the input is `s`. */
  function SplitFrom(s: string, sep: char, cur: string): (parts: seq<string>)
    requires sep !in cur
    ensures forall k :: 0 <= k < |parts| ==> parts[k] != [] && sep !in parts[k]
    ensures Concat(parts) == cur + Without(s, sep)
    decreases |s|
  {
    if s == [] then
      (if cur == [] then [] else [cur])
    else if s[0] == sep then
      var rest := SplitFrom(s[1..], sep, []);
      if cur == [] then rest else [cur] + rest
    else
      var rest := SplitFrom(s[1..], sep, cur + [s[0]]);
      assert cur + Without(s, sep) == (cur + [s[0]]) + Without(s[1..], sep);
      rest
  }

  /** commons-lang `StringUtils.split(s, "c")`: the maximal runs of
      non-separator characters; adjacent separators yield no empty part. */
  function Split(s: string, sep: char): (parts: seq<string>)
    ensures forall k :: 0 <= k < |parts| ==> parts[k] != [] && sep !in parts[k]
    ensures Concat(parts) == Without(s, sep)
  {
    SplitFrom(s, sep, [])
  }

  /** Separator joining as `JSONArray.join` builds it: `sep` before every part
      but the first. */
  function JoinWith(parts: seq<string>, sep: string): string
    decreases |parts|
  {
    if |parts| == 0 then []
    else if |parts| == 1 then parts[0]
    else JoinWith(parts[..|parts| - 1], sep) + sep + parts[|parts| - 1]
  }

  /** Joining two non-empty lists puts exactly one separator at the seam. */
  lemma {:induction false} JoinWithAppend(a: seq<string>, b: seq<string>, sep: string)
    requires a != [] && b != []
    ensures JoinWith(a + b, sep) == JoinWith(a, sep) + sep + JoinWith(b, sep)
    decreases |b|
  {
    if |b| == 1 {
      assert (a + b)[..|a + b| - 1] == a;
    } else {
      var b' := b[..|b| - 1];
      assert (a + b)[..|a + b| - 1] == a + b';
      JoinWithAppend(a, b', sep);
    }
  }

  /** Every part is separated from the next by exactly one `sep`: the text
      splits at the seam after any part. */
  lemma SeparatorBetweenNeighbours(parts: seq<string>, sep: string, k: nat)
    requires k + 1 < |parts|
    ensures JoinWith(parts, sep)
         == JoinWith(parts[..k + 1], sep) + sep + JoinWith(parts[k + 1..], sep)
  {
    assert parts == parts[..k + 1] + parts[k + 1..];
    JoinWithAppend(parts[..k + 1], parts[k + 1..], sep);
  }

  lemma {:induction false} JoinWithLength(parts: seq<string>, sep: string)
    requires parts != []
    ensures |JoinWith(parts, sep)| == |Concat(parts)| + (|parts| - 1) * |sep|
    decreases |parts|
  {
    if |parts| > 1 {
      var init := parts[..|parts| - 1];
      JoinWithLength(init, sep);
      ConcatSnoc(init, parts[|parts| - 1]);
      assert init + [parts[|parts| - 1]] == parts;
    }
  }

  lemma {:induction false} ConcatSnoc(parts: seq<string>, last: string)
    ensures Concat(parts + [last]) == Concat(parts) + last
  {
    if parts != [] {
      assert (parts + [last])[1..] == parts[1..] + [last];
      ConcatSnoc(parts[1..], last);
    }
  }

  /** The imperative loop of `JSONArray.join`. */
  method JoinLoop(parts: seq<string>, sep: string) returns (s: string)
    ensures s == JoinWith(parts, sep)
  {
    s := [];
    var i := 0;
    while i < |parts|
      invariant 0 <= i <= |parts|
      invariant s == JoinWith(parts[..i], sep)
    {
      if i > 0 {
        s := s + sep;
      }
      s := s + parts[i];
      assert parts[..i + 1][..i] == parts[..i];
      i := i + 1;
    }
    assert parts[..|parts|] == parts;
  }

  /** `n` space characters; none when `n` is zero or negative, as the
      library's `for (j = 0; j < n; j++)` loops produce. */
  function Spaces(n: int): (r: string)
    ensures |r| == if n <= 0 then 0 else n
    ensures forall i :: 0 <= i < |r| ==> r[i] == ' '
    decreases n
  {
    if n <= 0 then [] else [' '] + Spaces(n - 1)
  }

  predicate IsAsciiLower(c: char) {
    'a' <= c <= 'z'
  }

  function ToAsciiUpper(c: char): char
    requires IsAsciiLower(c)
  {
    (c as int - 32) as char
  }

  /** `Character.toUpperCase`/`toLowerCase` as `String.equalsIgnoreCase`
      applies them, specialised to a lower-case ASCII letter `t`: besides the
      letter in either case, U+017F (long s) matches `s`, U+0131 (dotless i)
      and U+0130 (capital I with dot) match `i`, and U+212A (Kelvin sign)
      matches `k`. */
  predicate CharEqualsIgnoreCase(c: char, t: char)
    requires IsAsciiLower(t)
  {
    || c == t
    || c == ToAsciiUpper(t)
    || (t == 's' && c == '\U{017F}')
    || (t == 'i' && (c == '\U{0131}' || c == '\U{0130}'))
    || (t == 'k' && c == '\U{212A}')
  }

  /** `s.equalsIgnoreCase(word)` for a word of lower-case ASCII letters. */
  predicate EqualsIgnoreCase(s: string, word: string)
    requires forall i :: 0 <= i < |word| ==> IsAsciiLower(word[i])
  {
    |s| == |word| && forall i :: 0 <= i < |s| ==> CharEqualsIgnoreCase(s[i], word[i])
  }
}
