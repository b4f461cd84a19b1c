/** Writing a `JSONArray` as text: `join(separator)`, the compact
    `toString()` and the pretty-printing `toString(indentFactor, indent)`.
    How a single element is written is the business of `JSONUtils`, which
    is a collaborator here. */
module Serialize {
  import opened Results
  import opened JsonValues
  import opened Text

  /** `JSONUtils.valueToString` applied to each slot in order; the first
      failure is the one thrown. */
  function RenderAll(env: Env, a: seq<JsonValue>): (r: Result<seq<string>>)
    ensures r.Success? <==> forall i :: 0 <= i < |a| ==> env.valueToString(a[i]).Success?
    ensures r.Success? ==>
              && |r.value| == |a|
              && forall i :: 0 <= i < |a| ==> r.value[i] == env.valueToString(a[i]).value
  {
    if a == [] then Success([])
    else
      var head :- env.valueToString(a[0]);
      var rest :- RenderAll(env, a[1..]);
      assert forall i :: 1 <= i < |a| ==> a[1..][i - 1] == a[i];
      Success([head] + rest)
  }

  /** `join(separator)`: the slot texts with `separator` between
      neighbours. */
  function Join(env: Env, a: seq<JsonValue>, sep: string): (r: Result<string>)
    ensures r.Success? <==> RenderAll(env, a).Success?
  {
    var parts :- RenderAll(env, a);
    Success(JoinWith(parts, sep))
  }

  /** Joining splits at every seam: the text of the whole array is the text
      of a prefix, the separator, and the text of the rest. */
  lemma JoinSeam(env: Env, a: seq<JsonValue>, sep: string, k: nat)
    requires k + 1 < |a| && Join(env, a, sep).Success?
    ensures Join(env, a[..k + 1], sep).Success? && Join(env, a[k + 1..], sep).Success?
    ensures Join(env, a, sep).value == Join(env, a[..k + 1], sep).value + sep + Join(env, a[k + 1..], sep).value
  {
    var parts := RenderAll(env, a).value;
    RenderSlice(env, a, 0, k + 1);
    RenderSlice(env, a, k + 1, |a|);
    assert a[..k + 1] == a[0..k + 1] && parts[..k + 1] == parts[0..k + 1];
    assert a[k + 1..] == a[k + 1..|a|] && parts[k + 1..] == parts[k + 1..|parts|];
    SeparatorBetweenNeighbours(parts, sep, k);
  }

  /** The texts of a slice of the slots are the slice of their texts. */
  lemma RenderSlice(env: Env, a: seq<JsonValue>, lo: nat, hi: nat)
    requires lo <= hi <= |a| && RenderAll(env, a).Success?
    ensures RenderAll(env, a[lo..hi]) == Success(RenderAll(env, a).value[lo..hi])
  {
    var parts := RenderAll(env, a).value;
    forall i | 0 <= i < hi - lo
      ensures env.valueToString(a[lo..hi][i]).Success?
      ensures env.valueToString(a[lo..hi][i]).value == parts[lo..hi][i]
    {
      assert a[lo..hi][i] == a[lo + i];
    }
    var r := RenderAll(env, a[lo..hi]);
    assert r.Success?;
    assert r.value == parts[lo..hi];
  }

  /** The length of the joined text: every slot text plus one separator
      between each pair of neighbours. */
  lemma JoinLength(env: Env, a: seq<JsonValue>, sep: string)
    requires a != [] && Join(env, a, sep).Success?
    ensures |Join(env, a, sep).value| == |Concat(RenderAll(env, a).value)| + (|a| - 1) * |sep|
  {
    var parts := RenderAll(env, a).value;
    assert Join(env, a, sep).value == JoinWith(parts, sep);
    JoinWithLength(parts, sep);
    hide *;
  }

  /** `toString()`: `[`, the slots joined by `,`, `]`; Java `null` when a
      slot cannot be written. */
  function ToString(env: Env, a: seq<JsonValue>): (r: Option<string>)
    ensures r.Some? <==> Join(env, a, ",").Success?
    ensures r.Some? ==> |r.value| >= 2 && r.value[0] == '[' && r.value[|r.value| - 1] == ']'
  {
    match Join(env, a, ",")
    case Success(s) => Some("[" + s + "]")
    case Failure(_) => None
  }

  /** Appending a slot to a non-empty array inserts `,` and its text before
      the closing bracket. */
  lemma ToStringAppend(env: Env, a: seq<JsonValue>, v: JsonValue)
    requires a != [] && ToString(env, a).Some? && env.valueToString(v).Success?
    ensures ToString(env, a + [v]).Some?
    ensures var s := ToString(env, a).value;
      ToString(env, a + [v]).value == s[..|s| - 1] + "," + env.valueToString(v).value + "]"
  {
    var b := a + [v];
    assert b[..|a|] == a && b[|a|..] == [v];
    var single := RenderAll(env, [v]);
    assert single.Success?;
    assert single.value == [env.valueToString(v).value];
    if |a| > 0 {
      JoinSeam(env, b, ",", |a| - 1);
    }
  }

  lemma ToStringSmall(env: Env, v: JsonValue)
    ensures ToString(env, []) == Some("[]")
    ensures env.valueToString(v).Success? ==> ToString(env, [v]) == Some("[" + env.valueToString(v).value + "]")
  {
    assert Join(env, [], ",") == Success("");
    assert "[" + "" + "]" == "[]";
    if env.valueToString(v).Success? {
      var single := RenderAll(env, [v]);
      assert single.Success?;
      assert single.value == [env.valueToString(v).value];
      assert Join(env, [v], ",") == Success(env.valueToString(v).value);
    }
  }

  // ---------------------------------------------------------------------
  // Pretty printing
  // ---------------------------------------------------------------------

  /** Java `int` addition: the sum wrapped into the 32-bit range. */
  function Int32Add(x: int, y: int): (r: int)
    ensures -0x8000_0000 <= r < 0x8000_0000
    ensures -0x8000_0000 <= x + y < 0x8000_0000 ==> r == x + y
  {
    (x + y + 0x8000_0000) % 0x1_0000_0000 - 0x8000_0000
  }

  /** `JSONUtils.valueToString(value, indentFactor, indent)` for each slot
      in order; the first failure is the one thrown. */
  function RenderIndentedAll(env: Env, a: seq<JsonValue>, factor: int, indent: int): (r: Result<seq<string>>)
    ensures r.Success? <==> forall i :: 0 <= i < |a| ==> env.valueToIndentedString(a[i], factor, indent).Success?
    ensures r.Success? ==>
              && |r.value| == |a|
              && forall i :: 0 <= i < |a| ==> r.value[i] == env.valueToIndentedString(a[i], factor, indent).value
  {
    if a == [] then Success([])
    else
      var head :- env.valueToIndentedString(a[0], factor, indent);
      var rest :- RenderIndentedAll(env, a[1..], factor, indent);
      assert forall i :: 1 <= i < |a| ==> a[1..][i - 1] == a[i];
      Success([head] + rest)
  }

  /** The layout `toString(indentFactor, indent)` produces: `[]` when
      empty; the one slot between brackets, on the same line, when there is
      one; otherwise `[`, one slot per line indented by
      `indent + indentFactor` (as a Java `int`), and `]` on its own line
      indented by `indent` -- with `indent` spaces also put in front of the
      opening bracket. */
  function Indented(env: Env, a: seq<JsonValue>, factor: int, indent: int): (r: Result<string>)
  {
    if |a| == 0 then Success("[]")
    else if |a| == 1 then
      var s :- env.valueToIndentedString(a[0], factor, indent);
      Success("[" + s + "]")
    else
      var inner := Int32Add(indent, factor);
      var parts :- RenderIndentedAll(env, a, factor, inner);
      var lines := seq(|parts|, i requires 0 <= i < |parts| => Spaces(inner) + parts[i]);
      Success(Spaces(indent) + "[\n" + JoinWith(lines, ",\n") + "\n" + Spaces(indent) + "]")
  }

  /** The library's loop: a buffer grown by appends, then `indent` spaces
      inserted at its front one at a time. */
  method ToStringIndented(env: Env, a: seq<JsonValue>, factor: int, indent: int) returns (r: Result<string>)
    requires -0x8000_0000 <= factor < 0x8000_0000 && -0x8000_0000 <= indent < 0x8000_0000
    ensures r == Indented(env, a, factor, indent)
  {
    if |a| == 0 {
      return Success("[]");
    }
    if |a| == 1 {
      var s := env.valueToIndentedString(a[0], factor, indent);
      if s.Failure? {
        return Failure(s.error);
      }
      return Success("[" + s.value + "]");
    }
    var inner := Int32Add(indent, factor);
    var body := IndentedLines(env, a, factor, inner);
    if body.Failure? {
      return Failure(body.error);
    }
    var sb := "[\n" + body.value;
    var tail := AppendSpaces("\n", indent);
    sb := PrependSpaces(sb + tail, indent);
    assert sb + "]" == Spaces(indent) + "[\n" + body.value + "\n" + Spaces(indent) + "]";
    r := Success(sb + "]");
  }

  /** `for (j = 0; j < n; j++) sb.insert(0, ' ')` on a buffer holding `s`. */
  method PrependSpaces(s: string, n: int) returns (r: string)
    ensures r == Spaces(n) + s
  {
    r := s;
    var m := 0;
    while m < n
      invariant 0 <= m <= if n < 0 then 0 else n
      invariant r == Spaces(m) + s
    {
      r := " " + r;
      m := m + 1;
    }
    assert Spaces(m) == Spaces(n);
  }

  /** `for (j = 0; j < n; j++) sb.append(' ')` on a buffer holding `s`. */
  method AppendSpaces(s: string, n: int) returns (r: string)
    ensures r == s + Spaces(n)
  {
    r := s;
    var j := 0;
    while j < n
      invariant 0 <= j <= if n < 0 then 0 else n
      invariant r == s + Spaces(j)
    {
      r := r + " ";
      j := j + 1;
      SpacesSnoc(j);
    }
    if n < 0 {
      assert Spaces(n) == Spaces(0);
    }
  }

  /** The element loop of `toString(indentFactor, indent)` for two or more
      slots: each slot on its own line, indented by `inner`, lines
      separated by `,` and a newline. */
  method IndentedLines(env: Env, a: seq<JsonValue>, factor: int, inner: int) returns (r: Result<string>)
    ensures r.Success? <==> RenderIndentedAll(env, a, factor, inner).Success?
    ensures r.Failure? ==> r.error == RenderIndentedAll(env, a, factor, inner).error
    ensures r.Success? ==>
              var parts := RenderIndentedAll(env, a, factor, inner).value;
              r.value == JoinWith(seq(|parts|, i requires 0 <= i < |parts| => Spaces(inner) + parts[i]), ",\n")
  {
    ghost var lines: seq<string> := [];
    var sb := "";
    var i := 0;
    while i < |a|
      invariant 0 <= i <= |a|
      invariant forall k :: 0 <= k < i ==> env.valueToIndentedString(a[k], factor, inner).Success?
      invariant |lines| == i
      invariant forall k :: 0 <= k < i ==>
                  lines[k] == Spaces(inner) + env.valueToIndentedString(a[k], factor, inner).value
      invariant sb == JoinWith(lines, ",\n")
    {
      if i > 0 {
        sb := sb + ",\n";
      }
      var pad := AppendSpaces("", inner);
      var s := env.valueToIndentedString(a[i], factor, inner);
      if s.Failure? {
        FirstIndentedFailure(env, a, factor, inner, i);
        return Failure(s.error);
      }
      JoinWithSnoc(lines, ",\n", pad + s.value);
      sb := sb + pad + s.value;
      lines := lines + [pad + s.value];
      i := i + 1;
    }
    IndentedLinesAreParts(env, a, factor, inner, lines);
    r := Success(sb);
  }

  /** One more line at the end of a joined text. */
  lemma JoinWithSnoc(lines: seq<string>, sep: string, x: string)
    ensures JoinWith(lines + [x], sep) == (if lines == [] then "" else JoinWith(lines, sep) + sep) + x
  {
    assert (lines + [x])[..|lines|] == lines;
    if lines == [] {
      assert [] + [x] == [x];
    }
  }

  /** The lines collected by the loop are the indented slot texts. */
  lemma IndentedLinesAreParts(env: Env, a: seq<JsonValue>, factor: int, inner: int, lines: seq<string>)
    requires forall k :: 0 <= k < |a| ==> env.valueToIndentedString(a[k], factor, inner).Success?
    requires |lines| == |a|
    requires forall k :: 0 <= k < |a| ==>
               lines[k] == Spaces(inner) + env.valueToIndentedString(a[k], factor, inner).value
    ensures RenderIndentedAll(env, a, factor, inner).Success?
    ensures var parts := RenderIndentedAll(env, a, factor, inner).value;
      lines == seq(|parts|, i requires 0 <= i < |parts| => Spaces(inner) + parts[i])
  {
  }

  lemma SpacesSnoc(n: nat)
    requires n >= 1
    ensures Spaces(n) == Spaces(n - 1) + " "
  {
    if n > 1 {
      SpacesSnoc(n - 1);
    }
  }

  lemma FirstIndentedFailure(env: Env, a: seq<JsonValue>, factor: int, indent: int, i: nat)
    requires i < |a| && env.valueToIndentedString(a[i], factor, indent).Failure?
    requires forall k :: 0 <= k < i ==> env.valueToIndentedString(a[k], factor, indent).Success?
    ensures RenderIndentedAll(env, a, factor, indent).Failure?
    ensures RenderIndentedAll(env, a, factor, indent).error == env.valueToIndentedString(a[i], factor, indent).error
  {
    if i > 0 {
      assert a[1..][i - 1] == a[i];
      FirstIndentedFailure(env, a[1..], factor, indent, i - 1);
    }
  }

  lemma Framed(p: string, m: string, q: string)
    ensures |p + m + q| == |p| + |m| + |q|
    ensures (p + m + q)[..|p|] == p
    ensures (p + m + q)[|p + m + q| - |q|..] == q
  {
  }

  /** With two or more slots the text opens with `indent` spaces before the
      bracket and closes with `]` on a line indented by `indent`; the slot
      lines are indented by the wrapped sum, which is negative (no
      indentation at all) when `indent + indentFactor` overflows. */
  lemma IndentedLayout(env: Env, a: seq<JsonValue>, factor: int, indent: int)
    requires |a| >= 2 && Indented(env, a, factor, indent).Success?
    ensures var s := Indented(env, a, factor, indent).value;
      var n := if indent < 0 then 0 else indent;
      && |s| >= 2 * n + 4
      && s[..n + 2] == Spaces(indent) + "[\n"
      && s[|s| - (n + 2)..] == "\n" + Spaces(indent) + "]"
  {
    var inner := Int32Add(indent, factor);
    var parts := RenderIndentedAll(env, a, factor, inner).value;
    var lines := seq(|parts|, i requires 0 <= i < |parts| => Spaces(inner) + parts[i]);
    var p := Spaces(indent) + "[\n";
    var m := JoinWith(lines, ",\n");
    var q := "\n" + Spaces(indent) + "]";
    assert Indented(env, a, factor, indent).value == p + m + q;
    Framed(p, m, q);
  }

  lemma IndentOverflow()
    ensures Int32Add(0x7fff_ffff, 1) == -0x8000_0000
    ensures Spaces(Int32Add(0x7fff_ffff, 1)) == ""
  {
  }
}
