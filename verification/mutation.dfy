/** Growing and overwriting a `JSONArray`: `add` (behind every
    `put(value)`/`element(value)` append), `put(JSON)`, `put(String)`,
    `put(int, Object)` and `put(int, String)` with their null padding.
    `add` and `put(String)` map the old slots to the new ones, or to the
    failure the library throws, in which case the array is left as the call
    found it.  The indexed `put`s pad the array before their final append, so
    a failing call past the end leaves the padding behind: they return the
    array as it stands after the call together with what was thrown. */
module Mutation {
  import opened Results
  import opened JsonValues
  import opened Conversion
  import Access

  /** `add(value, excludes, ...)`: the converted value is appended. */
  function Add(env: Env, a: seq<JsonValue>, v: NativeValue, ex: Excludes): (r: Result<seq<JsonValue>>)
    ensures r.Success? <==> Convert(env, v, ex, Append).Success?
    ensures r.Success? ==> |r.value| == |a| + 1 && r.value[..|a|] == a
    ensures r.Failure? ==> r.error == Convert(env, v, ex, Append).error
  {
    var e :- Convert(env, v, ex, Append);
    Success(a + [e])
  }

  /** `put(JSON)`: the value is appended as it is, with no conversion. */
  function PutJson(a: seq<JsonValue>, j: JsonInstance): (r: seq<JsonValue>)
    ensures |r| == |a| + 1 && r[..|a|] == a && r[|a|] == j
  {
    a + [j]
  }

  /** What `put(String, ...)` and `put(int, String, ...)` store for a string
      argument: the empty string for Java `null`, the parse of text that
      `mayBeJSON` accepts, the string itself otherwise. */
  function StringSlot(env: Env, s: Option<string>, ex: Excludes): (r: Result<JsonValue>)
    ensures s.None? ==> r == Success(Str(""))
    ensures s.Some? && !env.mayBeJson(s.value) ==> r == Success(Str(s.value))
    ensures s.Some? && env.mayBeJson(s.value) ==> r == env.textToJson(s.value, ex)
  {
    match s
    case None => Success(Str(""))
    case Some(t) =>
      if env.mayBeJson(t) then
        match env.textToJson(t, ex)
        case Failure(err) => Failure(err)
        case Success(j) => Success(j)
      else Success(Str(t))
  }

  /** `put(String value, String[] excludes, boolean ...)`: appends the string
      slot.  The library parses JSON-looking text here without the
      `excludes` it was given. */
  function PutString(env: Env, a: seq<JsonValue>, s: Option<string>): (r: Result<seq<JsonValue>>)
    ensures r.Success? <==> StringSlot(env, s, NoExcludes).Success?
    ensures r.Success? ==> |r.value| == |a| + 1 && r.value[..|a|] == a
    ensures r.Success? ==> r.value[|a|] == StringSlot(env, s, NoExcludes).value
    ensures r.Failure? ==> r.error == StringSlot(env, s, NoExcludes).error
  {
    var e :- StringSlot(env, s, NoExcludes);
    Success(a + [e])
  }

  /** `a` extended with `JSONNull` up to length `n`. */
  function Padded(a: seq<JsonValue>, n: nat): (r: seq<JsonValue>)
    requires |a| <= n
    ensures |r| == n && r[..|a|] == a
    ensures forall j :: |a| <= j < n ==> r[j] == Null
  {
    a + seq(n - |a|, _ => Null)
  }

  /** The padding loop `while (index != length()) put(JSONNull)`. */
  method PadLoop(a: seq<JsonValue>, index: nat) returns (r: seq<JsonValue>)
    requires |a| <= index
    ensures r == Padded(a, index)
  {
    r := a;
    while index != |r|
      invariant |a| <= |r| <= index
      invariant r[..|a|] == a
      invariant forall j :: |a| <= j < |r| ==> r[j] == Null
      decreases index - |r|
    {
      r := PutJson(r, Null);
    }
    assert r == Padded(a, index);
  }

  /** The state an indexed `put` leaves behind: the array as it stands after
      the call, and the exception the call threw, if any. */
  datatype Outcome = Outcome(slots: seq<JsonValue>, thrown: Option<Error>)

  /** The outcome of a final step that either produces the new array or
      throws, leaving the array `before` it. */
  function Commit(before: seq<JsonValue>, step: Result<seq<JsonValue>>): (o: Outcome)
    ensures o.thrown.None? <==> step.Success?
    ensures step.Success? ==> o.slots == step.value
    ensures step.Failure? ==> o.slots == before && o.thrown == Some(step.error)
  {
    match step
    case Success(b) => Outcome(b, None)
    case Failure(err) => Outcome(before, Some(err))
  }

  /** `put(int index, Object value, excludes, ...)`: a negative index is
      "not found"; an index in range is overwritten with the value as the
      replace dispatch converts it; beyond the end the array is padded with
      `JSONNull` up to `index` and the value is appended with `add`.  A
      refused value leaves an in-range array unchanged but keeps the padding
      beyond the end. */
  function PutAt(env: Env, a: seq<JsonValue>, index: int, v: NativeValue, ex: Excludes): (r: Outcome)
    ensures index < 0 ==> r == Outcome(a, Some(NotFound(index)))
    ensures 0 <= index < |a| ==> (r.thrown.None? <==> Convert(env, v, ex, Replace).Success?)
    ensures 0 <= index < |a| && r.thrown.Some? ==>
              r.slots == a && r.thrown == Some(Convert(env, v, ex, Replace).error)
    ensures index >= |a| ==> (r.thrown.None? <==> Convert(env, v, ex, Append).Success?)
    ensures index >= |a| && r.thrown.Some? ==>
              r.slots == Padded(a, index) && r.thrown == Some(Convert(env, v, ex, Append).error)
  {
    if index < 0 then Outcome(a, Some(NotFound(index)))
    else if index < |a| then
      Commit(a, match Convert(env, v, ex, Replace)
                case Success(e) => Success(a[index := e])
                case Failure(err) => Failure(err))
    else
      Commit(Padded(a, index), Add(env, Padded(a, index), v, ex))
  }

  /** `put(int index, String value, excludes, ...)`: like `put(int, Object)`,
      but an index in range stores the string slot (parsed with the given
      `excludes`), and beyond the end the padded array gets
      `put(String, ...)`, which parses without them.  A failing parse beyond
      the end keeps the padding. */
  function PutStringAt(env: Env, a: seq<JsonValue>, index: int, s: Option<string>, ex: Excludes)
    : (r: Outcome)
    ensures index < 0 ==> r == Outcome(a, Some(NotFound(index)))
    ensures 0 <= index < |a| ==> (r.thrown.None? <==> StringSlot(env, s, ex).Success?)
    ensures 0 <= index < |a| && r.thrown.Some? ==>
              r.slots == a && r.thrown == Some(StringSlot(env, s, ex).error)
    ensures index >= |a| ==> (r.thrown.None? <==> StringSlot(env, s, NoExcludes).Success?)
    ensures index >= |a| && r.thrown.Some? ==>
              r.slots == Padded(a, index) && r.thrown == Some(StringSlot(env, s, NoExcludes).error)
  {
    if index < 0 then Outcome(a, Some(NotFound(index)))
    else if index < |a| then
      Commit(a, match StringSlot(env, s, ex)
                case Success(e) => Success(a[index := e])
                case Failure(err) => Failure(err))
    else
      Commit(Padded(a, index), PutString(env, Padded(a, index), s))
  }

  // ---------------------------------------------------------------------
  // Laws relating the writers to the readers
  // ---------------------------------------------------------------------

  /** After a successful append, `get` of the new last index returns the
      converted value and every earlier index reads as before. */
  lemma AddThenGet(env: Env, a: seq<JsonValue>, v: NativeValue, ex: Excludes, i: int)
    requires Add(env, a, v, ex).Success?
    ensures Access.Get(Add(env, a, v, ex).value, |a|) == Convert(env, v, ex, Append)
    ensures i != |a| ==> Access.Get(Add(env, a, v, ex).value, i) == Access.Get(a, i)
  {
  }

  /** Every append of a non-number, non-annotation value stores what an
      in-range `put(int, Object)` of the same value stores. */
  lemma AddMatchesPut(env: Env, a: seq<JsonValue>, index: int, v: NativeValue, ex: Excludes)
    requires 0 <= index < |a| && !v.NNumber? && !v.NAnnotation?
    requires Add(env, a, v, ex).Success?
    ensures PutAt(env, a, index, v, ex).thrown.None?
    ensures Access.Get(PutAt(env, a, index, v, ex).slots, index)
         == Access.Get(Add(env, a, v, ex).value, |a|)
  {
    assert Convert(env, v, ex, Append) == Convert(env, v, ex, Replace);
  }

  /** An in-range `put(int, Object)` changes only the slot at `index`:
      the length is unchanged, `get(index)` returns the stored element, and
      every other index reads as before. */
  lemma PutAtInRange(env: Env, a: seq<JsonValue>, index: int, v: NativeValue, ex: Excludes, i: int)
    requires 0 <= index < |a| && PutAt(env, a, index, v, ex).thrown.None?
    ensures |PutAt(env, a, index, v, ex).slots| == |a|
    ensures Access.Get(PutAt(env, a, index, v, ex).slots, index) == Convert(env, v, ex, Replace)
    ensures i != index ==> Access.Get(PutAt(env, a, index, v, ex).slots, i) == Access.Get(a, i)
  {
  }

  /** `put(int, Object)` beyond the end, whether or not the value is
      accepted: the old slots are kept and the gap reads as `JSONNull`.  On
      success the length becomes `index + 1` and the last slot holds what
      `add` stores; on failure the padded array of length `index` remains. */
  lemma PutAtBeyondEnd(env: Env, a: seq<JsonValue>, index: int, v: NativeValue, ex: Excludes, i: int)
    requires index >= |a|
    ensures 0 <= i < |a| ==> Access.Get(PutAt(env, a, index, v, ex).slots, i) == Access.Get(a, i)
    ensures |a| <= i < index ==> Access.Get(PutAt(env, a, index, v, ex).slots, i) == Success(Null)
    ensures PutAt(env, a, index, v, ex).thrown.None? ==>
              |PutAt(env, a, index, v, ex).slots| == index + 1
              && Access.Get(PutAt(env, a, index, v, ex).slots, index) == Convert(env, v, ex, Append)
    ensures PutAt(env, a, index, v, ex).thrown.Some? ==> |PutAt(env, a, index, v, ex).slots| == index
  {
    var padded := Padded(a, index);
    assert PutAt(env, a, index, v, ex) == Commit(padded, Add(env, padded, v, ex));
    if 0 <= i < |a| {
      assert padded[..|a|][i] == a[i];
    }
  }

  /** The library's own example of committed padding: `put(5, annotation)`
      on an empty array throws "Unsupported type" and leaves five `JSONNull`
      slots behind. */
  lemma AnnotationPastEnd(env: Env, ex: Excludes)
    ensures PutAt(env, [], 5, NAnnotation, ex) == Outcome([Null, Null, Null, Null, Null], Some(UnsupportedType))
  {
    assert Convert(env, NAnnotation, ex, Append) == Failure(UnsupportedType);
    assert Padded([], 5) == [Null, Null, Null, Null, Null];
  }

  /** `put(int, String)` in range keeps the length and every other slot;
      beyond the end it pads with `JSONNull` exactly like `put(int, Object)`,
      and the padding stays when the string cannot be parsed. */
  lemma PutStringAtShape(env: Env, a: seq<JsonValue>, index: int, s: Option<string>, ex: Excludes, i: int)
    requires index >= 0
    ensures index < |a| ==> |PutStringAt(env, a, index, s, ex).slots| == |a|
    ensures index >= |a| && PutStringAt(env, a, index, s, ex).thrown.None? ==>
              |PutStringAt(env, a, index, s, ex).slots| == index + 1
    ensures index >= |a| && PutStringAt(env, a, index, s, ex).thrown.Some? ==>
              |PutStringAt(env, a, index, s, ex).slots| == index
    ensures index < |a| && PutStringAt(env, a, index, s, ex).thrown.None? ==>
              Access.Get(PutStringAt(env, a, index, s, ex).slots, index) == StringSlot(env, s, ex)
    ensures index >= |a| && PutStringAt(env, a, index, s, ex).thrown.None? ==>
              Access.Get(PutStringAt(env, a, index, s, ex).slots, index) == StringSlot(env, s, NoExcludes)
    ensures i != index && !(|a| <= i < index) ==>
              Access.Get(PutStringAt(env, a, index, s, ex).slots, i) == Access.Get(a, i)
    ensures |a| <= i < index ==> Access.Get(PutStringAt(env, a, index, s, ex).slots, i) == Success(Null)
  {
    if index >= |a| {
      var padded := Padded(a, index);
      if 0 <= i < |a| {
        assert padded[..|a|][i] == a[i];
      }
    }
  }
}
