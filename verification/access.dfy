/** Reading a `JSONArray`: `opt`, `get`, `getBoolean`, `optBoolean`,
    `getString` and `optString`.  An array is the sequence of its slots. */
module Access {
  import opened Results
  import opened JsonValues
  import Text

  /** `opt(index)`: the slot at `index`, or Java `null` outside
      `0 <= index < length()`. */
  function Opt(a: seq<JsonValue>, index: int): (r: Option<JsonValue>)
    ensures r.Some? <==> 0 <= index < |a|
    ensures r.Some? ==> r.value == a[index]
  {
    if index < 0 || index >= |a| then None else Some(a[index])
  }

  /** `get(index)`: the slot at `index`; "not found" outside the array. */
  function Get(a: seq<JsonValue>, index: int): (r: Result<JsonValue>)
    ensures r.Success? <==> 0 <= index < |a|
    ensures r.Success? ==> r.value == a[index]
    ensures r.Failure? ==> r.error == NotFound(index)
  {
    match Opt(a, index)
    case None => Failure(NotFound(index))
    case Some(o) => Success(o)
  }

  /** `get` and `opt` agree: `get` fails exactly where `opt` answers
      `null`, and otherwise they return the same slot. */
  lemma GetOptAgree(a: seq<JsonValue>, index: int)
    ensures Get(a, index).Success? <==> Opt(a, index).Some?
    ensures Get(a, index).Success? ==> Get(a, index).value == Opt(a, index).value
  {
  }

  /** The word `"true"` or `"false"`. */
  function BooleanWord(b: bool): (w: string)
    ensures forall i :: 0 <= i < |w| ==> Text.IsAsciiLower(w[i])
  {
    if b then "true" else "false"
  }

  /** A slot that `getBoolean` reads as `b`: the boxed boolean, or a string
      equal to `"true"`/`"false"` ignoring case. */
  predicate Denotes(v: JsonValue, b: bool) {
    v == Bool(b) || (v.Str? && Text.EqualsIgnoreCase(v.s, BooleanWord(b)))
  }

  /** No slot reads as both truth values. */
  lemma DenotesExclusive(v: JsonValue)
    ensures !(Denotes(v, true) && Denotes(v, false))
  {
  }

  /** `getBoolean(index)`: `false` is tested before `true`; a slot that is
      neither is "not a Boolean", a missing slot is "not found". */
  function GetBoolean(a: seq<JsonValue>, index: int): (r: Result<bool>)
    ensures r.Success? <==> 0 <= index < |a| && (Denotes(a[index], true) || Denotes(a[index], false))
    ensures r.Success? ==> Denotes(a[index], r.value)
    ensures r.Failure? ==> r.error == if 0 <= index < |a| then NotBoolean(index) else NotFound(index)
  {
    var o :- Get(a, index);
    if o == Bool(false) || (o.Str? && Text.EqualsIgnoreCase(o.s, "false")) then Success(false)
    else if o == Bool(true) || (o.Str? && Text.EqualsIgnoreCase(o.s, "true")) then Success(true)
    else Failure(NotBoolean(index))
  }

  /** `optBoolean(index, defaultValue)`: `getBoolean` with every failure
      replaced by the default. */
  function OptBoolean(a: seq<JsonValue>, index: int, defaultValue: bool): (r: bool)
    ensures GetBoolean(a, index).Success? ==> r == GetBoolean(a, index).value
    ensures GetBoolean(a, index).Failure? ==> r == defaultValue
  {
    match GetBoolean(a, index)
    case Success(b) => b
    case Failure(_) => defaultValue
  }

  /** A slot that reads as a truth value reads as the same value through
      `optBoolean`, whatever the default; any other index gives the default. */
  lemma OptBooleanReadsSlot(a: seq<JsonValue>, index: int, defaultValue: bool, b: bool)
    ensures 0 <= index < |a| && Denotes(a[index], b) ==> OptBoolean(a, index, defaultValue) == b
    ensures !(0 <= index < |a| && (Denotes(a[index], true) || Denotes(a[index], false))) ==>
              OptBoolean(a, index, defaultValue) == defaultValue
  {
    if 0 <= index < |a| && Denotes(a[index], b) {
      DenotesExclusive(a[index]);
    }
  }

  /** `getBoolean` accepts the case-insensitive words the JDK's
      `equalsIgnoreCase` accepts, including the long s (U+017F) for `s`. */
  lemma BooleanSpellings()
    ensures GetBoolean([Str("TRUE")], 0) == Success(true)
    ensures GetBoolean([Str("fAlSe")], 0) == Success(false)
    ensures GetBoolean([Str("fal\U{017F}e")], 0) == Success(false)
    ensures GetBoolean([Str("yes")], 0) == Failure(NotBoolean(0))
    ensures GetBoolean([Num(1)], 0) == Failure(NotBoolean(0))
    ensures GetBoolean([], 0) == Failure(NotFound(0))
  {
    assert Text.EqualsIgnoreCase("TRUE", "true");
    assert Text.EqualsIgnoreCase("fAlSe", "false");
    assert Text.EqualsIgnoreCase("fal\U{017F}e", "false");
  }

  /** `getJSONArray(index)`: the elements of the nested array at `index`;
      "not a JSONArray" for any other slot, "not found" outside. */
  function GetJsonArray(a: seq<JsonValue>, index: int): (r: Result<seq<JsonValue>>)
    ensures r.Success? <==> 0 <= index < |a| && a[index].Array?
    ensures r.Success? ==> a[index] == Array(r.value)
    ensures r.Failure? ==> r.error == if 0 <= index < |a| then NotArray(index) else NotFound(index)
  {
    var o :- Get(a, index);
    if o.Array? then Success(o.elems) else Failure(NotArray(index))
  }

  /** `optJSONArray(index)`: the nested array at `index`, or Java `null`. */
  function OptJsonArray(a: seq<JsonValue>, index: int): (r: Option<seq<JsonValue>>)
    ensures r.Some? <==> 0 <= index < |a| && a[index].Array?
    ensures r.Some? ==> a[index] == Array(r.value)
  {
    match Opt(a, index)
    case Some(Array(es)) => Some(es)
    case _ => None
  }

  /** `getJSONObject(index)`: the object at `index` (the null object is a
      `JSONObject` too); "not a JSONObject" for any other slot. */
  function GetJsonObject(a: seq<JsonValue>, index: int): (r: Result<JsonValue>)
    ensures r.Success? <==> 0 <= index < |a| && (a[index].Object? || a[index].NullObject?)
    ensures r.Success? ==> r.value == a[index]
    ensures r.Failure? ==> r.error == if 0 <= index < |a| then NotObject(index) else NotFound(index)
  {
    var o :- Get(a, index);
    if o.Object? || o.NullObject? then Success(o) else Failure(NotObject(index))
  }

  /** `optJSONObject(index)`: the object at `index`, or Java `null`. */
  function OptJsonObject(a: seq<JsonValue>, index: int): (r: Option<JsonValue>)
    ensures r.Some? <==> 0 <= index < |a| && (a[index].Object? || a[index].NullObject?)
    ensures r.Some? ==> r.value == a[index]
  {
    match Opt(a, index)
    case Some(o) => if o.Object? || o.NullObject? then Some(o) else None
    case None => None
  }

  /** The typed `opt` readers answer `null` exactly where the typed `get`
      readers fail, and otherwise return the same value. */
  lemma TypedReadersAgree(a: seq<JsonValue>, index: int)
    ensures GetJsonArray(a, index).Success? <==> OptJsonArray(a, index).Some?
    ensures GetJsonArray(a, index).Success? ==> GetJsonArray(a, index).value == OptJsonArray(a, index).value
    ensures GetJsonObject(a, index).Success? <==> OptJsonObject(a, index).Some?
    ensures GetJsonObject(a, index).Success? ==> GetJsonObject(a, index).value == OptJsonObject(a, index).value
  {
  }

  /** `toString()` of a slot: a string is itself, a character the one-letter
      string, a boolean its word; other slots are rendered by their own
      classes. */
  function SlotText(env: Env, v: JsonValue): (s: string)
    ensures v.Str? ==> s == v.s
    ensures v.Char? ==> s == [v.c]
    ensures v.Bool? ==> s == BooleanWord(v.b)
  {
    match v
    case Str(s) => s
    case Char(c) => [c]
    case Bool(b) => BooleanWord(b)
    case _ => env.stringOf(v)
  }

  /** `getString(index)`: the text of the slot; "not found" outside. */
  function GetString(env: Env, a: seq<JsonValue>, index: int): (r: Result<string>)
    ensures r.Success? <==> 0 <= index < |a|
    ensures r.Failure? ==> r.error == NotFound(index)
    ensures r.Success? && a[index].Str? ==> r.value == a[index].s
  {
    var o :- Get(a, index);
    Success(SlotText(env, o))
  }

  /** `optString(index, defaultValue)`: the text of the slot, or the
      default outside the array. */
  function OptString(env: Env, a: seq<JsonValue>, index: int, defaultValue: string): (r: string)
    ensures !(0 <= index < |a|) ==> r == defaultValue
    ensures 0 <= index < |a| && a[index].Str? ==> r == a[index].s
  {
    match Opt(a, index)
    case None => defaultValue
    case Some(o) => SlotText(env, o)
  }

  /** `optString` is `getString` with "not found" replaced by the default. */
  lemma OptStringAgrees(env: Env, a: seq<JsonValue>, index: int, defaultValue: string)
    ensures GetString(env, a, index).Success? ==>
              OptString(env, a, index, defaultValue) == GetString(env, a, index).value
    ensures GetString(env, a, index).Failure? ==> OptString(env, a, index, defaultValue) == defaultValue
  {
  }
}
