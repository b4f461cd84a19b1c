/** Leaving the JSON world: `toList(jsonArray, objectClass, classMap)`,
    which turns an array into a Java `List`, and `toJSONObject(names)`, which
    pairs a names array with the slots of this one. */
module Reverse {
  import opened Results
  import opened JsonValues
  import Access

  /** An element of the Java `List` that `toList` builds: Java `null`, a
      slot kept as it is (string, boolean, number, character, function), a
      nested `List`, or a bean made from an object slot. */
  datatype ListItem =
    | JavaNull
    | Kept(v: JsonValue)
    | Sublist(items: seq<ListItem>)
    | Bean(ref: BeanRef)

  /** The slots `toList` keeps unchanged: strings, booleans, numbers,
      characters and functions. */
  predicate IsKeptSlot(v: JsonValue) {
    v.Str? || v.Bool? || v.Num? || v.Char? || v.Function?
  }

  /** The list element `toList` makes of one slot.  `JSONUtils.isNull` is
      asked first and a slot it accepts becomes `null`; otherwise a nested
      array becomes a nested list, the kept kinds themselves, and whatever
      remains is cast to `JSONObject` and handed to `JSONObject.toBean` (a
      `JSONNull` that `isNull` refused fails that cast). */
  function Item(env: Env, v: JsonValue, target: Option<BeanTarget>): (r: Result<ListItem>)
    ensures env.isNull(v) ==> r == Success(JavaNull)
    ensures !env.isNull(v) && IsKeptSlot(v) ==> r == Success(Kept(v))
    ensures !env.isNull(v) && v.Array? ==>
              (r.Success? <==> ToList(env, v.elems, target).Success?)
              && (r.Success? ==> r.value == Sublist(ToList(env, v.elems, target).value))
              && (r.Failure? ==> r.error == ToList(env, v.elems, target).error)
    ensures !env.isNull(v) && (v.Object? || v.NullObject?) ==>
              (r.Success? <==> env.toBean(v, target).Success?)
              && (r.Success? ==> r.value == Bean(env.toBean(v, target).value))
              && (r.Failure? ==> r.error == env.toBean(v, target).error)
    ensures !env.isNull(v) && v.Null? ==> r == Failure(CastFailure)
    decreases v
  {
    if env.isNull(v) then Success(JavaNull)
    else
      match v
      case Array(es) =>
        var xs :- ToList(env, es, target);
        Success(Sublist(xs))
      case Object(_) =>
        var b :- env.toBean(v, target);
        Success(Bean(b))
      case NullObject =>
        var b :- env.toBean(v, target);
        Success(Bean(b))
      case Null => Failure(CastFailure)
      case _ => Success(Kept(v))
  }

  /** `toList(jsonArray, objectClass, classMap)`; `target` is `None` when
      `objectClass` is `null`.  The list holds one element per slot, in
      order, and the first slot that cannot be converted is the failure. */
  function ToList(env: Env, a: seq<JsonValue>, target: Option<BeanTarget>): (r: Result<seq<ListItem>>)
    ensures r.Success? <==> forall i :: 0 <= i < |a| ==> Item(env, a[i], target).Success?
    ensures r.Success? ==> |r.value| == |a|
    ensures r.Success? ==> forall i :: 0 <= i < |a| ==> r.value[i] == Item(env, a[i], target).value
    ensures r.Success? ==> forall i :: 0 <= i < |a| && env.isNull(a[i]) ==> r.value[i] == JavaNull
    ensures r.Success? ==> forall i :: 0 <= i < |a| && !env.isNull(a[i]) && IsKeptSlot(a[i]) ==>
              r.value[i] == Kept(a[i])
    ensures r.Success? ==> forall i :: 0 <= i < |a| && !env.isNull(a[i]) && a[i].Array? ==>
              ToList(env, a[i].elems, target).Success?
              && r.value[i] == Sublist(ToList(env, a[i].elems, target).value)
    ensures r.Success? ==> forall i :: 0 <= i < |a| && !env.isNull(a[i]) && (a[i].Object? || a[i].NullObject?) ==>
              env.toBean(a[i], target).Success?
              && r.value[i] == Bean(env.toBean(a[i], target).value)
    ensures r.Failure? ==>
              exists k :: 0 <= k < |a| && Item(env, a[k], target) == Failure(r.error)
                          && (forall i :: 0 <= i < k ==> Item(env, a[i], target).Success?)
    decreases a
  {
    if a == [] then Success([])
    else
      var first :- Item(env, a[0], target);
      var rest :- ToList(env, a[1..], target);
      Success([first] + rest)
  }

  /** A slot whose conversion never reaches the bean builder: one `isNull`
      accepts, a kept kind, or a nested array of such slots. */
  predicate BeanFreeSlot(env: Env, v: JsonValue)
    decreases v, 1
  {
    env.isNull(v) || IsKeptSlot(v) || (v.Array? && BeanFree(env, v.elems))
  }

  predicate BeanFree(env: Env, a: seq<JsonValue>)
    decreases a, 0
  {
    forall i :: 0 <= i < |a| ==> BeanFreeSlot(env, a[i])
  }

  /** Reading a list element back as a slot: Java `null` as `JSONNull`, kept
      slots as themselves, nested lists as nested arrays. */
  function FromItem(x: ListItem): (v: JsonValue)
    ensures x.JavaNull? ==> v.Null?
    ensures x.Kept? ==> v == x.v
    ensures x.Sublist? ==> v.Array? && v.elems == FromList(x.items)
    decreases x
  {
    match x
    case JavaNull => Null
    case Kept(v) => v
    case Sublist(xs) => Array(FromList(xs))
    case Bean(_) => NullObject
  }

  /** The inverse direction of `toList`, one element at a time. */
  function FromList(items: seq<ListItem>): (a: seq<JsonValue>)
    ensures |a| == |items|
    ensures forall i :: 0 <= i < |items| ==> a[i] == FromItem(items[i])
    decreases items
  {
    if items == [] then []
    else [FromItem(items[0])] + FromList(items[1..])
  }

  /** The arrays that read back unchanged: `isNull` accepts exactly the
      `JSONNull` slots, and no slot at any depth is an object (objects become
      beans, which do not read back). */
  predicate Reversible(env: Env, a: seq<JsonValue>)
    decreases a
  {
    forall i :: 0 <= i < |a| ==>
      (env.isNull(a[i]) <==> a[i].Null?) && !a[i].Object? && !a[i].NullObject?
      && (a[i].Array? ==> Reversible(env, a[i].elems))
  }

  /** An array that never reaches the bean builder always converts,
      whatever the bean builder does. */
  lemma {:induction false} BeanFreeConverts(env: Env, a: seq<JsonValue>, target: Option<BeanTarget>)
    requires BeanFree(env, a)
    ensures ToList(env, a, target).Success?
    decreases a
  {
    forall i | 0 <= i < |a|
      ensures Item(env, a[i], target).Success?
    {
      if !env.isNull(a[i]) && a[i].Array? {
        BeanFreeConverts(env, a[i].elems, target);
      }
    }
  }

  /** `toList` followed by reading the list back gives the array again, for
      every reversible array and every bean builder. */
  lemma {:induction false} ToListRoundTrip(env: Env, a: seq<JsonValue>, target: Option<BeanTarget>)
    requires Reversible(env, a)
    ensures ToList(env, a, target).Success?
    ensures FromList(ToList(env, a, target).value) == a
    decreases a
  {
    forall i | 0 <= i < |a|
      ensures Item(env, a[i], target).Success? && FromItem(Item(env, a[i], target).value) == a[i]
    {
      if a[i].Array? {
        ToListRoundTrip(env, a[i].elems, target);
      }
    }
    var items := ToList(env, a, target).value;
    assert forall i :: 0 <= i < |a| ==> FromList(items)[i] == a[i];
  }

  /** `toList` consults the bean builder: an object slot whose `toBean`
      fails makes the whole conversion fail with that error when every
      earlier slot stays clear of the bean builder. */
  lemma BeanFailurePropagates(env: Env, a: seq<JsonValue>, target: Option<BeanTarget>, k: nat)
    requires k < |a| && !env.isNull(a[k]) && (a[k].Object? || a[k].NullObject?)
    requires env.toBean(a[k], target).Failure?
    requires forall i :: 0 <= i < k ==> BeanFreeSlot(env, a[i])
    ensures ToList(env, a, target) == Failure(env.toBean(a[k], target).error)
  {
    forall i | 0 <= i < k
      ensures Item(env, a[i], target).Success?
    {
      if !env.isNull(a[i]) && a[i].Array? {
        BeanFreeConverts(env, a[i].elems, target);
      }
    }
  }

  /** A slot `isNull` refuses that is neither kept, nor an array, nor an
      object fails the cast to `JSONObject`: the library's
      `JSONUtils.isNull` is what makes `JSONNull` slots convert at all. */
  lemma RefusedNullFailsCast(env: Env, a: seq<JsonValue>, target: Option<BeanTarget>)
    requires |a| == 1 && a[0].Null? && !env.isNull(a[0])
    ensures ToList(env, a, target) == Failure(CastFailure)
  {
  }

  /** What `toJSONObject(names)` hands to `JSONObject.put`, in order: for
      each index of `names`, the text of the name and the slot of this array
      at the same index (`None` is the Java `null` that `opt` returns past
      the end).  The result is `None` (Java `null`) when `names` is `null`
      or empty, or this array is empty. */
  function ToJsonObject(env: Env, a: seq<JsonValue>, names: Option<seq<JsonValue>>)
    : (r: Option<seq<(string, Option<JsonValue>)>>)
    ensures r.None? <==> names.None? || |names.value| == 0 || |a| == 0
    ensures r.Some? ==> |r.value| == |names.value|
    ensures r.Some? ==> forall i :: 0 <= i < |r.value| ==>
              Access.GetString(env, names.value, i) == Success(r.value[i].0)
              && r.value[i].1 == Access.Opt(a, i)
  {
    match names
    case None => None
    case Some(ns) =>
      if |ns| == 0 || |a| == 0 then None
      else Some(seq(|ns|, i requires 0 <= i < |ns| => (Access.SlotText(env, ns[i]), Access.Opt(a, i))))
  }

  /** Names beyond this array's length are paired with `null`, and string
      names are used verbatim. */
  lemma ToJsonObjectPairs(env: Env, a: seq<JsonValue>, ns: seq<JsonValue>, i: nat)
    requires |a| > 0 && i < |ns|
    ensures ToJsonObject(env, a, Some(ns)).Some?
    ensures i >= |a| ==> ToJsonObject(env, a, Some(ns)).value[i].1 == None
    ensures i < |a| ==> ToJsonObject(env, a, Some(ns)).value[i].1 == Some(a[i])
    ensures ns[i].Str? ==> ToJsonObject(env, a, Some(ns)).value[i].0 == ns[i].s
  {
  }
}
