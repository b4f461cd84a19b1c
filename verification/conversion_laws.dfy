/** Laws of the element dispatch: how `add` and `put(int, Object)` differ,
    how the collection and `Object[]` constructors relate to `add`, and how
    the primitive-array constructors relate to boxing each element. */
module ConversionLaws {
  import opened Results
  import opened JsonValues
  import opened Conversion

  /** `add` and an in-range `put(int, Object)` store the same element for
      every value other than a number (which only `add` normalises) and an
      annotation (which only `add` refuses). */
  lemma ModesAgree(env: Env, v: NativeValue, ex: Excludes)
    requires !v.NNumber? && !v.NAnnotation?
    ensures Convert(env, v, ex, Append) == Convert(env, v, ex, Replace)
  {
  }

  /** The two places where the modes differ. */
  lemma ModesDiffer(env: Env, n: int, ex: Excludes)
    ensures Convert(env, NNumber(n), ex, Append) == Success(Num(env.transformNumber(n)))
    ensures Convert(env, NNumber(n), ex, Replace) == Success(Num(n))
    ensures Convert(env, NAnnotation, ex, Append) == Failure(UnsupportedType)
    ensures Convert(env, NAnnotation, ex, Replace) == ObjectOrNull(env.objectFrom(NAnnotation, ex))
  {
  }

  /** The index of the first element `add` refuses, or the length when it
      accepts them all. */
  function FirstRefused(env: Env, items: seq<NativeValue>, ex: Excludes): (k: nat)
    ensures k <= |items|
    ensures forall i :: 0 <= i < k ==> Convert(env, items[i], ex, Append).Success?
    ensures k < |items| ==> Convert(env, items[k], ex, Append).Failure?
  {
    if items == [] then 0
    else if Convert(env, items[0], ex, Append).Failure? then 0
    else 1 + FirstRefused(env, items[1..], ex)
  }

  /** The collection and `Object[]` constructors apply `add` to each element
      in order: they succeed exactly when every element is accepted, the
      i-th element of the array is what `add` makes of the i-th input, and a
      failure is the failure of the first refused element. */
  lemma {:induction false} ConvertAllElementwise(env: Env, items: seq<NativeValue>, ex: Excludes)
    ensures ConvertAll(env, items, ex).Success?
        <==> forall i :: 0 <= i < |items| ==> Convert(env, items[i], ex, Append).Success?
    ensures ConvertAll(env, items, ex).Success? ==>
              forall i :: 0 <= i < |items| ==>
                ConvertAll(env, items, ex).value[i] == Convert(env, items[i], ex, Append).value
    ensures ConvertAll(env, items, ex).Failure? ==>
              var k := FirstRefused(env, items, ex);
              k < |items| && ConvertAll(env, items, ex).error == Convert(env, items[k], ex, Append).error
  {
    if items != [] {
      ConvertAllElementwise(env, items[1..], ex);
      var r := ConvertAll(env, items, ex);
      var head := Convert(env, items[0], ex, Append);
      if head.Success? {
        var rest := ConvertAll(env, items[1..], ex);
        if rest.Success? {
          assert r.value == [head.value] + rest.value;
          forall i | 0 <= i < |items|
            ensures r.value[i] == Convert(env, items[i], ex, Append).value
          {
            if i > 0 {
              assert items[1..][i - 1] == items[i];
            }
          }
        } else {
          var k := FirstRefused(env, items[1..], ex);
          assert items[1..][k] == items[k + 1];
          assert !Convert(env, items[k + 1], ex, Append).Success?;
        }
      }
    }
  }

  /** The values boxed by the primitive-array constructors, as `add` would
      receive them one by one. */
  function Boxed(p: PrimitiveArray): seq<NativeValue> {
    match p
    case Booleans(bs) => seq(|bs|, i requires 0 <= i < |bs| => NBool(bs[i]))
    case Bytes(ys) => seq(|ys|, i requires 0 <= i < |ys| => NNumber(ys[i]))
    case Shorts(hs) => seq(|hs|, i requires 0 <= i < |hs| => NNumber(hs[i]))
    case Ints(ns) => seq(|ns|, i requires 0 <= i < |ns| => NNumber(ns[i]))
    case Longs(ls) => seq(|ls|, i requires 0 <= i < |ls| => NNumber(ls[i]))
    case Chars(cs) => seq(|cs|, i requires 0 <= i < |cs| => NString([cs[i]]))
  }

  /** The `boolean[]`, `byte[]`, `short[]` and `long[]` constructors store
      what `add` would store for each boxed element. */
  lemma PrimitivesAsAdded(env: Env, p: PrimitiveArray, ex: Excludes)
    requires p.Booleans? || p.Bytes? || p.Shorts? || p.Longs?
    ensures ConvertAll(env, Boxed(p), ex) == Success(PrimitiveElements(env, p))
  {
    var items := Boxed(p);
    var es := PrimitiveElements(env, p);
    assert forall i :: 0 <= i < |items| ==> Convert(env, items[i], ex, Append) == Success(es[i]);
    ConvertAllElementwise(env, items, ex);
    assert ConvertAll(env, items, ex).value == es;
  }

  /** The `int[]` constructor is the exception among the integer kinds: its
      elements bypass `transformNumber`, which `add` applies. */
  lemma IntsNotNormalised(env: Env, ns: seq<int>, ex: Excludes)
    ensures ConvertAll(env, Boxed(Ints(ns)), ex)
         == Success(seq(|ns|, i requires 0 <= i < |ns| => Num(env.transformNumber(ns[i]))))
    ensures PrimitiveElements(env, Ints(ns)) == seq(|ns|, i requires 0 <= i < |ns| => Num(ns[i]))
  {
    var items := Boxed(Ints(ns));
    var es := seq(|ns|, i requires 0 <= i < |ns| => Num(env.transformNumber(ns[i])));
    assert forall i :: 0 <= i < |items| ==> Convert(env, items[i], ex, Append) == Success(es[i]);
    ConvertAllElementwise(env, items, ex);
    assert ConvertAll(env, items, ex).value == es;
  }

  /** The `char[]` constructor stores `Character` elements, where `add`
      would store one-character strings (or what `mayBeJSON` text parses to). */
  lemma CharsStayCharacters(env: Env, cs: seq<char>, i: nat)
    requires i < |cs|
    ensures PrimitiveElements(env, Chars(cs))[i] == Char(cs[i])
    ensures !env.mayBeJson([cs[i]]) ==>
              Convert(env, Boxed(Chars(cs))[i], NoExcludes, Append) == Success(Str([cs[i]]))
  {
  }

  /** `fromObject` wraps a boolean or number in a one-slot array holding what
      `add` stores for it, and refuses nothing of that kind. */
  lemma ScalarsWrapped(env: Env, b: bool, n: int, ex: Excludes)
    ensures FromObject(env, NBool(b), ex) == Success([Bool(b)])
    ensures FromObject(env, NNumber(n), ex) == Success([Num(env.transformNumber(n))])
  {
  }
}
