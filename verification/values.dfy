/** The value model of `net.sf.json.JSONArray`: what an array slot can hold,
    what a caller can hand to `add`/`put`/`fromObject`, what the tokenizer
    delivers to the array parser, and the collaborators outside this class. */
module JsonValues {
  import opened Results

  /** One entry of a `JSONObject`, in insertion order. */
  datatype Member = Member(key: string, value: JsonValue)

  /** What a slot of a `JSONArray` holds.  `Null` is the `JSONNull`
      singleton; `NullObject` is a `JSONObject` in its "null object" state
      (what `JSONObject.fromObject` returns for an object without state);
      `Char` is a boxed `Character`, which the `char[]` constructor stores. */
  datatype JsonValue =
    | Null
    | Bool(b: bool)
    | Num(n: int)
    | Str(s: string)
    | Char(c: char)
    | Function(params: Option<seq<string>>, body: string)
    | Array(elems: seq<JsonValue>)
    | Object(members: seq<Member>)
    | NullObject

  /** The values that are instances of the `JSON` interface. */
  predicate IsJson(v: JsonValue) {
    v.Null? || v.Array? || v.Object? || v.NullObject?
  }

  type JsonInstance = v: JsonValue | IsJson(v) witness Null

  /** The values `JSONTokener.nextValue` returns other than nested arrays:
      a quoted or bare string, `true`/`false`, a number, `null`, or a nested
      object that the tokenizer has already built. */
  datatype Lexeme =
    | LString(s: string)
    | LBool(b: bool)
    | LNumber(n: int)
    | LNull
    | LObject(members: seq<Member>)

  /** The array parser's view of its input.  `Sym(c)` is one character of the
      source text (whitespace included, because the function-body scan reads
      raw characters); `Val(l)` stands for the characters of one lexed value.
      A nested array is not pre-lexed: its `[` is a `Sym`. */
  datatype Token = Sym(c: char) | Val(lexeme: Lexeme)

  /** The element arrays of the primitive-array constructors, floating-point
      kinds excepted. */
  datatype PrimitiveArray =
    | Booleans(bs: seq<bool>)
    | Bytes(ys: seq<int>)
    | Shorts(hs: seq<int>)
    | Ints(ns: seq<int>)
    | Longs(ls: seq<int>)
    | Chars(cs: seq<char>)

  /** A closed classification of the Java values that `add`, `put(int, Object)`
      and `fromObject` inspect.  `NJson` is an existing `JSON` instance;
      `NFunction` a `JSONFunction`; `NJsonString` an object implementing
      `JSONString` (carrying the text its `toJSONString` returns);
      `NTokener` a `JSONTokener` positioned at the start of `toks`;
      `NBean` any other object, known only to the property accessor. */
  datatype NativeValue =
    | NNull
    | NBool(b: bool)
    | NNumber(n: int)
    | NString(s: string)
    | NEnum(name: string)
    | NClass(name: string)
    | NFunction(params: Option<seq<string>>, body: string)
    | NJsonString(text: string)
    | NJson(json: JsonInstance)
    | NTokener(toks: seq<Token>)
    | NCollection(items: seq<NativeValue>)
    | NObjectArray(items: seq<NativeValue>)
    | NPrimitiveArray(prims: PrimitiveArray)
    | NAnnotation
    | NBean(id: nat)

  /** `JSONUtils.isArray`: Java arrays, collections and `JSONArray`s. */
  predicate IsArrayLike(v: NativeValue) {
    v.NCollection? || v.NObjectArray? || v.NPrimitiveArray? || (v.NJson? && v.json.Array?)
  }

  /** The value the parser hands to `add` for a lexeme. */
  function Lift(l: Lexeme): (v: NativeValue)
    ensures !IsArrayLike(v) && !v.NTokener?
  {
    match l
    case LString(s) => NString(s)
    case LBool(b) => NBool(b)
    case LNumber(n) => NNumber(n)
    case LNull => NJson(Null)
    case LObject(ms) => NJson(Object(ms))
  }

  /** The `excludes` / `ignoreDefaultExcludes` pair threaded through every
      conversion and handed on to the collaborators. */
  datatype Excludes = Excludes(names: seq<string>, ignoreDefaults: bool)

  const NoExcludes := Excludes([], false)

  /** Target type and class map for `JSONObject.toBean`. */
  datatype BeanTarget = BeanTarget(objectClass: string, classMap: map<string, string>)

  /** A Java object built by the bean builder, known only by identity. */
  type BeanRef = nat

  /** The collaborators of `JSONArray` whose code is not part of this model.
      Each is an arbitrary total function: nothing is assumed about it beyond
      its type. */
  datatype Env = Env(
    mayBeJson: string -> bool,                               // JSONUtils.mayBeJSON
    isFunctionText: string -> bool,                          // JSONUtils.isFunction on a String
    isFunctionHeader: string -> bool,                        // JSONUtils.isFunctionHeader
    functionParams: string -> Option<string>,                // JSONUtils.getFunctionParams
    transformNumber: int -> int,                             // JSONUtils.transformNumber
    isObject: NativeValue -> bool,                           // JSONUtils.isObject
    textToJson: (string, Excludes) -> Result<JsonInstance>,  // JSONSerializer.toJSON(String, ...)
    jsonStringToJson: (string, Excludes) -> Result<JsonInstance>, // JSONSerializer.toJSON(JSONString, ...)
    objectFrom: (NativeValue, Excludes) -> Result<Option<seq<Member>>>, // JSONObject.fromObject; None = null object
    lex: string -> seq<Token>,                               // new JSONTokener(String)
    valueToString: JsonValue -> Result<string>,              // JSONUtils.valueToString(Object)
    valueToIndentedString: (JsonValue, int, int) -> Result<string>, // JSONUtils.valueToString(Object, int, int)
    stringOf: JsonValue -> string,                           // Object.toString of a non-String slot
    toBean: (JsonValue, Option<BeanTarget>) -> Result<BeanRef>, // JSONObject.toBean
    isNull: JsonValue -> bool                                // JSONUtils.isNull
  )
}
