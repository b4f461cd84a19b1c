/** Building array contents: the `add` / `put(int, Object)` dispatch, the
    `fromObject` dispatch, the primitive-array constructors, and the lenient
    parser of the `JSONArray(JSONTokener, ...)` constructor.  They call one
    another (a collection element may be a tokener; a parsed element goes
    through `add`), so they live in one module and share one termination
    measure. */
module Conversion {
  import opened Results
  import opened JsonValues
  import Text

  /** `add(...)` (append) and `put(int, Object, ...)` on an index in range
      (replace) walk the same priority list, except that a number is passed
      through `transformNumber` only when appending, and an annotation is
      rejected only when appending. */
  datatype Mode = Append | Replace

  // ---------------------------------------------------------------------
  // Termination measure
  // ---------------------------------------------------------------------

  function Rank(v: NativeValue): nat
    decreases v, 1
  {
    match v
    case NCollection(items) => 3 + RankSum(items)
    case NObjectArray(items) => 3 + RankSum(items)
    case NTokener(_) => 2
    case NString(_) => 2
    case NJsonString(_) => 2
    case _ => 1
  }

  function RankSum(items: seq<NativeValue>): nat
    decreases items, 0
  {
    if items == [] then 0 else Rank(items[0]) + RankSum(items[1..])
  }

  // ---------------------------------------------------------------------
  // Element dispatch (add / put(int, Object))
  // ---------------------------------------------------------------------

  /** The null-object test on the result of `JSONObject.fromObject`: a null
      object becomes the `JSONNull` sentinel. */
  function ObjectOrNull(r: Result<Option<seq<Member>>>): (e: Result<JsonValue>)
    ensures r.Success? <==> e.Success?
    ensures r.Success? ==> (r.value.None? <==> e.value == Null)
  {
    match r
    case Failure(err) => Failure(err)
    case Success(None) => Success(Null)
    case Success(Some(ms)) => Success(Object(ms))
  }

  /** The element `add(value, excludes, ...)` appends, or, in `Replace` mode,
      the element `put(index, value, excludes, ...)` stores at an index in
      range.  The branches are tried in the library's order: class, function,
      `JSONString`, array-like, `JSON`, tokener, string, number, boolean, enum,
      annotation, and finally `JSONObject.fromObject`. */
  function Convert(env: Env, v: NativeValue, ex: Excludes, mode: Mode): (r: Result<JsonValue>)
    ensures v.NAnnotation? && mode == Append ==> r.Failure? && r.error == UnsupportedType
    ensures v.NJson? ==> r == Success(v.json)
    ensures (v.NClass? || v.NEnum?) ==> r.Success? && r.value.Str?
    ensures v.NFunction? ==> r == Success(Function(v.params, v.body))
    ensures v.NBool? ==> r == Success(Bool(v.b))
    ensures (v.NCollection? || v.NObjectArray?) && r.Success? ==>
              r.value.Array? && |r.value.elems| == |v.items|
    ensures v.NPrimitiveArray? ==> r.Success? && r.value.Array?
    ensures v.NTokener? && r.Success? ==> r.value.Array?
    decreases Rank(v), if IsArrayLike(v) || v.NTokener? then 3 else 0, 0
  {
    match v
    case NClass(name) => Success(Str(name))
    case NFunction(ps, body) => Success(Function(ps, body))
    case NJsonString(text) => env.jsonStringToJson(text, ex)
    case NCollection(_) => AsArray(FromObject(env, v, ex))
    case NObjectArray(_) => AsArray(FromObject(env, v, ex))
    case NPrimitiveArray(_) => AsArray(FromObject(env, v, ex))
    case NJson(j) => if j.Array? then AsArray(FromObject(env, v, ex)) else Success(j)
    case NTokener(toks) => AsArray(ParseTokens(env, toks, ex))
    case NString(s) =>
      if env.isFunctionText(s) then Success(Str(s))
      else if env.mayBeJson(s) then env.textToJson(s, ex)
      else Success(Str(s))
    case NNumber(n) => Success(Num(if mode == Append then env.transformNumber(n) else n))
    case NBool(b) => Success(Bool(b))
    case NEnum(name) => Success(Str(name))
    case NAnnotation =>
      if mode == Append then Failure(UnsupportedType) else ObjectOrNull(env.objectFrom(v, ex))
    case NNull => ObjectOrNull(env.objectFrom(v, ex))
    case NBean(_) => ObjectOrNull(env.objectFrom(v, ex))
  }

  function AsArray(r: Result<seq<JsonValue>>): (a: Result<JsonValue>)
    ensures r.Success? <==> a.Success?
    ensures r.Success? ==> a.value == Array(r.value)
    ensures r.Failure? ==> a.error == r.error
  {
    match r
    case Success(es) => Success(Array(es))
    case Failure(e) => Failure(e)
  }

  /** `add` applied to each element in turn, as the collection and
      `Object[]` constructors do; the first failure stops the walk. */
  function ConvertAll(env: Env, items: seq<NativeValue>, ex: Excludes): (r: Result<seq<JsonValue>>)
    ensures r.Success? ==> |r.value| == |items|
    decreases RankSum(items), 4, 0
  {
    if items == [] then Success([])
    else
      var e :- Convert(env, items[0], ex, Append);
      var rest :- ConvertAll(env, items[1..], ex);
      Success([e] + rest)
  }

  /** The primitive-array constructors: booleans and characters are boxed,
      `int`s are boxed without normalisation, and `byte`/`short`/`long`
      values go through `transformNumber`. */
  function PrimitiveElements(env: Env, p: PrimitiveArray): (es: seq<JsonValue>)
    ensures |es| == match p
      case Booleans(bs) => |bs|
      case Bytes(ys) => |ys|
      case Shorts(hs) => |hs|
      case Ints(ns) => |ns|
      case Longs(ls) => |ls|
      case Chars(cs) => |cs|
  {
    match p
    case Booleans(bs) => seq(|bs|, i requires 0 <= i < |bs| => Bool(bs[i]))
    case Bytes(ys) => seq(|ys|, i requires 0 <= i < |ys| => Num(env.transformNumber(ys[i])))
    case Shorts(hs) => seq(|hs|, i requires 0 <= i < |hs| => Num(env.transformNumber(hs[i])))
    case Ints(ns) => seq(|ns|, i requires 0 <= i < |ns| => Num(ns[i]))
    case Longs(ls) => seq(|ls|, i requires 0 <= i < |ls| => Num(env.transformNumber(ls[i])))
    case Chars(cs) => seq(|cs|, i requires 0 <= i < |cs| => Char(cs[i]))
  }

  /** `JSONArray.fromObject(object, excludes, ...)`: the elements of the array
      it builds. */
  function FromObject(env: Env, v: NativeValue, ex: Excludes): (r: Result<seq<JsonValue>>)
    ensures v.NJson? && v.json.Array? ==> r == Success(v.json.elems)
    ensures (v.NCollection? || v.NObjectArray?) && r.Success? ==> |r.value| == |v.items|
    ensures v.NPrimitiveArray? ==> r == Success(PrimitiveElements(env, v.prims))
    ensures v.NAnnotation? ==> r == Failure(UnsupportedType)
    ensures v.NEnum? ==> r == Success([Str(v.name)])
    // text is parsed by the tokener constructor
    ensures v.NString? ==> r == ParseTokens(env, env.lex(v.s), ex)
    ensures v.NJsonString? ==> r == ParseTokens(env, env.lex(v.text), ex)
    ensures v.NTokener? ==> r == ParseTokens(env, v.toks, ex)
    // scalars, functions, null and non-array JSON: the one slot `add` makes
    ensures (v.NBool? || v.NNumber? || v.NNull? || v.NFunction? || (v.NJson? && !v.json.Array?)) ==>
      && (r.Success? <==> Convert(env, v, ex, Append).Success?)
      && (r.Success? ==> r.value == [Convert(env, v, ex, Append).value])
      && (r.Failure? ==> r.error == Convert(env, v, ex, Append).error)
    ensures (v.NClass? || v.NBean?) ==> r == ObjectElement(env, v, ex)
    decreases Rank(v), 2, 0
  {
    match v
    case NJsonString(text) => ParseTokens(env, env.lex(text), ex)
    case NCollection(items) => ConvertAll(env, items, ex)
    case NJson(j) =>
      if j.Array? then Success(j.elems)
      else Single(Convert(env, v, ex, Append))
    case NTokener(toks) => ParseTokens(env, toks, ex)
    case NString(s) => ParseTokens(env, env.lex(s), ex)
    case NObjectArray(items) => ConvertAll(env, items, ex)
    case NPrimitiveArray(p) => Success(PrimitiveElements(env, p))
    case NBool(_) => Single(Convert(env, v, ex, Append))
    case NFunction(_, _) => Single(Convert(env, v, ex, Append))
    case NNumber(_) => Single(Convert(env, v, ex, Append))
    case NNull => Single(Convert(env, v, ex, Append))
    case NEnum(name) => Success([Str(name)])
    case NAnnotation => Failure(UnsupportedType)
    case NClass(_) => ObjectElement(env, v, ex)
    case NBean(_) => ObjectElement(env, v, ex)
  }

  function Single(r: Result<JsonValue>): (s: Result<seq<JsonValue>>)
    ensures r.Success? <==> s.Success?
    ensures r.Success? ==> s.value == [r.value]
  {
    match r
    case Success(e) => Success([e])
    case Failure(err) => Failure(err)
  }

  /** The last two branches of `fromObject`: an object `JSONUtils.isObject`
      accepts becomes a one-element array holding `JSONObject.fromObject` of
      it (the null object included, since `put(JSON)` stores it as it is);
      anything else is unsupported. */
  function ObjectElement(env: Env, v: NativeValue, ex: Excludes): (r: Result<seq<JsonValue>>)
    ensures !env.isObject(v) ==> r == Failure(UnsupportedType)
    ensures r.Success? ==> |r.value| == 1 && (r.value[0].Object? || r.value[0].NullObject?)
  {
    if !env.isObject(v) then Failure(UnsupportedType)
    else
      match env.objectFrom(v, ex)
      case Failure(err) => Failure(err)
      case Success(None) => Success([NullObject])
      case Success(Some(ms)) => Success([Object(ms)])
  }

  // ---------------------------------------------------------------------
  // The tokener constructor
  // ---------------------------------------------------------------------

  /** `nextClean` skips the characters from U+0001 to U+0020. */
  predicate IsSkippable(t: Token) {
    t.Sym? && '\0' < t.c <= ' '
  }

  /** The position of the token `nextClean` returns when the tokener stands
      at `p`; `|toks|` stands for the end of input, where `nextClean`
      returns `'\0'`. */
  function NextClean(toks: seq<Token>, p: nat): (q: nat)
    requires p <= |toks|
    ensures p <= q <= |toks|
    ensures forall k :: p <= k < q ==> IsSkippable(toks[k])
    ensures q == |toks| || !IsSkippable(toks[q])
    decreases |toks| - p
  {
    if p == |toks| || !IsSkippable(toks[p]) then p else NextClean(toks, p + 1)
  }

  predicate SymAt(toks: seq<Token>, q: nat, c: char) {
    q < |toks| && toks[q] == Sym(c)
  }

  /** What follows an element: `,` or `;` continues the loop unless `]`
      comes next (a trailing separator is absorbed), `]` closes the array,
      anything else is an error. */
  datatype Follow = Close(after: nat) | Continue(at: nat) | Unexpected(at: nat)

  function AfterElement(toks: seq<Token>, p: nat): (f: Follow)
    requires p <= |toks|
    ensures f.Close? ==> p < f.after <= |toks|
    ensures f.Continue? ==> p < f.at <= |toks|
  {
    var s := NextClean(toks, p);
    if SymAt(toks, s, ',') || SymAt(toks, s, ';') then
      var t := NextClean(toks, s + 1);
      if SymAt(toks, t, ']') then Close(t + 1) else Continue(s + 1)
    else if SymAt(toks, s, ']') then Close(s + 1)
    else Unexpected(s)
  }

  function Delta(c: char): int {
    if c == '{' then 1 else if c == '}' then -1 else 0
  }

  /** The brace balance of a text: one up for `{`, one down for `}`. */
  function Balance(s: string): int {
    if s == [] then 0 else Delta(s[0]) + Balance(s[1..])
  }

  datatype Scan = Scan(text: string, end: nat, depth: int)

  /** The raw read of a function body after its header, starting at depth
      `depth`: characters are collected, tracking brace depth, until the
      depth returns to zero or `next()` yields `'\0'` (the end of input; a
      lexed value in the stream is treated the same way).  The scan stops at
      the first character that brings the depth back to zero. */
  function ScanBody(toks: seq<Token>, p: nat, depth: int): (r: Scan)
    requires p <= |toks|
    ensures p <= r.end <= |toks| && |r.text| == r.end - p
    ensures forall k :: p <= k < r.end ==> toks[k].Sym? && r.text[k - p] == toks[k].c
    ensures r.depth == depth + Balance(r.text)
    ensures forall k :: 0 < k < |r.text| ==> depth + Balance(r.text[..k]) != 0
    decreases |toks| - p
  {
    if p == |toks| || toks[p].Val? || toks[p].c == '\0' then Scan([], p, depth)
    else
      var c := toks[p].c;
      var d := depth + Delta(c);
      if d == 0 then Scan([c], p + 1, d)
      else
        var rest := ScanBody(toks, p + 1, d);
        var text := [c] + rest.text;
        assert forall k :: 0 < k < |text| ==> depth + Balance(text[..k]) != 0 by {
          forall k | 0 < k < |text|
            ensures depth + Balance(text[..k]) != 0
          {
            assert text[..k][1..] == rest.text[..k - 1];
          }
        }
        Scan(text, rest.end, rest.depth)
  }

  /** The parameter list of a function literal: what `getFunctionParams`
      finds in the header, split at commas, or none. */
  function Params(env: Env, header: string): (ps: Option<seq<string>>)
    ensures ps.None? <==> env.functionParams(header).None?
  {
    match env.functionParams(header)
    case None => None
    case Some(text) => Some(Text.Split(text, ','))
  }

  /** The `JSONFunction` built from a header and its scanned body: the
      parameter list comes from `getFunctionParams` split at commas, the body
      is the text between the outer braces, trimmed. */
  function FunctionLiteral(env: Env, header: string, toks: seq<Token>, p: nat): (r: Result<(JsonValue, nat)>)
    requires p <= |toks|
    ensures r.Success? ==> p <= r.value.1 <= |toks| && r.value.0.Function?
    ensures r.Success? ==> ScanBody(toks, p, 0).depth == 0 && r.value.0.params == Params(env, header)
    ensures ScanBody(toks, p, 0).depth != 0 ==>
              r == Failure(Syntax(UnbalancedBraces, ScanBody(toks, p, 0).end))
  {
    var scan := ScanBody(toks, p, 0);
    if scan.depth != 0 then Failure(Syntax(UnbalancedBraces, scan.end))
    else if |scan.text| < 2 then Failure(MalformedFunction(scan.end))
    else Success((Function(Params(env, header), Text.Trim(scan.text[1..|scan.text| - 1])), scan.end))
  }

  /** The elements of a JSON array text read from the tokener. */
  function ParseTokens(env: Env, toks: seq<Token>, ex: Excludes): (r: Result<seq<JsonValue>>)
    decreases 2, 1, 3 * |toks| + 1
  {
    match ParseArray(env, toks, 0, ex)
    case Success(res) => Success(res.0)
    case Failure(err) => Failure(err)
  }

  /** The tokener constructor, starting at position `p`: the elements read
      and the position after the closing `]`.  Anything after that `]` is
      left unread. */
  function ParseArray(env: Env, toks: seq<Token>, p: nat, ex: Excludes): (r: Result<(seq<JsonValue>, nat)>)
    requires p <= |toks|
    ensures r.Success? ==> p < r.value.1 <= |toks|
    decreases 2, 1, 3 * (|toks| - p)
  {
    var q := NextClean(toks, p);
    if !SymAt(toks, q, '[') then Failure(Syntax(MustStartWithBracket, q))
    else
      var q' := NextClean(toks, q + 1);
      if SymAt(toks, q', ']') then Success(([], q' + 1))
      else ParseElements(env, toks, q + 1, [], ex)
  }

  /** The element read at the top of a loop turn, and the position after it.
      A `,` where a value is expected yields `JSONNull` and is pushed back to
      be read again as the separator; a `[` starts a nested array (the
      tokenizer hands it back to this constructor); a function header
      switches to the raw body scan; any other value goes through `add`. */
  function ReadElement(env: Env, toks: seq<Token>, p: nat, ex: Excludes): (r: Result<(JsonValue, nat)>)
    requires p <= |toks|
    ensures r.Success? ==> p <= r.value.1 <= |toks|
    decreases 2, 1, 3 * (|toks| - p) + 1
  {
    var q := NextClean(toks, p);
    if SymAt(toks, q, ',') then
      Success((Null, p))
    else if SymAt(toks, q, '[') then
      match ParseArray(env, toks, q, ex)
      case Failure(err) => Failure(err)
      case Success(res) =>
        // `add` of the nested JSONArray stores a copy with the same elements
        var v := Convert(env, NJson(Array(res.0)), ex, Append).value;
        Success((v, res.1))
    else if q < |toks| && toks[q].Val? then
      var l := toks[q].lexeme;
      if l.LString? && env.isFunctionHeader(l.s) then
        FunctionLiteral(env, l.s, toks, q + 1)
      else
        match Convert(env, Lift(l), ex, Append)
        case Failure(err) => Failure(err)
        case Success(v) => Success((v, q + 1))
    else
      Failure(Syntax(MissingValue, q))
  }

  /** One turn of the constructor's `for (;;)` loop, at position `p`, with
      the elements `acc` read so far. */
  function ParseElements(env: Env, toks: seq<Token>, p: nat, acc: seq<JsonValue>, ex: Excludes)
    : (r: Result<(seq<JsonValue>, nat)>)
    requires p <= |toks|
    ensures r.Success? ==> p < r.value.1 <= |toks|
    decreases 2, 1, 3 * (|toks| - p) + 2
  {
    match ReadElement(env, toks, p, ex)
    case Failure(err) => Failure(err)
    case Success(res) =>
      var acc' := acc + [res.0];
      match AfterElement(toks, res.1)
      case Close(after) => Success((acc', after))
      case Continue(at) => ParseElements(env, toks, at, acc', ex)
      case Unexpected(at) => Failure(Syntax(ExpectedCommaOrBracket, at))
  }
}
