/** Laws of the lenient array grammar read by the tokener constructor:
    comma elision, the absorbed trailing separator, the error cases, and the
    brace-balanced function body. */
module ParserLaws {
  import opened Results
  import opened JsonValues
  import opened Conversion
  import Text

  // ---------------------------------------------------------------------
  // A printer for array texts with elided slots
  // ---------------------------------------------------------------------

  /** An array text, described element by element: a lexed value, a nested
      array, or an empty slot (nothing between two separators). */
  datatype Elem = Leaf(lexeme: Lexeme) | Nested(items: seq<Elem>) | Hole

  function ElemSize(e: Elem): nat {
    match e
    case Nested(items) => 1 + ItemsSize(items)
    case _ => 1
  }

  function ItemsSize(items: seq<Elem>): nat {
    if items == [] then 0 else ElemSize(items[0]) + ItemsSize(items[1..])
  }

  function PrintElem(e: Elem): seq<Token>
    decreases ElemSize(e), 0
  {
    match e
    case Leaf(l) => [Val(l)]
    case Nested(items) => PrintArray(items)
    case Hole => []
  }

  /** `[`, the elements separated by `,`, `]`: no whitespace. */
  function PrintArray(items: seq<Elem>): seq<Token>
    decreases ItemsSize(items), 2
  {
    [Sym('[')] + PrintItems(items) + [Sym(']')]
  }

  function PrintItems(items: seq<Elem>): seq<Token>
    decreases ItemsSize(items), 1
  {
    if items == [] then []
    else if |items| == 1 then PrintElem(items[0])
    else PrintElem(items[0]) + [Sym(',')] + PrintItems(items[1..])
  }

  /** Texts the parser reads without collaborator failures: no lexed string
      is a function header, and `add` accepts every lexed value. */
  predicate Plain(env: Env, e: Elem, ex: Excludes) {
    match e
    case Leaf(l) =>
      !(l.LString? && env.isFunctionHeader(l.s)) && Convert(env, Lift(l), ex, Append).Success?
    case Nested(items) => forall k :: 0 <= k < |items| ==> Plain(env, items[k], ex)
    case Hole => true
  }

  /** The value a slot stands for: what `add` makes of a lexed value, the
      array of a nested text, `JSONNull` for an empty slot. */
  function Expected(env: Env, e: Elem, ex: Excludes): JsonValue
    requires Plain(env, e, ex)
    decreases ElemSize(e), 0
  {
    match e
    case Leaf(l) => Convert(env, Lift(l), ex, Append).value
    case Nested(items) => Array(ExpectedItems(env, items, ex))
    case Hole => Null
  }

  /** The elements an array text stands for: one per slot, except that an
      empty slot at the very end (a trailing separator) stands for nothing. */
  function ExpectedItems(env: Env, items: seq<Elem>, ex: Excludes): seq<JsonValue>
    requires forall k :: 0 <= k < |items| ==> Plain(env, items[k], ex)
    decreases ItemsSize(items), 1
  {
    if items == [] || items == [Hole] then []
    else [Expected(env, items[0], ex)] + ExpectedItems(env, items[1..], ex)
  }

  // ---------------------------------------------------------------------
  // Token-stream plumbing
  // ---------------------------------------------------------------------

  /** The tokens from position `p` on begin with `w`. */
  predicate At(toks: seq<Token>, p: nat, w: seq<Token>) {
    p + |w| <= |toks| && toks[p..p + |w|] == w
  }

  lemma AtSplit(toks: seq<Token>, p: nat, a: seq<Token>, b: seq<Token>)
    requires At(toks, p, a + b)
    ensures At(toks, p, a) && At(toks, p + |a|, b)
  {
    assert toks[p..p + |a|] == (a + b)[..|a|];
    assert toks[p + |a|..p + |a| + |b|] == (a + b)[|a|..];
  }

  lemma AtHead(toks: seq<Token>, p: nat, w: seq<Token>)
    requires At(toks, p, w) && w != []
    ensures p < |toks| && toks[p] == w[0]
  {
    assert toks[p..p + |w|][0] == w[0];
  }

  /** A printed element never starts with a skippable character or `]`. */
  predicate GoodLead(w: seq<Token>) {
    w != [] ==> !IsSkippable(w[0]) && w[0] != Sym(']')
  }

  lemma PrintLeads(items: seq<Elem>)
    ensures items != [] ==> GoodLead(PrintElem(items[0]))
    ensures items != [] ==> (PrintElem(items[0]) == [] <==> items[0].Hole?)
    ensures GoodLead(PrintItems(items))
    ensures PrintItems(items) == [] <==> (items == [] || items == [Hole])
  {
    if items != [] && items[0].Nested? {
      assert PrintElem(items[0]) == PrintArray(items[0].items);
      assert PrintElem(items[0])[0] == Sym('[');
    }
    if |items| > 1 {
      PrintLeads(items[1..]);
      var f := PrintElem(items[0]);
      assert PrintItems(items) == f + [Sym(',')] + PrintItems(items[1..]);
      if f == [] {
        assert PrintItems(items)[0] == Sym(',');
      } else {
        assert PrintItems(items)[0] == f[0];
      }
    }
  }

  // ---------------------------------------------------------------------
  // Single steps of the constructor
  // ---------------------------------------------------------------------

  lemma ArrayEmptyStep(env: Env, toks: seq<Token>, p: nat, ex: Excludes)
    requires SymAt(toks, p, '[') && SymAt(toks, p + 1, ']')
    ensures ParseArray(env, toks, p, ex) == Success(([], p + 2))
  {
    assert NextClean(toks, p) == p;
    assert NextClean(toks, p + 1) == p + 1;
  }

  lemma ArrayOpenStep(env: Env, toks: seq<Token>, p: nat, ex: Excludes)
    requires SymAt(toks, p, '[') && p + 1 < |toks|
    requires !IsSkippable(toks[p + 1]) && toks[p + 1] != Sym(']')
    ensures ParseArray(env, toks, p, ex) == ParseElements(env, toks, p + 1, [], ex)
  {
    assert NextClean(toks, p) == p;
    assert NextClean(toks, p + 1) == p + 1;
  }

  lemma ReadHoleStep(env: Env, toks: seq<Token>, p: nat, ex: Excludes)
    requires SymAt(toks, p, ',')
    ensures ReadElement(env, toks, p, ex) == Success((Null, p))
  {
    assert NextClean(toks, p) == p;
  }

  lemma ReadLeafStep(env: Env, toks: seq<Token>, p: nat, ex: Excludes, l: Lexeme)
    requires p < |toks| && toks[p] == Val(l)
    requires !(l.LString? && env.isFunctionHeader(l.s))
    requires Convert(env, Lift(l), ex, Append).Success?
    ensures ReadElement(env, toks, p, ex) == Success((Convert(env, Lift(l), ex, Append).value, p + 1))
  {
    assert NextClean(toks, p) == p;
  }

  lemma ReadNestedStep(env: Env, toks: seq<Token>, p: nat, ex: Excludes, es: seq<JsonValue>, e: nat)
    requires SymAt(toks, p, '[')
    requires ParseArray(env, toks, p, ex) == Success((es, e))
    ensures ReadElement(env, toks, p, ex) == Success((Array(es), e))
  {
    assert NextClean(toks, p) == p;
  }

  lemma CloseStep(toks: seq<Token>, pos: nat)
    requires SymAt(toks, pos, ']')
    ensures AfterElement(toks, pos) == Close(pos + 1)
  {
    assert NextClean(toks, pos) == pos;
  }

  lemma SeparatorCloseStep(toks: seq<Token>, pos: nat)
    requires SymAt(toks, pos, ',') && SymAt(toks, pos + 1, ']')
    ensures AfterElement(toks, pos) == Close(pos + 2)
  {
    assert NextClean(toks, pos) == pos;
    assert NextClean(toks, pos + 1) == pos + 1;
  }

  lemma SeparatorContinueStep(toks: seq<Token>, pos: nat)
    requires SymAt(toks, pos, ',') && pos + 1 < |toks|
    requires !IsSkippable(toks[pos + 1]) && toks[pos + 1] != Sym(']')
    ensures AfterElement(toks, pos) == Continue(pos + 1)
  {
    assert NextClean(toks, pos) == pos;
    assert NextClean(toks, pos + 1) == pos + 1;
  }

  lemma LoopCloseStep(env: Env, toks: seq<Token>, p: nat, acc: seq<JsonValue>, ex: Excludes,
                      v: JsonValue, pos: nat, after: nat)
    requires p <= |toks|
    requires ReadElement(env, toks, p, ex) == Success((v, pos))
    requires AfterElement(toks, pos) == Close(after)
    ensures ParseElements(env, toks, p, acc, ex) == Success((acc + [v], after))
  {
  }

  lemma LoopContinueStep(env: Env, toks: seq<Token>, p: nat, acc: seq<JsonValue>, ex: Excludes,
                         v: JsonValue, pos: nat, at: nat)
    requires p <= |toks|
    requires ReadElement(env, toks, p, ex) == Success((v, pos))
    requires AfterElement(toks, pos) == Continue(at)
    ensures ParseElements(env, toks, p, acc, ex) == ParseElements(env, toks, at, acc + [v], ex)
  {
  }

  // ---------------------------------------------------------------------
  // The round trip
  // ---------------------------------------------------------------------

  /** Reading a printed array text yields the elements it stands for and
      stops right after its closing `]`, whatever follows. */
  lemma {:induction false} ParsePrinted(env: Env, items: seq<Elem>, ex: Excludes, toks: seq<Token>, p: nat)
    requires forall k :: 0 <= k < |items| ==> Plain(env, items[k], ex)
    requires At(toks, p, PrintArray(items))
    ensures ParseArray(env, toks, p, ex)
         == Success((ExpectedItems(env, items, ex), p + |PrintArray(items)|))
    decreases ItemsSize(items), 2
  {
    hide ParseArray, ParseElements, ReadElement, Convert, Plain;
    var body := PrintItems(items);
    var tail := body + [Sym(']')];
    assert PrintArray(items) == [Sym('[')] + tail;
    AtSplit(toks, p, [Sym('[')], tail);
    AtHead(toks, p, [Sym('[')]);
    AtHead(toks, p + 1, tail);
    PrintLeads(items);
    if body == [] {
      ArrayEmptyStep(env, toks, p, ex);
    } else {
      assert tail[0] == body[0];
      ArrayOpenStep(env, toks, p, ex);
      ParseItemsPrinted(env, items, ex, toks, p + 1, []);
      assert [] + ExpectedItems(env, items, ex) == ExpectedItems(env, items, ex);
      assert |PrintArray(items)| == |body| + 2;
    }
  }

  lemma PrintItemsCons(items: seq<Elem>)
    requires items != []
    ensures |items| == 1 ==> PrintItems(items) == PrintElem(items[0])
    ensures |items| > 1 ==>
      PrintItems(items) + [Sym(']')]
        == PrintElem(items[0]) + ([Sym(',')] + (PrintItems(items[1..]) + [Sym(']')]))
    ensures ItemsSize(items[1..]) < ItemsSize(items)
  {
  }

  lemma ExpectedItemsCons(env: Env, items: seq<Elem>, ex: Excludes)
    requires forall k :: 0 <= k < |items| ==> Plain(env, items[k], ex)
    requires items != [] && items != [Hole]
    ensures ExpectedItems(env, items, ex)
         == [Expected(env, items[0], ex)] + ExpectedItems(env, items[1..], ex)
    ensures |items| == 1 || items[1..] == [Hole] ==> ExpectedItems(env, items, ex) == [Expected(env, items[0], ex)]
  {
  }

  /** The loop of the constructor over a printed element list followed by
      `]`: each empty slot yields `JSONNull`, except an empty slot at the end,
      which the trailing-separator check absorbs. */
  lemma {:induction false} ParseItemsPrinted(env: Env, items: seq<Elem>, ex: Excludes,
                                            toks: seq<Token>, p: nat, acc: seq<JsonValue>)
    requires forall k :: 0 <= k < |items| ==> Plain(env, items[k], ex)
    requires items != [] && items != [Hole]
    requires At(toks, p, PrintItems(items) + [Sym(']')])
    ensures ParseElements(env, toks, p, acc, ex)
         == Success((acc + ExpectedItems(env, items, ex), p + |PrintItems(items)| + 1))
    decreases ItemsSize(items), 1
  {
    hide *;
    var first := PrintElem(items[0]);
    var rest: seq<Token>;
    if |items| == 1 {
      rest := [Sym(']')];
    } else {
      rest := [Sym(',')] + (PrintItems(items[1..]) + [Sym(']')]);
    }
    PrintItemsCons(items);
    ExpectedItemsCons(env, items, ex);
    AtSplit(toks, p, first, rest);
    var pos := p + |first|;
    AtHead(toks, pos, rest);
    var v := ReadFirst(env, items, ex, toks, p, first, rest);
    assert p <= |toks|;
    if |items| == 1 {
      CloseStep(toks, pos);
      LoopCloseStep(env, toks, p, acc, ex, v, pos, pos + 1);
    } else {
      var more := PrintItems(items[1..]) + [Sym(']')];
      AtSplit(toks, pos, [Sym(',')], more);
      AtHead(toks, pos + 1, more);
      PrintLeads(items[1..]);
      if items[1..] == [Hole] {
        SeparatorCloseStep(toks, pos);
        LoopCloseStep(env, toks, p, acc, ex, v, pos, pos + 2);
      } else {
        assert more[0] == PrintItems(items[1..])[0];
        SeparatorContinueStep(toks, pos);
        LoopContinueStep(env, toks, p, acc, ex, v, pos, pos + 1);
        ParseItemsPrinted(env, items[1..], ex, toks, pos + 1, acc + [v]);
        assert acc + [v] + ExpectedItems(env, items[1..], ex) == acc + ExpectedItems(env, items, ex);
      }
    }
  }

  /** The element read at the top of a loop turn over a printed list. */
  lemma {:induction false} ReadFirst(env: Env, items: seq<Elem>, ex: Excludes, toks: seq<Token>, p: nat,
                                    first: seq<Token>, rest: seq<Token>) returns (v: JsonValue)
    requires forall k :: 0 <= k < |items| ==> Plain(env, items[k], ex)
    requires items != [] && first == PrintElem(items[0])
    requires At(toks, p, first) && At(toks, p + |first|, rest)
    requires items[0].Hole? ==> rest != [] && rest[0] == Sym(',')
    ensures v == Expected(env, items[0], ex)
    ensures ReadElement(env, toks, p, ex) == Success((v, p + |first|))
    decreases ItemsSize(items), 0
  {
    match items[0]
    case Hole =>
      AtHead(toks, p, rest);
      ReadHoleStep(env, toks, p, ex);
      v := Null;
    case Leaf(l) =>
      AtHead(toks, p, first);
      ReadLeafStep(env, toks, p, ex, l);
      v := Convert(env, Lift(l), ex, Append).value;
    case Nested(sub) =>
      AtHead(toks, p, first);
      assert Plain(env, items[0], ex);
      assert ItemsSize(sub) < ItemsSize(items);
      ParsePrinted(env, sub, ex, toks, p);
      v := Array(ExpectedItems(env, sub, ex));
      ReadNestedStep(env, toks, p, ex, ExpectedItems(env, sub, ex), p + |first|);
  }

  // ---------------------------------------------------------------------
  // Whole-text consequences
  // ---------------------------------------------------------------------

  /** The tokener constructor reads any printed array text back, whatever
      follows it. */
  lemma ParseTokensPrinted(env: Env, items: seq<Elem>, ex: Excludes, trailing: seq<Token>)
    requires forall k :: 0 <= k < |items| ==> Plain(env, items[k], ex)
    ensures ParseTokens(env, PrintArray(items) + trailing, ex) == Success(ExpectedItems(env, items, ex))
  {
    var toks := PrintArray(items) + trailing;
    assert toks[0..|PrintArray(items)|] == PrintArray(items);
    ParsePrinted(env, items, ex, toks, 0);
  }

  /** `fromObject` of a string, a `JSONString` or a tokener whose tokens are a
      printed array text reads the printed elements back. */
  lemma FromObjectReadsPrinted(env: Env, items: seq<Elem>, ex: Excludes, text: string, trailing: seq<Token>)
    requires forall k :: 0 <= k < |items| ==> Plain(env, items[k], ex)
    requires env.lex(text) == PrintArray(items) + trailing
    ensures FromObject(env, NString(text), ex) == Success(ExpectedItems(env, items, ex))
    ensures FromObject(env, NJsonString(text), ex) == Success(ExpectedItems(env, items, ex))
    ensures FromObject(env, NTokener(PrintArray(items) + trailing), ex) == Success(ExpectedItems(env, items, ex))
  {
    ParseTokensPrinted(env, items, ex, trailing);
  }

  /** An accepted text starts, after blanks, with `[`. */
  lemma AcceptedStartsWithBracket(env: Env, toks: seq<Token>, ex: Excludes)
    requires ParseTokens(env, toks, ex).Success?
    ensures SymAt(toks, NextClean(toks, 0), '[')
  {
  }

  /** A text whose first non-blank token is not `[` is refused at that token. */
  lemma RefusedWithoutBracket(env: Env, toks: seq<Token>, ex: Excludes)
    requires !SymAt(toks, NextClean(toks, 0), '[')
    ensures ParseTokens(env, toks, ex) == Failure(Syntax(MustStartWithBracket, NextClean(toks, 0)))
  {
  }

  /** After an element, a token other than `,`, `;` or `]` is an error
      reported at that token. */
  lemma MissingSeparator(env: Env, toks: seq<Token>, p: nat, acc: seq<JsonValue>, ex: Excludes,
                         v: JsonValue, pos: nat)
    requires p <= |toks|
    requires ReadElement(env, toks, p, ex) == Success((v, pos))
    requires var s := NextClean(toks, pos);
      !SymAt(toks, s, ',') && !SymAt(toks, s, ';') && !SymAt(toks, s, ']')
    ensures ParseElements(env, toks, p, acc, ex)
         == Failure(Syntax(ExpectedCommaOrBracket, NextClean(toks, pos)))
  {
    assert AfterElement(toks, pos) == Unexpected(NextClean(toks, pos));
  }

  /** A `;` separates elements exactly as a `,` does. */
  lemma SemicolonIsComma(toks: seq<Token>, pos: nat, at: nat)
    requires at < |toks| && pos <= at && NextClean(toks, pos) == at
    requires toks[at] == Sym(';')
    ensures AfterElement(toks, pos) == AfterElement(toks[at := Sym(',')], pos)
  {
    var toks' := toks[at := Sym(',')];
    NextCleanPrefix(toks, toks', pos, at);
    NextCleanPrefix(toks, toks', at + 1, at);
  }

  /** `nextClean` looks only at the tokens it skips and the one it stops at:
      two streams that differ only before `p` or only at a non-blank position
      `at` agree. */
  lemma {:induction false} NextCleanPrefix(toks: seq<Token>, toks': seq<Token>, p: nat, at: nat)
    requires |toks| == |toks'| && p <= |toks|
    requires at < |toks| && !IsSkippable(toks[at]) && !IsSkippable(toks'[at])
    requires forall k :: 0 <= k < |toks| && k != at ==> toks[k] == toks'[k]
    ensures NextClean(toks, p) == NextClean(toks', p)
    decreases |toks| - p
  {
    if p < |toks| && p != at && IsSkippable(toks[p]) {
      NextCleanPrefix(toks, toks', p + 1, at);
    }
  }

  // ---------------------------------------------------------------------
  // Worked texts
  // ---------------------------------------------------------------------

  function One(): Elem { Leaf(LNumber(1)) }
  function Four(): Elem { Leaf(LNumber(4)) }

  lemma NumberLeaf(env: Env, ex: Excludes, n: int)
    ensures Plain(env, Leaf(LNumber(n)), ex)
    ensures Expected(env, Leaf(LNumber(n)), ex) == Num(env.transformNumber(n))
  {
  }

  /** A worked text: the printed form and the expected elements of `items`
      are given, the parse follows from the round trip. */
  lemma Worked(env: Env, items: seq<Elem>, ex: Excludes, toks: seq<Token>, es: seq<JsonValue>)
    requires forall k :: 0 <= k < |items| ==> Plain(env, items[k], ex)
    requires PrintArray(items) == toks && ExpectedItems(env, items, ex) == es
    ensures ParseTokens(env, toks, ex) == Success(es)
  {
    ParseTokensPrinted(env, items, ex, []);
    assert PrintArray(items) + [] == toks;
  }

  lemma ElidedMiddleForm()
    ensures PrintArray([One(), Hole, Four()])
         == [Sym('['), Val(LNumber(1)), Sym(','), Sym(','), Val(LNumber(4)), Sym(']')]
  {
    var items := [One(), Hole, Four()];
    assert items[1..] == [Hole, Four()] && items[1..][1..] == [Four()];
  }

  lemma ElidedMiddleElements(env: Env, ex: Excludes)
    ensures forall k :: 0 <= k < 3 ==> Plain(env, [One(), Hole, Four()][k], ex)
    ensures ExpectedItems(env, [One(), Hole, Four()], ex)
         == [Num(env.transformNumber(1)), Null, Num(env.transformNumber(4))]
  {
    var items := [One(), Hole, Four()];
    NumberLeaf(env, ex, 1);
    NumberLeaf(env, ex, 4);
    assert items[1..] == [Hole, Four()] && items[1..][1..] == [Four()];
    assert ExpectedItems(env, [Four()], ex) == [Num(env.transformNumber(4))];
    assert ExpectedItems(env, [Hole, Four()], ex) == [Null, Num(env.transformNumber(4))];
  }

  /** `[1,,4]` holds three elements, the middle one `JSONNull`. */
  lemma ElidedMiddle(env: Env, ex: Excludes)
    ensures ParseTokens(env, [Sym('['), Val(LNumber(1)), Sym(','), Sym(','), Val(LNumber(4)), Sym(']')], ex)
         == Success([Num(env.transformNumber(1)), Null, Num(env.transformNumber(4))])
  {
    ElidedMiddleForm();
    ElidedMiddleElements(env, ex);
    Worked(env, [One(), Hole, Four()], ex,
           [Sym('['), Val(LNumber(1)), Sym(','), Sym(','), Val(LNumber(4)), Sym(']')],
           [Num(env.transformNumber(1)), Null, Num(env.transformNumber(4))]);
  }

  lemma ElidedFirstParts(env: Env, ex: Excludes)
    ensures PrintArray([Hole, One()]) == [Sym('['), Sym(','), Val(LNumber(1)), Sym(']')]
    ensures forall k :: 0 <= k < 2 ==> Plain(env, [Hole, One()][k], ex)
    ensures ExpectedItems(env, [Hole, One()], ex) == [Null, Num(env.transformNumber(1))]
  {
    var items := [Hole, One()];
    NumberLeaf(env, ex, 1);
    assert items[1..] == [One()];
    assert ExpectedItems(env, [One()], ex) == [Num(env.transformNumber(1))];
  }

  /** `[,1]` starts with `JSONNull`. */
  lemma ElidedFirst(env: Env, ex: Excludes)
    ensures ParseTokens(env, [Sym('['), Sym(','), Val(LNumber(1)), Sym(']')], ex)
         == Success([Null, Num(env.transformNumber(1))])
  {
    ElidedFirstParts(env, ex);
    Worked(env, [Hole, One()], ex, [Sym('['), Sym(','), Val(LNumber(1)), Sym(']')],
           [Null, Num(env.transformNumber(1))]);
  }

  lemma TrailingSeparatorParts(env: Env, ex: Excludes)
    ensures PrintArray([One(), Hole]) == [Sym('['), Val(LNumber(1)), Sym(','), Sym(']')]
    ensures forall k :: 0 <= k < 2 ==> Plain(env, [One(), Hole][k], ex)
    ensures ExpectedItems(env, [One(), Hole], ex) == [Num(env.transformNumber(1))]
  {
    var items := [One(), Hole];
    NumberLeaf(env, ex, 1);
    assert items[1..] == [Hole];
  }

  /** `[1,]`: the trailing separator adds nothing. */
  lemma TrailingSeparator(env: Env, ex: Excludes)
    ensures ParseTokens(env, [Sym('['), Val(LNumber(1)), Sym(','), Sym(']')], ex)
         == Success([Num(env.transformNumber(1))])
  {
    TrailingSeparatorParts(env, ex);
    Worked(env, [One(), Hole], ex, [Sym('['), Val(LNumber(1)), Sym(','), Sym(']')],
           [Num(env.transformNumber(1))]);
  }

  /** `[ ]` is the empty array. */
  lemma EmptyText(env: Env, ex: Excludes)
    ensures ParseTokens(env, [Sym('['), Sym(' '), Sym(']')], ex) == Success([])
  {
    var toks := [Sym('['), Sym(' '), Sym(']')];
    assert NextClean(toks, 1) == 2;
  }

  /** `[1 4]` is refused at the `4`. */
  lemma NoSeparator(env: Env, ex: Excludes)
    ensures ParseTokens(env, [Sym('['), Val(LNumber(1)), Sym(' '), Val(LNumber(4)), Sym(']')], ex)
         == Failure(Syntax(ExpectedCommaOrBracket, 3))
  {
    var toks := [Sym('['), Val(LNumber(1)), Sym(' '), Val(LNumber(4)), Sym(']')];
    assert NextClean(toks, 2) == 3;
    ReadLeafStep(env, toks, 1, ex, LNumber(1));
    MissingSeparator(env, toks, 1, [], ex, Num(env.transformNumber(1)), 2);
  }

  /** A function whose body never closes its brace is refused when the
      input runs out. */
  lemma UnclosedFunction(env: Env, ex: Excludes, header: string)
    requires env.isFunctionHeader(header)
    ensures ParseTokens(env, [Sym('['), Val(LString(header)), Sym('{'), Sym('x'), Sym(']')], ex)
         == Failure(Syntax(UnbalancedBraces, 5))
  {
    var toks := [Sym('['), Val(LString(header)), Sym('{'), Sym('x'), Sym(']')];
    assert ScanBody(toks, 5, 1) == Scan([], 5, 1);
    assert ScanBody(toks, 4, 1) == Scan([']'], 5, 1);
    assert ScanBody(toks, 3, 1) == Scan(['x', ']'], 5, 1);
    assert ScanBody(toks, 2, 0) == Scan(['{', 'x', ']'], 5, 1);
    ReadFunctionStep(env, toks, 1, ex, header);
    assert FunctionLiteral(env, header, toks, 2) == Failure(Syntax(UnbalancedBraces, 5));
    ArrayOpenStep(env, toks, 0, ex);
    hide ParseArray, FunctionLiteral, ReadElement, ScanBody, Convert;
    assert ParseElements(env, toks, 1, [], ex) == Failure(Syntax(UnbalancedBraces, 5));
  }

  lemma SplitParams()
    ensures Text.Split("a,,b", ',') == ["a", "b"]
  {
    assert "" + ['b'] == "b";
    assert Text.SplitFrom("", ',', "b") == ["b"];
    assert Text.SplitFrom("b", ',', "") == ["b"];
    assert ",b"[1..] == "b" && ",,b"[1..] == ",b";
    assert Text.SplitFrom(",b", ',', "") == ["b"];
    assert Text.SplitFrom(",,b", ',', "a") == ["a", "b"];
    assert "a,,b"[1..] == ",,b" && "" + ['a'] == "a";
  }

  /** `toks` holds a function literal with body `body` at `p`: `{`, the
      characters of `body`, `}`. */
  predicate LiteralAt(toks: seq<Token>, p: nat, body: string) {
    p + |body| + 2 <= |toks| && toks[p] == Sym('{') && toks[p + |body| + 1] == Sym('}')
    && forall k :: 0 <= k < |body| ==> toks[p + 1 + k] == Sym(body[k])
  }

  /** Read from brace depth `d`, the text never brings the depth down to
      zero, holds no end-of-input character, and ends at depth 1 (the depth
      of the outer brace of a function body). */
  predicate KeepsOpen(s: string, d: int)
    decreases |s|
  {
    d > 0 && if s == [] then d == 1 else s[0] != '\0' && KeepsOpen(s[1..], d + Delta(s[0]))
  }

  /** A body that keeps the outer brace open until its end. */
  predicate InnerBody(body: string) {
    KeepsOpen(body, 1)
  }

  /** One character of the body scan, moving from position `q` at depth
      `d` to position `next` at depth `d'`. */
  lemma ScanStep(toks: seq<Token>, q: nat, d: int, c: char, next: nat, d': int)
    requires q < |toks| && toks[q] == Sym(c) && c != '\0'
    requires next == q + 1 && d' == d + Delta(c)
    ensures d' == 0 ==> ScanBody(toks, q, d) == Scan([c], next, 0)
    ensures d' != 0 ==>
              ScanBody(toks, q, d)
              == Scan([c] + ScanBody(toks, next, d').text, ScanBody(toks, next, d').end, ScanBody(toks, next, d').depth)
  {
  }

  /** The body scan, entered after `j` characters of the body at depth
      `d`, collects the rest of the body and the closing brace, and stops
      right after it. */
  lemma {:induction false} ScanRest(toks: seq<Token>, p: nat, body: string, j: nat, d: int)
    requires LiteralAt(toks, p, body) && j <= |body| && KeepsOpen(body[j..], d)
    ensures ScanBody(toks, p + 1 + j, d) == Scan(body[j..] + ['}'], p + |body| + 2, 0)
    decreases |body| - j
  {
    hide ScanBody;
    if j == |body| {
      assert body[j..] == [] && d == 1 && Delta('}') == -1;
      assert toks[p + 1 + j] == Sym('}');
      assert body[j..] + ['}'] == ['}'];
      ScanStep(toks, p + 1 + j, d, '}', p + |body| + 2, 0);
    } else {
      var c := body[j];
      assert body[j..][0] == c && body[j..][1..] == body[j + 1..];
      assert toks[p + 1 + j] == Sym(c) && c != '\0';
      assert KeepsOpen(body[j + 1..], d + Delta(c)) && d + Delta(c) != 0;
      assert [c] + (body[j + 1..] + ['}']) == body[j..] + ['}'];
      ScanRest(toks, p, body, j + 1, d + Delta(c));
      ScanStep(toks, p + 1 + j, d, c, p + 1 + (j + 1), d + Delta(c));
    }
  }

  /** The opening brace of a literal. */
  lemma LiteralOpens(toks: seq<Token>, p: nat, body: string)
    requires LiteralAt(toks, p, body)
    ensures p < |toks| && toks[p] == Sym('{')
  {
  }

  /** Every function literal whose body keeps the outer brace open is read
      up to its closing brace: the result is the `JSONFunction` with the
      header's split parameters and the body between the braces, trimmed,
      and reading resumes right after the `}`. */
  lemma FunctionLiteralRead(env: Env, header: string, toks: seq<Token>, p: nat, body: string)
    requires LiteralAt(toks, p, body) && InnerBody(body)
    ensures FunctionLiteral(env, header, toks, p)
         == Success((Function(Params(env, header), Text.Trim(body)), p + |body| + 2))
  {
    hide LiteralAt, ScanBody, Text.Trim, Text.Split;
    LiteralOpens(toks, p, body);
    var text := ['{'] + (body + ['}']);
    assert body[0..] == body;
    ScanRest(toks, p, body, 0, 1);
    ScanStep(toks, p, 0, '{', p + 1 + 0, 1);
    assert ScanBody(toks, p, 0) == Scan(text, p + |body| + 2, 0);
    assert text[1..|text| - 1] == body;
  }

  /** The token text of a literal: `{`, the body's characters, `}`. */
  function LiteralTokens(body: string): (w: seq<Token>)
    ensures |w| == |body| + 2 && w[0] == Sym('{') && w[|body| + 1] == Sym('}')
    ensures forall k :: 0 <= k < |body| ==> w[k + 1] == Sym(body[k])
  {
    [Sym('{')] + seq(|body|, k requires 0 <= k < |body| => Sym(body[k])) + [Sym('}')]
  }

  lemma TrimmedBody()
    ensures Text.Trim(" x") == "x"
  {
    assert Text.LeadingBlanks(" x") == 1;
  }

  /** The worked instance `{ x}` with parameter text `a,,b`. */
  lemma BalancedLiteral(env: Env, header: string, toks: seq<Token>)
    requires env.functionParams(header) == Some("a,,b")
    requires |toks| == 7 && toks[2..] == [Sym('{'), Sym(' '), Sym('x'), Sym('}'), Sym(']')]
    ensures FunctionLiteral(env, header, toks, 2) == Success((Function(Some(["a", "b"]), "x"), 6))
  {
    var body := " x";
    assert body[1..] == "x" && body[1..][1..] == [];
    assert InnerBody(body);
    assert LiteralAt(toks, 2, body) by {
      assert toks[2] == Sym('{') && toks[3] == Sym(' ') && toks[4] == Sym('x') && toks[5] == Sym('}');
    }
    FunctionLiteralRead(env, header, toks, 2, body);
    SplitParams();
    TrimmedBody();
  }

  lemma ReadFunctionStep(env: Env, toks: seq<Token>, p: nat, ex: Excludes, header: string)
    requires p < |toks| && toks[p] == Val(LString(header)) && env.isFunctionHeader(header)
    ensures ReadElement(env, toks, p, ex) == FunctionLiteral(env, header, toks, p + 1)
  {
    hide ParseArray, FunctionLiteral, Convert, ScanBody, Lift;
    assert NextClean(toks, p) == p;
    assert !SymAt(toks, p, ',') && !SymAt(toks, p, '[');
  }

  /** An array text holding one element read directly after its `[`. */
  lemma SingleElement(env: Env, toks: seq<Token>, ex: Excludes, v: JsonValue, pos: nat)
    requires SymAt(toks, 0, '[') && 1 < |toks|
    requires !IsSkippable(toks[1]) && toks[1] != Sym(']')
    requires ReadElement(env, toks, 1, ex) == Success((v, pos)) && SymAt(toks, pos, ']')
    ensures ParseTokens(env, toks, ex) == Success([v])
  {
    CloseStep(toks, pos);
    LoopCloseStep(env, toks, 1, [], ex, v, pos, pos + 1);
    assert [] + [v] == [v];
    ArrayOpenStep(env, toks, 0, ex);
  }

  /** An array text holding one function header followed by a literal
      whose body keeps the outer brace open parses to the single
      `JSONFunction` with the header's split parameters and the trimmed
      body. */
  lemma FunctionArray(env: Env, ex: Excludes, header: string, body: string)
    requires env.isFunctionHeader(header) && InnerBody(body)
    ensures ParseTokens(env, [Sym('['), Val(LString(header))] + LiteralTokens(body) + [Sym(']')], ex)
         == Success([Function(Params(env, header), Text.Trim(body))])
  {
    var lit := LiteralTokens(body);
    var toks := [Sym('['), Val(LString(header))] + lit + [Sym(']')];
    assert |toks| == |body| + 5 && toks[0] == Sym('[') && toks[1] == Val(LString(header));
    assert toks[|body| + 4] == Sym(']');
    assert LiteralAt(toks, 2, body) by {
      forall k | 0 <= k < |lit|
        ensures toks[2 + k] == lit[k]
      {
      }
    }
    FunctionArrayAt(env, ex, header, toks, body);
  }

  /** The same, for any token text laid out as `[`, header, literal, `]`. */
  lemma FunctionArrayAt(env: Env, ex: Excludes, header: string, toks: seq<Token>, body: string)
    requires env.isFunctionHeader(header) && InnerBody(body)
    requires |toks| == |body| + 5 && toks[0] == Sym('[') && toks[1] == Val(LString(header))
    requires LiteralAt(toks, 2, body) && toks[|body| + 4] == Sym(']')
    ensures ParseTokens(env, toks, ex) == Success([Function(Params(env, header), Text.Trim(body))])
  {
    hide ParseTokens, ParseArray, ParseElements, ReadElement, FunctionLiteral, ScanBody, Convert, NextClean, AfterElement, Params;
    var v := Function(Params(env, header), Text.Trim(body));
    FunctionLiteralRead(env, header, toks, 2, body);
    ReadFunctionStep(env, toks, 1, ex, header);
    assert ReadElement(env, toks, 1, ex) == Success((v, |body| + 4));
    assert SymAt(toks, 0, '[') && SymAt(toks, |body| + 4, ']');
    assert !IsSkippable(toks[1]) && toks[1] != Sym(']');
    SingleElement(env, toks, ex, v, |body| + 4);
  }

  /** The worked instance: `[header{ x}]` with parameter text `a,,b`. */
  lemma FunctionElement(env: Env, ex: Excludes, header: string)
    requires env.isFunctionHeader(header) && env.functionParams(header) == Some("a,,b")
    ensures ParseTokens(env, [Sym('['), Val(LString(header)), Sym('{'), Sym(' '), Sym('x'), Sym('}'), Sym(']')], ex)
         == Success([Function(Some(["a", "b"]), "x")])
  {
    var toks := [Sym('['), Val(LString(header)), Sym('{'), Sym(' '), Sym('x'), Sym('}'), Sym(']')];
    BalancedLiteral(env, header, toks);
    ReadFunctionStep(env, toks, 1, ex, header);
    SingleElement(env, toks, ex, Function(Some(["a", "b"]), "x"), 6);
  }
}
