/** The explicit-size-check rule (src/rules/explicit-size-check/rule.ts):
    a `x.size()` call whose value is used as a boolean is reported and
    rewritten to an explicit comparison (`x.size() > 0`, `x.size() !== 0`
    or `x.size() === 0`).

    The syntax tree is seen from the candidate call upward: a `Path` holds
    the call (node 0) and its ancestors (node i > 0 is `up[i - 1].kind`);
    `up[i].slot` says which slot of node i + 1 holds node i. The source-text
    accessor, the token stream and the static-value resolver are inputs. */
module SizeCheck {
  import opened Js
  import opened Reporting

  // ---------------------------------------------------------------------
  // Syntax

  /** One operand of a comparison: a `Literal` node (its value and raw text)
      or any other expression. */
  datatype Operand = Literal(value: JsValue, raw: string) | NotLiteral

  datatype ObjectKind = ThisObject | OtherObject

  /** The `property` of a member expression: an `Identifier` (computed or
      not) or anything else (a string literal, a private name). */
  datatype Property = PropertyIdentifier(name: string) | OtherProperty

  datatype Callee =
    | Member(target: ObjectKind, property: Property, optional: bool)
    | Identifier(name: string)
    | OtherCallee

  /** The node types the rule tells apart. A logical expression carries its
      right operand and what the static-value resolver says of it. */
  datatype Kind =
    | Call(callee: Callee, argCount: nat)
    | Binary(op: string, left: Operand, right: Operand)
    | Logical(op: string, right: Operand, rightStaticNumber: bool)
    | Unary(op: string)
    | IfStatement
    | ConditionalExpression
    | WhileStatement
    | DoWhileStatement
    | ForStatement
    | AwaitExpression
    | OtherNode

  /** Which child of its parent a node is: the `test` of a statement or
      conditional, the `argument` of a unary expression, an argument of a
      call, a side of a binary or logical expression, or something else. */
  datatype Slot = Test | UnaryArgument | Argument(index: nat) | Left | Right | OtherSlot

  datatype Frame = Frame(kind: Kind, slot: Slot)

  datatype Path = Path(self: Kind, up: seq<Frame>)

  function KindAt(p: Path, i: nat): Kind
    requires i <= |p.up|
  {
    if i == 0 then p.self else p.up[i - 1].kind
  }

  // ---------------------------------------------------------------------
  // Node predicates

  /** `isLiteral(node, value)`: `null` is recognised by its raw text, any
      other value by strict equality. */
  predicate IsLiteral(o: Operand, value: JsValue) {
    if value == Null then o.Literal? && o.raw == "null"
    else o.Literal? && o.value == value
  }

  /** `isCompareLeft(node, operator, value)` */
  predicate IsCompareLeft(k: Kind, op: string, value: real) {
    k.Binary? && k.op == op && IsLiteral(k.left, Num(value))
  }

  /** `isCompareRight(node, operator, value)` */
  predicate IsCompareRight(k: Kind, op: string, value: real) {
    k.Binary? && k.op == op && IsLiteral(k.right, Num(value))
  }

  /** `isNumberLiteral` */
  predicate IsNumberLiteral(o: Operand) {
    o.Literal? && IsNumber(o.value)
  }

  /** `isLogicalExpression`: `&&` or `||`, never `??`. */
  predicate IsLogicalExpression(k: Kind) {
    k.Logical? && (k.op == "&&" || k.op == "||")
  }

  /** `isLogicNot` */
  predicate IsLogicNot(k: Kind) {
    k.Unary? && k.op == "!"
  }

  /** `isBooleanCall`: `Boolean(x)` with exactly one argument. */
  predicate IsBooleanCall(k: Kind) {
    k.Call? && k.callee == Identifier("Boolean") && k.argCount == 1
  }

  /** `isLogicNotArgument`: node i is the operand of a `!`. */
  predicate IsLogicNotArgument(p: Path, i: nat) {
    i < |p.up| && IsLogicNot(p.up[i].kind) && p.up[i].slot == UnaryArgument
  }

  /** `isBooleanCallArgument`: node i is the sole argument of `Boolean(...)`. */
  predicate IsBooleanCallArgument(p: Path, i: nat) {
    i < |p.up| && IsBooleanCall(p.up[i].kind) && p.up[i].slot == Argument(0)
  }

  predicate IsWrapped(p: Path, i: nat) {
    IsLogicNotArgument(p, i) || IsBooleanCallArgument(p, i)
  }

  predicate IsBooleanContextParent(k: Kind) {
    k.IfStatement? || k.ConditionalExpression? || k.WhileStatement? ||
    k.DoWhileStatement? || k.ForStatement?
  }

  /** `isBooleanNode`: node i is a negation or `Boolean(...)` (or sits in
      one), or is the test of an `if`, `?:`, `while`, `do-while` or `for`,
      or is a side of `&&`/`||` whose whole is such a node. */
  predicate IsBooleanNode(p: Path, i: nat)
    requires i <= |p.up|
    decreases |p.up| - i
  {
    if IsLogicNot(KindAt(p, i)) || IsLogicNotArgument(p, i) ||
       IsBooleanCall(KindAt(p, i)) || IsBooleanCallArgument(p, i) then true
    else if i == |p.up| then false
    else if IsBooleanContextParent(p.up[i].kind) && p.up[i].slot == Test then true
    else if IsLogicalExpression(p.up[i].kind) then IsBooleanNode(p, i + 1)
    else false
  }

  /** A node whose nearest ancestor that is not `&&`/`||` takes it as the test
      of an `if`-like construct is in boolean context. */
  lemma {:induction false} LogicalChainInTest(p: Path, i: nat, j: nat)
    requires i < j < |p.up|
    requires forall k :: i <= k < j ==> IsLogicalExpression(p.up[k].kind)
    requires IsBooleanContextParent(p.up[j].kind) && p.up[j].slot == Test
    ensures IsBooleanNode(p, i)
    decreases j - i
  {
    if i + 1 < j {
      LogicalChainInTest(p, i + 1, j);
    }
  }

  /** `isNodeValueNumber` on the right operand of a logical expression: a
      number literal, or a value the static-value resolver finds numeric. */
  predicate IsNodeValueNumber(k: Kind)
    requires k.Logical?
  {
    IsNumberLiteral(k.right) || k.rightStaticNumber
  }

  // ---------------------------------------------------------------------
  // Candidate calls

  /** The listener's filter: `x.size()` with an identifier property `size`,
      no arguments, not optional, not on `this`. */
  predicate IsCandidate(k: Kind) {
    && k.Call?
    && k.callee.Member?
    && k.callee.property.PropertyIdentifier?
    && k.callee.property.name == "size"
    && k.argCount == 0
    && !k.callee.optional
    && k.callee.target != ThisObject
  }

  // ---------------------------------------------------------------------
  // Existing comparisons

  datatype SizeCheckResult = SizeCheckResult(isZeroLengthCheck: bool, node: nat)

  /** `getSizeCheckNode`: the call's parent as a zero-check or a non-zero
      check, or nothing. */
  function GetSizeCheckNode(p: Path): (r: Option<SizeCheckResult>)
    ensures r.Some? ==> |p.up| > 0 && r.value.node == 1
  {
    if |p.up| == 0 then None
    else
      var node := p.up[0].kind;
      if IsCompareRight(node, "===", 0.0) || IsCompareRight(node, "==", 0.0) ||
         IsCompareRight(node, "<", 1.0) || IsCompareLeft(node, "===", 0.0) ||
         IsCompareLeft(node, "==", 0.0) || IsCompareLeft(node, ">", 1.0)
      then Some(SizeCheckResult(true, 1))
      else if IsCompareRight(node, "!==", 0.0) || IsCompareRight(node, "!=", 0.0) ||
              IsCompareRight(node, ">", 0.0) || IsCompareRight(node, ">=", 1.0) ||
              IsCompareLeft(node, "!==", 0.0) || IsCompareLeft(node, "!=", 0.0) ||
              IsCompareLeft(node, "<", 0.0) || IsCompareLeft(node, "<=", 1.0)
      then Some(SizeCheckResult(false, 1))
      else None
  }

  /** Which side of a comparison holds the literal. */
  datatype Side = LiteralLeft | LiteralRight

  /** A comparison shape: operator, side of the literal, literal value. */
  type ComparisonShape = (string, Side, real)

  predicate HasShape(k: Kind, s: ComparisonShape) {
    k.Binary? && k.op == s.0 &&
    IsLiteral(if s.1 == LiteralLeft then k.left else k.right, Num(s.2))
  }

  /** The six zero-check shapes: `x === 0`, `x == 0`, `x < 1`, `0 === x`,
      `0 == x`, `1 > x`. */
  const ZeroShapes: set<ComparisonShape> := {
    ("===", LiteralRight, 0.0), ("==", LiteralRight, 0.0), ("<", LiteralRight, 1.0),
    ("===", LiteralLeft, 0.0), ("==", LiteralLeft, 0.0), (">", LiteralLeft, 1.0)}

  /** The eight non-zero-check shapes: `x !== 0`, `x != 0`, `x > 0`,
      `x >= 1`, `0 !== x`, `0 != x`, `0 < x`, `1 <= x`. */
  const NonZeroShapes: set<ComparisonShape> := {
    ("!==", LiteralRight, 0.0), ("!=", LiteralRight, 0.0), (">", LiteralRight, 0.0),
    (">=", LiteralRight, 1.0), ("!==", LiteralLeft, 0.0), ("!=", LiteralLeft, 0.0),
    ("<", LiteralLeft, 0.0), ("<=", LiteralLeft, 1.0)}

  ghost predicate HasShapeIn(k: Kind, shapes: set<ComparisonShape>) {
    exists s :: s in shapes && HasShape(k, s)
  }

  /** A comparison of the call against a literal has the call on one side,
      so not both operands are literals. */
  predicate OneSideIsNotLiteral(k: Kind) {
    k.Binary? ==> !(k.left.Literal? && k.right.Literal?)
  }

  /** When one side is the call, no comparison is both a zero-check and a
      non-zero-check, so the order of the two tests does not matter. */
  lemma ShapesDisjoint(k: Kind)
    requires OneSideIsNotLiteral(k)
    ensures !(HasShapeIn(k, ZeroShapes) && HasShapeIn(k, NonZeroShapes))
  {
    ZeroShapesExact(k);
    NonZeroShapesExact(k);
  }

  /** `getSizeCheckNode` recognises exactly the six zero-check shapes as
      zero-checks and, among the rest, exactly the eight non-zero-check
      shapes as non-zero-checks. */
  lemma SizeCheckNodeShapes(p: Path)
    ensures GetSizeCheckNode(p) == Some(SizeCheckResult(true, 1)) <==>
              |p.up| > 0 && HasShapeIn(p.up[0].kind, ZeroShapes)
    ensures GetSizeCheckNode(p) == Some(SizeCheckResult(false, 1)) <==>
              |p.up| > 0 && !HasShapeIn(p.up[0].kind, ZeroShapes) && HasShapeIn(p.up[0].kind, NonZeroShapes)
    ensures GetSizeCheckNode(p) == None <==>
              |p.up| == 0 || (!HasShapeIn(p.up[0].kind, ZeroShapes) && !HasShapeIn(p.up[0].kind, NonZeroShapes))
  {
    if |p.up| > 0 {
      var k := p.up[0].kind;
      ZeroShapesExact(k);
      NonZeroShapesExact(k);
    }
  }

  lemma ZeroShapesExact(k: Kind)
    ensures HasShapeIn(k, ZeroShapes) <==>
      (IsCompareRight(k, "===", 0.0) || IsCompareRight(k, "==", 0.0) ||
       IsCompareRight(k, "<", 1.0) || IsCompareLeft(k, "===", 0.0) ||
       IsCompareLeft(k, "==", 0.0) || IsCompareLeft(k, ">", 1.0))
  {
    if IsCompareRight(k, "===", 0.0) { assert HasShape(k, ("===", LiteralRight, 0.0)); }
    if IsCompareRight(k, "==", 0.0) { assert HasShape(k, ("==", LiteralRight, 0.0)); }
    if IsCompareRight(k, "<", 1.0) { assert HasShape(k, ("<", LiteralRight, 1.0)); }
    if IsCompareLeft(k, "===", 0.0) { assert HasShape(k, ("===", LiteralLeft, 0.0)); }
    if IsCompareLeft(k, "==", 0.0) { assert HasShape(k, ("==", LiteralLeft, 0.0)); }
    if IsCompareLeft(k, ">", 1.0) { assert HasShape(k, (">", LiteralLeft, 1.0)); }
  }

  lemma NonZeroShapesExact(k: Kind)
    ensures HasShapeIn(k, NonZeroShapes) <==>
      (IsCompareRight(k, "!==", 0.0) || IsCompareRight(k, "!=", 0.0) ||
       IsCompareRight(k, ">", 0.0) || IsCompareRight(k, ">=", 1.0) ||
       IsCompareLeft(k, "!==", 0.0) || IsCompareLeft(k, "!=", 0.0) ||
       IsCompareLeft(k, "<", 0.0) || IsCompareLeft(k, "<=", 1.0))
  {
    if IsCompareRight(k, "!==", 0.0) { assert HasShape(k, ("!==", LiteralRight, 0.0)); }
    if IsCompareRight(k, "!=", 0.0) { assert HasShape(k, ("!=", LiteralRight, 0.0)); }
    if IsCompareRight(k, ">", 0.0) { assert HasShape(k, (">", LiteralRight, 0.0)); }
    if IsCompareRight(k, ">=", 1.0) { assert HasShape(k, (">=", LiteralRight, 1.0)); }
    if IsCompareLeft(k, "!==", 0.0) { assert HasShape(k, ("!==", LiteralLeft, 0.0)); }
    if IsCompareLeft(k, "!=", 0.0) { assert HasShape(k, ("!=", LiteralLeft, 0.0)); }
    if IsCompareLeft(k, "<", 0.0) { assert HasShape(k, ("<", LiteralLeft, 0.0)); }
    if IsCompareLeft(k, "<=", 1.0) { assert HasShape(k, ("<=", LiteralLeft, 1.0)); }
  }

  // ---------------------------------------------------------------------
  // Climbing through `!` and `Boolean(...)`

  /** How many of the nodes i .. j - 1 are operands of `!`. */
  function NotCount(p: Path, i: nat, j: nat): nat
    requires i <= j
    decreases j - i
  {
    if i == j then 0 else (if IsLogicNotArgument(p, i) then 1 else 0) + NotCount(p, i + 1, j)
  }

  datatype Ancestor = Ancestor(isNegative: bool, node: nat)

  /** `getBooleanAncestor` from node i: the first node upward that is neither
      the operand of `!` nor the sole argument of `Boolean(...)`, and whether
      an odd number of `!` were climbed. */
  function BooleanAncestor(p: Path, i: nat): (r: Ancestor)
    requires i <= |p.up|
    ensures i <= r.node <= |p.up|
    ensures forall k :: i <= k < r.node ==> IsWrapped(p, k)
    ensures !IsWrapped(p, r.node)
    ensures r.isNegative <==> NotCount(p, i, r.node) % 2 == 1
    decreases |p.up| - i
  {
    if IsLogicNotArgument(p, i) then
      var r := BooleanAncestor(p, i + 1);
      Ancestor(!r.isNegative, r.node)
    else if IsBooleanCallArgument(p, i) then
      BooleanAncestor(p, i + 1)
    else
      Ancestor(false, i)
  }

  /** The loop of `getBooleanAncestor`. */
  method GetBooleanAncestor(p: Path, start: nat) returns (isNegative: bool, node: nat)
    requires start <= |p.up|
    ensures Ancestor(isNegative, node) == BooleanAncestor(p, start)
  {
    isNegative := false;
    node := start;
    while true
      invariant node <= |p.up|
      invariant BooleanAncestor(p, start) ==
                Ancestor(BooleanAncestor(p, node).isNegative != isNegative, BooleanAncestor(p, node).node)
      decreases |p.up| - node
    {
      if IsLogicNotArgument(p, node) {
        isNegative := !isNegative;
        node := node + 1;
      } else if IsBooleanCallArgument(p, node) {
        node := node + 1;
      } else {
        break;
      }
    }
  }

  // ---------------------------------------------------------------------
  // Options and styles

  /** A style: the code it writes and the comparison `test` recognises
      (`isCompareRight(node, op, 0)`). */
  datatype Style = Style(code: string, op: string)

  predicate StyleMatches(s: Style, k: Kind) {
    IsCompareRight(k, s.op, 0.0)
  }

  const ZeroStyle: Style := Style("=== 0", "===")

  const NonZeroStyles: map<string, Style> :=
    map["greater-than" := Style("> 0", ">"), "not-equal" := Style("!== 0", "!==")]

  /** The option handling of `create`: the `non-zero` option (absent means
      "greater-than") must name a style, or `create` throws before returning
      any listener. */
  function Create(nonZero: Option<string>): (r: Result<Style, string>)
    ensures r.Ok? <==> nonZero == None || nonZero == Some("greater-than") || nonZero == Some("not-equal")
    ensures r.Ok? && nonZero != Some("not-equal") ==> r.value == Style("> 0", ">")
    ensures r.Ok? && nonZero == Some("not-equal") ==> r.value == Style("!== 0", "!==")
    ensures r.Err? ==> r.error == "Invalid option for non-zero: " + nonZero.value
  {
    var name := if nonZero.Some? then nonZero.value else "greater-than";
    if name in NonZeroStyles then Ok(NonZeroStyles[name])
    else Err("Invalid option for non-zero: " + name)
  }

  // ---------------------------------------------------------------------
  // Tokens and parentheses

  datatype TokenKind = KeywordToken | IdentifierToken | PunctuatorToken | CommentToken | OtherToken

  datatype Token = Token(kind: TokenKind, value: string, range: (int, int))

  /** What the source-code accessor knows around one node: its range; the
      tokens before and after it, nearest first, comments excluded; the
      position among the tokens before of the parent's own syntax
      parenthesis (`if (`, `while (`, the parentheses of a sole call
      argument), which never counts as wrapping the node; and the nearest
      tokens before and after it with comments included. */
  datatype NodeSource = NodeSource(
    range: (int, int),
    tokensBefore: seq<Token>,
    tokensAfter: seq<Token>,
    parentSyntaxParen: Option<nat>,
    tokenBefore: Option<Token>,
    tokenAfter: Option<Token>)

  /** The source-code accessor: the text of the size call, and each path
      node's surroundings. */
  datatype Source = Source(callText: string, nodes: nat -> NodeSource)

  predicate IsOpeningParen(t: Token) {
    t.kind == PunctuatorToken && t.value == "("
  }

  predicate IsClosingParen(t: Token) {
    t.kind == PunctuatorToken && t.value == ")"
  }

  /** `isParenthesized(times, node)`: `times` pairs of parentheses wrap the
      node directly, none of them the parent's syntax parenthesis. */
  predicate IsParenthesized(times: nat, ns: NodeSource) {
    && times <= |ns.tokensBefore|
    && times <= |ns.tokensAfter|
    && forall k :: 0 <= k < times ==>
         IsOpeningParen(ns.tokensBefore[k]) && IsClosingParen(ns.tokensAfter[k]) &&
         ns.parentSyntaxParen != Some(k)
  }

  /** Fewer wrapping pairs than a number that wraps the node also wrap it. */
  lemma ParenthesizedDownward(m: nat, n: nat, ns: NodeSource)
    requires m <= n && IsParenthesized(n, ns)
    ensures IsParenthesized(m, ns)
  {
  }

  /** `getParenthesizedTimes`: the largest number of wrapping pairs. */
  method GetParenthesizedTimes(ns: NodeSource) returns (times: nat)
    ensures IsParenthesized(times, ns)
    ensures forall n :: n > times ==> !IsParenthesized(n, ns)
  {
    times := 0;
    while IsParenthesized(times + 1, ns)
      invariant IsParenthesized(times, ns)
      decreases |ns.tokensBefore| - times
    {
      times := times + 1;
    }
    forall n | n > times
      ensures !IsParenthesized(n, ns)
    {
      if IsParenthesized(n, ns) {
        ParenthesizedDownward(times + 1, n, ns);
      }
    }
  }

  /** `getParenthesizedRange` for a node wrapped `times` times: from the
      outermost `(` to the outermost `)`, or the node's own range. */
  function ParenthesizedRange(ns: NodeSource, times: nat): (r: (int, int))
    requires IsParenthesized(times, ns)
    ensures times == 0 ==> r == ns.range
    ensures times > 0 ==> r == (ns.tokensBefore[times - 1].range.0, ns.tokensAfter[times - 1].range.1)
  {
    if times == 0 then ns.range
    else (ns.tokensBefore[times - 1].range.0, ns.tokensAfter[times - 1].range.1)
  }

  /** The tokens around a node lie outside it: every token before ends by
      the node's start, every token after starts at or after its end, and
      each token and the node span their ranges in order. */
  predicate TokensAround(ns: NodeSource) {
    && ns.range.0 <= ns.range.1
    && (forall k :: 0 <= k < |ns.tokensBefore| ==>
          ns.tokensBefore[k].range.0 < ns.tokensBefore[k].range.1 <= ns.range.0)
    && (forall k :: 0 <= k < |ns.tokensAfter| ==>
          ns.range.1 <= ns.tokensAfter[k].range.0 < ns.tokensAfter[k].range.1)
  }

  /** The parenthesised range contains the node, and is the node's own range
      exactly when no parentheses wrap it. */
  lemma ParenthesizedRangeContains(ns: NodeSource, times: nat)
    requires TokensAround(ns) && IsParenthesized(times, ns)
    ensures var r := ParenthesizedRange(ns, times);
      && r.0 <= ns.range.0 && ns.range.1 <= r.1
      && (r == ns.range <==> times == 0)
  {
    if times > 0 {
      assert ns.tokensBefore[times - 1].range.0 < ns.tokensBefore[times - 1].range.1 <= ns.range.0;
    }
  }

  predicate AllLowercase(s: string) {
    forall i :: 0 <= i < |s| ==> 'a' <= s[i] <= 'z'
  }

  /** `isProblematicToken`: a keyword of lower-case letters only, or the
      identifiers `of` and `await`. */
  predicate IsProblematicToken(t: Token) {
    (t.kind == KeywordToken && AllLowercase(t.value)) ||
    (t.kind == IdentifierToken && t.value == "of") ||
    (t.kind == IdentifierToken && t.value == "await")
  }

  /** Which tokens need a space when they touch the replacement: a keyword
      exactly when it is all lower-case letters, an identifier exactly when
      it is `of` or `await`, and no punctuator, comment or other token. */
  lemma ProblematicTokens(t: Token)
    ensures t.kind == KeywordToken ==> (IsProblematicToken(t) <==> AllLowercase(t.value))
    ensures t.kind == IdentifierToken ==> (IsProblematicToken(t) <==> t.value in {"of", "await"})
    ensures t.kind !in {KeywordToken, IdentifierToken} ==> !IsProblematicToken(t)
    ensures IsProblematicToken(Token(KeywordToken, "typeof", t.range))
    ensures !IsProblematicToken(Token(IdentifierToken, "foo", t.range))
  {
  }

  /** The space insertions of `fixSpaceAroundKeyword` for a node whose
      parenthesized range is `range`. */
  function SpaceEdits(ns: NodeSource, range: (int, int)): (edits: seq<Edit>)
    ensures |edits| <= 2
  {
    (if ns.tokenBefore.Some? && range.0 == ns.tokenBefore.value.range.1 && IsProblematicToken(ns.tokenBefore.value)
     then [Edit((ns.tokenBefore.value.range.1, ns.tokenBefore.value.range.1), " ")] else []) +
    (if ns.tokenAfter.Some? && range.1 == ns.tokenAfter.value.range.0 && IsProblematicToken(ns.tokenAfter.value)
     then [Edit((ns.tokenAfter.value.range.0, ns.tokenAfter.value.range.0), " ")] else [])
  }

  /** The generator `fixSpaceAroundKeyword`, drained. */
  method FixSpaceAroundKeyword(ns: NodeSource) returns (edits: seq<Edit>, times: nat)
    ensures IsParenthesized(times, ns) && !IsParenthesized(times + 1, ns)
    ensures edits == SpaceEdits(ns, ParenthesizedRange(ns, times))
  {
    times := GetParenthesizedTimes(ns);
    var range := ParenthesizedRange(ns, times);
    edits := [];
    if ns.tokenBefore.Some? && range.0 == ns.tokenBefore.value.range.1 && IsProblematicToken(ns.tokenBefore.value) {
      edits := edits + [Edit((ns.tokenBefore.value.range.1, ns.tokenBefore.value.range.1), " ")];
    }
    if ns.tokenAfter.Some? && range.1 == ns.tokenAfter.value.range.0 && IsProblematicToken(ns.tokenAfter.value) {
      edits := edits + [Edit((ns.tokenAfter.value.range.0, ns.tokenAfter.value.range.0), " ")];
    }
  }

  /** The wrapping depth `getParenthesizedTimes` finds; unique because
      `IsParenthesized` is downward closed. */
  function ParenDepth(ns: NodeSource): (t: nat)
    ensures IsParenthesized(t, ns) && !IsParenthesized(t + 1, ns)
    ensures forall n :: n > t ==> !IsParenthesized(n, ns)
  {
    ParenDepthFrom(ns, 0)
  }

  function ParenDepthFrom(ns: NodeSource, t: nat): (r: nat)
    requires IsParenthesized(t, ns)
    ensures r >= t && IsParenthesized(r, ns) && !IsParenthesized(r + 1, ns)
    ensures forall n :: n > r ==> !IsParenthesized(n, ns)
    decreases |ns.tokensBefore| - t
  {
    if IsParenthesized(t + 1, ns) then ParenDepthFrom(ns, t + 1)
    else
      assert forall n :: n > t ==> !IsParenthesized(n, ns) by {
        forall n | n > t ensures !IsParenthesized(n, ns) {
          if IsParenthesized(n, ns) { ParenthesizedDownward(t + 1, n, ns); }
        }
      }
      t
  }

  lemma ParenDepthUnique(ns: NodeSource, t: nat)
    requires IsParenthesized(t, ns) && !IsParenthesized(t + 1, ns)
    ensures t == ParenDepth(ns)
  {
    var d := ParenDepth(ns);
    if t < d { ParenthesizedDownward(t + 1, d, ns); }
  }

  // ---------------------------------------------------------------------
  // The problem

  /** The node `getProblem` replaces and what it replaces it with; `node` is
      a path index. */
  datatype Subject = Subject(autoFix: bool, isZeroLengthCheck: bool, node: nat)

  /** Whether the replacement text must be parenthesised: the node is an
      unparenthesised unary expression under a unary or `await` expression. */
  predicate NeedsParentheses(p: Path, src: Source, node: nat)
    requires node <= |p.up|
  {
    && !IsParenthesized(1, src.nodes(node))
    && KindAt(p, node).Unary?
    && node < |p.up|
    && (p.up[node].kind.Unary? || p.up[node].kind.AwaitExpression?)
  }

  /** `fixed`: the call's text, a space and the style's code, in parentheses
      when precedence needs them. */
  function FixedText(p: Path, src: Source, node: nat, code: string): (t: string)
    requires node <= |p.up|
  {
    var plain := src.callText + " " + code;
    if NeedsParentheses(p, src, node) then "(" + plain + ")" else plain
  }

  /** The edits the fix generator yields: the replacement first, then the
      space insertions. */
  function FixSteps(p: Path, src: Source, node: nat, code: string): (steps: seq<Step>)
    requires node <= |p.up|
  {
    var ns := src.nodes(node);
    var spaces := SpaceEdits(ns, ParenthesizedRange(ns, ParenDepth(ns)));
    [Yield(Edit(ns.range, FixedText(p, src, node, code)))] +
    seq(|spaces|, i requires 0 <= i < |spaces| => Yield(spaces[i]))
  }

  /** `getProblem` */
  function ProblemFor(p: Path, src: Source, nonZero: Style, s: Subject): Option<Problem>
    requires s.node <= |p.up|
  {
    var style := if s.isZeroLengthCheck then ZeroStyle else nonZero;
    if StyleMatches(style, KindAt(p, s.node)) then None
    else if !(p.self.Call? && p.self.callee.Member? && p.self.callee.property.PropertyIdentifier?) then None
    else
      var fix := FixFunction(Generated(FixSteps(p, src, s.node, style.code)));
      var problem := Problem(
        if s.isZeroLengthCheck then "zero" else "non-zero",
        s.node,
        Some(map["code" := style.code, "property" := p.self.callee.property.name]),
        NoFix, NoSuggest);
      if s.autoFix then Some(problem.(fix := fix))
      else Some(problem.(suggest := SuggestArray([Suggestion("suggestion", None, fix)])))
  }

  /** What the `CallExpression` listener decides before `getProblem`. */
  function Decide(p: Path): (d: Option<Subject>)
    ensures d.Some? ==> d.value.node <= |p.up|
  {
    if !IsCandidate(p.self) then None
    else
      match GetSizeCheckNode(p)
      case Some(r) =>
        var a := BooleanAncestor(p, r.node);
        Some(Subject(true, r.isZeroLengthCheck != a.isNegative, a.node))
      case None =>
        var a := BooleanAncestor(p, 0);
        if IsBooleanNode(p, a.node) then Some(Subject(true, a.isNegative, a.node))
        else if |p.up| > 0 && IsLogicalExpression(p.up[0].kind) &&
                !(p.up[0].kind.op == "||" && IsNodeValueNumber(p.up[0].kind))
        then Some(Subject(false, a.isNegative, 0))
        else None
  }

  /** What the `CallExpression` listener returns for the call at the bottom
      of `p`. */
  function SizeCheckReport(p: Path, src: Source, nonZero: Style): Option<Problem> {
    match Decide(p)
    case None => None
    case Some(s) => ProblemFor(p, src, nonZero, s)
  }

  /** `getProblem`, step by step. */
  method GetProblem(p: Path, src: Source, nonZero: Style, s: Subject) returns (r: Option<Problem>)
    requires s.node <= |p.up|
    ensures r == ProblemFor(p, src, nonZero, s)
  {
    var style := if s.isZeroLengthCheck then ZeroStyle else nonZero;
    var node := KindAt(p, s.node);
    if IsCompareRight(node, style.op, 0.0) {
      return None;
    }
    var fixed := src.callText + " " + style.code;
    if !IsParenthesized(1, src.nodes(s.node)) && node.Unary? && s.node < |p.up| &&
       (p.up[s.node].kind.Unary? || p.up[s.node].kind.AwaitExpression?) {
      fixed := "(" + fixed + ")";
    }
    var callee := p.self;
    if !(callee.Call? && callee.callee.Member? && callee.callee.property.PropertyIdentifier?) {
      return None;
    }
    var ns := src.nodes(s.node);
    var spaces, times := FixSpaceAroundKeyword(ns);
    ParenDepthUnique(ns, times);
    var steps := [Yield(Edit(ns.range, fixed))];
    for i := 0 to |spaces|
      invariant steps == [Yield(Edit(ns.range, fixed))] + seq(i, j requires 0 <= j < i => Yield(spaces[j]))
    {
      steps := steps + [Yield(spaces[i])];
    }
    assert steps == FixSteps(p, src, s.node, style.code);
    var fix := FixFunction(Generated(steps));
    var problem := Problem(
      if s.isZeroLengthCheck then "zero" else "non-zero",
      s.node,
      Some(map["code" := style.code, "property" := callee.callee.property.name]),
      NoFix, NoSuggest);
    if s.autoFix {
      problem := problem.(fix := fix);
    } else {
      problem := problem.(suggest := SuggestArray([Suggestion("suggestion", None, fix)]));
    }
    return Some(problem);
  }

  /** The `CallExpression` listener. */
  method OnCallExpression(p: Path, src: Source, nonZero: Style) returns (r: Option<Problem>)
    ensures r == SizeCheckReport(p, src, nonZero)
  {
    if !IsCandidate(p.self) {
      return None;
    }
    var node: Option<nat> := None;
    var autoFix := true;
    var result := GetSizeCheckNode(p);
    var isZeroLengthCheck := if result.Some? then result.value.isZeroLengthCheck else false;
    if result.Some? {
      var isNegative, ancestor := GetBooleanAncestor(p, result.value.node);
      node := Some(ancestor);
      if isNegative {
        isZeroLengthCheck := !isZeroLengthCheck;
      }
    } else {
      var isNegative, ancestor := GetBooleanAncestor(p, 0);
      if IsBooleanNode(p, ancestor) {
        isZeroLengthCheck := isNegative;
        node := Some(ancestor);
      } else if |p.up| > 0 && IsLogicalExpression(p.up[0].kind) &&
                !(p.up[0].kind.op == "||" && IsNodeValueNumber(p.up[0].kind)) {
        isZeroLengthCheck := isNegative;
        node := Some(0);
        autoFix := false;
      }
    }
    if node.None? {
      return None;
    }
    r := GetProblem(p, src, nonZero, Subject(autoFix, isZeroLengthCheck, node.value));
  }

  // ---------------------------------------------------------------------
  // Properties

  /** Only candidate calls are ever reported. */
  lemma NonCandidateNotReported(p: Path, src: Source, nonZero: Style)
    requires !IsCandidate(p.self)
    ensures SizeCheckReport(p, src, nonZero) == None
  {
  }

  /** An existing comparison is classified as its base classification XOR
      the parity of the `!` climbed above it. */
  lemma ComparisonClassification(p: Path, r: SizeCheckResult)
    requires IsCandidate(p.self) && GetSizeCheckNode(p) == Some(r)
    ensures Decide(p).Some?
    ensures Decide(p).value.autoFix
    ensures Decide(p).value.isZeroLengthCheck <==>
              (r.isZeroLengthCheck != (NotCount(p, 1, Decide(p).value.node) % 2 == 1))
    ensures !IsWrapped(p, Decide(p).value.node)
  {
  }

  /** A bare call in boolean context is a non-zero check, flipped by each `!`. */
  lemma BareCallClassification(p: Path)
    requires IsCandidate(p.self) && GetSizeCheckNode(p) == None
    requires IsBooleanNode(p, BooleanAncestor(p, 0).node)
    ensures Decide(p) == Some(Subject(true, NotCount(p, 0, BooleanAncestor(p, 0).node) % 2 == 1, BooleanAncestor(p, 0).node))
  {
  }

  /** Inside `&&`/`||` without boolean context, the call itself is reported
      with one suggestion and no fix, unless it is the left side of an `||`
      whose right side is numeric. */
  lemma LogicalChainSuggestion(p: Path, src: Source, nonZero: Style)
    requires IsCandidate(p.self) && GetSizeCheckNode(p) == None
    requires !IsBooleanNode(p, BooleanAncestor(p, 0).node)
    requires |p.up| > 0 && IsLogicalExpression(p.up[0].kind)
    requires !(p.up[0].kind.op == "||" && IsNodeValueNumber(p.up[0].kind))
    ensures var r := SizeCheckReport(p, src, nonZero);
      && r.Some?
      && r.value.node == 0
      && r.value.fix == NoFix
      && r.value.suggest.SuggestArray?
      && |r.value.suggest.items| == 1
      && r.value.suggest.items[0].messageId == "suggestion"
      && r.value.messageId == (if BooleanAncestor(p, 0).isNegative then "zero" else "non-zero")
  {
    var a := BooleanAncestor(p, 0);
    assert a.node == 0;
    var style := if a.isNegative then ZeroStyle else nonZero;
    assert !StyleMatches(style, p.self);
  }

  /** `x.size() || <number>` is a numeric fallback and is not reported. */
  lemma NumericFallbackNotReported(p: Path, src: Source, nonZero: Style)
    requires GetSizeCheckNode(p) == None
    requires !IsBooleanNode(p, BooleanAncestor(p, 0).node)
    requires |p.up| > 0 && p.up[0].kind.Logical? && p.up[0].kind.op == "||" && IsNodeValueNumber(p.up[0].kind)
    ensures SizeCheckReport(p, src, nonZero) == None
  {
  }

  /** `??` is not a logical context: a call under `??` with no boolean
      context is not reported. */
  lemma NullishNotReported(p: Path, src: Source, nonZero: Style)
    requires GetSizeCheckNode(p) == None
    requires !IsBooleanNode(p, BooleanAncestor(p, 0).node)
    requires |p.up| > 0 && p.up[0].kind.Logical? && p.up[0].kind.op == "??"
    ensures SizeCheckReport(p, src, nonZero) == None
  {
  }

  /** A node already written in the chosen style is not reported. */
  lemma AlreadyStyledNotReported(p: Path, src: Source, nonZero: Style, s: Subject)
    requires s.node <= |p.up|
    requires StyleMatches(if s.isZeroLengthCheck then ZeroStyle else nonZero, KindAt(p, s.node))
    ensures ProblemFor(p, src, nonZero, s) == None
  {
  }

  /** The zero branch does not depend on the option. */
  lemma ZeroStyleIndependentOfOption(p: Path, src: Source, a: Style, b: Style, s: Subject)
    requires s.node <= |p.up| && s.isZeroLengthCheck
    ensures ProblemFor(p, src, a, s) == ProblemFor(p, src, b, s)
  {
  }

  /** The reported problem: its message, its data, and either an automatic
      fix or one suggestion, whose generator yields the replacement of the
      node first and then at most two single spaces. */
  lemma ProblemShape(p: Path, src: Source, nonZero: Style, s: Subject)
    requires s.node <= |p.up|
    requires ProblemFor(p, src, nonZero, s).Some?
    ensures var r := ProblemFor(p, src, nonZero, s).value;
      var code := if s.isZeroLengthCheck then "=== 0" else nonZero.code;
      var steps := FixSteps(p, src, s.node, code);
      && r.messageId == (if s.isZeroLengthCheck then "zero" else "non-zero")
      && r.node == s.node
      && p.self.Call? && p.self.callee.Member? && p.self.callee.property.PropertyIdentifier?
      && r.data == Some(map["code" := code, "property" := p.self.callee.property.name])
      && (s.autoFix ==> r.fix == FixFunction(Generated(steps)) && r.suggest == NoSuggest)
      && (!s.autoFix ==> r.fix == NoFix && r.suggest == SuggestArray([Suggestion("suggestion", None, FixFunction(Generated(steps)))]))
      && 1 <= |steps| <= 3
      && (forall i :: 0 <= i < |steps| ==> steps[i].Yield?)
      && steps[0] == Yield(Edit(src.nodes(s.node).range, FixedText(p, src, s.node, code)))
      && (forall i :: 1 <= i < |steps| ==> steps[i].edit.text == " ")
  {
  }

  /** A space goes after the token before (and before the token after) only
      when that token touches the parenthesised range and is problematic. */
  lemma SpaceEditsExact(ns: NodeSource, range: (int, int))
    ensures var e := SpaceEdits(ns, range);
      var before := ns.tokenBefore.Some? && range.0 == ns.tokenBefore.value.range.1 && IsProblematicToken(ns.tokenBefore.value);
      var after := ns.tokenAfter.Some? && range.1 == ns.tokenAfter.value.range.0 && IsProblematicToken(ns.tokenAfter.value);
      && |e| == (if before then 1 else 0) + (if after then 1 else 0)
      && (before ==> e[0] == Edit((ns.tokenBefore.value.range.1, ns.tokenBefore.value.range.1), " "))
      && (after ==> e[|e| - 1] == Edit((ns.tokenAfter.value.range.0, ns.tokenAfter.value.range.0), " "))
  {
  }

  /** Once reported through the adapter, an automatic fix is a wrapped
      function that returns all yielded edits as one array: the replacement
      first, then the space insertions. */
  lemma ReportedFixEdits(p: Path, src: Source, nonZero: Style, s: Subject)
    requires s.node <= |p.up| && s.autoFix
    requires ProblemFor(p, src, nonZero, s).Some?
    ensures var q := Prepared(ProblemFor(p, src, nonZero, s).value);
      var code := if s.isZeroLengthCheck then "=== 0" else nonZero.code;
      var ns := src.nodes(s.node);
      && IsFunction(q.fix)
      && Reporting.Call(q.fix) == EditArray([Edit(ns.range, FixedText(p, src, s.node, code))] +
                                  SpaceEdits(ns, ParenthesizedRange(ns, ParenDepth(ns))))
  {
    var code := if s.isZeroLengthCheck then "=== 0" else nonZero.code;
    var steps := FixSteps(p, src, s.node, code);
    ProblemShape(p, src, nonZero, s);
    DrainedAt(steps, |steps|);
    var ns := src.nodes(s.node);
    var edits := [Edit(ns.range, FixedText(p, src, s.node, code))] + SpaceEdits(ns, ParenthesizedRange(ns, ParenDepth(ns)));
    assert YieldedEdits(steps) == edits;
  }

  /** Once reported, the single suggestion carries the problem's `code` and
      `property`, which its message interpolates. */
  lemma SuggestionInheritsData(p: Path, src: Source, nonZero: Style, s: Subject)
    requires s.node <= |p.up| && !s.autoFix
    requires ProblemFor(p, src, nonZero, s).Some?
    ensures var r := ProblemFor(p, src, nonZero, s).value;
      var q := Prepared(r);
      && q.suggest.SuggestArray? && |q.suggest.items| == 1
      && q.suggest.items[0].data == r.data
      && IsFunction(q.suggest.items[0].fix)
  {
    var r := ProblemFor(p, src, nonZero, s).value;
    ProblemShape(p, src, nonZero, s);
    PreparedFields(r);
    assert MergeData(r.data, None) == r.data.value;
  }

  /** `if (foo.size()) {}` is reported as a non-zero check and fixed to
      `foo.size() > 0` under the default option. */
  lemma ExampleIfTest(src: Source)
    requires src.callText == "foo.size()"
    ensures var p := Path(Call(Member(OtherObject, PropertyIdentifier("size"), false), 0), [Frame(IfStatement, Test)]);
      var r := SizeCheckReport(p, src, Create(None).value);
      && r.Some?
      && r.value.messageId == "non-zero"
      && r.value.data == Some(map["code" := "> 0", "property" := "size"])
      && r.value.fix.FixFunction? && r.value.fix.result.Generated?
      && r.value.fix.result.steps[0] == Yield(Edit(src.nodes(0).range, "foo.size() > 0"))
  {
    var p := Path(Call(Member(OtherObject, PropertyIdentifier("size"), false), 0), [Frame(IfStatement, Test)]);
    assert BooleanAncestor(p, 0) == Ancestor(false, 0);
    assert IsBooleanNode(p, 0);
    assert !NeedsParentheses(p, src, 0);
    assert Create(None).value == Style("> 0", ">");
    assert FixedText(p, src, 0, "> 0") == "foo.size() > 0";
    assert FixSteps(p, src, 0, "> 0")[0] == Yield(Edit(src.nodes(0).range, "foo.size() > 0"));
  }

  /** `!foo.size()` is a zero check fixed to `foo.size() === 0`, replacing
      the whole negation. */
  lemma ExampleNegation(src: Source)
    requires src.callText == "foo.size()"
    ensures var p := Path(Call(Member(OtherObject, PropertyIdentifier("size"), false), 0),
                          [Frame(Unary("!"), UnaryArgument), Frame(OtherNode, OtherSlot)]);
      var r := SizeCheckReport(p, src, Create(None).value);
      && r.Some?
      && r.value.messageId == "zero"
      && r.value.node == 1
      && r.value.data == Some(map["code" := "=== 0", "property" := "size"])
  {
    var p := Path(Call(Member(OtherObject, PropertyIdentifier("size"), false), 0),
                  [Frame(Unary("!"), UnaryArgument), Frame(OtherNode, OtherSlot)]);
    assert BooleanAncestor(p, 1) == Ancestor(false, 1);
    assert BooleanAncestor(p, 0) == Ancestor(true, 1);
    assert IsBooleanNode(p, 1);
  }

  // ---------------------------------------------------------------------
  // Fixing and running again

  /** The tree the fix intends: the replaced node becomes the comparison
      `<call> <op> 0` with the call on the left, in the replaced node's
      place. (The fixed text may parse otherwise, as in `a instanceof
      foo.size() === 0`; this is the tree the fix means.) */
  function FixedPath(p: Path, node: nat, op: string): Path
    requires node <= |p.up|
  {
    Path(p.self, [Frame(Binary(op, NotLiteral, Literal(Num(0.0), "0")), Left)] + p.up[node..])
  }

  /** Once its fix is applied, the same call is not reported again, under
      the same option. */
  lemma FixedNotReportedAgain(p: Path, src: Source, fixedSrc: Source, option: Option<string>)
    requires Create(option).Ok? && Decide(p).Some?
    ensures var s := Decide(p).value;
      var style := if s.isZeroLengthCheck then ZeroStyle else Create(option).value;
      SizeCheckReport(FixedPath(p, s.node, style.op), fixedSrc, Create(option).value) == None
  {
    var s := Decide(p).value;
    var nonZero := Create(option).value;
    var style := if s.isZeroLengthCheck then ZeroStyle else nonZero;
    var q := FixedPath(p, s.node, style.op);
    assert !IsWrapped(p, s.node) by {
      if GetSizeCheckNode(p).None? && !IsBooleanNode(p, BooleanAncestor(p, 0).node) {
        assert s.node == 0 && p.up[0].kind.Logical?;
      }
    }
    if s.node < |p.up| {
      assert q.up[1] == p.up[s.node];
    }
    assert !IsWrapped(q, 1);
    assert BooleanAncestor(q, 1) == Ancestor(false, 1);
    assert style.op in {"===", ">", "!=="};
    assert IsCompareRight(q.up[0].kind, style.op, 0.0);
    assert GetSizeCheckNode(q) == Some(SizeCheckResult(style == ZeroStyle, 1));
    assert Decide(q) == Some(Subject(true, style == ZeroStyle, 1));
  }

  /** A suggestion, once applied, is not reported again either: the call
      itself becomes the comparison, under the same ancestors. */
  lemma SuggestionNotReportedAgain(p: Path, src: Source, fixedSrc: Source, option: Option<string>)
    requires Create(option).Ok? && Decide(p).Some? && !Decide(p).value.autoFix
    ensures var s := Decide(p).value;
      var style := if s.isZeroLengthCheck then ZeroStyle else Create(option).value;
      && s.node == 0
      && SizeCheckReport(Path(p.self, [Frame(Binary(style.op, NotLiteral, Literal(Num(0.0), "0")), Left)] + p.up),
                         fixedSrc, Create(option).value) == None
  {
    var s := Decide(p).value;
    assert p.up[0..] == p.up;
    FixedNotReportedAgain(p, src, fixedSrc, option);
  }

  /** The text after the reported automatic fix, wrapped by the adapter and
      applied as the host applies a fix's edits. */
  function FixedSource(text: string, p: Path, src: Source, nonZero: Style): Option<string> {
    match SizeCheckReport(p, src, nonZero)
    case None => None
    case Some(r) =>
      var q := Prepared(r);
      if IsFunction(q.fix) && Reporting.Call(q.fix).EditArray? then ApplyEdits(text, Reporting.Call(q.fix).edits)
      else None
  }

  /** The fixed source is the text with the replacement and the space
      insertions applied. */
  lemma FixedSourceEdits(text: string, p: Path, src: Source, nonZero: Style)
    requires Decide(p).Some? && Decide(p).value.autoFix
    requires ProblemFor(p, src, nonZero, Decide(p).value).Some?
    ensures var s := Decide(p).value;
      var code := if s.isZeroLengthCheck then "=== 0" else nonZero.code;
      var ns := src.nodes(s.node);
      FixedSource(text, p, src, nonZero) ==
        ApplyEdits(text, [Edit(ns.range, FixedText(p, src, s.node, code))] +
                         SpaceEdits(ns, ParenthesizedRange(ns, ParenDepth(ns))))
  {
    ReportedFixEdits(p, src, nonZero, Decide(p).value);
  }

  const SizeCall: Kind := Call(Member(OtherObject, PropertyIdentifier("size"), false), 0)

  /** The report's edits for `typeof!foo.size()`: the replacement and a space after `typeof`. */
  lemma ExampleTypeofEdits()
    ensures var typeofToken := Token(KeywordToken, "typeof", (0, 6));
      var ns := NodeSource((6, 17), [typeofToken], [], None, Some(typeofToken), None);
      var p := Path(SizeCall, [Frame(Unary("!"), UnaryArgument), Frame(Unary("typeof"), UnaryArgument),
                               Frame(OtherNode, OtherSlot)]);
      FixedSource("typeof!foo.size()", p, Source("foo.size()", n => ns), Create(None).value)
        == ApplyEdits("typeof!foo.size()", [Edit((6, 17), "(foo.size() === 0)"), Edit((6, 6), " ")])
  {
    var typeofToken := Token(KeywordToken, "typeof", (0, 6));
    var ns := NodeSource((6, 17), [typeofToken], [], None, Some(typeofToken), None);
    var p := Path(SizeCall, [Frame(Unary("!"), UnaryArgument), Frame(Unary("typeof"), UnaryArgument),
                               Frame(OtherNode, OtherSlot)]);
    var src := Source("foo.size()", n => ns);
    assert BooleanAncestor(p, 1) == Ancestor(false, 1);
    assert BooleanAncestor(p, 0) == Ancestor(true, 1);
    assert Decide(p) == Some(Subject(true, true, 1));
    assert src.nodes(1) == ns;
    assert NeedsParentheses(p, src, 1);
    assert FixedText(p, src, 1, "=== 0") == "(foo.size() === 0)";
    ParenDepthUnique(ns, 0);
    assert SpaceEdits(ns, ns.range) == [Edit((6, 6), " ")];
    assert ProblemFor(p, src, Create(None).value, Decide(p).value).Some?;
    FixedSourceEdits("typeof!foo.size()", p, src, Create(None).value);
  }

  /** `typeof!foo.size()`, cut at the edited range, and the expected output glued
      from the pieces. */
  lemma ExampleTypeofPieces()
    ensures "typeof!foo.size()" == "typeof" + "!foo.size()" + ""
    ensures "typeof" + " " + "(foo.size() === 0)" + "" == "typeof (foo.size() === 0)"
  {
  }

  /** The host applies those edits to `typeof!foo.size()`. */
  lemma ExampleTypeofText()
    ensures ApplyEdits("typeof!foo.size()", [Edit((6, 17), "(foo.size() === 0)"), Edit((6, 6), " ")]) == Some("typeof (foo.size() === 0)")
  {
    ExampleTypeofPieces();
    ApplyReplaceThenInsert("typeof", "!foo.size()", "", "(foo.size() === 0)", " ");
  }

  /** `typeof!foo.size()` becomes `typeof (foo.size() === 0)`: parentheses
      under `typeof`, and a space after the keyword. */
  lemma ExampleTypeof()
    ensures var typeofToken := Token(KeywordToken, "typeof", (0, 6));
      var ns := NodeSource((6, 17), [typeofToken], [], None, Some(typeofToken), None);
      var p := Path(SizeCall, [Frame(Unary("!"), UnaryArgument), Frame(Unary("typeof"), UnaryArgument),
                               Frame(OtherNode, OtherSlot)]);
      FixedSource("typeof!foo.size()", p, Source("foo.size()", n => ns), Create(None).value)
        == Some("typeof (foo.size() === 0)")
  {
    ExampleTypeofEdits();
    ExampleTypeofText();
  }

  /** The report's edits for `const bar = void !foo.size();`: the replacement alone. */
  lemma ExampleVoidEdits()
    ensures var voidToken := Token(KeywordToken, "void", (12, 16));
      var semicolon := Token(PunctuatorToken, ";", (28, 29));
      var ns := NodeSource((17, 28), [voidToken], [semicolon], None, Some(voidToken), Some(semicolon));
      var p := Path(SizeCall, [Frame(Unary("!"), UnaryArgument), Frame(Unary("void"), UnaryArgument),
                               Frame(OtherNode, OtherSlot)]);
      FixedSource("const bar = void !foo.size();", p, Source("foo.size()", n => ns), Create(None).value)
        == ApplyEdits("const bar = void !foo.size();", [Edit((17, 28), "(foo.size() === 0)")])
  {
    var voidToken := Token(KeywordToken, "void", (12, 16));
    var semicolon := Token(PunctuatorToken, ";", (28, 29));
    var ns := NodeSource((17, 28), [voidToken], [semicolon], None, Some(voidToken), Some(semicolon));
    var p := Path(SizeCall, [Frame(Unary("!"), UnaryArgument), Frame(Unary("void"), UnaryArgument),
                               Frame(OtherNode, OtherSlot)]);
    var src := Source("foo.size()", n => ns);
    assert BooleanAncestor(p, 1) == Ancestor(false, 1);
    assert BooleanAncestor(p, 0) == Ancestor(true, 1);
    assert Decide(p) == Some(Subject(true, true, 1));
    assert src.nodes(1) == ns;
    assert NeedsParentheses(p, src, 1) by { assert !IsOpeningParen(ns.tokensBefore[0]); }
    assert FixedText(p, src, 1, "=== 0") == "(foo.size() === 0)";
    ParenDepthUnique(ns, 0);
    assert SpaceEdits(ns, ns.range) == [];
    assert ProblemFor(p, src, Create(None).value, Decide(p).value).Some?;
    FixedSourceEdits("const bar = void !foo.size();", p, src, Create(None).value);
  }

  /** `const bar = void !foo.size();`, cut at the edited range, and the expected output glued
      from the pieces. */
  lemma ExampleVoidPieces()
    ensures "const bar = void !foo.size();" == "const bar = void " + "!foo.size()" + ";"
    ensures "const bar = void " + "(foo.size() === 0)" + ";" == "const bar = void (foo.size() === 0);"
  {
  }

  /** The host applies those edits to `const bar = void !foo.size();`. */
  lemma ExampleVoidText()
    ensures ApplyEdits("const bar = void !foo.size();", [Edit((17, 28), "(foo.size() === 0)")]) == Some("const bar = void (foo.size() === 0);")
  {
    ExampleVoidPieces();
    ApplyReplace("const bar = void ", "!foo.size()", ";", "(foo.size() === 0)");
  }

  /** `const bar = void !foo.size();` becomes
      `const bar = void (foo.size() === 0);`: no space is added where one
      is already. */
  lemma ExampleVoid()
    ensures var voidToken := Token(KeywordToken, "void", (12, 16));
      var semicolon := Token(PunctuatorToken, ";", (28, 29));
      var ns := NodeSource((17, 28), [voidToken], [semicolon], None, Some(voidToken), Some(semicolon));
      var p := Path(SizeCall, [Frame(Unary("!"), UnaryArgument), Frame(Unary("void"), UnaryArgument),
                               Frame(OtherNode, OtherSlot)]);
      FixedSource("const bar = void !foo.size();", p, Source("foo.size()", n => ns), Create(None).value)
        == Some("const bar = void (foo.size() === 0);")
  {
    ExampleVoidEdits();
    ExampleVoidText();
  }

  /** The report's edits for `a in!foo.size()`: the replacement and a space after `in`. */
  lemma ExampleInEdits()
    ensures var inToken := Token(KeywordToken, "in", (2, 4));
      var ns := NodeSource((4, 15), [inToken], [], None, Some(inToken), None);
      var p := Path(SizeCall, [Frame(Unary("!"), UnaryArgument), Frame(Binary("in", NotLiteral, NotLiteral), Right),
                               Frame(OtherNode, OtherSlot)]);
      FixedSource("a in!foo.size()", p, Source("foo.size()", n => ns), Create(None).value)
        == ApplyEdits("a in!foo.size()", [Edit((4, 15), "foo.size() === 0"), Edit((4, 4), " ")])
  {
    var inToken := Token(KeywordToken, "in", (2, 4));
    var ns := NodeSource((4, 15), [inToken], [], None, Some(inToken), None);
    var p := Path(SizeCall, [Frame(Unary("!"), UnaryArgument), Frame(Binary("in", NotLiteral, NotLiteral), Right),
                               Frame(OtherNode, OtherSlot)]);
    var src := Source("foo.size()", n => ns);
    assert BooleanAncestor(p, 1) == Ancestor(false, 1);
    assert BooleanAncestor(p, 0) == Ancestor(true, 1);
    assert Decide(p) == Some(Subject(true, true, 1));
    assert src.nodes(1) == ns;
    assert !NeedsParentheses(p, src, 1);
    assert FixedText(p, src, 1, "=== 0") == "foo.size() === 0";
    ParenDepthUnique(ns, 0);
    assert SpaceEdits(ns, ns.range) == [Edit((4, 4), " ")];
    assert ProblemFor(p, src, Create(None).value, Decide(p).value).Some?;
    FixedSourceEdits("a in!foo.size()", p, src, Create(None).value);
  }

  /** `a in!foo.size()`, cut at the edited range, and the expected output glued
      from the pieces. */
  lemma ExampleInPieces()
    ensures "a in!foo.size()" == "a in" + "!foo.size()" + ""
    ensures "a in" + " " + "foo.size() === 0" + "" == "a in foo.size() === 0"
  {
  }

  /** The host applies those edits to `a in!foo.size()`. */
  lemma ExampleInText()
    ensures ApplyEdits("a in!foo.size()", [Edit((4, 15), "foo.size() === 0"), Edit((4, 4), " ")]) == Some("a in foo.size() === 0")
  {
    ExampleInPieces();
    ApplyReplaceThenInsert("a in", "!foo.size()", "", "foo.size() === 0", " ");
  }

  /** `a in!foo.size()` becomes `a in foo.size() === 0`: no parentheses
      under a binary operator, and a space after `in`. */
  lemma ExampleIn()
    ensures var inToken := Token(KeywordToken, "in", (2, 4));
      var ns := NodeSource((4, 15), [inToken], [], None, Some(inToken), None);
      var p := Path(SizeCall, [Frame(Unary("!"), UnaryArgument), Frame(Binary("in", NotLiteral, NotLiteral), Right),
                               Frame(OtherNode, OtherSlot)]);
      FixedSource("a in!foo.size()", p, Source("foo.size()", n => ns), Create(None).value)
        == Some("a in foo.size() === 0")
  {
    ExampleInEdits();
    ExampleInText();
  }

  /** The report's edits for `if (!!(!!foo.size())) {}`: the replacement alone. */
  lemma ExampleDoubleNegationEdits()
    ensures var open := Token(PunctuatorToken, "(", (3, 4));
      var close := Token(PunctuatorToken, ")", (20, 21));
      var ns := NodeSource((4, 20), [open, Token(KeywordToken, "if", (0, 2))],
                           [close, Token(PunctuatorToken, "{", (22, 23)), Token(PunctuatorToken, "}", (23, 24))],
                           Some(0), Some(open), Some(close));
      var not := Frame(Unary("!"), UnaryArgument);
      var p := Path(SizeCall, [not, not, not, not, Frame(IfStatement, Test)]);
      FixedSource("if (!!(!!foo.size())) {}", p, Source("foo.size()", n => ns), Create(None).value)
        == ApplyEdits("if (!!(!!foo.size())) {}", [Edit((4, 20), "foo.size() > 0")])
  {
    var open := Token(PunctuatorToken, "(", (3, 4));
    var close := Token(PunctuatorToken, ")", (20, 21));
    var ns := NodeSource((4, 20), [open, Token(KeywordToken, "if", (0, 2))],
                           [close, Token(PunctuatorToken, "{", (22, 23)), Token(PunctuatorToken, "}", (23, 24))],
                           Some(0), Some(open), Some(close));
    var not := Frame(Unary("!"), UnaryArgument);
    var p := Path(SizeCall, [not, not, not, not, Frame(IfStatement, Test)]);
    var src := Source("foo.size()", n => ns);
    assert BooleanAncestor(p, 4) == Ancestor(false, 4);
    assert BooleanAncestor(p, 3) == Ancestor(true, 4);
    assert BooleanAncestor(p, 2) == Ancestor(false, 4);
    assert BooleanAncestor(p, 1) == Ancestor(true, 4);
    assert BooleanAncestor(p, 0) == Ancestor(false, 4);
    assert Decide(p) == Some(Subject(true, false, 4));
    assert src.nodes(4) == ns;
    assert !NeedsParentheses(p, src, 4);
    assert FixedText(p, src, 4, "> 0") == "foo.size() > 0";
    ParenDepthUnique(ns, 0);
    assert SpaceEdits(ns, ns.range) == [];
    assert ProblemFor(p, src, Create(None).value, Decide(p).value).Some?;
    FixedSourceEdits("if (!!(!!foo.size())) {}", p, src, Create(None).value);
  }

  /** `if (!!(!!foo.size())) {}`, cut at the edited range, and the expected output glued
      from the pieces. */
  lemma ExampleDoubleNegationPieces()
    ensures "if (!!(!!foo.size())) {}" == "if (" + "!!(!!foo.size())" + ") {}"
    ensures "if (" + "foo.size() > 0" + ") {}" == "if (foo.size() > 0) {}"
  {
  }

  /** The host applies those edits to `if (!!(!!foo.size())) {}`. */
  lemma ExampleDoubleNegationText()
    ensures ApplyEdits("if (!!(!!foo.size())) {}", [Edit((4, 20), "foo.size() > 0")]) == Some("if (foo.size() > 0) {}")
  {
    ExampleDoubleNegationPieces();
    ApplyReplace("if (", "!!(!!foo.size())", ") {}", "foo.size() > 0");
  }

  /** `if (!!(!!foo.size())) {}` becomes `if (foo.size() > 0) {}`: four `!`
      cancel out, and the parenthesis of the `if` does not wrap the test. */
  lemma ExampleDoubleNegation()
    ensures var open := Token(PunctuatorToken, "(", (3, 4));
      var close := Token(PunctuatorToken, ")", (20, 21));
      var ns := NodeSource((4, 20), [open, Token(KeywordToken, "if", (0, 2))],
                           [close, Token(PunctuatorToken, "{", (22, 23)), Token(PunctuatorToken, "}", (23, 24))],
                           Some(0), Some(open), Some(close));
      var not := Frame(Unary("!"), UnaryArgument);
      var p := Path(SizeCall, [not, not, not, not, Frame(IfStatement, Test)]);
      FixedSource("if (!!(!!foo.size())) {}", p, Source("foo.size()", n => ns), Create(None).value)
        == Some("if (foo.size() > 0) {}")
  {
    ExampleDoubleNegationEdits();
    ExampleDoubleNegationText();
  }
}
