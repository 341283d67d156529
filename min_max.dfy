/** The prefer-math-min-max rule (src/rules/prefer-math-min-max/rule.ts):
    a conditional `a > b ? b : a` (and its variants) whose branches repeat
    the compared operands is reported and rewritten to `math.min(a, b)` or
    `math.max(a, b)`. Source text is a field of every expression; the scope
    resolver is a map from a name to the definitions of that variable. */
module MinMax {
  import opened Js
  import opened Reporting

  datatype TypeName = TypeIdentifier(name: string) | QualifiedTypeName(text: string)

  /** The type nodes the rule tells apart. */
  datatype TypeNode =
    | NumberKeyword                    // `number`
    | TypeAnnotation(inner: TypeNode)  // `: T` on a parameter or variable
    | TypeReference(typeName: TypeName)
    | OtherType

  /** Expressions, each with its source text (`sourceCode.getText`). */
  datatype Expr =
    | AsExpression(expression: Expr, asType: TypeNode, text: string)
    | Identifier(name: string, text: string)
    | SequenceExpression(text: string)
    | BinaryExpression(op: string, left: Expr, right: Expr, text: string)
    | OtherExpression(text: string)

  datatype Conditional = Conditional(test: Expr, consequent: Expr, alternate: Expr, range: (int, int))

  /** `getExpressionText`: the text of the expression under all `as`
      wrappers. */
  function ExpressionText(e: Expr): string {
    if e.AsExpression? then ExpressionText(e.expression) else e.text
  }

  /** `e` wrapped in one `as` per element of `types`, innermost first. */
  function WrapAs(e: Expr, types: seq<(TypeNode, string)>): Expr
    decreases |types|
  {
    if types == [] then e else WrapAs(AsExpression(e, types[0].0, types[0].1), types[1..])
  }

  /** Any number of nested `as` wrappers leave the compared text unchanged. */
  lemma {:induction false} ExpressionTextIgnoresAs(e: Expr, types: seq<(TypeNode, string)>)
    ensures ExpressionText(WrapAs(e, types)) == ExpressionText(e)
    decreases |types|
  {
    if types != [] {
      ExpressionTextIgnoresAs(AsExpression(e, types[0].0, types[0].1), types[1..]);
    }
  }

  /** The compared text is the text of an expression that is not an `as`
      expression, reached by removing `as` wrappers. */
  lemma {:induction false} ExpressionTextIsInnermost(e: Expr)
    ensures exists types: seq<(TypeNode, string)>, inner: Expr ::
              !inner.AsExpression? && e == WrapAs(inner, types) && ExpressionText(e) == inner.text
  {
    if e.AsExpression? {
      ExpressionTextIsInnermost(e.expression);
      var types: seq<(TypeNode, string)>, inner: Expr :|
        !inner.AsExpression? && e.expression == WrapAs(inner, types) && ExpressionText(e.expression) == inner.text;
      WrapAsSnoc(inner, types, e.asType, e.text);
      assert e == WrapAs(inner, types + [(e.asType, e.text)]);
    } else {
      assert e == WrapAs(e, []);
    }
  }

  lemma {:induction false} WrapAsSnoc(e: Expr, types: seq<(TypeNode, string)>, t: TypeNode, text: string)
    ensures WrapAs(e, types + [(t, text)]) == AsExpression(WrapAs(e, types), t, text)
    decreases |types|
  {
    if types != [] {
      assert (types + [(t, text)])[1..] == types[1..] + [(t, text)];
      WrapAsSnoc(AsExpression(e, types[0].0, types[0].1), types[1..], t, text);
    } else {
      assert [(t, text)][1..] == [];
    }
  }

  /** `isNumberTypeAnnotation` */
  predicate IsNumberTypeAnnotation(t: TypeNode) {
    if t.NumberKeyword? then true
    else if t.TypeAnnotation? && t.inner.NumberKeyword? then true
    else t.TypeReference? && t.typeName.TypeIdentifier? && t.typeName.name == "Number"
  }

  /** Exactly three type nodes are numeric: `number`, an annotation holding
      `number`, and a reference to `Number`. An annotation holding `Number`
      is therefore not numeric. */
  lemma NumberTypeAnnotationExact(t: TypeNode)
    ensures IsNumberTypeAnnotation(t) <==>
      t in {NumberKeyword, TypeAnnotation(NumberKeyword), TypeReference(TypeIdentifier("Number"))}
    ensures !IsNumberTypeAnnotation(TypeAnnotation(TypeReference(TypeIdentifier("Number"))))
  {
  }

  // ---------------------------------------------------------------------
  // Classification

  datatype MathMethod = Min | Max

  function MethodName(m: MathMethod): string {
    if m == Min then "min" else "max"
  }

  /** The table of the listener: `min` is tried first. */
  function ChooseMethod(op: string, leftText: string, rightText: string,
                        consequentText: string, alternateText: string): Option<MathMethod>
  {
    var isGreaterOrEqual := op == ">" || op == ">=";
    var isLessOrEqual := op == "<" || op == "<=";
    if (isGreaterOrEqual && leftText == alternateText && rightText == consequentText) ||
       (isLessOrEqual && leftText == consequentText && rightText == alternateText)
    then Some(Min)
    else if (isGreaterOrEqual && leftText == consequentText && rightText == alternateText) ||
            (isLessOrEqual && leftText == alternateText && rightText == consequentText)
    then Some(Max)
    else None
  }

  predicate IsComparison(op: string) {
    op in {">", ">=", "<", "<="}
  }

  /** The table: the `min` patterns give `min` (also when a `max` pattern
      holds too, as in `x > x ? x : x`), the mirrored patterns otherwise give
      `max`, and everything else gives no method. */
  lemma ChooseMethodTable(op: string, l: string, r: string, c: string, a: string)
    ensures var minPattern := ((op == ">" || op == ">=") && l == a && r == c) ||
                              ((op == "<" || op == "<=") && l == c && r == a);
            var maxPattern := ((op == ">" || op == ">=") && l == c && r == a) ||
                              ((op == "<" || op == "<=") && l == a && r == c);
            && (ChooseMethod(op, l, r, c, a) == Some(Min) <==> minPattern)
            && (ChooseMethod(op, l, r, c, a) == Some(Max) <==> !minPattern && maxPattern)
            && (ChooseMethod(op, l, r, c, a) == None <==> !minPattern && !maxPattern)
    ensures ChooseMethod(">", "x", "x", "x", "x") == Some(Min)
  {
  }

  /** Only the four ordering operators can match. */
  lemma OnlyComparisonsMatch(op: string, l: string, r: string, c: string, a: string)
    requires ChooseMethod(op, l, r, c, a).Some?
    ensures IsComparison(op)
  {
  }

  /** The operator with its operands swapped: `a > b` is `b < a`. */
  function Flip(op: string): (f: string)
    ensures IsComparison(op) <==> IsComparison(f)
  {
    if op == ">" then "<"
    else if op == ">=" then "<="
    else if op == "<" then ">"
    else if op == "<=" then ">="
    else op
  }

  /** Swapping the compared operands and flipping the operator selects the
      same method. */
  lemma ChooseMethodSymmetric(op: string, l: string, r: string, c: string, a: string)
    requires IsComparison(op)
    ensures Flip(Flip(op)) == op
    ensures ChooseMethod(Flip(op), r, l, c, a) == ChooseMethod(op, l, r, c, a)
  {
  }

  /** The comparison of two numbers by an ordering operator (numbers are
      reals here, so NaN, for which every comparison is false, is not
      among them). */
  predicate Compare(op: string, x: real, y: real)
    requires IsComparison(op)
  {
    if op == ">" then x > y
    else if op == ">=" then x >= y
    else if op == "<" then x < y
    else x <= y
  }

  /** `math.min` and `math.max` of two numbers other than NaN. */
  function MathOf(m: MathMethod, x: real, y: real): real {
    if m == Min then (if x <= y then x else y) else (if x >= y then x else y)
  }

  /** Meaning of the table: when equal texts denote equal numbers, the
      conditional and the chosen `math` call compute the same value. */
  lemma ChosenMethodPreservesValue(op: string, l: string, r: string, c: string, a: string,
                                   value: string -> real)
    requires ChooseMethod(op, l, r, c, a).Some?
    ensures IsComparison(op)
    ensures (if Compare(op, value(l), value(r)) then value(c) else value(a))
            == MathOf(ChooseMethod(op, l, r, c, a).value, value(l), value(r))
  {
  }

  // ---------------------------------------------------------------------
  // Operand guard

  /** A literal initialiser or default value, or another expression. */
  datatype Init = LiteralInit(value: JsValue) | OtherInit

  /** A definition of a variable, as the scope resolver gives it. */
  datatype Definition =
    | ParameterDefinition(annotation: Option<TypeNode>, defaultValue: Option<Init>)
    | VariableDefinition(annotation: Option<TypeNode>, init: Option<Init>)
    | OtherDefinition

  /** An annotation `: T` with a non-numeric `T`. */
  predicate NonNumericAnnotation(a: Option<TypeNode>) {
    a.Some? && a.value.TypeAnnotation? && !IsNumberTypeAnnotation(a.value)
  }

  /** A literal that is not a number. */
  predicate NonNumericLiteral(i: Option<Init>) {
    i.Some? && i.value.LiteralInit? && !IsNumber(i.value.value)
  }

  /** Positive evidence that a definition does not hold a number. */
  predicate Contradicts(d: Definition) {
    match d
    case ParameterDefinition(a, dv) => NonNumericAnnotation(a) || NonNumericLiteral(dv)
    case VariableDefinition(a, init) => NonNumericAnnotation(a) || NonNumericLiteral(init)
    case OtherDefinition => false
  }

  function DefinitionsOf(scope: map<string, seq<Definition>>, name: string): seq<Definition> {
    if name in scope then scope[name] else []
  }

  /** The operand under at most one `as`. */
  function Unwrapped(e: Expr): Expr {
    if e.AsExpression? then e.expression else e
  }

  predicate NoContradiction(defs: seq<Definition>) {
    forall i :: 0 <= i < |defs| ==> !Contradicts(defs[i])
  }

  /** The guard on one comparison operand: an `as` must name a number type;
      an identifier (after one `as`) must have no contradicting definition. */
  predicate OperandAllowed(e: Expr, scope: map<string, seq<Definition>>) {
    && (e.AsExpression? ==> IsNumberTypeAnnotation(e.asType))
    && (Unwrapped(e).Identifier? ==> NoContradiction(DefinitionsOf(scope, Unwrapped(e).name)))
  }

  /** Missing information never rejects: a variable with no definitions, or
      whose definitions carry no annotation and no initialiser, is allowed. */
  lemma NoInformationAllows(e: Expr, scope: map<string, seq<Definition>>)
    requires e.Identifier?
    requires forall i :: 0 <= i < |DefinitionsOf(scope, e.name)| ==>
      var d := DefinitionsOf(scope, e.name)[i];
      d == OtherDefinition || d == ParameterDefinition(None, None) || d == VariableDefinition(None, None)
    ensures OperandAllowed(e, scope)
  {
    var defs := DefinitionsOf(scope, e.name);
    forall i | 0 <= i < |defs|
      ensures !Contradicts(defs[i])
    {
      var d := defs[i];
      assert d == OtherDefinition || d == ParameterDefinition(None, None) || d == VariableDefinition(None, None);
    }
  }

  /** A definition rejects exactly on one of four kinds of evidence. */
  lemma ContradictsExact(d: Definition)
    ensures Contradicts(d) <==>
      || (d.ParameterDefinition? && d.annotation.Some? && d.annotation.value.TypeAnnotation? && d.annotation.value.inner != NumberKeyword)
      || (d.ParameterDefinition? && d.defaultValue.Some? && d.defaultValue.value.LiteralInit? && !d.defaultValue.value.value.Num?)
      || (d.VariableDefinition? && d.annotation.Some? && d.annotation.value.TypeAnnotation? && d.annotation.value.inner != NumberKeyword)
      || (d.VariableDefinition? && d.init.Some? && d.init.value.LiteralInit? && !d.init.value.value.Num?)
  {
  }

  /** One contradicting definition of the identifier rejects the operand. */
  lemma DefinitionRejects(e: Expr, scope: map<string, seq<Definition>>, i: nat)
    requires !e.AsExpression? || IsNumberTypeAnnotation(e.asType)
    requires Unwrapped(e).Identifier?
    requires i < |DefinitionsOf(scope, Unwrapped(e).name)| && Contradicts(DefinitionsOf(scope, Unwrapped(e).name)[i])
    ensures !OperandAllowed(e, scope)
  {
  }

  /** An `as` operand is rejected unless its type is numeric. */
  lemma NonNumericAsRejected(e: Expr, scope: map<string, seq<Definition>>)
    requires e.AsExpression? && !IsNumberTypeAnnotation(e.asType)
    ensures !OperandAllowed(e, scope)
  {
  }

  // ---------------------------------------------------------------------
  // Report and fix

  /** An operand as an argument of the call: a sequence expression is
      parenthesised. */
  function ArgumentText(e: Expr): (t: string)
    ensures e.SequenceExpression? ==> t == "(" + e.text + ")"
    ensures !e.SequenceExpression? ==> t == e.text
  {
    if e.SequenceExpression? then "(" + e.text + ")" else e.text
  }

  /** The call's argument keeps every `as` wrapper, written as the
      outermost one's text, while the compared text strips them all. */
  lemma ArgumentKeepsAs(e: Expr, types: seq<(TypeNode, string)>)
    requires types != []
    ensures WrapAs(e, types).AsExpression?
    ensures ArgumentText(WrapAs(e, types)) == types[|types| - 1].1
    ensures ExpressionText(WrapAs(e, types)) == ExpressionText(e)
  {
    var n := |types| - 1;
    assert types == types[..n] + [types[n]];
    WrapAsSnoc(e, types[..n], types[n].0, types[n].1);
    ExpressionTextIgnoresAs(e, types);
  }

  /** The replacement of the whole conditional. */
  function FixText(m: MathMethod, left: Expr, right: Expr): string {
    "math." + MethodName(m) + "(" + ArgumentText(left) + ", " + ArgumentText(right) + ")"
  }

  function ReportOf(c: Conditional, m: MathMethod): Problem
    requires c.test.BinaryExpression?
  {
    Problem("prefer-math-min-max", 0, Some(map["method" := MethodName(m)]),
            FixFunction(Plain(Some(Edit(c.range, FixText(m, c.test.left, c.test.right))))),
            NoSuggest)
  }

  /** `x as number > 50 ? 50 : x as number` is rewritten with the cast
      kept. */
  lemma ExampleFixTextCast()
    ensures FixText(Min, AsExpression(Identifier("x", "x"), NumberKeyword, "x as number"), OtherExpression("50"))
            == "math.min(x as number, 50)"
  {
    assert ArgumentText(AsExpression(Identifier("x", "x"), NumberKeyword, "x as number")) == "x as number";
    assert ArgumentText(OtherExpression("50")) == "50";
    assert "math." + "min" + "(" + "x as number" + ", " + "50" + ")" == "math.min(x as number, 50)";
  }

  /** A sequence operand `(a, b)` keeps its parentheses in the call. */
  lemma ExampleFixTextSequence()
    ensures FixText(Max, SequenceExpression("a, b"), OtherExpression("0")) == "math.max((a, b), 0)"
  {
    assert ArgumentText(SequenceExpression("a, b")) == "(a, b)";
    assert ArgumentText(OtherExpression("0")) == "0";
    assert "math." + "max" + "(" + "(a, b)" + ", " + "0" + ")" == "math.max((a, b), 0)";
  }

  /** What the `ConditionalExpression` listener reports. */
  function MinMaxReport(c: Conditional, scope: map<string, seq<Definition>>): Option<Problem> {
    if !c.test.BinaryExpression? then None
    else
      var m := ChooseMethod(c.test.op, ExpressionText(c.test.left), ExpressionText(c.test.right),
                            ExpressionText(c.consequent), ExpressionText(c.alternate));
      if m.None? then None
      else if !OperandAllowed(c.test.left, scope) || !OperandAllowed(c.test.right, scope) then None
      else Some(ReportOf(c, m.value))
  }

  /** The listener, with its loop over the two operands and its nested loop
      over each identifier's definitions. */
  method OnConditionalExpression(c: Conditional, scope: map<string, seq<Definition>>) returns (r: Option<Problem>)
    ensures r == MinMaxReport(c, scope)
  {
    if !c.test.BinaryExpression? {
      return None;
    }
    var left, op, right := c.test.left, c.test.op, c.test.right;
    var leftText, rightText := ExpressionText(left), ExpressionText(right);
    var alternateText, consequentText := ExpressionText(c.alternate), ExpressionText(c.consequent);
    var isGreaterOrEqual := op == ">" || op == ">=";
    var isLessOrEqual := op == "<" || op == "<=";
    var chosen: Option<MathMethod> := None;
    if (isGreaterOrEqual && leftText == alternateText && rightText == consequentText) ||
       (isLessOrEqual && leftText == consequentText && rightText == alternateText) {
      chosen := Some(Min);
    } else if (isGreaterOrEqual && leftText == consequentText && rightText == alternateText) ||
              (isLessOrEqual && leftText == alternateText && rightText == consequentText) {
      chosen := Some(Max);
    }
    assert chosen == ChooseMethod(op, leftText, rightText, consequentText, alternateText);
    if chosen.None? {
      return None;
    }
    var operands := [left, right];
    for n := 0 to 2
      invariant operands[0] == left && operands[1] == right
      invariant forall j :: 0 <= j < n ==> OperandAllowed(operands[j], scope)
    {
      var expressionNode := operands[n];
      if expressionNode.AsExpression? {
        if !IsNumberTypeAnnotation(expressionNode.asType) {
          return None;
        }
        expressionNode := expressionNode.expression;
      }
      if expressionNode.Identifier? {
        var defs := DefinitionsOf(scope, expressionNode.name);
        for i := 0 to |defs|
          invariant forall j :: 0 <= j < i ==> !Contradicts(defs[j])
        {
          var definition := defs[i];
          if definition.ParameterDefinition? {
            if NonNumericAnnotation(definition.annotation) {
              DefinitionRejects(operands[n], scope, i);
              return None;
            }
            if NonNumericLiteral(definition.defaultValue) {
              DefinitionRejects(operands[n], scope, i);
              return None;
            }
          } else if definition.VariableDefinition? {
            if NonNumericAnnotation(definition.annotation) {
              DefinitionRejects(operands[n], scope, i);
              return None;
            }
            if NonNumericLiteral(definition.init) {
              DefinitionRejects(operands[n], scope, i);
              return None;
            }
          }
        }
      }
      assert OperandAllowed(operands[n], scope);
    }
    assert OperandAllowed(left, scope) && OperandAllowed(right, scope);
    return Some(ReportOf(c, chosen.value));
  }

  // ---------------------------------------------------------------------
  // Properties

  /** A conditional whose test is not a binary expression is not reported. */
  lemma NonBinaryTestNotReported(c: Conditional, scope: map<string, seq<Definition>>)
    requires !c.test.BinaryExpression?
    ensures MinMaxReport(c, scope) == None
  {
  }

  /** A report is made exactly when the table chooses a method and both
      operands pass the guard; it names that method and replaces the whole
      conditional with `math.<method>(<left>, <right>)`, using the operands'
      own text, `as` wrappers included. */
  lemma ReportExact(c: Conditional, scope: map<string, seq<Definition>>)
    ensures MinMaxReport(c, scope).Some? <==>
      && c.test.BinaryExpression?
      && ChooseMethod(c.test.op, ExpressionText(c.test.left), ExpressionText(c.test.right),
                      ExpressionText(c.consequent), ExpressionText(c.alternate)).Some?
      && OperandAllowed(c.test.left, scope) && OperandAllowed(c.test.right, scope)
    ensures MinMaxReport(c, scope).Some? ==>
      var m := ChooseMethod(c.test.op, ExpressionText(c.test.left), ExpressionText(c.test.right),
                            ExpressionText(c.consequent), ExpressionText(c.alternate)).value;
      var r := MinMaxReport(c, scope).value;
      && r.data == Some(map["method" := MethodName(m)])
      && r.fix == FixFunction(Plain(Some(Edit(c.range,
           "math." + MethodName(m) + "(" + ArgumentText(c.test.left) + ", " + ArgumentText(c.test.right) + ")"))))
  {
  }

  /** `height > 50 ? 50 : height` becomes `math.min(height, 50)`. */
  lemma ExampleMin()
    ensures
      var height := Identifier("height", "height");
      var fifty := OtherExpression("50");
      var c := Conditional(BinaryExpression(">", height, fifty, "height > 50"), fifty, height, (0, 25));
      MinMaxReport(c, map[]) == Some(Problem("prefer-math-min-max", 0, Some(map["method" := "min"]),
        FixFunction(Plain(Some(Edit((0, 25), "math.min(height, 50)")))), NoSuggest))
  {
    var height := Identifier("height", "height");
    var fifty := OtherExpression("50");
    assert ChooseMethod(">", "height", "50", "50", "height") == Some(Min);
    assert FixText(Min, height, fifty) == "math.min(height, 50)";
    var c := Conditional(BinaryExpression(">", height, fifty, "height > 50"), fifty, height, (0, 25));
    assert OperandAllowed(height, map[]);
    assert OperandAllowed(fifty, map[]);
    assert MinMaxReport(c, map[]) == Some(ReportOf(c, Min));
  }

  /** `height > 50 ? height + 1 : height` is not reported. */
  lemma ExampleNotOperand()
    ensures
      var height := Identifier("height", "height");
      var c := Conditional(BinaryExpression(">", height, OtherExpression("50"), "height > 50"),
                           OtherExpression("height + 1"), height, (0, 34));
      MinMaxReport(c, map[]) == None
  {
  }
}
