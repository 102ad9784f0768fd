/** The calculator's evaluation (examples/calculator/main.py): it computes while it
    parses, and comes to what the tree would. */
module CalculatorEvaluator {
  import opened Wrappers
  import opened Calculator
  import opened CalculatorTexts

  function Operate<N>(ar: Arith<N>, op: Op, a: N, b: N): Option<N> {
    match op
    case Add => Some(ar.add(a, b))
    case Sub => Some(ar.sub(a, b))
    case Mul => Some(ar.mul(a, b))
    case Div => ar.div(a, b)
  }

  /** The value of an expression, or None when a division in it fails. */
  function Eval<N>(ar: Arith<N>, t: Tree): Option<N> {
    match t
    case Num(lexeme) => Some(ar.literal(lexeme))
    case Paren(inner) => Eval(ar, inner)
    case Neg(arg) =>
      (match Eval(ar, arg) case Some(v) => Some(ar.negate(v)) case None => None)
    case Pos(arg) => Eval(ar, arg)
    case Bin(op, l, r) =>
      (match (Eval(ar, l), Eval(ar, r))
       case (Some(a), Some(b)) => Operate(ar, op, a, b)
       case _ => None)
  }

  lemma EvalIgnoresParens<N>(ar: Arith<N>, t: Tree)
    ensures Eval(ar, t) == Eval(ar, Strip(t))
  {
  }

  /** The value of a written text's tree is the one the text has. */
  lemma {:induction false} EvalOfSum<N>(ar: Arith<N>, s: Sum)
    ensures Eval(ar, SumTree(s)) == SumValue(ar, s)
  {
    match s
    case OneTerm(p) => EvalOfProduct(ar, p);
    case Plus(before, p) => EvalOfSum(ar, before); EvalOfProduct(ar, p);
    case Minus(before, p) => EvalOfSum(ar, before); EvalOfProduct(ar, p);
  }

  lemma {:induction false} EvalOfProduct<N>(ar: Arith<N>, p: Product)
    ensures Eval(ar, ProductTree(p)) == ProductValue(ar, p)
  {
    match p
    case OneFactor(f) => EvalOfFactor(ar, f);
    case Times(so, f) => EvalOfProduct(ar, so); EvalOfFactor(ar, f);
    case Over(so, f) => EvalOfProduct(ar, so); EvalOfFactor(ar, f);
  }

  lemma {:induction false} EvalOfFactor<N>(ar: Arith<N>, f: Factor)
    ensures Eval(ar, FactorTree(f)) == FactorValue(ar, f)
  {
    match f
    case Literal(_) =>
    case Negative(g) => EvalOfFactor(ar, g);
    case Positive(g) => EvalOfFactor(ar, g);
    case Brackets(s) => EvalOfSum(ar, s);
  }

  /** Something the parser had already computed when it stopped needs a division
      that fails. */
  predicate StackFails<N>(ar: Arith<N>, stack: seq<Frame>) {
    stack != [] && (FrameFails(ar, stack[0]) || StackFails(ar, stack[1..]))
  }

  predicate FrameFails<N>(ar: Arith<N>, f: Frame) {
    match f
    case Pending(acc, _) => Eval(ar, acc).None?
    case Whole(t) => Eval(ar, t).None?
    case _ => false
  }

  lemma StackFailsNext<N>(ar: Arith<N>, f: Frame, stack: seq<Frame>)
    ensures StackFails(ar, [f] + stack) <==> FrameFails(ar, f) || StackFails(ar, stack)
  {
    assert ([f] + stack)[1..] == stack;
  }

  datatype Outcome<N> = Value(value: N) | SyntaxFailure(error: SyntaxError) | DivisionByZero

  /** What evaluating while parsing must come to: the value of the tree or a failed
      division; and for a text that is no expression the syntax error, unless a
      division in front of it had failed by then. */
  ghost predicate Agrees<N>(ar: Arith<N>, p: Parse, o: Outcome<N>) {
    match p
    case Parsed(t, _) =>
      (match Eval(ar, t) case Some(v) => o == Value(v) case None => o == DivisionByZero)
    case Rejected(e, stack, _) =>
      o == if StackFails(ar, stack) then DivisionByZero else SyntaxFailure(e)
  }

  lemma {:induction false} FailureSpreads<N>(ar: Arith<N>, level: nat, acc: Tree, ts: seq<Token>)
    requires level < 2 && Eval(ar, acc).None?
    ensures Agrees(ar, ParseTail(level, acc, ts), DivisionByZero)
    decreases |ts|
  {
    if OperatorAt(level, ts) {
      match ParseAt(level + 1, ts[1..])
      case Parsed(t, rest) => FailureSpreads(ar, level, Bin(ts[0].op, acc, t), rest);
      case Rejected(_, stack, _) => StackFailsNext(ar, Pending(acc, ts[0].op), stack);
    }
  }

  /** Evaluating `ts` at a level came to `o`, and, if that is a value, up to `rest`. */
  ghost predicate Evaluated<N>(ar: Arith<N>, level: nat, ts: seq<Token>, o: Outcome<N>, rest: seq<Token>)
    requires level <= 2
  {
    Agrees(ar, ParseAt(level, ts), o) && (o.Value? ==> rest == ParseAt(level, ts).rest)
  }

  /** Half-way through the loop at a level, in front of `rest`: parsing comes to what
      going on from `acc` comes to, and `v` is the value of `acc`. */
  ghost predicate Holds<N>(ar: Arith<N>, level: nat, ts: seq<Token>, acc: Tree, v: N, rest: seq<Token>) {
    level < 2 && ParseAt(level, ts) == ParseTail(level, acc, rest) && Eval(ar, acc) == Some(v)
  }

  lemma HoldsAtFirst<N>(ar: Arith<N>, level: nat, ts: seq<Token>, v: N, rest: seq<Token>) returns (acc: Tree)
    requires level < 2 && Evaluated(ar, level + 1, ts, Value(v), rest)
    ensures Holds(ar, level, ts, acc, v, rest)
  {
    acc := ParseAt(level + 1, ts).tree;
  }

  lemma HoldsAtLast<N>(ar: Arith<N>, level: nat, ts: seq<Token>, acc: Tree, v: N, rest: seq<Token>)
    requires Holds(ar, level, ts, acc, v, rest) && !OperatorAt(level, rest)
    ensures Evaluated(ar, level, ts, Value(v), rest)
  {
  }

  /** One operand more: the accumulated tree takes it in, and so does its value,
      or the operation fails and so does the whole. */
  lemma OneMore<N>(ar: Arith<N>, level: nat, ts: seq<Token>, acc: Tree, v: N, rest: seq<Token>, w: N, after: seq<Token>)
    returns (acc': Tree)
    requires Holds(ar, level, ts, acc, v, rest) && OperatorAt(level, rest)
    requires Evaluated(ar, level + 1, rest[1..], Value(w), after)
    ensures match Operate(ar, rest[0].op, v, w)
            case Some(u) => Holds(ar, level, ts, acc', u, after)
            case None => Evaluated(ar, level, ts, DivisionByZero, after)
  {
    acc' := Bin(rest[0].op, acc, ParseAt(level + 1, rest[1..]).tree);
    if Operate(ar, rest[0].op, v, w).None? { FailureSpreads(ar, level, acc', after); }
  }

  lemma FirstFailed<N>(ar: Arith<N>, level: nat, ts: seq<Token>, o: Outcome<N>, rest: seq<Token>)
    requires level < 2 && !o.Value? && Evaluated(ar, level + 1, ts, o, rest)
    ensures Evaluated(ar, level, ts, o, rest)
  {
    var p := ParseAt(level + 1, ts);
    if p.Parsed? { FailureSpreads(ar, level, p.tree, p.rest); }
  }

  lemma OperandFailed<N>(ar: Arith<N>, level: nat, ts: seq<Token>, acc: Tree, v: N, rest: seq<Token>, o: Outcome<N>, after: seq<Token>)
    requires Holds(ar, level, ts, acc, v, rest) && OperatorAt(level, rest) && !o.Value?
    requires Evaluated(ar, level + 1, rest[1..], o, after)
    ensures Evaluated(ar, level, ts, o, after)
  {
    match ParseAt(level + 1, rest[1..])
    case Parsed(t, left) => FailureSpreads(ar, level, Bin(rest[0].op, acc, t), left);
    case Rejected(_, stack, _) => StackFailsNext(ar, Pending(acc, rest[0].op), stack);
  }

  class ExpressionEvaluator<N> {
    const ar: Arith<N>
    const tokens: seq<Token>
    var pos: nat

    ghost predicate Ready()
      reads this
    {
      pos <= |tokens|
    }

    constructor (ar: Arith<N>, expression: string)
      ensures this.ar == ar && tokens == Tokens(expression) && pos == 0 && Ready() && Valid(tokens)
    {
      this.ar := ar;
      tokens := Tokens(expression);
      pos := 0;
      ScanIsValid(DropSpaces(expression));
    }

    function Peek(): (t: Option<Token>)
      reads this
      requires Ready()
    {
      if pos < |tokens| then Some(tokens[pos]) else None
    }

    /** Moves over one token, which must be `expected` when one is given. */
    method Consume(expected: Option<Token>) returns (r: Result<Token, SyntaxError>)
      requires Ready()
      modifies this`pos
      ensures Ready()
      ensures old(pos) == |tokens| ==> r == Err(Incomplete) && pos == old(pos)
      ensures old(pos) < |tokens| && expected.Some? && tokens[old(pos)] != expected.value ==>
                r == Err(Unexpected(tokens[old(pos)])) && pos == old(pos)
      ensures old(pos) < |tokens| && (expected.None? || tokens[old(pos)] == expected.value) ==>
                r == Ok(tokens[old(pos)]) && pos == old(pos) + 1
    {
      match Peek()
      case None => return Err(Incomplete);
      case Some(token) =>
        if expected.Some? && token != expected.value {
          return Err(Unexpected(token));
        }
        pos := pos + 1;
        return Ok(token);
    }

    method Parse() returns (o: Outcome<N>)
      requires Ready() && pos == 0
      modifies this`pos
      ensures Agrees(ar, ParseAll(tokens), o)
    {
      if tokens == [] {
        return SyntaxFailure(EmptyInput);
      }
      assert tokens[0..] == tokens;
      o := Expr();
      ghost var p := ParseAt(0, tokens);
      if p.Parsed? { StackFailsNext(ar, Whole(p.tree), []); }
      if o.Value? && pos < |tokens| {
        o := SyntaxFailure(Trailing(tokens[pos..]));
      }
    }

    method Expr() returns (o: Outcome<N>)
      requires Ready()
      modifies this`pos
      ensures Ready() && pos >= old(pos)
      ensures Evaluated(ar, 0, tokens[old(pos)..], o, tokens[pos..])
      decreases |tokens| - pos, 3
    {
      ghost var ts := tokens[pos..];
      o := Term();
      if !o.Value? {
        FirstFailed(ar, 0, ts, o, tokens[pos..]);
        return;
      }
      var termVal := o.value;
      ghost var acc := HoldsAtFirst(ar, 0, ts, termVal, tokens[pos..]);
      while pos < |tokens| && (tokens[pos] == Operator(Add) || tokens[pos] == Operator(Sub))
        invariant Ready() && old(pos) < pos
        invariant Holds(ar, 0, ts, acc, termVal, tokens[pos..])
        decreases |tokens| - pos
      {
        ghost var rest := tokens[pos..];
        assert OperatorAt(0, rest) && rest[0] == tokens[pos];
        var op := tokens[pos].op;
        pos := pos + 1;
        assert tokens[pos..] == rest[1..];
        o := Term();
        if !o.Value? {
          OperandFailed(ar, 0, ts, acc, termVal, rest, o, tokens[pos..]);
          return;
        }
        acc := OneMore(ar, 0, ts, acc, termVal, rest, o.value, tokens[pos..]);
        if op == Add {
          termVal := ar.add(termVal, o.value);
        } else {
          termVal := ar.sub(termVal, o.value);
        }
      }
      assert !OperatorAt(0, tokens[pos..]);
      HoldsAtLast(ar, 0, ts, acc, termVal, tokens[pos..]);
      return Value(termVal);
    }

    method Term() returns (o: Outcome<N>)
      requires Ready()
      modifies this`pos
      ensures Ready() && pos >= old(pos)
      ensures Evaluated(ar, 1, tokens[old(pos)..], o, tokens[pos..])
      decreases |tokens| - pos, 2
    {
      ghost var ts := tokens[pos..];
      o := Factor();
      if !o.Value? {
        FirstFailed(ar, 1, ts, o, tokens[pos..]);
        return;
      }
      var factorVal := o.value;
      ghost var acc := HoldsAtFirst(ar, 1, ts, factorVal, tokens[pos..]);
      while pos < |tokens| && (tokens[pos] == Operator(Mul) || tokens[pos] == Operator(Div))
        invariant Ready() && old(pos) < pos
        invariant Holds(ar, 1, ts, acc, factorVal, tokens[pos..])
        decreases |tokens| - pos
      {
        ghost var rest := tokens[pos..];
        assert OperatorAt(1, rest) && rest[0] == tokens[pos];
        var op := tokens[pos].op;
        pos := pos + 1;
        assert tokens[pos..] == rest[1..];
        o := Factor();
        if !o.Value? {
          OperandFailed(ar, 1, ts, acc, factorVal, rest, o, tokens[pos..]);
          return;
        }
        acc := OneMore(ar, 1, ts, acc, factorVal, rest, o.value, tokens[pos..]);
        if op == Mul {
          factorVal := ar.mul(factorVal, o.value);
        } else {
          match ar.div(factorVal, o.value)
          case Some(q) => factorVal := q;
          case None =>
            return DivisionByZero;
        }
      }
      assert !OperatorAt(1, tokens[pos..]);
      HoldsAtLast(ar, 1, ts, acc, factorVal, tokens[pos..]);
      return Value(factorVal);
    }

    method Factor() returns (o: Outcome<N>)
      requires Ready()
      modifies this`pos
      ensures Ready() && pos >= old(pos)
      ensures Evaluated(ar, 2, tokens[old(pos)..], o, tokens[pos..])
      ensures o.Value? ==> pos > old(pos)
      decreases |tokens| - pos, 1
    {
      ghost var ts := tokens[pos..];
      var token := Peek();
      assert pos < |tokens| ==> tokens[pos + 1..] == ts[1..];
      if token == Some(Open) {
        var r := Consume(token);
        o := Expr();
        if !o.Value? {
          InnerFailed(ParseAt(0, ts[1..]), o);
          return;
        }
        ghost var rest := tokens[pos..];
        InnerDone(ParseAt(0, ts[1..]), o.value);
        r := Consume(Some(Close));
        if r.Err? {
          o := SyntaxFailure(r.error);
          return;
        }
        assert tokens[pos..] == rest[1..];
        return;
      } else if token == Some(Operator(Sub)) {
        var r := Consume(token);
        o := Factor();
        SignDone(ts[0].op, ParseAt(2, ts[1..]), o);
        if o.Value? {
          o := Value(ar.negate(o.value));
        }
        return;
      } else if token == Some(Operator(Add)) {
        var r := Consume(token);
        o := Factor();
        SignDone(ts[0].op, ParseAt(2, ts[1..]), o);
        return;
      }
      var r := Consume(None);
      if r.Err? {
        return SyntaxFailure(r.error);
      }
      if !r.value.Number? {
        return SyntaxFailure(InvalidNumber(r.value));
      }
      return Value(ar.literal(r.value.lexeme));
    }

    /** What a value between parentheses comes to, by what follows it. */
    lemma InnerDone(p: Parse, v: N)
      requires p.Parsed? && Agrees(ar, p, Value(v))
      ensures p.rest == [] ==> Agrees(ar, Closed(p), SyntaxFailure(Incomplete))
      ensures p.rest != [] && p.rest[0] != Close ==> Agrees(ar, Closed(p), SyntaxFailure(Unexpected(p.rest[0])))
      ensures p.rest != [] && p.rest[0] == Close ==> Agrees(ar, Closed(p), Value(v)) && Closed(p).rest == p.rest[1..]
    {
      NotClosedFails(p.tree);
    }

    lemma NotClosedFails(t: Tree)
      ensures StackFails(ar, [Group, Whole(t)]) <==> Eval(ar, t).None?
    {
      assert [Group] + [Whole(t)] == [Group, Whole(t)] && [Whole(t)] + [] == [Whole(t)];
      StackFailsNext(ar, Group, [Whole(t)]);
      StackFailsNext(ar, Whole(t), []);
    }

    /** A sign before a factor: its value with the sign applied, or its failure. */
    lemma SignDone(op: Op, p: Parse, o: Outcome<N>)
      requires (op == Sub || op == Add) && Agrees(ar, p, o)
      ensures Agrees(ar, Signed(op, p), if o.Value? && op == Sub then Value(ar.negate(o.value)) else o)
    {
      if p.Rejected? { StackFailsNext(ar, Sign(op), p.stack); }
    }

    /** A failure between parentheses is a failure of the whole factor. */
    lemma InnerFailed(p: Parse, o: Outcome<N>)
      requires !o.Value? && Agrees(ar, p, o)
      ensures Agrees(ar, Closed(p), o)
    {
      match p
      case Parsed(t, _) => NotClosedFails(t);
      case Rejected(_, stack, _) => StackFailsNext(ar, Group, stack);
    }
  }

  /** The value of a text: for every sum of products of factors, every placing of spaces
      and every arithmetic, the result is the left-to-right value of the sum, or the
      failure of a division in it; and a value comes only from a text that, as far as
      the tokenizer keeps it, writes a sum of that value.  The first half again for the
      rendering of any expression with the parentheses it needs. */
  method EvaluateExpression<N>(ar: Arith<N>, expression: string) returns (o: Outcome<N>)
    ensures forall s | WellWritten(s) && SpacedOut(expression, SumText(s)) ::
              o == match SumValue(ar, s) case Some(v) => Value(v) case None => DivisionByZero
    ensures o.Value? ==> exists s :: WellWritten(s) && SumText(s) == Text(Tokens(expression)) && SumValue(ar, s) == Some(o.value)
    ensures Agrees(ar, ParseAll(Tokens(expression)), o)
    ensures forall t | LexemesValid(t) && DropSpaces(expression) == Printed(t) ::
              o == match Eval(ar, t) case Some(v) => Value(v) case None => DivisionByZero
  {
    var evaluator := new ExpressionEvaluator(ar, expression);
    o := evaluator.Parse();
    if o.Value? {
      var s := AcceptedIsSum(expression);
      EvalOfSum(ar, s);
    }
    forall s | WellWritten(s) && SpacedOut(expression, SumText(s))
      ensures o == match SumValue(ar, s) case Some(v) => Value(v) case None => DivisionByZero
    {
      SumParses(s, expression);
      EvalOfSum(ar, s);
    }
    forall t | LexemesValid(t) && DropSpaces(expression) == Printed(t)
      ensures o == match Eval(ar, t) case Some(v) => Value(v) case None => DivisionByZero
    {
      RoundTrip(t, expression);
      EvalIgnoresParens(ar, t);
      EvalIgnoresParens(ar, Minimal(t, 0));
    }
  }
}
