/** What the calculator's texts mean (examples/calculator/main.py), said of the text
    itself: which characters write a sum, a product and a factor, and the value each
    has in any arithmetic.  Neither the tokenizer nor the parser occurs in it. */
module CalculatorTexts {
  import opened Wrappers
  import opened Calculator

  /** The arithmetic the calculator runs on; division may fail. */
  datatype Arith<!N> = Arith(
    literal: string -> N,
    negate: N -> N,
    add: (N, N) -> N,
    sub: (N, N) -> N,
    mul: (N, N) -> N,
    div: (N, N) -> Option<N>)

  // ---- Sums of products of factors -----------------------------------------

  datatype Sum = OneTerm(only: Product) | Plus(before: Sum, term: Product) | Minus(before: Sum, term: Product)

  datatype Product = OneFactor(first: Factor) | Times(so: Product, factor: Factor) | Over(so: Product, factor: Factor)

  datatype Factor = Literal(digits: string) | Negative(of: Factor) | Positive(of: Factor) | Brackets(inside: Sum)

  function SumText(s: Sum): string {
    match s
    case OneTerm(p) => ProductText(p)
    case Plus(before, p) => SumText(before) + "+" + ProductText(p)
    case Minus(before, p) => SumText(before) + "-" + ProductText(p)
  }

  function ProductText(p: Product): string {
    match p
    case OneFactor(f) => FactorText(f)
    case Times(so, f) => ProductText(so) + "*" + FactorText(f)
    case Over(so, f) => ProductText(so) + "/" + FactorText(f)
  }

  function FactorText(f: Factor): string {
    match f
    case Literal(digits) => digits
    case Negative(g) => "-" + FactorText(g)
    case Positive(g) => "+" + FactorText(g)
    case Brackets(s) => "(" + SumText(s) + ")"
  }

  /** Left to right, a failed division making the whole fail. */
  function SumValue<N>(ar: Arith<N>, s: Sum): Option<N> {
    match s
    case OneTerm(p) => ProductValue(ar, p)
    case Plus(before, p) =>
      (match (SumValue(ar, before), ProductValue(ar, p)) case (Some(a), Some(b)) => Some(ar.add(a, b)) case _ => None)
    case Minus(before, p) =>
      (match (SumValue(ar, before), ProductValue(ar, p)) case (Some(a), Some(b)) => Some(ar.sub(a, b)) case _ => None)
  }

  function ProductValue<N>(ar: Arith<N>, p: Product): Option<N> {
    match p
    case OneFactor(f) => FactorValue(ar, f)
    case Times(so, f) =>
      (match (ProductValue(ar, so), FactorValue(ar, f)) case (Some(a), Some(b)) => Some(ar.mul(a, b)) case _ => None)
    case Over(so, f) =>
      (match (ProductValue(ar, so), FactorValue(ar, f)) case (Some(a), Some(b)) => ar.div(a, b) case _ => None)
  }

  function FactorValue<N>(ar: Arith<N>, f: Factor): Option<N> {
    match f
    case Literal(digits) => Some(ar.literal(digits))
    case Negative(g) => (match FactorValue(ar, g) case Some(a) => Some(ar.negate(a)) case None => None)
    case Positive(g) => FactorValue(ar, g)
    case Brackets(s) => SumValue(ar, s)
  }

  // ---- Numbers and spaces --------------------------------------------------

  predicate Digits(s: string) {
    forall i | 0 <= i < |s| :: s[i] in "0123456789"
  }

  /** Digits, or digits around a point with at least one behind it. */
  ghost predicate NumberText(s: string) {
    (s != [] && Digits(s)) || exists whole, part :: s == whole + "." + part && Digits(whole) && Digits(part) && part != []
  }

  ghost predicate WellWritten(s: Sum) {
    match s
    case OneTerm(p) => ProductWritten(p)
    case Plus(before, p) => WellWritten(before) && ProductWritten(p)
    case Minus(before, p) => WellWritten(before) && ProductWritten(p)
  }

  ghost predicate ProductWritten(p: Product) {
    match p
    case OneFactor(f) => FactorWritten(f)
    case Times(so, f) => ProductWritten(so) && FactorWritten(f)
    case Over(so, f) => ProductWritten(so) && FactorWritten(f)
  }

  ghost predicate FactorWritten(f: Factor) {
    match f
    case Literal(digits) => NumberText(digits)
    case Negative(g) => FactorWritten(g)
    case Positive(g) => FactorWritten(g)
    case Brackets(s) => WellWritten(s)
  }

  /** `s` is `plain` with spaces put in anywhere. */
  predicate SpacedOut(s: string, plain: string) {
    if s == [] then plain == []
    else if s[0] == ' ' then SpacedOut(s[1..], plain)
    else plain != [] && plain[0] == s[0] && SpacedOut(s[1..], plain[1..])
  }

  lemma SpacesDropped(s: string, plain: string)
    ensures SpacedOut(s, plain) <==> DropSpaces(s) == plain
  {
    if s != [] {
      if s[0] == ' ' {
        SpacesDropped(s[1..], plain);
        assert [] + DropSpaces(s[1..]) == DropSpaces(s[1..]);
      } else if plain != [] {
        SpacesDropped(s[1..], plain[1..]);
        assert plain == [plain[0]] + plain[1..];
        assert ([s[0]] + DropSpaces(s[1..]))[1..] == DropSpaces(s[1..]);
      }
    }
  }

  lemma DigitIsDigit(c: char)
    ensures IsDigit(c) <==> c in "0123456789"
  {
  }

  lemma {:induction false} RunOfDigits(s: string, rest: string)
    requires Digits(s) && (rest == [] || rest[0] == '.')
    ensures DigitRun(s + rest) == |s|
  {
    if s == [] {
      assert s + rest == rest;
    } else {
      DigitIsDigit(s[0]);
      assert (s + rest)[1..] == s[1..] + rest;
      RunOfDigits(s[1..], rest);
    }
  }

  lemma RunIsDigits(s: string)
    ensures Digits(s[..DigitRun(s)])
  {
    forall i | 0 <= i < DigitRun(s) ensures s[i] in "0123456789" { DigitIsDigit(s[i]); }
  }

  /** The numbers of the token pattern are exactly these texts. */
  lemma NumberTextIsLexeme(s: string)
    ensures NumberText(s) <==> IsLexeme(s)
  {
    if NumberText(s) {
      if s != [] && Digits(s) {
        assert s + [] == s;
        RunOfDigits(s, []);
      } else {
        var whole, part :| s == whole + "." + part && Digits(whole) && Digits(part) && part != [];
        PointedIsLexeme(s, whole, part);
      }
    }
    if IsLexeme(s) { LexemeIsNumberText(s); }
  }

  lemma LexemeIsNumberText(s: string)
    requires IsLexeme(s)
    ensures NumberText(s)
  {
    var d := DigitRun(s);
    RunIsDigits(s);
    if d == |s| {
      assert s[..d] == s;
    } else {
      var part := s[d + 1..];
      RunIsDigits(part);
      assert part[..DigitRun(part)] == part;
      assert s == s[..d] + "." + part;
    }
  }

  lemma PointedIsLexeme(s: string, whole: string, part: string)
    requires s == whole + "." + part && Digits(whole) && Digits(part) && part != []
    ensures IsLexeme(s)
  {
    assert s == whole + ("." + part);
    RunOfDigits(whole, "." + part);
    assert s[|whole| + 1..] == part && part + [] == part;
    RunOfDigits(part, []);
  }

  // ---- The trees of these texts --------------------------------------------

  function SumTree(s: Sum): Tree {
    match s
    case OneTerm(p) => ProductTree(p)
    case Plus(before, p) => Bin(Add, SumTree(before), ProductTree(p))
    case Minus(before, p) => Bin(Sub, SumTree(before), ProductTree(p))
  }

  function ProductTree(p: Product): Tree {
    match p
    case OneFactor(f) => FactorTree(f)
    case Times(so, f) => Bin(Mul, ProductTree(so), FactorTree(f))
    case Over(so, f) => Bin(Div, ProductTree(so), FactorTree(f))
  }

  function FactorTree(f: Factor): Tree {
    match f
    case Literal(digits) => Num(digits)
    case Negative(g) => Neg(FactorTree(g))
    case Positive(g) => Pos(FactorTree(g))
    case Brackets(s) => Paren(SumTree(s))
  }

  lemma TextJoins(a: seq<Token>, b: seq<Token>)
    ensures Text(a + b) == Text(a) + Text(b)
  {
    if a == [] {
      assert a + b == b;
    } else {
      assert (a + b)[1..] == a[1..] + b;
      TextJoins(a[1..], b);
    }
  }

  lemma TextOfOne(t: Token)
    ensures Text([t]) == TokenText(t)
  {
    assert [t][1..] == [];
  }

  lemma TextOfBin(op: Op, l: Tree, r: Tree)
    ensures Text(Yield(Bin(op, l, r))) == Text(Yield(l)) + [SymbolText(op)] + Text(Yield(r))
  {
    TextJoins(Yield(l) + [Operator(op)], Yield(r));
    TextJoins(Yield(l), [Operator(op)]);
    TextOfOne(Operator(op));
  }

  lemma {:induction false} SumTreeWrites(s: Sum)
    requires WellWritten(s)
    ensures Grammatical(SumTree(s)) && Text(Yield(SumTree(s))) == SumText(s)
  {
    match s
    case OneTerm(p) => ProductTreeWrites(p);
    case Plus(before, p) => SumTreeWrites(before); ProductTreeWrites(p); TextOfBin(Add, SumTree(before), ProductTree(p));
    case Minus(before, p) => SumTreeWrites(before); ProductTreeWrites(p); TextOfBin(Sub, SumTree(before), ProductTree(p));
  }

  lemma {:induction false} ProductTreeWrites(p: Product)
    requires ProductWritten(p)
    ensures Grammatical(ProductTree(p)) && Level(ProductTree(p)) >= 1 && Text(Yield(ProductTree(p))) == ProductText(p)
  {
    match p
    case OneFactor(f) => FactorTreeWrites(f);
    case Times(so, f) => ProductTreeWrites(so); FactorTreeWrites(f); TextOfBin(Mul, ProductTree(so), FactorTree(f));
    case Over(so, f) => ProductTreeWrites(so); FactorTreeWrites(f); TextOfBin(Div, ProductTree(so), FactorTree(f));
  }

  lemma {:induction false} FactorTreeWrites(f: Factor)
    requires FactorWritten(f)
    ensures Grammatical(FactorTree(f)) && Level(FactorTree(f)) == 2 && Text(Yield(FactorTree(f))) == FactorText(f)
  {
    match f
    case Literal(digits) => NumberTextIsLexeme(digits); TextOfOne(Number(digits));
    case Negative(g) => FactorTreeWrites(g); TextJoins([Operator(Sub)], Yield(FactorTree(g))); TextOfOne(Operator(Sub));
    case Positive(g) => FactorTreeWrites(g); TextJoins([Operator(Add)], Yield(FactorTree(g))); TextOfOne(Operator(Add));
    case Brackets(s) =>
      SumTreeWrites(s);
      TextJoins([Open] + Yield(SumTree(s)), [Close]);
      TextJoins([Open], Yield(SumTree(s)));
      TextOfOne(Open);
      TextOfOne(Close);
  }

  /** A written sum, with spaces anywhere, parses to its own tree. */
  lemma SumParses(s: Sum, expression: string)
    requires WellWritten(s) && SpacedOut(expression, SumText(s))
    ensures ParseAll(Tokens(expression)) == Parsed(SumTree(s), [])
  {
    SumTreeWrites(s);
    SpacesDropped(expression, SumText(s));
    YieldIsPrintable(SumTree(s));
    ScanText(Yield(SumTree(s)));
    ParseIsInverseOfYield(Yield(SumTree(s)), SumTree(s));
  }

  // ---- No others are accepted ----------------------------------------------

  function SumOf(t: Tree): (s: Sum)
    requires Grammatical(t)
    ensures SumTree(s) == t
    decreases t, 2
  {
    if t.Bin? && t.op == Add then Plus(SumOf(t.left), ProductOf(t.right))
    else if t.Bin? && t.op == Sub then Minus(SumOf(t.left), ProductOf(t.right))
    else OneTerm(ProductOf(t))
  }

  function ProductOf(t: Tree): (p: Product)
    requires Grammatical(t) && Level(t) >= 1
    ensures ProductTree(p) == t
    decreases t, 1
  {
    if t.Bin? && t.op == Mul then Times(ProductOf(t.left), FactorOf(t.right))
    else if t.Bin? then Over(ProductOf(t.left), FactorOf(t.right))
    else OneFactor(FactorOf(t))
  }

  function FactorOf(t: Tree): (f: Factor)
    requires Grammatical(t) && Level(t) == 2
    ensures FactorTree(f) == t
    decreases t, 0
  {
    match t
    case Num(lexeme) => Literal(lexeme)
    case Paren(inner) => Brackets(SumOf(inner))
    case Neg(arg) => Negative(FactorOf(arg))
    case Pos(arg) => Positive(FactorOf(arg))
  }

  lemma {:induction false} SumOfIsWritten(s: Sum)
    requires Grammatical(SumTree(s))
    ensures WellWritten(s)
  {
    match s
    case OneTerm(p) => ProductOfIsWritten(p);
    case Plus(before, p) => SumOfIsWritten(before); ProductOfIsWritten(p);
    case Minus(before, p) => SumOfIsWritten(before); ProductOfIsWritten(p);
  }

  lemma {:induction false} ProductOfIsWritten(p: Product)
    requires Grammatical(ProductTree(p))
    ensures ProductWritten(p)
  {
    match p
    case OneFactor(f) => FactorOfIsWritten(f);
    case Times(so, f) => ProductOfIsWritten(so); FactorOfIsWritten(f);
    case Over(so, f) => ProductOfIsWritten(so); FactorOfIsWritten(f);
  }

  lemma {:induction false} FactorOfIsWritten(f: Factor)
    requires Grammatical(FactorTree(f))
    ensures FactorWritten(f)
  {
    match f
    case Literal(digits) => NumberTextIsLexeme(digits);
    case Negative(g) => FactorOfIsWritten(g);
    case Positive(g) => FactorOfIsWritten(g);
    case Brackets(s) => SumOfIsWritten(s);
  }

  /** What the parser accepts is what is left of the text when nothing the tokenizer
      skips is in it, and that writes a sum. */
  lemma AcceptedIsSum(expression: string) returns (s: Sum)
    requires ParseAll(Tokens(expression)).Parsed?
    ensures WellWritten(s) && SumText(s) == Text(Tokens(expression)) && ParseAll(Tokens(expression)).tree == SumTree(s)
  {
    var t := ParseAll(Tokens(expression)).tree;
    ScanIsValid(DropSpaces(expression));
    ParseIsInverseOfYield(Tokens(expression), t);
    s := SumOf(t);
    SumOfIsWritten(s);
    SumTreeWrites(s);
  }
}
