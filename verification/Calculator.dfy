/** The grammar of the calculator (examples/calculator/main.py): a skipping
    tokenizer and the trees its recursive-descent parser recognises. */
module Calculator {
  import opened Wrappers

  // ---- Tokens --------------------------------------------------------------

  datatype Op = Add | Sub | Mul | Div

  datatype Token = Number(lexeme: string) | Operator(op: Op) | Open | Close

  predicate IsDigit(c: char) {
    '0' <= c <= '9'
  }

  /** The length of the run of digits at the start of `s`. */
  function DigitRun(s: string): (n: nat)
    ensures n <= |s| && (forall i | 0 <= i < n :: IsDigit(s[i])) && (n < |s| ==> !IsDigit(s[n]))
  {
    if s == [] || !IsDigit(s[0]) then 0 else 1 + DigitRun(s[1..])
  }

  /** How much of `s` the number alternatives of the token pattern match, 0 when
      neither does: digits, a point and digits, or else just digits. */
  function NumberRun(s: string): (n: nat)
    ensures n <= |s|
  {
    var d := DigitRun(s);
    if d + 1 < |s| && s[d] == '.' && DigitRun(s[d + 1..]) > 0
    then d + 1 + DigitRun(s[d + 1..])
    else d
  }

  function SymbolToken(c: char): Option<Token> {
    match c
    case '+' => Some(Operator(Add))
    case '-' => Some(Operator(Sub))
    case '*' => Some(Operator(Mul))
    case '/' => Some(Operator(Div))
    case '(' => Some(Open)
    case ')' => Some(Close)
    case _ => None
  }

  /** Finds every match of the token pattern from left to right; a character at
      which nothing matches is skipped. */
  function Scan(s: string): seq<Token> {
    if s == [] then []
    else
      var n := NumberRun(s);
      if n > 0 then [Number(s[..n])] + Scan(s[n..])
      else if SymbolToken(s[0]).Some? then [SymbolToken(s[0]).value] + Scan(s[1..])
      else Scan(s[1..])
  }

  function DropSpaces(s: string): string {
    if s == [] then [] else (if s[0] == ' ' then [] else [s[0]]) + DropSpaces(s[1..])
  }

  function Tokens(expression: string): seq<Token> {
    Scan(DropSpaces(expression))
  }

  predicate IsLexeme(s: string) {
    s != [] && NumberRun(s) == |s|
  }

  predicate Valid(ts: seq<Token>) {
    forall t | t in ts :: t.Number? ==> IsLexeme(t.lexeme)
  }

  function SymbolText(op: Op): char {
    match op case Add => '+' case Sub => '-' case Mul => '*' case Div => '/'
  }

  function TokenText(t: Token): (s: string)
    ensures !t.Number? ==> |s| == 1 && SymbolToken(s[0]) == Some(t)
  {
    match t
    case Number(lexeme) => lexeme
    case Operator(op) => [SymbolText(op)]
    case Open => "("
    case Close => ")"
  }

  function Text(ts: seq<Token>): string {
    if ts == [] then [] else TokenText(ts[0]) + Text(ts[1..])
  }

  ghost predicate NumbersApart(ts: seq<Token>) {
    forall i, j | 0 <= i < j < |ts| && j == i + 1 :: !(ts[i].Number? && ts[j].Number?)
  }

  /** The end of a number is where the next character is neither digit nor point. */
  lemma RunsStopAtSymbol(s: string, rest: string)
    requires rest == [] || (!IsDigit(rest[0]) && rest[0] != '.')
    ensures DigitRun(s + rest) == DigitRun(s) && NumberRun(s + rest) == NumberRun(s)
  {
    DigitRunStops(s, rest);
    var d := DigitRun(s);
    if d < |s| {
      assert (s + rest)[d + 1..] == s[d + 1..] + rest;
      DigitRunStops(s[d + 1..], rest);
    }
  }

  lemma DigitRunStops(s: string, rest: string)
    requires rest == [] || !IsDigit(rest[0])
    ensures DigitRun(s + rest) == DigitRun(s)
  {
    if s == [] {
      assert s + rest == rest;
    } else {
      assert (s + rest)[1..] == s[1..] + rest;
      DigitRunStops(s[1..], rest);
    }
  }

  lemma ScanNumberFirst(lexeme: string, rest: string)
    requires IsLexeme(lexeme) && (rest == [] || (!IsDigit(rest[0]) && rest[0] != '.'))
    ensures Scan(lexeme + rest) == [Number(lexeme)] + Scan(rest)
  {
    RunsStopAtSymbol(lexeme, rest);
    assert (lexeme + rest)[..|lexeme|] == lexeme && (lexeme + rest)[|lexeme|..] == rest;
  }

  lemma ScanSymbolFirst(t: Token, rest: string)
    requires !t.Number?
    ensures Scan(TokenText(t) + rest) == [t] + Scan(rest)
  {
    var s := TokenText(t) + rest;
    SymbolIsNoNumber(t);
    assert s[0] == TokenText(t)[0] && s[1..] == rest;
    assert NumberRun(s) == 0;
  }

  /** The tokenizer undoes the concatenation of tokens whenever no two numbers
      touch. */
  lemma {:induction false} ScanText(ts: seq<Token>)
    requires Valid(ts) && NumbersApart(ts)
    ensures Scan(Text(ts)) == ts
  {
    if ts != [] {
      assert ts[0] in ts && ts == [ts[0]] + ts[1..];
      forall t | t in ts[1..] ensures t in ts {}
      ScanText(ts[1..]);
      if ts[0].Number? {
        RestStartsApart(ts);
        ScanNumberFirst(ts[0].lexeme, Text(ts[1..]));
      } else {
        ScanSymbolFirst(ts[0], Text(ts[1..]));
      }
    }
  }

  lemma RestStartsApart(ts: seq<Token>)
    requires ts != [] && ts[0].Number? && NumbersApart(ts)
    ensures var rest := Text(ts[1..]); rest == [] || (!IsDigit(rest[0]) && rest[0] != '.')
  {
    if |ts| > 1 {
      assert !(ts[0].Number? && ts[1].Number?);
      SymbolIsNoNumber(ts[1]);
      assert Text(ts[1..]) == TokenText(ts[1]) + Text(ts[1..][1..]);
    }
  }

  lemma SymbolIsNoNumber(t: Token)
    requires !t.Number?
    ensures !IsDigit(TokenText(t)[0]) && TokenText(t)[0] != '.'
  {
  }

  lemma {:induction false} ScanIsValid(s: string)
    ensures Valid(Scan(s))
    decreases |s|
  {
    if s != [] {
      var n := NumberRun(s);
      if n > 0 {
        PrefixIsLexeme(s);
        ScanIsValid(s[n..]);
      } else {
        ScanIsValid(s[1..]);
      }
    }
  }

  lemma PrefixIsLexeme(s: string)
    requires NumberRun(s) > 0
    ensures IsLexeme(s[..NumberRun(s)])
  {
    var n, d := NumberRun(s), DigitRun(s);
    var p := s[..n];
    if n == d {
      RunOfPrefix(s, n);
    } else {
      var m := n - d - 1;
      RunOfPrefix(s, n);
      RunOfPrefix(s[d + 1..], m);
      assert p[d + 1..] == s[d + 1..][..m];
    }
  }

  lemma RunOfPrefix(s: string, n: nat)
    requires DigitRun(s) <= n <= |s|
    ensures DigitRun(s[..n]) == DigitRun(s)
  {
    if s != [] && IsDigit(s[0]) {
      assert s[..n][1..] == s[1..][..n - 1];
      RunOfPrefix(s[1..], n - 1);
    }
  }

  // ---- Trees of the expr / term / factor grammar ---------------------------

  datatype Tree =
    | Num(lexeme: string)
    | Paren(inner: Tree)
    | Neg(arg: Tree)
    | Pos(arg: Tree)
    | Bin(op: Op, left: Tree, right: Tree)

  /** 0 for the operators of `expr`, 1 for those of `term`; factors are at 2. */
  function OpLevel(op: Op): nat {
    if op == Add || op == Sub then 0 else 1
  }

  function Level(t: Tree): nat {
    if t.Bin? then OpLevel(t.op) else 2
  }

  predicate Grammatical(t: Tree) {
    match t
    case Num(lexeme) => IsLexeme(lexeme)
    case Paren(inner) => Grammatical(inner)
    case Neg(arg) => Grammatical(arg) && Level(arg) == 2
    case Pos(arg) => Grammatical(arg) && Level(arg) == 2
    case Bin(op, l, r) =>
      Grammatical(l) && Grammatical(r) && Level(l) >= OpLevel(op) && Level(r) > OpLevel(op)
  }

  function Yield(t: Tree): seq<Token> {
    match t
    case Num(lexeme) => [Number(lexeme)]
    case Paren(inner) => [Open] + Yield(inner) + [Close]
    case Neg(arg) => [Operator(Sub)] + Yield(arg)
    case Pos(arg) => [Operator(Add)] + Yield(arg)
    case Bin(op, l, r) => Yield(l) + [Operator(op)] + Yield(r)
  }

  /** The expression a tree stands for, without its parentheses. */
  function Strip(t: Tree): Tree {
    match t
    case Num(_) => t
    case Paren(inner) => Strip(inner)
    case Neg(arg) => Neg(Strip(arg))
    case Pos(arg) => Pos(Strip(arg))
    case Bin(op, l, r) => Bin(op, Strip(l), Strip(r))
  }

  predicate LexemesValid(t: Tree) {
    match t
    case Num(lexeme) => IsLexeme(lexeme)
    case Paren(inner) => LexemesValid(inner)
    case Neg(arg) => LexemesValid(arg)
    case Pos(arg) => LexemesValid(arg)
    case Bin(_, l, r) => LexemesValid(l) && LexemesValid(r)
  }

  /** The tree with a pair of parentheses exactly where the grammar needs one. */
  function Minimal(t: Tree, level: nat): Tree {
    match t
    case Num(_) => t
    case Paren(inner) => Minimal(inner, level)
    case Neg(arg) => Neg(Minimal(arg, 2))
    case Pos(arg) => Pos(Minimal(arg, 2))
    case Bin(op, l, r) =>
      var b := Bin(op, Minimal(l, OpLevel(op)), Minimal(r, OpLevel(op) + 1));
      if OpLevel(op) < level then Paren(b) else b
  }

  function Printed(t: Tree): string {
    Text(Yield(Minimal(t, 0)))
  }

  lemma MinimalIsGrammatical(t: Tree, level: nat)
    requires LexemesValid(t) && level <= 2
    ensures Grammatical(Minimal(t, level)) && Level(Minimal(t, level)) >= level
    ensures Strip(Minimal(t, level)) == Strip(t)
  {
  }

  /** No grammatical rendering of the same expression is shorter. */
  lemma MinimalIsShortest(t: Tree, u: Tree)
    requires Grammatical(u) && Strip(u) == Strip(t)
    ensures |Yield(Minimal(t, 0))| <= |Yield(u)|
  {
    MinimalOfStripped(t, 0);
    MinimalOfStripped(u, 0);
    MinimalSavesTokens(u, 0);
  }

  lemma MinimalOfStripped(t: Tree, level: nat)
    ensures Minimal(t, level) == Minimal(Strip(t), level)
  {
  }

  lemma {:induction false} MinimalSavesTokens(u: Tree, level: nat)
    requires Grammatical(u) && level <= 2
    ensures |Yield(Minimal(u, level))| <= |Yield(u)| + if Level(u) < level then 2 else 0
  {
    match u
    case Num(_) =>
    case Paren(inner) => MinimalSavesTokens(inner, level);
    case Neg(arg) => MinimalSavesTokens(arg, 2);
    case Pos(arg) => MinimalSavesTokens(arg, 2);
    case Bin(op, l, r) =>
      MinimalSavesTokens(l, OpLevel(op));
      MinimalSavesTokens(r, OpLevel(op) + 1);
  }

  lemma {:induction false} YieldIsPrintable(t: Tree)
    requires Grammatical(t)
    ensures Yield(t) != [] && Valid(Yield(t)) && NumbersApart(Yield(t))
  {
    match t
    case Num(_) =>
    case Paren(inner) => YieldIsPrintable(inner);
    case Neg(arg) => YieldIsPrintable(arg);
    case Pos(arg) => YieldIsPrintable(arg);
    case Bin(op, l, r) => YieldIsPrintable(l); YieldIsPrintable(r);
  }

  // ---- Parsing -------------------------------------------------------------

  datatype SyntaxError =
    | EmptyInput
    | Incomplete
    | Unexpected(token: Token)
    | InvalidNumber(token: Token)
    | Trailing(rest: seq<Token>)

  /** What the parser is in the middle of: an operand still missing behind `acc op`,
      a sign without its factor, an open parenthesis, or an expression at whose end
      something else was wanted. */
  datatype Frame = Pending(acc: Tree, op: Op) | Sign(op: Op) | Group | Whole(tree: Tree)

  /** An error comes with what the parser was in the middle of, outermost first, and
      the tokens from the one it stopped at. */
  datatype Parse = Parsed(tree: Tree, rest: seq<Token>) | Rejected(error: SyntaxError, stack: seq<Frame>, rest: seq<Token>)

  predicate OperatorAt(level: nat, ts: seq<Token>) {
    ts != [] && ts[0].Operator? && OpLevel(ts[0].op) == level
  }

  /** Nothing in front of `ts` would be absorbed at `level` or deeper. */
  predicate StopsAt(level: nat, ts: seq<Token>) {
    ts == [] || !ts[0].Operator? || OpLevel(ts[0].op) < level
  }

  /** A rejection seen from outside: `f` was under way when it happened. */
  function Inside(f: Frame, p: Parse): (q: Parse)
    requires p.Rejected?
    ensures q.Rejected? && q.rest == p.rest
  {
    Rejected(p.error, [f] + p.stack, p.rest)
  }

  function Signed(op: Op, p: Parse): (q: Parse)
    ensures q.Parsed? == p.Parsed? && q.rest == p.rest
  {
    match p
    case Parsed(t, rest) => Parsed(if op == Sub then Neg(t) else Pos(t), rest)
    case Rejected(_, _, _) => Inside(Sign(op), p)
  }

  /** What is between parentheses, and then the closing one. */
  function Closed(p: Parse): (q: Parse)
    ensures |q.rest| <= |p.rest|
  {
    match p
    case Parsed(t, rest) =>
      if rest == [] then Rejected(Incomplete, [Group, Whole(t)], [])
      else if rest[0] != Close then Rejected(Unexpected(rest[0]), [Group, Whole(t)], rest)
      else Parsed(Paren(t), rest[1..])
    case Rejected(_, _, _) => Inside(Group, p)
  }

  /** The tree the parser recognises at a grammar level, and what it leaves. */
  function ParseAt(level: nat, ts: seq<Token>): (p: Parse)
    requires level <= 2
    ensures |p.rest| <= |ts| && (p.Parsed? ==> |p.rest| < |ts|)
    decreases |ts|, 3 - level
  {
    if level < 2 then
      var first := ParseAt(level + 1, ts);
      if first.Parsed? then ParseTail(level, first.tree, first.rest) else first
    else if ts == [] then Rejected(Incomplete, [], [])
    else match ts[0]
      case Number(lexeme) => Parsed(Num(lexeme), ts[1..])
      case Open => Closed(ParseAt(0, ts[1..]))
      case Operator(op) =>
        if op == Mul || op == Div then Rejected(InvalidNumber(ts[0]), [], ts) else Signed(op, ParseAt(2, ts[1..]))
      case Close => Rejected(InvalidNumber(Close), [], ts)
  }

  function ParseTail(level: nat, acc: Tree, ts: seq<Token>): (p: Parse)
    requires level < 2
    ensures |p.rest| <= |ts|
    decreases |ts|, 0
  {
    if !OperatorAt(level, ts) then Parsed(acc, ts)
    else
      var next := ParseAt(level + 1, ts[1..]);
      if next.Parsed? then ParseTail(level, Bin(ts[0].op, acc, next.tree), next.rest)
      else Inside(Pending(acc, ts[0].op), next)
  }

  function ParseAll(ts: seq<Token>): Parse {
    if ts == [] then Rejected(EmptyInput, [], [])
    else
      match ParseAt(0, ts)
      case Parsed(t, rest) => if rest == [] then Parsed(t, []) else Rejected(Trailing(rest), [Whole(t)], rest)
      case Rejected(_, _, _) => ParseAt(0, ts)
  }

  lemma {:induction false} ParseYield(level: nat, t: Tree, rest: seq<Token>)
    requires level <= 2 && Grammatical(t) && Level(t) >= level && StopsAt(level, rest)
    ensures ParseAt(level, Yield(t) + rest) == Parsed(t, rest)
    decreases t, 3 - level, 1
  {
    if level < 2 {
      ParseSpine(level, t, rest);
    } else {
      match t
      case Num(_) =>
        assert (Yield(t) + rest)[1..] == rest;
      case Paren(inner) =>
        ParseYield(0, inner, [Close] + rest);
        ParenParses(inner, rest);
      case Neg(arg) =>
        SignDropped(Sub, arg, rest);
        ParseYield(2, arg, rest);
      case Pos(arg) =>
        SignDropped(Add, arg, rest);
        ParseYield(2, arg, rest);
    }
  }

  lemma SignDropped(op: Op, arg: Tree, rest: seq<Token>)
    ensures var ts := [Operator(op)] + Yield(arg) + rest; ts[0] == Operator(op) && ts[1..] == Yield(arg) + rest
  {
  }

  lemma ParenParses(inner: Tree, rest: seq<Token>)
    requires ParseAt(0, Yield(inner) + ([Close] + rest)) == Parsed(inner, [Close] + rest)
    ensures ParseAt(2, Yield(Paren(inner)) + rest) == Parsed(Paren(inner), rest)
  {
    var ts := Yield(Paren(inner)) + rest;
    assert ts[1..] == Yield(inner) + ([Close] + rest);
    assert ([Close] + rest)[1..] == rest;
  }

  /** A left-leaning tree is what the loop has accumulated when it reaches `rest`. */
  lemma {:induction false} ParseSpine(level: nat, t: Tree, rest: seq<Token>)
    requires level < 2 && Grammatical(t) && Level(t) >= level && StopsAt(level + 1, rest)
    ensures ParseAt(level, Yield(t) + rest) == ParseTail(level, t, rest)
    decreases t, 3 - level, 0
  {
    if Level(t) > level {
      ParseYield(level + 1, t, rest);
    } else {
      var more := [Operator(t.op)] + (Yield(t.right) + rest);
      assert Yield(t) + rest == Yield(t.left) + more;
      ParseSpine(level, t.left, more);
      ParseYield(level + 1, t.right, rest);
      assert more[1..] == Yield(t.right) + rest;
    }
  }

  lemma {:induction false} ParseIsSound(level: nat, ts: seq<Token>)
    requires level <= 2 && Valid(ts) && ParseAt(level, ts).Parsed?
    ensures var Parsed(t, rest) := ParseAt(level, ts);
            && Grammatical(t) && Level(t) >= level && Yield(t) + rest == ts && StopsAt(level, rest)
    decreases |ts|, 3 - level
  {
    if level < 2 {
      ParseIsSound(level + 1, ts);
      var Parsed(t, rest) := ParseAt(level + 1, ts);
      SuffixIsValid(ts, Yield(t), rest);
      TailIsSound(level, t, rest);
    } else {
      assert ts[0] in ts;
      SuffixIsValid(ts, [ts[0]], ts[1..]);
      if ts[0].Open? {
        ParseIsSound(0, ts[1..]);
        ParenYield(ts, ParseAt(0, ts[1..]));
      } else if ts[0].Operator? {
        ParseIsSound(2, ts[1..]);
      }
    }
  }

  lemma ParenYield(ts: seq<Token>, p: Parse)
    requires ts != [] && ts[0] == Open && p.Parsed? && Closed(p).Parsed? && Yield(p.tree) + p.rest == ts[1..]
    ensures Yield(Closed(p).tree) + Closed(p).rest == ts
  {
    var Parsed(t, rest) := p;
    assert rest == [Close] + rest[1..];
    assert ts == [Open] + ts[1..];
    assert Yield(Paren(t)) + rest[1..] == [Open] + (Yield(t) + ([Close] + rest[1..]));
  }

  lemma {:induction false} TailIsSound(level: nat, acc: Tree, ts: seq<Token>)
    requires level < 2 && Valid(ts) && ParseTail(level, acc, ts).Parsed?
    requires Grammatical(acc) && Level(acc) >= level && StopsAt(level + 1, ts)
    ensures var Parsed(t, rest) := ParseTail(level, acc, ts);
            && Grammatical(t) && Level(t) >= level && Yield(t) + rest == Yield(acc) + ts && StopsAt(level, rest)
    decreases |ts|, 0
  {
    if OperatorAt(level, ts) {
      SuffixIsValid(ts, [ts[0]], ts[1..]);
      ParseIsSound(level + 1, ts[1..]);
      var Parsed(t, rest) := ParseAt(level + 1, ts[1..]);
      SuffixIsValid(ts[1..], Yield(t), rest);
      var acc' := Bin(ts[0].op, acc, t);
      TailIsSound(level, acc', rest);
      YieldAssociates(ts, acc, t, rest);
    }
  }

  lemma SuffixIsValid(ts: seq<Token>, before: seq<Token>, rest: seq<Token>)
    requires Valid(ts) && ts == before + rest
    ensures Valid(rest)
  {
    forall u | u in rest ensures u in ts {}
  }

  lemma YieldAssociates(ts: seq<Token>, acc: Tree, t: Tree, rest: seq<Token>)
    requires ts != [] && ts[0].Operator? && ts[1..] == Yield(t) + rest
    ensures Yield(Bin(ts[0].op, acc, t)) + rest == Yield(acc) + ts
  {
    assert ts == [ts[0]] + (Yield(t) + rest);
    assert Yield(acc) + ([ts[0]] + (Yield(t) + rest)) == Yield(acc) + [ts[0]] + Yield(t) + rest;
  }

  /** The parser accepts exactly the yields of grammatical trees, and the tree is
      the only one: parsing and yielding are inverse to each other. */
  lemma ParseIsInverseOfYield(ts: seq<Token>, t: Tree)
    requires Valid(ts)
    ensures ParseAll(ts) == Parsed(t, []) <==> Grammatical(t) && Yield(t) == ts
  {
    if ParseAll(ts) == Parsed(t, []) {
      ParseIsSound(0, ts);
      assert Yield(t) + [] == Yield(t);
    }
    if Grammatical(t) && Yield(t) == ts {
      YieldIsPrintable(t);
      ParseYield(0, t, []);
      assert Yield(t) + [] == ts;
    }
  }

  lemma GrammarIsUnambiguous(t: Tree, u: Tree)
    requires Grammatical(t) && Grammatical(u) && Yield(t) == Yield(u)
    ensures t == u
  {
    YieldIsPrintable(t);
    ParseIsInverseOfYield(Yield(t), t);
    ParseIsInverseOfYield(Yield(t), u);
  }

  /** Rendering an expression with the parentheses it needs, putting spaces
      anywhere, and parsing gives the expression back. */
  lemma RoundTrip(t: Tree, expression: string)
    requires LexemesValid(t) && DropSpaces(expression) == Printed(t)
    ensures ParseAll(Tokens(expression)) == Parsed(Minimal(t, 0), [])
    ensures Strip(Minimal(t, 0)) == Strip(t)
  {
    MinimalIsGrammatical(t, 0);
    YieldIsPrintable(Minimal(t, 0));
    ScanText(Yield(Minimal(t, 0)));
    ParseIsInverseOfYield(Yield(Minimal(t, 0)), Minimal(t, 0));
  }
}
