/** Where the calculator's parser (examples/calculator/main.py) finds a text to be no
    expression: at the first token that nothing in front of it could have made right. */
module CalculatorErrors {
  import opened Calculator

  function FrameText(f: Frame): seq<Token> {
    match f
    case Pending(acc, op) => Yield(acc) + [Operator(op)]
    case Sign(op) => [Operator(op)]
    case Group => [Open]
    case Whole(t) => Yield(t)
  }

  function Consumed(stack: seq<Frame>): seq<Token> {
    if stack == [] then [] else FrameText(stack[0]) + Consumed(stack[1..])
  }

  predicate FrameFits(level: nat, f: Frame) {
    match f
    case Pending(acc, op) => Grammatical(acc) && OpLevel(op) >= level && Level(acc) >= OpLevel(op)
    case Sign(op) => op == Add || op == Sub
    case Group => true
    case Whole(t) => level == 0 && Grammatical(t)
  }

  /** The level at which the parser goes on behind a frame. */
  function Below(f: Frame): (level: nat)
    ensures level <= 2
  {
    match f
    case Pending(_, op) => OpLevel(op) + 1
    case Sign(_) => 2
    case Group => 0
    case Whole(_) => 0
  }

  /** A stack the parser can have at a level: operands of rising level inside a
      group, a factor after a sign, and a whole expression only at the end. */
  predicate Viable(level: nat, stack: seq<Frame>)
    decreases |stack|
  {
    stack == []
    || (FrameFits(level, stack[0]) && (stack[0].Whole? ==> |stack| == 1) && Viable(Below(stack[0]), stack[1..]))
  }

  predicate AtEnd(stack: seq<Frame>) {
    stack != [] && stack[|stack| - 1].Whole?
  }

  /** The error says what the parser needed and what it found instead. */
  predicate ErrorFits(e: SyntaxError, stack: seq<Frame>, rest: seq<Token>) {
    if rest == [] then e == Incomplete
    else if AtEnd(stack) then e == Unexpected(rest[0]) && rest[0] != Close
    else e == InvalidNumber(rest[0])
  }

  /** A rejection of `ts`: what was under way covers the tokens in front, the rest is
      the token it stopped at and what follows, and the error says why. */
  predicate Explained(level: nat, p: Parse, ts: seq<Token>) {
    && p.Rejected? && Consumed(p.stack) + p.rest == ts && Viable(level, p.stack) && ErrorFits(p.error, p.stack, p.rest)
    && (p.stack != [] ==> !p.stack[0].Whole?)
  }

  lemma {:induction false} RejectedAt(level: nat, ts: seq<Token>)
    requires level <= 2 && Valid(ts) && ParseAt(level, ts).Rejected?
    ensures Explained(level, ParseAt(level, ts), ts)
    decreases |ts|, 3 - level
  {
    if level < 2 {
      var first := ParseAt(level + 1, ts);
      if first.Parsed? {
        LoopRejectedAt(level, ts, first);
      } else {
        RejectedAt(level + 1, ts);
        ViableBelow(level, first.stack);
      }
    } else if ts != [] {
      assert ts == [ts[0]] + ts[1..];
      SuffixIsValid(ts, [ts[0]], ts[1..]);
      if ts[0].Open? {
        var inner := ParseAt(0, ts[1..]);
        if inner.Parsed? {
          ParseIsSound(0, ts[1..]);
          NotClosed(ts, inner);
        } else {
          RejectedAt(0, ts[1..]);
          ExplainedInside(2, Group, inner, ts[1..]);
        }
      } else if ts[0].Operator? && (ts[0].op == Add || ts[0].op == Sub) {
        RejectedAt(2, ts[1..]);
        ExplainedInside(2, Sign(ts[0].op), ParseAt(2, ts[1..]), ts[1..]);
      }
    }
  }

  lemma {:induction false} LoopRejectedAt(level: nat, ts: seq<Token>, first: Parse)
    requires level < 2 && Valid(ts) && first == ParseAt(level + 1, ts) && first.Parsed?
    requires ParseTail(level, first.tree, first.rest).Rejected?
    ensures Explained(level, ParseTail(level, first.tree, first.rest), ts)
    decreases |ts|, 0
  {
    ParseIsSound(level + 1, ts);
    SuffixIsValid(ts, Yield(first.tree), first.rest);
    TailRejectedAt(level, first.tree, first.rest);
  }

  lemma ViableBelow(level: nat, stack: seq<Frame>)
    requires Viable(level + 1, stack)
    ensures Viable(level, stack)
  {
  }

  /** One more frame around a rejection. */
  lemma ExplainedInside(level: nat, f: Frame, p: Parse, ts: seq<Token>)
    requires Explained(Below(f), p, ts) && FrameFits(level, f) && !f.Whole?
    ensures Explained(level, Inside(f, p), FrameText(f) + ts)
  {
    ConsumedNext(f, p.stack);
    ViableNext(level, f, p.stack);
    EndsNext(f, p.stack);
    assert FrameText(f) + Consumed(p.stack) + p.rest == FrameText(f) + (Consumed(p.stack) + p.rest);
  }

  lemma ConsumedNext(f: Frame, stack: seq<Frame>)
    ensures Consumed([f] + stack) == FrameText(f) + Consumed(stack)
  {
    assert ([f] + stack)[1..] == stack;
  }

  lemma ViableNext(level: nat, f: Frame, stack: seq<Frame>)
    requires FrameFits(level, f) && !f.Whole? && Viable(Below(f), stack)
    ensures Viable(level, [f] + stack)
  {
    assert ([f] + stack)[1..] == stack;
  }

  lemma EndsNext(f: Frame, stack: seq<Frame>)
    requires !f.Whole?
    ensures AtEnd([f] + stack) == AtEnd(stack)
  {
    assert stack != [] ==> ([f] + stack)[|stack|] == stack[|stack| - 1];
  }

  lemma NotClosed(ts: seq<Token>, p: Parse)
    requires ts != [] && ts[0] == Open && p.Parsed? && Closed(p).Rejected?
    requires Grammatical(p.tree) && Yield(p.tree) + p.rest == ts[1..]
    ensures Explained(2, Closed(p), ts)
  {
    var last := [Whole(p.tree)];
    assert last[1..] == [] && Consumed(last) == Yield(p.tree) + [] && Viable(0, last);
    assert [Group, Whole(p.tree)][1..] == last;
    assert ts == [Open] + ts[1..];
    assert [Open] + Yield(p.tree) + p.rest == [Open] + (Yield(p.tree) + p.rest);
  }

  lemma {:induction false} TailRejectedAt(level: nat, acc: Tree, ts: seq<Token>)
    requires level < 2 && Valid(ts) && ParseTail(level, acc, ts).Rejected?
    requires Grammatical(acc) && Level(acc) >= level
    ensures Explained(level, ParseTail(level, acc, ts), Yield(acc) + ts)
    decreases |ts|, 0
  {
    var next := ParseAt(level + 1, ts[1..]);
    SuffixIsValid(ts, [ts[0]], ts[1..]);
    if next.Parsed? {
      ParseIsSound(level + 1, ts[1..]);
      SuffixIsValid(ts[1..], Yield(next.tree), next.rest);
      TailRejectedAt(level, Bin(ts[0].op, acc, next.tree), next.rest);
      YieldAssociates(ts, acc, next.tree, next.rest);
    } else {
      RejectedAt(level + 1, ts[1..]);
      OperandMissing(level, acc, ts, next);
    }
  }

  lemma OperandMissing(level: nat, acc: Tree, ts: seq<Token>, next: Parse)
    requires level < 2 && OperatorAt(level, ts) && Explained(level + 1, next, ts[1..])
    requires Grammatical(acc) && Level(acc) >= level
    ensures Explained(level, Inside(Pending(acc, ts[0].op), next), Yield(acc) + ts)
  {
    PendingText(acc, ts);
    ExplainedInside(level, Pending(acc, ts[0].op), next, ts[1..]);
  }

  lemma PendingText(acc: Tree, ts: seq<Token>)
    requires ts != [] && ts[0].Operator?
    ensures FrameText(Pending(acc, ts[0].op)) + ts[1..] == Yield(acc) + ts
  {
    assert ts == [ts[0]] + ts[1..];
  }

  /** The shortest way to finish what the parser was in the middle of. */
  function Completed(stack: seq<Frame>): Tree {
    if stack == [] then Num("0")
    else match stack[0]
      case Pending(acc, op) => Bin(op, acc, Completed(stack[1..]))
      case Sign(op) => if op == Sub then Neg(Completed(stack[1..])) else Pos(Completed(stack[1..]))
      case Group => Paren(Completed(stack[1..]))
      case Whole(t) => t
  }

  lemma {:induction false} CompletedIsGrammatical(level: nat, stack: seq<Frame>)
    requires level <= 2 && Viable(level, stack)
    ensures Grammatical(Completed(stack)) && Level(Completed(stack)) >= level
    decreases |stack|
  {
    if stack != [] && !stack[0].Whole? {
      CompletedIsGrammatical(Below(stack[0]), stack[1..]);
    }
  }

  lemma {:induction false} CompletedBegins(level: nat, stack: seq<Frame>)
    requires level <= 2 && Viable(level, stack)
    ensures Consumed(stack) <= Yield(Completed(stack))
    decreases |stack|
  {
    if stack != [] && stack[0].Whole? {
      assert Consumed(stack) == Yield(stack[0].tree) + Consumed(stack[1..]) == Yield(stack[0].tree);
    } else if stack != [] {
      CompletedBegins(Below(stack[0]), stack[1..]);
      assert Consumed(stack) == FrameText(stack[0]) + Consumed(stack[1..]);
      assert FrameText(stack[0]) + Yield(Completed(stack[1..])) <= Yield(Completed(stack));
    }
  }

  predicate SameUpTo(n: nat, ts: seq<Token>, ts': seq<Token>) {
    n <= |ts| && n <= |ts'| && forall i | 0 <= i < n :: ts[i] == ts'[i]
  }

  /** Enough of the two texts is the same for the token `p` stopped at. */
  predicate Covers(p: Parse, ts: seq<Token>, ts': seq<Token>) {
    p.rest != [] && |p.rest| <= |ts| && SameUpTo(|ts| - |p.rest| + 1, ts, ts')
  }

  /** `p'` is of `ts'` what `p` is of `ts`: both stop in front of the same token. */
  ghost predicate Alike(p: Parse, ts: seq<Token>, p': Parse, ts': seq<Token>) {
    && Covers(p, ts, ts')
    && p.rest == ts[|ts| - |p.rest|..] && p'.rest == ts'[|ts| - |p.rest|..]
    && p'.Parsed? == p.Parsed? && (p.Parsed? ==> p'.tree == p.tree)
  }

  lemma CoversEarlier(p: Parse, q: Parse, ts: seq<Token>, ts': seq<Token>)
    requires Covers(p, ts, ts') && |p.rest| <= |q.rest| <= |ts|
    ensures Covers(q, ts, ts')
  {
  }

  lemma CoversBehind(p: Parse, ts: seq<Token>, ts': seq<Token>, m: nat)
    requires Covers(p, ts, ts') && m <= |ts| - |p.rest|
    ensures Covers(p, ts[m..], ts'[m..])
  {
  }

  lemma AlikeBehind(p: Parse, ts: seq<Token>, p': Parse, ts': seq<Token>, m: nat)
    requires Covers(p, ts, ts') && m <= |ts| - |p.rest| && Alike(p, ts[m..], p', ts'[m..])
    ensures Alike(p, ts, p', ts')
  {
    var n := |ts| - |p.rest|;
    assert ts[m..][n - m..] == ts[n..] && ts'[m..][n - m..] == ts'[n..];
  }

  /** One token of lookahead decides: texts that agree up to and with the token at
      which a parse stopped are parsed alike. */
  lemma {:induction false} LookaheadIsOne(level: nat, ts: seq<Token>, ts': seq<Token>)
    requires level <= 2 && Covers(ParseAt(level, ts), ts, ts')
    ensures Alike(ParseAt(level, ts), ts, ParseAt(level, ts'), ts')
    decreases |ts|, 3 - level
  {
    var p := ParseAt(level, ts);
    if level < 2 {
      var first := ParseAt(level + 1, ts);
      CoversEarlier(p, first, ts, ts');
      LookaheadIsOne(level + 1, ts, ts');
      if first.Parsed? {
        TailLookahead(level, first, p, ts, ParseAt(level + 1, ts'), ts');
      }
    } else {
      FactorLookahead(ts, ts');
    }
  }

  lemma {:induction false} FactorLookahead(ts: seq<Token>, ts': seq<Token>)
    requires Covers(ParseAt(2, ts), ts, ts')
    ensures Alike(ParseAt(2, ts), ts, ParseAt(2, ts'), ts')
    decreases |ts|, 0, 1
  {
    assert ts[0] == ts'[0];
    if ts[0].Open? {
      InnerLookahead(0, ParseAt(2, ts), ts, ts');
      ClosedAlike(ParseAt(0, ts[1..]), ts, ParseAt(0, ts'[1..]), ts');
    } else if ts[0].Operator? && (ts[0].op == Add || ts[0].op == Sub) {
      InnerLookahead(2, ParseAt(2, ts), ts, ts');
      SignedAlike(ts[0].op, ParseAt(2, ts[1..]), ts, ParseAt(2, ts'[1..]), ts');
    }
  }

  /** What comes behind the first token is parsed alike. */
  lemma {:induction false} InnerLookahead(below: nat, p: Parse, ts: seq<Token>, ts': seq<Token>)
    requires below <= 2 && ts != [] && Covers(p, ts, ts') && |p.rest| <= |ParseAt(below, ts[1..]).rest|
    ensures ts' != [] && Alike(ParseAt(below, ts[1..]), ts, ParseAt(below, ts'[1..]), ts')
    decreases |ts|, 0, 0
  {
    var inner, inner' := ParseAt(below, ts[1..]), ParseAt(below, ts'[1..]);
    CoversEarlier(p, inner, ts, ts');
    CoversBehind(inner, ts, ts', 1);
    LookaheadIsOne(below, ts[1..], ts'[1..]);
    AlikeBehind(inner, ts, inner', ts', 1);
  }

  lemma SignedAlike(op: Op, p: Parse, ts: seq<Token>, p': Parse, ts': seq<Token>)
    requires Alike(p, ts, p', ts')
    ensures Alike(Signed(op, p), ts, Signed(op, p'), ts')
  {
  }

  lemma ClosedAlike(p: Parse, ts: seq<Token>, p': Parse, ts': seq<Token>)
    requires Alike(p, ts, p', ts') && Covers(Closed(p), ts, ts')
    ensures Alike(Closed(p), ts, Closed(p'), ts')
  {
    var n := |ts| - |p.rest|;
    assert p.rest[0] == ts[n] && p'.rest[0] == ts'[n];
  }

  lemma RestAlike(p: Parse, ts: seq<Token>, p': Parse, ts': seq<Token>) returns (m: nat)
    requires Alike(p, ts, p', ts')
    ensures m == |ts| - |p.rest| && m < |ts| && m < |ts'| && p'.rest != [] && p'.rest[0] == p.rest[0]
    ensures p.rest[1..] == ts[m + 1..] && p'.rest[1..] == ts'[m + 1..]
  {
    m := |ts| - |p.rest|;
    assert p.rest[0] == ts[m] && p'.rest[0] == ts'[m];
  }

  /** The loop of a level goes on alike behind operands that were parsed alike. */
  lemma {:induction false} TailLookahead(level: nat, first: Parse, p: Parse, ts: seq<Token>, first': Parse, ts': seq<Token>)
    requires level < 2 && first.Parsed? && Alike(first, ts, first', ts')
    requires p == ParseTail(level, first.tree, first.rest) && Covers(p, ts, ts')
    ensures Alike(p, ts, ParseTail(level, first.tree, first'.rest), ts')
    decreases |first.rest|, 1
  {
    var m := RestAlike(first, ts, first', ts');
    if OperatorAt(level, first.rest) {
      var op, next := first.rest[0].op, ParseAt(level + 1, first.rest[1..]);
      var next' := OperandLookahead(level, first, p, ts, first', ts');
      if next.Parsed? {
        TailLookahead(level, Parsed(Bin(op, first.tree, next.tree), next.rest), p, ts,
                      Parsed(Bin(op, first.tree, next.tree), next'.rest), ts');
      }
    }
  }

  lemma {:induction false} OperandLookahead(level: nat, first: Parse, p: Parse, ts: seq<Token>, first': Parse, ts': seq<Token>)
    returns (next': Parse)
    requires level < 2 && Alike(first, ts, first', ts') && Covers(p, ts, ts')
    requires |p.rest| <= |ParseAt(level + 1, first.rest[1..]).rest|
    ensures first'.rest != [] && next' == ParseAt(level + 1, first'.rest[1..])
    ensures Alike(ParseAt(level + 1, first.rest[1..]), ts, next', ts')
    decreases |first.rest|, 0
  {
    var m := RestAlike(first, ts, first', ts');
    var next := ParseAt(level + 1, first.rest[1..]);
    next' := ParseAt(level + 1, first'.rest[1..]);
    CoversEarlier(p, next, ts, ts');
    CoversBehind(next, ts, ts', m + 1);
    LookaheadIsOne(level + 1, first.rest[1..], first'.rest[1..]);
    AlikeBehind(next, ts, next', ts', m + 1);
  }

  /** An error is found at the first token that nothing could have made right: what
      is in front of it begins some expression, and with it no expression begins. */
  lemma ErrorIsFirstBadToken(ts: seq<Token>)
    requires Valid(ts) && ts != [] && ParseAll(ts).Rejected?
    ensures var Rejected(e, stack, rest) := ParseAll(ts);
            && Consumed(stack) + rest == ts
            && (exists t :: Grammatical(t) && Consumed(stack) <= Yield(t))
            && (rest == [] ==> e == Incomplete)
            && (rest != [] ==> forall t | Grammatical(t) :: !(Consumed(stack) + [rest[0]] <= Yield(t)))
  {
    var Rejected(e, stack, rest) := ParseAll(ts);
    if ParseAt(0, ts).Parsed? {
      ParseIsSound(0, ts);
      assert stack[1..] == [] && Consumed(stack) == Yield(ParseAt(0, ts).tree) + [];
    } else {
      RejectedAt(0, ts);
      CompletedIsGrammatical(0, stack);
      CompletedBegins(0, stack);
    }
    if rest != [] {
      forall t | Grammatical(t) ensures !(Consumed(stack) + [rest[0]] <= Yield(t)) {
        NoneContinues(ts, Consumed(stack), rest, t);
      }
    }
  }

  lemma NoneContinues(ts: seq<Token>, before: seq<Token>, rest: seq<Token>, t: Tree)
    requires before + rest == ts && rest != [] && ParseAt(0, ts).rest == rest && Grammatical(t)
    ensures !(before + [rest[0]] <= Yield(t))
  {
    YieldIsPrintable(t);
    ParseIsInverseOfYield(Yield(t), t);
    if before + [rest[0]] <= Yield(t) {
      forall i | 0 <= i <= |before| ensures ts[i] == Yield(t)[i] {
        assert (before + [rest[0]])[i] == ts[i];
      }
      assert !Covers(ParseAt(0, ts), ts, Yield(t)) by {
        if Covers(ParseAt(0, ts), ts, Yield(t)) { LookaheadIsOne(0, ts, Yield(t)); }
      }
    }
  }
}
