/** Infix expressions as trees, the operator-precedence translation to postfix, and evaluation of
    postfix on a stack. */
module ExpressionTree {

  datatype Option<+T> = None | Some(value: T)

  datatype Op =
    | LogOr | LogAnd
    | BitOr | BitXor | BitAnd
    | Eq | NotEq
    | Less | LessEq | Great | GreatEq
    | ShiftLeft | ShiftRight
    | Add | Dec
    | Mult | Div | Mod
    | Negate | BitNot | LogNot

  function Level(op: Op): nat {
    match op
    case LogOr => 0
    case LogAnd => 1
    case BitOr => 2
    case BitXor => 3
    case BitAnd => 4
    case Eq | NotEq => 5
    case Less | LessEq | Great | GreatEq => 6
    case ShiftLeft | ShiftRight => 7
    case Add | Dec => 8
    case Mult | Div | Mod => 9
    case Negate | BitNot | LogNot => 10
  }

  predicate IsUnary(op: Op) {
    op in {Negate, BitNot, LogNot}
  }

  datatype Token = Key(name: seq<char>) | Left | Right | Operator(op: Op) | Bad | Unmodelled

  datatype Node = Operand(name: seq<char>) | Opt(op: Op)

  datatype Outcome = Parsed(nodes: seq<Node>) | Failed | NotModelled

  datatype Entry = Paren | Pending(op: Op)

  // ----- The translation: a stack of pending operators (top first) and the output so far.

  /** An operator on the stack gives way to an incoming one of the same or a lower level. The
      source's exception for right-to-left operators compares a level, at most 10, with the number
      18 of an operator, and so never applies (ec_exp.h:618). */
  predicate GivesWay(e: Entry, incoming: Op) {
    e.Pending? && Level(incoming) <= Level(e.op)
  }

  function Yielding(stk: seq<Entry>, incoming: Op): (r: seq<Node>) {
    if stk == [] || !GivesWay(stk[0], incoming) then []
    else [Opt(stk[0].op)] + Yielding(stk[1..], incoming)
  }

  function Staying(stk: seq<Entry>, incoming: Op): (r: seq<Entry>) {
    if stk == [] || !GivesWay(stk[0], incoming) then stk
    else Staying(stk[1..], incoming)
  }

  /** The operators above the topmost parenthesis. */
  function Inside(stk: seq<Entry>): (r: seq<Node>) {
    if stk == [] || stk[0].Paren? then [] else [Opt(stk[0].op)] + Inside(stk[1..])
  }

  function Outside(stk: seq<Entry>): (r: seq<Entry>)
    ensures |r| <= |stk| && (r != [] ==> r[0].Paren?)
  {
    if stk == [] || stk[0].Paren? then stk else Outside(stk[1..])
  }

  function Yard(ts: seq<Token>, stk: seq<Entry>, out: seq<Node>): Outcome
    decreases |ts|
  {
    if ts == [] then
      if Outside(stk) == [] then Parsed(out + Inside(stk)) else Failed
    else match ts[0]
      case Key(name) => Yard(ts[1..], stk, out + [Operand(name)])
      case Left => Yard(ts[1..], [Paren] + stk, out)
      case Right =>
        if Outside(stk) == [] then Failed else Yard(ts[1..], Outside(stk)[1..], out + Inside(stk))
      case Operator(op) => Yard(ts[1..], [Pending(op)] + Staying(stk, op), out + Yielding(stk, op))
      case Bad => Failed
      case Unmodelled => NotModelled
  }

  // ----- Trees.

  datatype Expr =
    | Atom(name: seq<char>)
    | Group(inner: Expr)
    | Prefix(op: Op, arg: Expr)
    | Binary(op: Op, left: Expr, right: Expr)

  /** The tree follows the precedence levels from `level` up: operands on the left bind at least as
      tightly, operands on the right more tightly; a prefix operator has an atom, a parenthesis or
      another prefix operator. */
  predicate Canonical(e: Expr, level: nat) {
    match e
    case Atom(_) => true
    case Group(x) => Canonical(x, 0)
    case Prefix(op, x) => op in {Negate, BitNot} && level <= 10 && Canonical(x, 10)
    case Binary(op, l, r) =>
      !IsUnary(op) && level <= Level(op) && Canonical(l, Level(op)) && Canonical(r, Level(op) + 1)
  }

  function Tokens(e: Expr): seq<Token> {
    match e
    case Atom(name) => [Key(name)]
    case Group(x) => [Left] + Tokens(x) + [Right]
    case Prefix(op, x) => [Operator(op)] + Tokens(x)
    case Binary(op, l, r) => Tokens(l) + [Operator(op)] + Tokens(r)
  }

  function PostOrder(e: Expr): seq<Node> {
    match e
    case Atom(name) => [Operand(name)]
    case Group(x) => PostOrder(x)
    case Prefix(op, x) => PostOrder(x) + [Opt(op)]
    case Binary(op, l, r) => PostOrder(l) + PostOrder(r) + [Opt(op)]
  }

  /** What the translation makes of e: the post-order, but that of several prefix operators before
      an operand all but the last are written in front of it. */
  function Translated(e: Expr): seq<Node> {
    match e
    case Atom(name) => [Operand(name)]
    case Group(x) => Translated(x)
    case Prefix(op, x) => if x.Prefix? then [Opt(op)] + Translated(x) else Translated(x) + [Opt(op)]
    case Binary(op, l, r) => Translated(l) + Translated(r) + [Opt(op)]
  }

  /** The operators still pending after the tokens of e: those on its right edge. */
  function Spine(e: Expr): seq<Entry> {
    match e
    case Atom(_) => []
    case Group(_) => []
    case Prefix(op, x) => if x.Prefix? then Spine(x) else Spine(x) + [Pending(op)]
    case Binary(op, _, r) => Spine(r) + [Pending(op)]
  }

  /** The output after the tokens of e. */
  function Emitted(e: Expr): seq<Node> {
    match e
    case Atom(name) => [Operand(name)]
    case Group(x) => Translated(x)
    case Prefix(op, x) => if x.Prefix? then [Opt(op)] + Emitted(x) else Emitted(x)
    case Binary(_, l, r) => Translated(l) + Emitted(r)
  }

  function Opts(s: seq<Entry>): seq<Node>
    requires forall i :: 0 <= i < |s| ==> s[i].Pending?
  {
    seq(|s|, i requires 0 <= i < |s| => Opt(s[i].op))
  }

  /** Every pending operator on the right edge has at least the level of the tree. */
  predicate AllAtLeast(s: seq<Entry>, level: nat) {
    forall i :: 0 <= i < |s| ==> s[i].Pending? && level <= Level(s[i].op)
  }

  lemma {:induction false} SpineLevels(e: Expr, level: nat)
    requires Canonical(e, level)
    ensures AllAtLeast(Spine(e), level) && Emitted(e) + Opts(Spine(e)) == Translated(e)
  {
    match e
    case Atom(_) =>
    case Group(_) =>
    case Prefix(op, x) =>
      if x.Prefix? {
        SpineLevels(x, 10);
        Shift([Opt(op)], Emitted(x), Opts(Spine(x)));
      } else {
        assert Spine(x) == [] && Emitted(x) == Translated(x);
        assert Spine(e) == [Pending(op)];
      }
    case Binary(op, l, r) =>
      SpineLevels(r, Level(op) + 1);
      OptsAppend(Spine(r), op);
      Shift(Translated(l), Emitted(r), Opts(Spine(r)));
      Shift(Translated(l) + Emitted(r), Opts(Spine(r)), [Opt(op)]);
  }

  lemma {:induction false} OptsAppend(s: seq<Entry>, op: Op)
    requires AllAtLeast(s, 0)
    ensures AllAtLeast(s + [Pending(op)], 0) && Opts(s + [Pending(op)]) == Opts(s) + [Opt(op)]
  {
  }

  /** Nothing on top of the stack gives way to an operator of this level or above. */
  predicate Low(stk: seq<Entry>, level: nat) {
    stk == [] || stk[0].Paren? || Level(stk[0].op) < level
  }

  lemma {:induction false} SpineYields(s: seq<Entry>, stk: seq<Entry>, op: Op)
    requires AllAtLeast(s, Level(op)) && Low(stk, Level(op))
    ensures Yielding(s + stk, op) == Opts(s) && Staying(s + stk, op) == stk
  {
    if s == [] {
      assert s + stk == stk;
    } else {
      SpineYields(s[1..], stk, op);
      assert (s + stk)[1..] == s[1..] + stk;
      assert Opts(s) == [Opt(s[0].op)] + Opts(s[1..]);
    }
  }

  lemma {:induction false} SpineInside(s: seq<Entry>, stk: seq<Entry>)
    requires AllAtLeast(s, 0) && (stk == [] || stk[0].Paren?)
    ensures Inside(s + stk) == Opts(s) && Outside(s + stk) == stk
  {
    if s == [] {
      assert s + stk == stk;
    } else {
      SpineInside(s[1..], stk);
      assert (s + stk)[1..] == s[1..] + stk;
      assert Opts(s) == [Opt(s[0].op)] + Opts(s[1..]);
    }
  }

  lemma {:induction false} OneOperator(op: Op, s: seq<Entry>, rest: seq<Token>, stk: seq<Entry>, out: seq<Node>)
    requires AllAtLeast(s, Level(op)) && Low(stk, Level(op))
    ensures Yard([Operator(op)] + rest, s + stk, out) == Yard(rest, [Pending(op)] + stk, out + Opts(s))
  {
    SpineYields(s, stk, op);
    assert ([Operator(op)] + rest)[1..] == rest;
  }

  lemma {:induction false} CloseParen(s: seq<Entry>, rest: seq<Token>, stk: seq<Entry>, out: seq<Node>)
    requires AllAtLeast(s, 0)
    ensures Yard([Right] + rest, s + ([Paren] + stk), out) == Yard(rest, stk, out + Opts(s))
  {
    SpineInside(s, [Paren] + stk);
    assert ([Right] + rest)[1..] == rest && ([Paren] + stk)[1..] == stk;
  }

  /** Reading the tokens of a tree, whatever surrounds it. */
  lemma {:induction false} YardTree(e: Expr, level: nat, rest: seq<Token>, stk: seq<Entry>, out: seq<Node>)
    requires Canonical(e, level) && Low(stk, level)
    ensures Yard(Tokens(e) + rest, stk, out) == Yard(rest, Spine(e) + stk, out + Emitted(e))
    decreases e, 1
  {
    match e
    case Atom(name) =>
      assert (Tokens(e) + rest)[1..] == rest;
      assert Spine(e) + stk == stk;
    case Group(x) =>
      YardGroup(x, rest, stk, out);
      assert Spine(e) + stk == stk;
    case Prefix(op, x) => YardPrefix(op, x, rest, stk, out);
    case Binary(op, l, r) => YardBinary(op, l, r, rest, stk, out);
  }

  lemma {:induction false} YardPrefix(op: Op, x: Expr, rest: seq<Token>, stk: seq<Entry>, out: seq<Node>)
    requires Canonical(x, 10) && Low(stk, Level(op)) && op in {Negate, BitNot}
    ensures var e := Prefix(op, x); Yard(Tokens(e) + rest, stk, out) == Yard(rest, Spine(e) + stk, out + Emitted(e))
    decreases Prefix(op, x), 0
  {
    var ts := Tokens(x) + rest;
    Shift([Operator(op)], Tokens(x), rest);
    OneOperator(op, [], ts, stk, out);
    assert [] + stk == stk && out + Opts([]) == out;
    if x.Prefix? {
      YardSecond(op, x, rest, stk, out);
      YardTree(x, 10, rest, stk, out + [Opt(op)]);
      Shift(out, [Opt(op)], Emitted(x));
    } else {
      YardTree(x, 11, rest, [Pending(op)] + stk, out);
      Shift(Spine(x), [Pending(op)], stk);
    }
  }

  /** A second prefix operator drives the first one out, before there is an operand. */
  lemma {:induction false} YardSecond(op: Op, x: Expr, rest: seq<Token>, stk: seq<Entry>, out: seq<Node>)
    requires x.Prefix? && x.op in {Negate, BitNot} && op in {Negate, BitNot} && Low(stk, 10)
    ensures Yard(Tokens(x) + rest, [Pending(op)] + stk, out) == Yard(Tokens(x) + rest, stk, out + [Opt(op)])
  {
    var more := Tokens(x.arg) + rest;
    Shift([Operator(x.op)], Tokens(x.arg), rest);
    OneOperator(x.op, [Pending(op)], more, stk, out);
    OneOperator(x.op, [], more, stk, out + [Opt(op)]);
    assert Opts([Pending(op)]) == [Opt(op)] && [] + stk == stk && out + [Opt(op)] + Opts([]) == out + [Opt(op)];
  }

  lemma {:induction false} YardGroup(x: Expr, rest: seq<Token>, stk: seq<Entry>, out: seq<Node>)
    requires Canonical(x, 0)
    ensures Yard(Tokens(Group(x)) + rest, stk, out) == Yard(rest, stk, out + Translated(x))
    decreases Group(x), 0
  {
    var more := [Right] + rest;
    assert Tokens(Group(x)) + rest == [Left] + (Tokens(x) + more);
    assert ([Left] + (Tokens(x) + more))[1..] == Tokens(x) + more;
    YardTree(x, 0, more, [Paren] + stk, out);
    SpineLevels(x, 0);
    CloseParen(Spine(x), rest, stk, out + Emitted(x));
    assert out + Emitted(x) + Opts(Spine(x)) == out + (Emitted(x) + Opts(Spine(x)));
  }

  lemma {:induction false} Shift<T>(a: seq<T>, b: seq<T>, c: seq<T>)
    ensures a + b + c == a + (b + c)
  {
  }

  /** The left operand and the operator: the operand is finished. */
  lemma {:induction false} YardLeft(op: Op, l: Expr, more: seq<Token>, stk: seq<Entry>, out: seq<Node>)
    requires Canonical(l, Level(op)) && Low(stk, Level(op))
    ensures Yard(Tokens(l) + ([Operator(op)] + more), stk, out) == Yard(more, [Pending(op)] + stk, out + Translated(l))
    decreases l, 2
  {
    YardTree(l, Level(op), [Operator(op)] + more, stk, out);
    SpineLevels(l, Level(op));
    OneOperator(op, Spine(l), more, stk, out + Emitted(l));
    assert out + Emitted(l) + Opts(Spine(l)) == out + (Emitted(l) + Opts(Spine(l)));
  }

  lemma {:induction false} YardBinary(op: Op, l: Expr, r: Expr, rest: seq<Token>, stk: seq<Entry>, out: seq<Node>)
    requires Canonical(l, Level(op)) && Canonical(r, Level(op) + 1) && Low(stk, Level(op))
    ensures Yard(Tokens(Binary(op, l, r)) + rest, stk, out)
         == Yard(rest, Spine(Binary(op, l, r)) + stk, out + Emitted(Binary(op, l, r)))
    decreases Binary(op, l, r), 0
  {
    Shift(Tokens(l) + [Operator(op)], Tokens(r), rest);
    Shift(Tokens(l), [Operator(op)], Tokens(r) + rest);
    YardLeft(op, l, Tokens(r) + rest, stk, out);
    YardTree(r, Level(op) + 1, rest, [Pending(op)] + stk, out + Translated(l));
    Shift(Spine(r), [Pending(op)], stk);
    Shift(out, Translated(l), Emitted(r));
  }

  /** What the translation makes of a whole expression. */
  lemma {:induction false} YardTranslates(e: Expr)
    requires Canonical(e, 0)
    ensures Yard(Tokens(e), [], []) == Parsed(Translated(e))
  {
    YardTree(e, 0, [], [], []);
    assert Tokens(e) + [] == Tokens(e) && Spine(e) + [] == Spine(e) && [] + Emitted(e) == Emitted(e);
    SpineLevels(e, 0);
    SpineInside(Spine(e), []);
  }

  // ----- When the translation is right.

  predicate IsPrefix(t: Token) {
    t.Operator? && IsUnary(t.op)
  }

  /** Two prefix operators stand next to each other. */
  predicate Stacked(ts: seq<Token>) {
    2 <= |ts| && ((IsPrefix(ts[0]) && IsPrefix(ts[1])) || Stacked(ts[1..]))
  }

  /** No prefix operator of the tree has a prefix operator for its operand. */
  predicate Single(e: Expr) {
    match e
    case Atom(_) => true
    case Group(x) => Single(x)
    case Prefix(_, x) => !x.Prefix? && Single(x)
    case Binary(_, l, r) => Single(l) && Single(r)
  }

  lemma {:induction false} StackedConcat(a: seq<Token>, b: seq<Token>)
    requires a != [] && b != []
    ensures Stacked(a + b) <==> Stacked(a) || Stacked(b) || (IsPrefix(a[|a| - 1]) && IsPrefix(b[0]))
  {
    if |a| == 1 {
      assert (a + b)[1..] == b;
    } else {
      assert (a + b)[1..] == a[1..] + b;
      StackedConcat(a[1..], b);
    }
  }

  lemma {:induction false} StackedInside(ts: seq<Token>)
    requires ts != []
    ensures Stacked([Left] + ts + [Right]) <==> Stacked(ts)
  {
    StackedConcat([Left], ts);
    StackedConcat([Left] + ts, [Right]);
  }

  lemma {:induction false} StackedBetween(a: seq<Token>, op: Op, b: seq<Token>)
    requires a != [] && b != [] && !IsUnary(op)
    ensures Stacked(a + [Operator(op)] + b) <==> Stacked(a) || Stacked(b)
  {
    StackedConcat(a, [Operator(op)]);
    StackedConcat(a + [Operator(op)], b);
  }

  /** The tokens tell whether prefix operators are stacked. */
  lemma {:induction false} StackedTokens(e: Expr, level: nat)
    requires Canonical(e, level)
    ensures Tokens(e) != [] && (Stacked(Tokens(e)) <==> !Single(e))
    ensures !IsPrefix(Tokens(e)[|Tokens(e)| - 1])
    ensures level == 10 ==> (IsPrefix(Tokens(e)[0]) <==> e.Prefix?)
  {
    match e
    case Atom(_) =>
    case Group(x) =>
      StackedTokens(x, 0);
      StackedInside(Tokens(x));
    case Prefix(op, x) =>
      StackedTokens(x, 10);
      StackedConcat([Operator(op)], Tokens(x));
    case Binary(op, l, r) =>
      StackedTokens(l, Level(op));
      StackedTokens(r, Level(op) + 1);
      StackedBetween(Tokens(l), op, Tokens(r));
  }

  lemma {:induction false} SameLength(e: Expr)
    ensures |Translated(e)| == |PostOrder(e)| && PostOrder(e) != [] && PostOrder(e)[0].Operand?
  {
    match e
    case Atom(_) =>
    case Group(x) => SameLength(x);
    case Prefix(_, x) => SameLength(x);
    case Binary(_, l, r) =>
      SameLength(l);
      SameLength(r);
  }

  /** The translation is the post-order exactly when no prefix operators are stacked: where they
      are, an operator stands in the place of an operand. */
  lemma {:induction false} PostOrderIfSingle(e: Expr)
    ensures Translated(e) == PostOrder(e) <==> Single(e)
  {
    match e
    case Atom(_) =>
    case Group(x) => PostOrderIfSingle(x);
    case Prefix(op, x) =>
      PostOrderIfSingle(x);
      SameLength(x);
      if x.Prefix? {
        assert Translated(e)[0] == Opt(op);
        assert PostOrder(e)[0] == PostOrder(x)[0];
      } else {
        SameParts(Translated(x), PostOrder(x), [Opt(op)], [Opt(op)]);
      }
    case Binary(op, l, r) =>
      PostOrderIfSingle(l);
      PostOrderIfSingle(r);
      SameLength(l);
      SameLength(r);
      SameParts(Translated(l), PostOrder(l), Translated(r), PostOrder(r));
      SameParts(Translated(l) + Translated(r), PostOrder(l) + PostOrder(r), [Opt(op)], [Opt(op)]);
  }

  lemma {:induction false} SameParts<T>(a: seq<T>, b: seq<T>, c: seq<T>, d: seq<T>)
    requires |a| == |b|
    ensures a + c == b + d <==> a == b && c == d
  {
    if a + c == b + d {
      assert a == (a + c)[..|a|] && b == (b + d)[..|b|];
      assert c == (a + c)[|a|..] && d == (b + d)[|b|..];
    }
  }

  /** The translation of an expression is the post-order of its precedence tree if and only if no
      two prefix operators stand next to each other. */
  lemma {:induction false} TranslatesToPostOrder(e: Expr)
    requires Canonical(e, 0)
    ensures Yard(Tokens(e), [], []) == Parsed(PostOrder(e)) <==> !Stacked(Tokens(e))
    ensures Stacked(Tokens(e)) <==> !Single(e)
  {
    YardTranslates(e);
    PostOrderIfSingle(e);
    StackedTokens(e, 0);
  }

  // ----- When the translation succeeds.

  function Depth(stk: seq<Entry>): nat {
    if stk == [] then 0 else Depth(stk[1..]) + if stk[0].Paren? then 1 else 0
  }

  predicate Balanced(ts: seq<Token>, depth: nat) {
    if ts == [] then depth == 0
    else match ts[0]
      case Left => Balanced(ts[1..], depth + 1)
      case Right => 0 < depth && Balanced(ts[1..], depth - 1)
      case Bad | Unmodelled => false
      case _ => Balanced(ts[1..], depth)
  }

  lemma {:induction false} DepthKept(stk: seq<Entry>, op: Op)
    ensures Depth(Outside(stk)) == Depth(stk) && (Outside(stk) == [] <==> Depth(stk) == 0)
    ensures Depth(Staying(stk, op)) == Depth(stk)
  {
    if stk != [] {
      DepthKept(stk[1..], op);
    }
  }

  /** The translation accepts a token sequence if and only if its parentheses match. */
  lemma {:induction false} AcceptsBalanced(ts: seq<Token>, stk: seq<Entry>, out: seq<Node>)
    ensures Yard(ts, stk, out).Parsed? <==> Balanced(ts, Depth(stk))
    decreases |ts|
  {
    var op := if ts != [] && ts[0].Operator? then ts[0].op else LogOr;
    DepthKept(stk, op);
    if ts != [] {
      match ts[0]
      case Key(name) => AcceptsBalanced(ts[1..], stk, out + [Operand(name)]);
      case Left =>
        assert ([Paren] + stk)[1..] == stk;
        AcceptsBalanced(ts[1..], [Paren] + stk, out);
      case Right =>
        if Outside(stk) != [] {
          AcceptsBalanced(ts[1..], Outside(stk)[1..], out + Inside(stk));
        }
      case Operator(_) =>
        assert ([Pending(op)] + Staying(stk, op))[1..] == Staying(stk, op);
        AcceptsBalanced(ts[1..], [Pending(op)] + Staying(stk, op), out + Yielding(stk, op));
      case Bad =>
      case Unmodelled =>
    }
  }

  // ----- Evaluation, for any meaning of operands and operators that may fail.

  datatype Semantics<!V> = Semantics(
    operand: seq<char> -> Option<V>,
    unary: (Op, V) -> Option<V>,
    binary: (Op, V, V) -> Option<V>)

  /** The value of a tree: it fails when any part of it fails. */
  function Meaning<V>(m: Semantics<V>, e: Expr): Option<V> {
    match e
    case Atom(name) => m.operand(name)
    case Group(x) => Meaning(m, x)
    case Prefix(op, x) =>
      var v := Meaning(m, x);
      if v.None? then None else m.unary(op, v.value)
    case Binary(op, l, r) =>
      var v, w := Meaning(m, l), Meaning(m, r);
      if v.None? || w.None? then None else m.binary(op, v.value, w.value)
  }

  /** One node of the postfix program; the stack is top first. */
  function Execute<V>(m: Semantics<V>, n: Node, stk: seq<V>): Option<seq<V>> {
    match n
    case Operand(name) =>
      var v := m.operand(name);
      if v.None? then None else Some([v.value] + stk)
    case Opt(op) =>
      if IsUnary(op) then
        if |stk| < 1 then None else
          var v := m.unary(op, stk[0]);
          if v.None? then None else Some([v.value] + stk[1..])
      else
        if |stk| < 2 then None else
          var v := m.binary(op, stk[1], stk[0]);
          if v.None? then None else Some([v.value] + stk[2..])
  }

  function Run<V>(m: Semantics<V>, nodes: seq<Node>, stk: seq<V>): Option<seq<V>> {
    if nodes == [] then Some(stk)
    else
      var s := Execute(m, nodes[0], stk);
      if s.None? then None else Run(m, nodes[1..], s.value)
  }

  /** The value of a postfix program: what is left must be a single value. */
  function Result<V>(m: Semantics<V>, nodes: seq<Node>): Option<V> {
    var s := Run(m, nodes, []);
    if s.None? || |s.value| != 1 then None else Some(s.value[0])
  }

  lemma {:induction false} RunConcat<V>(m: Semantics<V>, a: seq<Node>, b: seq<Node>, stk: seq<V>)
    ensures Run(m, a + b, stk) == if Run(m, a, stk).None? then None else Run(m, b, Run(m, a, stk).value)
  {
    if a == [] {
      assert a + b == b;
    } else {
      assert (a + b)[1..] == a[1..] + b;
      var s := Execute(m, a[0], stk);
      if s.Some? {
        RunConcat(m, a[1..], b, s.value);
      }
    }
  }

  predicate Shape(e: Expr) {
    match e
    case Atom(_) => true
    case Group(x) => Shape(x)
    case Prefix(op, x) => IsUnary(op) && Shape(x)
    case Binary(op, l, r) => !IsUnary(op) && Shape(l) && Shape(r)
  }

  /** Running the post-order of a tree pushes its value, or fails exactly when the tree has none. */
  lemma {:induction false} RunPostOrder<V>(m: Semantics<V>, e: Expr, stk: seq<V>)
    requires Shape(e)
    ensures Run(m, PostOrder(e), stk) == if Meaning(m, e).None? then None else Some([Meaning(m, e).value] + stk)
  {
    match e
    case Atom(name) => RunOne(m, Operand(name), stk);
    case Group(x) => RunPostOrder(m, x, stk);
    case Prefix(op, x) =>
      RunPostOrder(m, x, stk);
      RunConcat(m, PostOrder(x), [Opt(op)], stk);
      if Meaning(m, x).Some? {
        RunOne(m, Opt(op), [Meaning(m, x).value] + stk);
      }
    case Binary(op, l, r) =>
      RunPostOrder(m, l, stk);
      RunConcat(m, PostOrder(l) + PostOrder(r), [Opt(op)], stk);
      RunConcat(m, PostOrder(l), PostOrder(r), stk);
      if Meaning(m, l).Some? {
        var s := [Meaning(m, l).value] + stk;
        RunPostOrder(m, r, s);
        if Meaning(m, r).Some? {
          RunOne(m, Opt(op), [Meaning(m, r).value] + s);
          assert ([Meaning(m, r).value] + s)[2..] == stk;
        }
      }
  }

  lemma {:induction false} RunOne<V>(m: Semantics<V>, n: Node, stk: seq<V>)
    ensures Run(m, [n], stk) == Execute(m, n, stk)
  {
    assert [n][1..] == [];
  }

  lemma {:induction false} CanonicalShape(e: Expr, level: nat)
    requires Canonical(e, level)
    ensures Shape(e)
  {
    match e
    case Atom(_) =>
    case Group(x) => CanonicalShape(x, 0);
    case Prefix(_, x) => CanonicalShape(x, 10);
    case Binary(op, l, r) =>
      CanonicalShape(l, Level(op));
      CanonicalShape(r, Level(op) + 1);
  }

  /** Translating an expression without stacked prefix operators and running the result gives the
      value of its precedence tree. */
  lemma {:induction false} MeaningPreserved<V>(m: Semantics<V>, e: Expr)
    requires Canonical(e, 0) && !Stacked(Tokens(e))
    ensures var p := Yard(Tokens(e), [], []); p.Parsed? && Result(m, p.nodes) == Meaning(m, e)
  {
    TranslatesToPostOrder(e);
    CanonicalShape(e, 0);
    RunPostOrder(m, e, []);
  }

  // ----- Trees are unique, and there is one for every expression.

  function Erase(e: Expr): Expr {
    match e
    case Atom(name) => e
    case Group(x) => Erase(x)
    case Prefix(op, x) => Prefix(op, Erase(x))
    case Binary(op, l, r) => Binary(op, Erase(l), Erase(r))
  }

  /** Reading a postfix program as a tree. */
  const TREES: Semantics<Expr> := Semantics(
    name => Some(Atom(name)), (op, x) => Some(Prefix(op, x)), (op, x, y) => Some(Binary(op, x, y)))

  lemma {:induction false} TreesMean(e: Expr)
    ensures Meaning(TREES, e) == Some(Erase(e))
  {
    match e
    case Atom(_) =>
    case Group(x) => TreesMean(x);
    case Prefix(_, x) => TreesMean(x);
    case Binary(_, l, r) =>
      TreesMean(l);
      TreesMean(r);
  }

  /** A tree that a postfix program builds has that program for its post-order. */
  function Programs(stk: seq<Expr>): seq<Node> {
    if stk == [] then [] else Programs(stk[1..]) + PostOrder(stk[0])
  }

  lemma {:induction false} RunBuilds(nodes: seq<Node>, stk: seq<Expr>)
    ensures var s := Run(TREES, nodes, stk); s.Some? ==> Programs(s.value) == Programs(stk) + nodes
  {
    if nodes != [] {
      var s := Execute(TREES, nodes[0], stk);
      if s.Some? {
        ExecuteBuilds(nodes[0], stk);
        RunBuilds(nodes[1..], s.value);
        Shift(Programs(stk), [nodes[0]], nodes[1..]);
        assert [nodes[0]] + nodes[1..] == nodes;
      }
    }
  }

  lemma {:induction false} ExecuteBuilds(n: Node, stk: seq<Expr>)
    ensures var s := Execute(TREES, n, stk); s.Some? ==> Programs(s.value) == Programs(stk) + [n]
  {
    var s := Execute(TREES, n, stk);
    if s.Some? {
      if n.Operand? {
        assert s.value[1..] == stk;
      } else if IsUnary(n.op) {
        assert s.value[1..] == stk[1..];
        Shift(Programs(stk[1..]), PostOrder(stk[0]), [n]);
      } else {
        assert s.value[1..] == stk[2..] && stk[1..][1..] == stk[2..];
        Shift(Programs(stk[2..]), PostOrder(stk[1]), PostOrder(stk[0]));
        Shift(Programs(stk[2..]), PostOrder(stk[1]) + PostOrder(stk[0]), [n]);
      }
    }
  }

  lemma {:induction false} ErasePostOrder(e: Expr)
    ensures PostOrder(Erase(e)) == PostOrder(e)
  {
    match e
    case Atom(_) =>
    case Group(x) => ErasePostOrder(x);
    case Prefix(_, x) => ErasePostOrder(x);
    case Binary(_, l, r) =>
      ErasePostOrder(l);
      ErasePostOrder(r);
  }

  /** With stacked prefix operators the meaning is lost: read as a tree, the translation gives
      another tree or none. */
  lemma {:induction false} MeaningLost(e: Expr)
    requires Canonical(e, 0) && Stacked(Tokens(e))
    ensures var p := Yard(Tokens(e), [], []); p.Parsed? && Result(TREES, p.nodes) != Meaning(TREES, e)
  {
    YardTranslates(e);
    TranslatesToPostOrder(e);
    TreesMean(e);
    ErasePostOrder(e);
    var nodes := Translated(e);
    RunBuilds(nodes, []);
    var s := Run(TREES, nodes, []);
    if s.Some? && |s.value| == 1 {
      assert s.value[1..] == [] && Programs(s.value) == PostOrder(s.value[0]);
      assert Programs([]) + nodes == nodes;
    }
  }

  /** An expression has one precedence tree only, parentheses aside. */
  lemma {:induction false} TreeIsUnique(e: Expr, f: Expr)
    requires Canonical(e, 0) && Canonical(f, 0) && Tokens(e) == Tokens(f) && !Stacked(Tokens(e))
    ensures Erase(e) == Erase(f)
  {
    MeaningPreserved(TREES, e);
    MeaningPreserved(TREES, f);
    TreesMean(e);
    TreesMean(f);
  }

  /** Expressions as they are written: operands, each behind any number of prefix operators, with
      operators between them, no precedence. */
  datatype Chain = One(first: Item) | More(front: Chain, op: Op, last: Item)
  datatype Item = Name(name: seq<char>) | Parens(inner: Chain) | Signed(op: Op, arg: Item)

  predicate ChainOk(c: Chain) {
    match c
    case One(x) => ItemOk(x)
    case More(front, op, x) => ChainOk(front) && !IsUnary(op) && ItemOk(x)
  }

  predicate ItemOk(x: Item) {
    match x
    case Name(_) => true
    case Parens(c) => ChainOk(c)
    case Signed(op, y) => op in {Negate, BitNot} && ItemOk(y)
  }

  function ChainTokens(c: Chain): seq<Token> {
    match c
    case One(x) => ItemTokens(x)
    case More(front, op, x) => ChainTokens(front) + [Operator(op)] + ItemTokens(x)
  }

  function ItemTokens(x: Item): seq<Token> {
    match x
    case Name(name) => [Key(name)]
    case Parens(c) => [Left] + ChainTokens(c) + [Right]
    case Signed(op, y) => [Operator(op)] + ItemTokens(y)
  }

  /** Hang an operator and its right operand onto a tree, as deep on the right as its level asks. */
  function Attach(e: Expr, op: Op, x: Expr): Expr {
    if e.Binary? && Level(e.op) < Level(op) then Binary(e.op, e.left, Attach(e.right, op, x))
    else Binary(op, e, x)
  }

  function TreeOf(c: Chain): Expr {
    match c
    case One(x) => ItemTree(x)
    case More(front, op, x) => Attach(TreeOf(front), op, ItemTree(x))
  }

  function ItemTree(x: Item): Expr {
    match x
    case Name(name) => Atom(name)
    case Parens(c) => Group(TreeOf(c))
    case Signed(op, y) => Prefix(op, ItemTree(y))
  }

  lemma {:induction false} AttachOk(e: Expr, op: Op, x: Expr, level: nat)
    requires Canonical(e, level) && !IsUnary(op) && level <= Level(op)
    requires Canonical(x, 10) && !x.Binary?
    ensures Canonical(Attach(e, op, x), level)
    ensures Tokens(Attach(e, op, x)) == Tokens(e) + [Operator(op)] + Tokens(x)
  {
    if e.Binary? && Level(e.op) < Level(op) {
      AttachOk(e.right, op, x, Level(e.op) + 1);
      Regroup(Tokens(e.left) + [Operator(e.op)], Tokens(e.right), [Operator(op)], Tokens(x));
    } else {
      Raise(e, level, Level(op));
      Raise(x, 10, Level(op) + 1);
    }
  }

  lemma {:induction false} Regroup<T>(a: seq<T>, b: seq<T>, c: seq<T>, d: seq<T>)
    ensures a + (b + c + d) == a + b + c + d
  {
  }

  lemma {:induction false} Raise(e: Expr, level: nat, higher: nat)
    requires Canonical(e, level) && higher <= 10 && (e.Binary? ==> higher <= Level(e.op))
    ensures Canonical(e, higher)
  {
  }

  /** Every expression has a precedence tree. */
  lemma {:induction false} TreeExists(c: Chain)
    requires ChainOk(c)
    ensures Canonical(TreeOf(c), 0) && Tokens(TreeOf(c)) == ChainTokens(c)
    decreases c
  {
    match c
    case One(x) => ItemExists(x);
    case More(front, op, x) =>
      TreeExists(front);
      ItemExists(x);
      AttachOk(TreeOf(front), op, ItemTree(x), 0);
  }

  lemma {:induction false} ItemExists(x: Item)
    requires ItemOk(x)
    ensures var e := ItemTree(x); Canonical(e, 10) && Canonical(e, 0) && !e.Binary? && Tokens(e) == ItemTokens(x)
    decreases x
  {
    match x
    case Name(_) =>
    case Parens(c) => TreeExists(c);
    case Signed(_, y) => ItemExists(y);
  }

  /** For every expression the translation gives the post-order of a tree that follows the
      precedence levels if and only if no two prefix operators stand next to each other. Then that
      tree is, parentheses aside, the only such tree, and running the translation gives its value
      under any meaning of the operators; otherwise there is a meaning under which it does not. */
  lemma {:induction false} ExpressionsKeepMeaning<V>(m: Semantics<V>, c: Chain)
    requires ChainOk(c)
    ensures Canonical(TreeOf(c), 0) && Tokens(TreeOf(c)) == ChainTokens(c)
    ensures Yard(ChainTokens(c), [], []) == Parsed(Translated(TreeOf(c)))
    ensures Translated(TreeOf(c)) == PostOrder(TreeOf(c)) <==> !Stacked(ChainTokens(c))
    ensures !Stacked(ChainTokens(c)) ==>
              && Result(m, Translated(TreeOf(c))) == Meaning(m, TreeOf(c))
              && forall e :: Canonical(e, 0) && Tokens(e) == ChainTokens(c) ==> Erase(e) == Erase(TreeOf(c))
    ensures Stacked(ChainTokens(c)) ==> Result(TREES, Translated(TreeOf(c))) != Meaning(TREES, TreeOf(c))
  {
    TreeExists(c);
    YardTranslates(TreeOf(c));
    TranslatesToPostOrder(TreeOf(c));
    if Stacked(ChainTokens(c)) {
      MeaningLost(TreeOf(c));
    } else {
      MeaningPreserved(m, TreeOf(c));
      forall e | Canonical(e, 0) && Tokens(e) == ChainTokens(c) ensures Erase(e) == Erase(TreeOf(c)) {
        TreeIsUnique(e, TreeOf(c));
      }
    }
  }

  // ----- Two prefix operators in a row.

  lemma {:induction false} OutputGrows(ts: seq<Token>, stk: seq<Entry>, out: seq<Node>)
    ensures Yard(ts, stk, out).Parsed? ==> out <= Yard(ts, stk, out).nodes
    decreases |ts|
  {
    if ts != [] {
      match ts[0]
      case Key(name) => OutputGrows(ts[1..], stk, out + [Operand(name)]);
      case Left => OutputGrows(ts[1..], [Paren] + stk, out);
      case Right => if Outside(stk) != [] { OutputGrows(ts[1..], Outside(stk)[1..], out + Inside(stk)); }
      case Operator(op) => OutputGrows(ts[1..], [Pending(op)] + Staying(stk, op), out + Yielding(stk, op));
      case Bad =>
      case Unmodelled =>
    }
  }

  /** Nothing that starts with two prefix operators can be evaluated: the first one is emitted
      before there is an operand. */
  lemma {:induction false} TwoPrefixesFail<V>(m: Semantics<V>, op1: Op, op2: Op, rest: seq<Token>)
    requires op1 in {Negate, BitNot} && op2 in {Negate, BitNot}
    ensures var p := Yard([Operator(op1)] + ([Operator(op2)] + rest), [], []);
            p.Parsed? ==> Result(m, p.nodes) == None
  {
    var ts := [Operator(op1)] + ([Operator(op2)] + rest);
    Step(op1, [], [Operator(op2)] + rest, [], []);
    Step(op2, [Pending(op1)], rest, [], []);
    assert Opts([Pending(op1)]) == [Opt(op1)];
    OutputGrows(rest, [Pending(op2)], [Opt(op1)]);
  }

  /** OneOperator with the empty parts left out. */
  lemma {:induction false} Step(op: Op, s: seq<Entry>, rest: seq<Token>, stk: seq<Entry>, out: seq<Node>)
    requires AllAtLeast(s, Level(op)) && Low(stk, Level(op)) && (s == [] || stk == [])
    ensures Yard([Operator(op)] + rest, s + stk, out) == Yard(rest, [Pending(op)] + stk, out + Opts(s))
    ensures s == [] ==> s + stk == stk && out + Opts(s) == out
    ensures stk == [] ==> s + stk == s && [Pending(op)] + stk == [Pending(op)]
    ensures [] + Opts(s) == Opts(s)
  {
    OneOperator(op, s, rest, stk, out);
  }

  /** Behind an operand they change the meaning: a - - - b is translated as (-a) - (-b). */
  lemma {:induction false} TwoPrefixesMisplaced(a: seq<char>, b: seq<char>)
    ensures Yard([Key(a), Operator(Dec), Operator(Negate), Operator(Negate), Key(b)], [], [])
         == Parsed(PostOrder(Binary(Dec, Prefix(Negate, Atom(a)), Prefix(Negate, Atom(b)))))
  {
    var y := Prefix(Negate, Atom(b));
    var e := Binary(Dec, Atom(a), Prefix(Negate, y));
    assert Canonical(Prefix(Negate, y), 9);
    assert Tokens(y) == [Operator(Negate), Key(b)];
    assert Tokens(e) == [Key(a), Operator(Dec), Operator(Negate), Operator(Negate), Key(b)];
    YardTranslates(e);
    assert PostOrder(y) == Translated(y) == [Operand(b), Opt(Negate)];
    assert PostOrder(Prefix(Negate, Atom(a))) == [Operand(a), Opt(Negate)];
    assert Translated(Prefix(Negate, y)) == [Opt(Negate), Operand(b), Opt(Negate)];
    assert Translated(Atom(a)) == [Operand(a)];
  }
}
