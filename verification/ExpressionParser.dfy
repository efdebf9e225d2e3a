/** The expression compiler: one pass over the text, with an operator stack, and the evaluator of
    its output. */
module ExpressionParser {
  import opened ExpressionTree

  predicate IsBlank(c: char) {
    c == ' ' || c == '\n' || c == '\r' || c == '\t'
  }

  predicate IsOperatorChar(c: char) {
    c in {'+', '-', '*', '/', '%', '<', '>', '&', '|', '~', '^', '=', '!'}
  }

  /** Characters that make up numbers and names. */
  predicate IsKeyChar(c: char) {
    !IsBlank(c) && !IsOperatorChar(c) && c !in {'(', ')', '"'}
  }

  /** The next character decides about operators of two characters; past the end there is none. */
  function Next(text: seq<char>): char {
    if 1 < |text| then text[1] else '\0'
  }

  /** The operator at the start of the text, where `pre` says that an operand is due; None for a
      single '='. A '!' is an inequality with or without a '=' behind it. */
  function OperatorAt(text: seq<char>, pre: bool): (r: Option<Op>)
    requires text != [] && IsOperatorChar(text[0])
  {
    var n := Next(text);
    match text[0]
    case '<' => Some(if n == '=' then LessEq else if n == '<' then ShiftLeft else Less)
    case '>' => Some(if n == '=' then GreatEq else if n == '>' then ShiftRight else Great)
    case '|' => Some(if n == '|' then LogOr else BitOr)
    case '&' => Some(if n == '&' then LogAnd else BitAnd)
    case '-' => Some(if pre then Negate else Dec)
    case '=' => if n == '=' then Some(Eq) else None
    case '!' => Some(NotEq)
    case '+' => Some(Add)
    case '*' => Some(Mult)
    case '/' => Some(Div)
    case '%' => Some(Mod)
    case '~' => Some(BitNot)
    case _ => Some(BitXor)
  }

  function OperatorLength(text: seq<char>): (n: nat)
    requires text != []
    ensures 1 <= n <= |text|
  {
    var c, n := text[0], Next(text);
    if (c == n && c in {'<', '>', '|', '&', '='}) || (n == '=' && c in {'<', '>', '!'}) then 2 else 1
  }

  function Flush(key: seq<char>): seq<Token> {
    if key == [] then [] else [Key(key)]
  }

  /** The tokens of a text, after the key characters read so far. */
  function Lex(text: seq<char>, key: seq<char>, pre: bool): seq<Token>
    decreases |text|
  {
    if text == [] then Flush(key)
    else
      var c := text[0];
      if IsBlank(c) then Lex(text[1..], key, pre)
      else if c == '(' then
        if key != [] then [Unmodelled] else [Left] + Lex(text[1..], [], true)
      else if IsOperatorChar(c) then
        var op := OperatorAt(text, pre && key == []);
        Flush(key) + if op.None? then [Bad] else [Operator(op.value)] + Lex(text[OperatorLength(text)..], [], true)
      else if c == ')' then
        Flush(key) + [Right] + Lex(text[1..], [], pre && key == [])
      else if c == '"' then [Unmodelled]
      else Lex(text[1..], key + [c], pre)
  }

  function Compile(text: seq<char>): Outcome {
    Yard(Lex(text, [], true), [], [])
  }

  /** Make room for an incoming operator: move what gives way to the output. */
  method PopYielding(stk0: seq<Entry>, out0: seq<Node>, op: Op) returns (stk: seq<Entry>, out: seq<Node>)
    ensures stk == Staying(stk0, op) && out == out0 + Yielding(stk0, op)
  {
    stk, out := stk0, out0;
    while stk != [] && stk[0].Pending? && !(Level(stk[0].op) < Level(op))
      invariant Staying(stk, op) == Staying(stk0, op) && out + Yielding(stk, op) == out0 + Yielding(stk0, op)
      decreases |stk|
    {
      out := out + [Opt(stk[0].op)];
      stk := stk[1..];
    }
  }

  /** Move everything above the topmost parenthesis to the output. */
  method PopInside(stk0: seq<Entry>, out0: seq<Node>) returns (stk: seq<Entry>, out: seq<Node>)
    ensures stk == Outside(stk0) && out == out0 + Inside(stk0)
  {
    stk, out := stk0, out0;
    while stk != [] && stk[0].Pending?
      invariant Outside(stk) == Outside(stk0) && out + Inside(stk) == out0 + Inside(stk0)
      decreases |stk|
    {
      out := out + [Opt(stk[0].op)];
      stk := stk[1..];
    }
  }

  /** The compiler. The key read so far becomes an operand when the next operator, closing
      parenthesis or the end of the text is reached; `pre` says whether the last node was an operator or an
      opening parenthesis, and a closing parenthesis leaves it as it is. */
  method Parse(text: seq<char>) returns (r: Outcome)
    ensures r == Compile(text)
  {
    var i, key, pre := 0, [], true;
    var stk: seq<Entry>, out: seq<Node> := [], [];
    while i < |text|
      invariant 0 <= i <= |text|
      invariant Yard(Lex(text[i..], key, pre), stk, out) == Compile(text)
      decreases |text| - i
    {
      var c := text[i];
      ghost var t := text[i..];
      assert t[1..] == text[i + 1..];
      if IsBlank(c) {
        i := i + 1;
      } else if c == '(' {
        if key != [] { return NotModelled; }
        YardLeft(Lex(t[1..], [], true), stk, out);
        stk, pre := [Paren] + stk, true;
        i := i + 1;
      } else if IsOperatorChar(c) {
        YardFlush(key, LexOperator(t, pre && key == []), stk, out);
        if key != [] { key, pre, out := [], false, out + [Operand(key)]; }
        var op := OperatorAt(text[i..], pre);
        if op.None? { return Failed; }
        var n := OperatorLength(text[i..]);
        assert t[n..] == text[i + n..];
        YardOperator(op.value, Lex(t[n..], [], true), stk, out);
        stk, out := PopYielding(stk, out, op.value);
        stk, pre := [Pending(op.value)] + stk, true;
        i := i + n;
      } else if c == ')' {
        YardFlush(key, [Right] + Lex(t[1..], [], pre && key == []), stk, out);
        if key != [] { key, pre, out := [], false, out + [Operand(key)]; }
        YardRight(Lex(t[1..], [], pre), stk, out);
        stk, out := PopInside(stk, out);
        if stk == [] { return Failed; }
        stk := stk[1..];
        i := i + 1;
      } else if c == '"' {
        return NotModelled;
      } else {
        key := key + [c];
        i := i + 1;
      }
    }
    assert text[i..] == [];
    YardFlush(key, [], stk, out);
    if key != [] { out := out + [Operand(key)]; }
    stk, out := PopInside(stk, out);
    r := if stk == [] then Parsed(out) else Failed;
  }

  function LexOperator(t: seq<char>, pre: bool): seq<Token>
    requires t != [] && IsOperatorChar(t[0])
  {
    var op := OperatorAt(t, pre);
    if op.None? then [Bad] else [Operator(op.value)] + Lex(t[OperatorLength(t)..], [], true)
  }

  lemma {:induction false} YardFlush(key: seq<char>, rest: seq<Token>, stk: seq<Entry>, out: seq<Node>)
    ensures Yard(Flush(key) + rest, stk, out) == Yard(rest, stk, if key == [] then out else out + [Operand(key)])
    ensures rest == [] ==> Flush(key) + rest == Flush(key)
  {
    if key == [] {
      assert Flush(key) + rest == rest;
    } else {
      assert (Flush(key) + rest)[1..] == rest;
    }
  }

  lemma {:induction false} YardLeft(rest: seq<Token>, stk: seq<Entry>, out: seq<Node>)
    ensures Yard([Left] + rest, stk, out) == Yard(rest, [Paren] + stk, out)
  {
    assert ([Left] + rest)[1..] == rest;
  }

  lemma {:induction false} YardRight(rest: seq<Token>, stk: seq<Entry>, out: seq<Node>)
    ensures Yard([Right] + rest, stk, out)
         == if Outside(stk) == [] then Failed else Yard(rest, Outside(stk)[1..], out + Inside(stk))
  {
    assert ([Right] + rest)[1..] == rest;
  }

  lemma {:induction false} YardOperator(op: Op, rest: seq<Token>, stk: seq<Entry>, out: seq<Node>)
    ensures Yard([Operator(op)] + rest, stk, out)
         == Yard(rest, [Pending(op)] + Staying(stk, op), out + Yielding(stk, op))
  {
    assert ([Operator(op)] + rest)[1..] == rest;
  }

  /** The evaluator: run the nodes on a value stack, which must end with one value. */
  method Eval<V>(m: Semantics<V>, nodes: seq<Node>) returns (r: Option<V>)
    ensures r == Result(m, nodes)
  {
    var stk: seq<V> := [];
    for i := 0 to |nodes|
      invariant Run(m, nodes[i..], stk) == Run(m, nodes, [])
    {
      ghost var before := stk;
      assert nodes[i..][1..] == nodes[i + 1..];
      match nodes[i] {
        case Operand(name) =>
          var v := m.operand(name);
          if v.None? { return None; }
          stk := [v.value] + stk;
        case Opt(op) =>
          var v;
          if IsUnary(op) {
            if stk == [] { return None; }
            v := m.unary(op, stk[0]);
            stk := stk[1..];
          } else {
            if |stk| < 2 { return None; }
            v := m.binary(op, stk[1], stk[0]);
            stk := stk[2..];
          }
          if v.None? { return None; }
          stk := [v.value] + stk;
      }
      assert Execute(m, nodes[i], before) == Some(stk);
    }
    assert nodes[|nodes|..] == [];
    if |stk| != 1 { return None; }
    r := Some(stk[0]);
  }

  // ----- Texts that spell a token sequence.

  function Spell(t: Token): seq<char> {
    match t
    case Key(name) => name
    case Left => "("
    case Right => ")"
    case Operator(op) => Symbol(op)
    case _ => ""
  }

  function Symbol(op: Op): (s: seq<char>)
    ensures s != [] && IsOperatorChar(s[0])
  {
    match op
    case LogOr => "||"
    case LogAnd => "&&"
    case BitOr => "|"
    case BitXor => "^"
    case BitAnd => "&"
    case Eq => "=="
    case NotEq => "!="
    case Less => "<"
    case LessEq => "<="
    case Great => ">"
    case GreatEq => ">="
    case ShiftLeft => "<<"
    case ShiftRight => ">>"
    case Add => "+"
    case Dec => "-"
    case Mult => "*"
    case Div => "/"
    case Mod => "%"
    case Negate => "-"
    case BitNot => "~"
    case LogNot => "!"
  }

  predicate AllBlank(s: seq<char>) {
    forall i :: 0 <= i < |s| ==> IsBlank(s[i])
  }

  predicate IsName(s: seq<char>) {
    s != [] && forall i :: 0 <= i < |s| ==> IsKeyChar(s[i])
  }

  /** The tokens one after the other, with the given gaps before, between and after them. */
  function Render(ts: seq<Token>, gaps: seq<seq<char>>): seq<char>
    requires |gaps| == |ts| + 1
  {
    if ts == [] then gaps[0] else gaps[0] + (Spell(ts[0]) + Render(ts[1..], gaps[1..]))
  }

  predicate GapsOk(gaps: seq<seq<char>>) {
    forall i :: 0 <= i < |gaps| ==> AllBlank(gaps[i])
  }

  /** Operands and operators take turns; `due` says that an operand is due. */
  predicate Alternates(ts: seq<Token>, due: bool) {
    ts == [] ||
    match ts[0]
    case Key(name) => due && IsName(name) && Alternates(ts[1..], false)
    case Left => due && Alternates(ts[1..], true)
    case Right => !due && Alternates(ts[1..], false)
    case Operator(op) => (if due then op in {Negate, BitNot} else !IsUnary(op)) && Alternates(ts[1..], true)
    case _ => false
  }

  lemma {:induction false} LexBlanks(gap: seq<char>, rest: seq<char>, key: seq<char>, pre: bool)
    requires AllBlank(gap)
    ensures Lex(gap + rest, key, pre) == Lex(rest, key, pre)
  {
    if gap == [] {
      assert gap + rest == rest;
    } else {
      assert (gap + rest)[1..] == gap[1..] + rest;
      LexBlanks(gap[1..], rest, key, pre);
    }
  }

  lemma {:induction false} LexName(name: seq<char>, rest: seq<char>, key: seq<char>, pre: bool)
    requires forall i :: 0 <= i < |name| ==> IsKeyChar(name[i])
    ensures Lex(name + rest, key, pre) == Lex(rest, key + name, pre)
  {
    if name == [] {
      assert name + rest == rest && key + name == key;
    } else {
      assert (name + rest)[1..] == name[1..] + rest;
      LexName(name[1..], rest, key + [name[0]], pre);
      assert key + [name[0]] + name[1..] == key + name;
    }
  }

  /** What follows an operator does not run into it. */
  predicate Apart(text: seq<char>) {
    text == [] || text[0] !in {'=', '<', '>', '|', '&'}
  }

  lemma {:induction false} RenderApart(ts: seq<Token>, gaps: seq<seq<char>>)
    requires |gaps| == |ts| + 1 && GapsOk(gaps) && Alternates(ts, true)
    ensures Apart(Render(ts, gaps))
  {
    if gaps[0] != [] {
      assert Render(ts, gaps)[0] == gaps[0][0];
    } else if ts != [] {
      assert Spell(ts[0]) != [];
      assert Render(ts, gaps)[0] == Spell(ts[0])[0];
    }
  }

  lemma {:induction false} LexOperatorText(op: Op, rest: seq<char>, key: seq<char>, pre: bool)
    requires Apart(rest) && op != LogNot
    requires if pre && key == [] then op in {Negate, BitNot} else !IsUnary(op)
    ensures Lex(Symbol(op) + rest, key, pre) == Flush(key) + ([Operator(op)] + Lex(rest, [], true))
  {
    var text := Symbol(op) + rest;
    assert text[0] == Symbol(op)[0];
    assert Next(text) == if |Symbol(op)| == 2 then Symbol(op)[1] else if rest == [] then '\0' else rest[0];
    assert OperatorAt(text, pre && key == []) == Some(op);
    assert OperatorLength(text) == |Symbol(op)|;
    assert text[|Symbol(op)|..] == rest;
  }

  lemma {:induction false} LexParens(rest: seq<char>, key: seq<char>, pre: bool)
    ensures Lex("(" + rest, [], pre) == [Left] + Lex(rest, [], true)
    ensures Lex(")" + rest, key, pre) == Flush(key) + ([Right] + Lex(rest, [], pre && key == []))
  {
    assert ("(" + rest)[1..] == rest && (")" + rest)[1..] == rest;
  }

  /** Whether an operand is due after a token, as far as the lexer knows. */
  function PreAfter(t: Token, key: seq<char>, pre: bool): bool {
    if t.Key? then pre else if t.Right? then pre && key == [] else true
  }

  /** The token can stand here, and does not run into what follows. */
  predicate FirstOk(t: Token, rest: seq<char>, key: seq<char>, pre: bool) {
    match t
    case Key(name) => key == [] && IsName(name)
    case Left => key == []
    case Right => true
    case Operator(op) => Apart(rest) && op != LogNot && if pre && key == [] then op in {Negate, BitNot} else !IsUnary(op)
    case _ => false
  }

  lemma {:induction false} StartsOk(ts: seq<Token>, gaps: seq<seq<char>>, key: seq<char>, pre: bool)
    requires |gaps| == |ts| + 1 && GapsOk(gaps) && Alternates(ts, pre && key == []) && ts != []
    ensures FirstOk(ts[0], Render(ts[1..], gaps[1..]), key, pre)
  {
    if ts[0].Operator? {
      RenderApart(ts[1..], gaps[1..]);
    }
  }

  lemma {:induction false} LexFirst(t: Token, rest: seq<char>, key: seq<char>, pre: bool)
    requires FirstOk(t, rest, key, pre)
    ensures Lex(Spell(t) + rest, key, pre)
         == if t.Key? then Lex(rest, t.name, pre) else Flush(key) + ([t] + Lex(rest, [], PreAfter(t, key, pre)))
  {
    match t
    case Key(name) =>
      LexName(name, rest, key, pre);
      assert [] + name == name;
    case Left => LexParens(rest, [], pre);
    case Right => LexParens(rest, key, pre);
    case Operator(op) => LexOperatorText(op, rest, key, pre);
  }

  /** One token more in front. */
  lemma {:induction false} LexMore(t: Token, tail: seq<Token>, gap: seq<char>, rest: seq<char>, key: seq<char>, pre: bool)
    requires AllBlank(gap) && FirstOk(t, rest, key, pre)
    requires var k2 := if t.Key? then t.name else []; Lex(rest, k2, PreAfter(t, key, pre)) == Flush(k2) + tail
    ensures Lex(gap + (Spell(t) + rest), key, pre) == Flush(key) + ([t] + tail)
  {
    LexBlanks(gap, Spell(t) + rest, key, pre);
    LexFirst(t, rest, key, pre);
    assert Flush([]) + tail == tail;
    assert t.Key? ==> Flush(key) + ([t] + tail) == [t] + tail;
  }

  /** Every such text is read back as its tokens, wherever there are blanks. */
  lemma {:induction false} LexRender(ts: seq<Token>, gaps: seq<seq<char>>, key: seq<char>, pre: bool)
    requires |gaps| == |ts| + 1 && GapsOk(gaps) && Alternates(ts, pre && key == [])
    ensures Lex(Render(ts, gaps), key, pre) == Flush(key) + ts
    decreases |ts|
  {
    if ts == [] {
      assert gaps[0] + [] == gaps[0];
      LexBlanks(gaps[0], [], key, pre);
    } else {
      LexRender(ts[1..], gaps[1..], if ts[0].Key? then ts[0].name else [], PreAfter(ts[0], key, pre));
      StartsOk(ts, gaps, key, pre);
      LexMore(ts[0], ts[1..], gaps[0], Render(ts[1..], gaps[1..]), key, pre);
      assert ts == [ts[0]] + ts[1..];
    }
  }

  predicate NamesOk(c: Chain) {
    match c
    case One(x) => ItemNamesOk(x)
    case More(front, _, x) => NamesOk(front) && ItemNamesOk(x)
  }

  predicate ItemNamesOk(x: Item) {
    match x
    case Name(name) => IsName(name)
    case Parens(c) => NamesOk(c)
    case Signed(_, y) => ItemNamesOk(y)
  }

  lemma {:induction false} ChainAlternates(c: Chain, rest: seq<Token>)
    requires ChainOk(c) && NamesOk(c) && Alternates(rest, false)
    ensures Alternates(ChainTokens(c) + rest, true)
    decreases c
  {
    match c
    case One(x) => ItemAlternates(x, rest);
    case More(front, op, x) =>
      ItemAlternates(x, rest);
      var more := [Operator(op)] + (ItemTokens(x) + rest);
      assert more[1..] == ItemTokens(x) + rest;
      ChainAlternates(front, more);
      assert ChainTokens(c) + rest == ChainTokens(front) + more;
  }

  lemma {:induction false} ItemAlternates(x: Item, rest: seq<Token>)
    requires ItemOk(x) && ItemNamesOk(x) && Alternates(rest, false)
    ensures Alternates(ItemTokens(x) + rest, true)
    decreases x
  {
    var ts := ItemTokens(x) + rest;
    match x
    case Name(name) => assert ts[1..] == rest;
    case Parens(c) =>
      var more := [Right] + rest;
      assert more[1..] == rest;
      ChainAlternates(c, more);
      assert ts == [Left] + (ChainTokens(c) + more);
      assert ts[1..] == ChainTokens(c) + more;
    case Signed(op, y) =>
      ItemAlternates(y, rest);
      assert ts[1..] == ItemTokens(y) + rest;
  }

  /** From text to value: for every expression of numbers, names, parentheses, binary operators and
      any number of '-' and '~' before an operand, spelt with any blanks between its tokens. The
      compiler emits the post-order of its precedence tree if and only if no two prefix operators
      stand next to each other; evaluating that gives the value of the tree, or fails exactly when
      the tree has none. With two next to each other there is a meaning of the operators under which
      it does not. */
  lemma {:induction false} CompilePreservesMeaning<V>(m: Semantics<V>, c: Chain, gaps: seq<seq<char>>)
    requires ChainOk(c) && NamesOk(c)
    requires |gaps| == |ChainTokens(c)| + 1 && GapsOk(gaps)
    ensures var e, p := TreeOf(c), Compile(Render(ChainTokens(c), gaps));
            && Canonical(e, 0) && Tokens(e) == ChainTokens(c)
            && p == Parsed(Translated(e))
            && (p == Parsed(PostOrder(e)) <==> !Stacked(ChainTokens(c)))
            && (!Stacked(ChainTokens(c)) ==> Result(m, p.nodes) == Meaning(m, e))
            && (Stacked(ChainTokens(c)) ==> Result(TREES, p.nodes) != Meaning(TREES, e))
  {
    assert ChainTokens(c) + [] == ChainTokens(c);
    ChainAlternates(c, []);
    LexRender(ChainTokens(c), gaps, [], true);
    assert Flush([]) + ChainTokens(c) == ChainTokens(c);
    ExpressionsKeepMeaning(m, c);
  }
}
