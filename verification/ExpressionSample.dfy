/** The precedence table written out, and what the compiler makes of texts with two operators. None
    of the statements here speaks of levels. */
module ExpressionSample {
  import opened ExpressionTree
  import opened ExpressionParser

  /** The binary operators in ten groups, from those that bind loosest to those that bind tightest. */
  predicate InGroup(s: seq<char>, p: Op, group: nat) {
    match group
    case 0 => s == "||" && p == LogOr
    case 1 => s == "&&" && p == LogAnd
    case 2 => s == "|" && p == BitOr
    case 3 => s == "^" && p == BitXor
    case 4 => s == "&" && p == BitAnd
    case 5 => (s == "==" && p == Eq) || (s == "!=" && p == NotEq)
    case 6 =>
      || (s == "<" && p == Less) || (s == "<=" && p == LessEq)
      || (s == ">" && p == Great) || (s == ">=" && p == GreatEq)
    case 7 => (s == "<<" && p == ShiftLeft) || (s == ">>" && p == ShiftRight)
    case 8 => (s == "+" && p == Add) || (s == "-" && p == Dec)
    case 9 => (s == "*" && p == Mult) || (s == "/" && p == Div) || (s == "%" && p == Mod)
    case _ => false
  }

  predicate InFront(s: seq<char>, u: Op) {
    (s == "-" && u == Negate) || (s == "~" && u == BitNot)
  }

  predicate Gaps(g: seq<seq<char>>) {
    forall i :: 0 <= i < |g| ==> forall j :: 0 <= j < |g[i]| ==> g[i][j] in {' ', '\t', '\r', '\n'}
  }

  lemma {:induction false} GroupMeans(s: seq<char>, p: Op, group: nat)
    requires InGroup(s, p, group)
    ensures Symbol(p) == s && Level(p) == group && !IsUnary(p)
  {
  }

  lemma {:induction false} RenderOn(front: seq<char>, t: seq<Token>, g: seq<seq<char>>)
    requires |g| == |t| + 1 && t != []
    ensures front + Render(t, g) == front + g[0] + Spell(t[0]) + Render(t[1..], g[1..])
  {
    assert front + (g[0] + (Spell(t[0]) + Render(t[1..], g[1..]))) == front + g[0] + Spell(t[0]) + Render(t[1..], g[1..]);
  }

  lemma {:induction false} RenderFive(t: seq<Token>, g: seq<seq<char>>)
    requires |t| == 5 && |g| == 6
    ensures Render(t, g) == g[0] + Spell(t[0]) + g[1] + Spell(t[1]) + g[2] + Spell(t[2]) + g[3] + Spell(t[3])
                            + g[4] + Spell(t[4]) + g[5]
  {
    assert t[1..][1..] == t[2..] && t[2..][1..] == t[3..] && t[3..][1..] == t[4..] && t[4..][1..] == [];
    assert g[1..][1..] == g[2..] && g[2..][1..] == g[3..] && g[3..][1..] == g[4..] && g[4..][1..] == [g[5]];
    assert [] + Render(t, g) == Render(t, g) && [] + g[0] == g[0];
    RenderOn([], t, g);
    var f1 := g[0] + Spell(t[0]);
    RenderOn(f1, t[1..], g[1..]);
    var f2 := f1 + g[1] + Spell(t[1]);
    RenderOn(f2, t[2..], g[2..]);
    var f3 := f2 + g[2] + Spell(t[2]);
    RenderOn(f3, t[3..], g[3..]);
    var f4 := f3 + g[3] + Spell(t[3]);
    RenderOn(f4, t[4..], g[4..]);
  }

  // ----- One step of the readings of a chain at a time.

  lemma {:induction false} NameItem(a: seq<char>)
    requires IsName(a)
    ensures var x := Name(a); ItemOk(x) && ItemNamesOk(x) && ItemTokens(x) == [Key(a)] && ItemTree(x) == Atom(a)
  {
  }

  lemma {:induction false} SignedItem(u: Op, x: Item)
    requires ItemOk(x) && ItemNamesOk(x) && u in {Negate, BitNot}
    ensures var y := Signed(u, x);
            ItemOk(y) && ItemNamesOk(y) && ItemTokens(y) == [Operator(u)] + ItemTokens(x) && ItemTree(y) == Prefix(u, ItemTree(x))
  {
  }

  lemma {:induction false} GroupItem(c: Chain)
    requires ChainOk(c) && NamesOk(c)
    ensures var y := Parens(c);
            ItemOk(y) && ItemNamesOk(y) && ItemTokens(y) == [Left] + ChainTokens(c) + [Right] && ItemTree(y) == Group(TreeOf(c))
  {
  }

  lemma {:induction false} OneItem(x: Item)
    requires ItemOk(x) && ItemNamesOk(x)
    ensures var c := One(x); ChainOk(c) && NamesOk(c) && ChainTokens(c) == ItemTokens(x) && TreeOf(c) == ItemTree(x)
  {
  }

  lemma {:induction false} TwoItems(x: Item, p: Op, y: Item)
    requires ItemOk(x) && ItemNamesOk(x) && ItemOk(y) && ItemNamesOk(y) && !IsUnary(p) && !ItemTree(x).Binary?
    ensures var c := More(One(x), p, y);
            && ChainOk(c) && NamesOk(c) && ChainTokens(c) == ItemTokens(x) + [Operator(p)] + ItemTokens(y)
            && TreeOf(c) == Binary(p, ItemTree(x), ItemTree(y))
  {
    OneItem(x);
    assert Attach(ItemTree(x), p, ItemTree(y)) == Binary(p, ItemTree(x), ItemTree(y));
  }

  lemma {:induction false} PairOk(a: seq<char>, p: Op, b: seq<char>)
    requires IsName(a) && IsName(b) && !IsUnary(p)
    ensures var c := More(One(Name(a)), p, Name(b));
            && ChainOk(c) && NamesOk(c) && ChainTokens(c) == [Key(a), Operator(p), Key(b)]
            && TreeOf(c) == Binary(p, Atom(a), Atom(b))
  {
    NameItem(a);
    NameItem(b);
    TwoItems(Name(a), p, Name(b));
  }

  lemma {:induction false} ThreeOk(a: seq<char>, p: Op, b: seq<char>, q: Op, c: seq<char>)
    requires IsName(a) && IsName(b) && IsName(c) && !IsUnary(p) && !IsUnary(q)
    ensures var chain := More(More(One(Name(a)), p, Name(b)), q, Name(c));
            && ChainOk(chain) && NamesOk(chain)
            && ChainTokens(chain) == [Key(a), Operator(p), Key(b), Operator(q), Key(c)]
            && TreeOf(chain) == if Level(p) < Level(q) then Binary(p, Atom(a), Binary(q, Atom(b), Atom(c)))
                                else Binary(q, Binary(p, Atom(a), Atom(b)), Atom(c))
  {
    PairOk(a, p, b);
    NameItem(c);
    assert Attach(Atom(b), q, Atom(c)) == Binary(q, Atom(b), Atom(c));
  }

  lemma {:induction false} OrderOfTwo(a: seq<char>, p: Op, b: seq<char>, q: Op, c: seq<char>)
    ensures Translated(Binary(p, Atom(a), Binary(q, Atom(b), Atom(c))))
         == [Operand(a), Operand(b), Operand(c), Opt(q), Opt(p)]
    ensures Translated(Binary(q, Binary(p, Atom(a), Atom(b)), Atom(c)))
         == [Operand(a), Operand(b), Opt(p), Operand(c), Opt(q)]
  {
    assert Translated(Binary(q, Atom(b), Atom(c))) == [Operand(b), Operand(c), Opt(q)];
    assert Translated(Binary(p, Atom(a), Atom(b))) == [Operand(a), Operand(b), Opt(p)];
  }

  /** Three operands with two operators between them, with any blanks: the second operator is applied
      first exactly when it stands in a tighter group. */
  lemma {:induction false} TwoOperators(a: seq<char>, s: seq<char>, p: Op, i: nat, b: seq<char>,
                                        t: seq<char>, q: Op, j: nat, c: seq<char>, g: seq<seq<char>>)
    requires IsName(a) && IsName(b) && IsName(c) && InGroup(s, p, i) && InGroup(t, q, j)
    requires |g| == 6 && Gaps(g)
    ensures Compile(g[0] + a + g[1] + s + g[2] + b + g[3] + t + g[4] + c + g[5])
         == Parsed(if i < j then [Operand(a), Operand(b), Operand(c), Opt(q), Opt(p)]
                   else [Operand(a), Operand(b), Opt(p), Operand(c), Opt(q)])
  {
    GroupMeans(s, p, i);
    GroupMeans(t, q, j);
    ThreeOk(a, p, b, q, c);
    RenderFive([Key(a), Operator(p), Key(b), Operator(q), Key(c)], g);
    CompilePreservesMeaning(TREES, More(More(One(Name(a)), p, Name(b)), q, Name(c)), g);
    OrderOfTwo(a, p, b, q, c);
  }

  /** Their value: the operands in the order of the text. */
  lemma {:induction false} TwoValues<V>(m: Semantics<V>, a: seq<char>, p: Op, b: seq<char>, q: Op, c: seq<char>, x: V, y: V, z: V)
    requires m.operand(a) == Some(x) && m.operand(b) == Some(y) && m.operand(c) == Some(z) && !IsUnary(p) && !IsUnary(q)
    ensures Result(m, [Operand(a), Operand(b), Operand(c), Opt(q), Opt(p)])
         == if m.binary(q, y, z).None? then None else m.binary(p, x, m.binary(q, y, z).value)
    ensures Result(m, [Operand(a), Operand(b), Opt(p), Operand(c), Opt(q)])
         == if m.binary(p, x, y).None? then None else m.binary(q, m.binary(p, x, y).value, z)
  {
    var k, l, n := Atom(a), Atom(b), Atom(c);
    assert Meaning(m, k) == Some(x) && Meaning(m, l) == Some(y) && Meaning(m, n) == Some(z);
    var right, left := Binary(q, l, n), Binary(p, k, l);
    assert Meaning(m, right) == m.binary(q, y, z) && Meaning(m, left) == m.binary(p, x, y);
    ResultOf(m, Binary(p, k, right));
    ResultOf(m, Binary(q, left, n));
    assert PostOrder(right) == [Operand(b), Operand(c), Opt(q)];
    assert PostOrder(left) == [Operand(a), Operand(b), Opt(p)];
    assert PostOrder(Binary(p, k, right)) == [Operand(a), Operand(b), Operand(c), Opt(q), Opt(p)];
    assert PostOrder(Binary(q, left, n)) == [Operand(a), Operand(b), Opt(p), Operand(c), Opt(q)];
  }

  lemma {:induction false} ResultOf<V>(m: Semantics<V>, e: Expr)
    requires Shape(e)
    ensures Result(m, PostOrder(e)) == Meaning(m, e)
  {
    RunPostOrder(m, e, []);
  }

  // ----- Parentheses and prefix operators.

  function Words(ws: seq<seq<char>>): seq<char> {
    if ws == [] then [] else ws[0] + Words(ws[1..])
  }

  function Spelt(ts: seq<Token>): seq<seq<char>> {
    seq(|ts|, i requires 0 <= i < |ts| => Spell(ts[i]))
  }

  lemma {:induction false} RenderWords(ts: seq<Token>, g: seq<seq<char>>)
    requires |g| == |ts| + 1 && forall i :: 0 <= i < |g| ==> g[i] == []
    ensures Render(ts, g) == Words(Spelt(ts))
  {
    if ts != [] {
      RenderWords(ts[1..], g[1..]);
      assert Spelt(ts)[1..] == Spelt(ts[1..]);
      assert [] + (Spell(ts[0]) + Words(Spelt(ts[1..]))) == Spell(ts[0]) + Words(Spelt(ts[1..]));
    }
  }

  /** What the compiler makes of a chain spelt without blanks. */
  lemma {:induction false} CompileWords(c: Chain, ts: seq<Token>)
    requires ChainOk(c) && NamesOk(c) && ChainTokens(c) == ts
    ensures Compile(Words(Spelt(ts))) == Parsed(Translated(TreeOf(c)))
  {
    var g: seq<seq<char>> := seq(|ts| + 1, _ => []);
    RenderWords(ts, g);
    CompilePreservesMeaning(TREES, c, g);
  }

  /** Parentheses group, whatever the operators. */
  lemma {:induction false} GroupedLeft(a: seq<char>, s: seq<char>, p: Op, i: nat, b: seq<char>,
                                       t: seq<char>, q: Op, j: nat, c: seq<char>)
    requires IsName(a) && IsName(b) && IsName(c) && InGroup(s, p, i) && InGroup(t, q, j)
    ensures Compile(Words(["(", a, s, b, ")", t, c])) == Parsed([Operand(a), Operand(b), Opt(p), Operand(c), Opt(q)])
  {
    GroupMeans(s, p, i);
    GroupMeans(t, q, j);
    var inner := More(One(Name(a)), p, Name(b));
    PairOk(a, p, b);
    GroupItem(inner);
    NameItem(c);
    TwoItems(Parens(inner), q, Name(c));
    var ts := [Left, Key(a), Operator(p), Key(b), Right, Operator(q), Key(c)];
    CompileWords(More(One(Parens(inner)), q, Name(c)), ts);
    assert Spelt(ts) == ["(", a, s, b, ")", t, c];
    OrderOfTwo(a, p, b, q, c);
    GroupVanishes(q, Binary(p, Atom(a), Atom(b)), Atom(c));
  }

  lemma {:induction false} GroupedRight(a: seq<char>, s: seq<char>, p: Op, i: nat, b: seq<char>,
                                        t: seq<char>, q: Op, j: nat, c: seq<char>)
    requires IsName(a) && IsName(b) && IsName(c) && InGroup(s, p, i) && InGroup(t, q, j)
    ensures Compile(Words([a, s, "(", b, t, c, ")"])) == Parsed([Operand(a), Operand(b), Operand(c), Opt(q), Opt(p)])
  {
    GroupMeans(s, p, i);
    GroupMeans(t, q, j);
    var inner := More(One(Name(b)), q, Name(c));
    PairOk(b, q, c);
    GroupItem(inner);
    NameItem(a);
    TwoItems(Name(a), p, Parens(inner));
    var ts := [Key(a), Operator(p), Left, Key(b), Operator(q), Key(c), Right];
    CompileWords(More(One(Name(a)), p, Parens(inner)), ts);
    assert Spelt(ts) == [a, s, "(", b, t, c, ")"];
    OrderOfTwo(a, p, b, q, c);
    GroupVanishes(p, Binary(q, Atom(b), Atom(c)), Atom(a));
  }

  lemma {:induction false} GroupVanishes(outer: Op, e: Expr, f: Expr)
    ensures Translated(Binary(outer, Group(e), f)) == Translated(Binary(outer, e, f))
    ensures Translated(Binary(outer, f, Group(e))) == Translated(Binary(outer, f, e))
  {
  }

  lemma {:induction false} FrontMeans(w: seq<char>, u: Op)
    requires InFront(w, u)
    ensures Symbol(u) == w && u in {Negate, BitNot}
  {
  }

  lemma {:induction false} FourSpelt(t: Token, u: Token, v: Token, w: Token)
    ensures Spelt([t, u, v, w]) == [Spell(t), Spell(u), Spell(v), Spell(w)]
  {
  }

  lemma {:induction false} SignedOrder(u: Op, a: seq<char>, p: Op, b: seq<char>)
    ensures Translated(Binary(p, Prefix(u, Atom(a)), Atom(b))) == [Operand(a), Opt(u), Operand(b), Opt(p)]
    ensures Translated(Binary(p, Atom(a), Prefix(u, Atom(b)))) == [Operand(a), Operand(b), Opt(u), Opt(p)]
  {
    assert Translated(Prefix(u, Atom(a))) == [Operand(a), Opt(u)];
    assert Translated(Prefix(u, Atom(b))) == [Operand(b), Opt(u)];
  }

  /** A prefix operator belongs to the operand behind it alone, on either side of an operator. */
  lemma {:induction false} PrefixOnLeft(w: seq<char>, u: Op, a: seq<char>, s: seq<char>, p: Op, i: nat, b: seq<char>)
    requires IsName(a) && IsName(b) && InFront(w, u) && InGroup(s, p, i)
    ensures Compile(Words([w, a, s, b])) == Parsed([Operand(a), Opt(u), Operand(b), Opt(p)])
  {
    GroupMeans(s, p, i);
    FrontMeans(w, u);
    NameItem(a);
    NameItem(b);
    SignedItem(u, Name(a));
    TwoItems(Signed(u, Name(a)), p, Name(b));
    var ts := [Operator(u), Key(a), Operator(p), Key(b)];
    CompileWords(More(One(Signed(u, Name(a))), p, Name(b)), ts);
    FourSpelt(Operator(u), Key(a), Operator(p), Key(b));
    SignedOrder(u, a, p, b);
  }

  lemma {:induction false} PrefixOnRight(a: seq<char>, s: seq<char>, p: Op, i: nat, w: seq<char>, u: Op, b: seq<char>)
    requires IsName(a) && IsName(b) && InFront(w, u) && InGroup(s, p, i)
    ensures Compile(Words([a, s, w, b])) == Parsed([Operand(a), Operand(b), Opt(u), Opt(p)])
  {
    GroupMeans(s, p, i);
    FrontMeans(w, u);
    NameItem(a);
    NameItem(b);
    SignedItem(u, Name(b));
    TwoItems(Name(a), p, Signed(u, Name(b)));
    var ts := [Key(a), Operator(p), Operator(u), Key(b)];
    CompileWords(More(One(Name(a)), p, Signed(u, Name(b))), ts);
    FourSpelt(Key(a), Operator(p), Operator(u), Key(b));
    SignedOrder(u, a, p, b);
  }

  // ----- Some texts as they are typed.

  lemma {:induction false} NoGaps(ws: seq<seq<char>>)
    requires |ws| == 5
    ensures [] + ws[0] + [] + ws[1] + [] + ws[2] + [] + ws[3] + [] + ws[4] + [] == ws[0] + ws[1] + ws[2] + ws[3] + ws[4]
  {
  }

  lemma {:induction false} ProductFirst()
    ensures Compile("1+2*3") == Parsed([Operand("1"), Operand("2"), Operand("3"), Opt(Mult), Opt(Add)])
  {
    TwoOperators("1", "+", Add, 8, "2", "*", Mult, 9, "3", [[], [], [], [], [], []]);
    NoGaps(["1", "+", "2", "*", "3"]);
    assert "1" + "+" + "2" + "*" + "3" == "1+2*3";
  }

  lemma {:induction false} LeftToRight()
    ensures Compile("7 - 2 - 1") == Parsed([Operand("7"), Operand("2"), Opt(Dec), Operand("1"), Opt(Dec)])
  {
    var g: seq<seq<char>> := [[], " ", " ", " ", " ", []];
    TwoOperators("7", "-", Dec, 8, "2", "-", Dec, 8, "1", g);
    assert [] + "7" + " " + "-" + " " + "2" + " " + "-" + " " + "1" + [] == "7 - 2 - 1";
  }

  lemma {:induction false} EqualityFirst()
    ensures Compile("x&1==y") == Parsed([Operand("x"), Operand("1"), Operand("y"), Opt(Eq), Opt(BitAnd)])
  {
    TwoOperators("x", "&", BitAnd, 4, "1", "==", Eq, 5, "y", [[], [], [], [], [], []]);
    NoGaps(["x", "&", "1", "==", "y"]);
    assert "x" + "&" + "1" + "==" + "y" == "x&1==y";
  }

  lemma {:induction false} LexLetter(c: char, rest: seq<char>, key: seq<char>, pre: bool)
    requires IsKeyChar(c)
    ensures Lex([c] + rest, key, pre) == Lex(rest, key + [c], pre)
  {
    assert ([c] + rest)[1..] == rest;
  }

  lemma {:induction false} LexEnd(c: char)
    requires IsKeyChar(c)
    ensures Lex([c], [], true) == [Key([c])]
  {
    LexLetter(c, [], [], true);
    assert [c] + [] == [c] && [] + [c] == [c];
  }

  lemma {:induction false} LexEquals(a: char, b: char)
    requires IsKeyChar(a) && IsKeyChar(b)
    ensures Lex([a] + ['=', b], [], true) == [Key([a]), Bad]
  {
    var text := ['=', b];
    LexLetter(a, text, [], true);
    assert [] + [a] == [a];
    assert Lex(text, [a], true) == Flush([a]) + [Bad];
  }

  lemma {:induction false} LexExclamation(a: char, b: char)
    requires IsKeyChar(a) && IsKeyChar(b) && b != '='
    ensures Lex([a] + ['!', b], [], true) == [Key([a]), Operator(NotEq), Key([b])]
  {
    var text := ['!', b];
    LexLetter(a, text, [], true);
    LexEnd(b);
    assert [] + [a] == [a] && text[1..] == [b];
    assert OperatorLength(text) == 1;
    assert Lex(text, [a], true) == Flush([a]) + ([Operator(NotEq)] + Lex([b], [], true));
  }

  lemma {:induction false} BadFails(t: Token)
    requires t.Key?
    ensures Yard([t, Bad], [], []) == Failed
  {
    assert [t, Bad][1..] == [Bad];
  }

  /** A single '=' is refused, and a '!' alone means the same as "!=". */
  lemma {:induction false} SingleCharacters(a: char, b: char)
    requires IsKeyChar(a) && IsKeyChar(b) && b != '='
    ensures Compile([a, '=', b]) == Failed
    ensures Compile([a, '!', b]) == Parsed([Operand([a]), Operand([b]), Opt(NotEq)])
  {
    LexEquals(a, b);
    BadFails(Key([a]));
    assert [a] + ['=', b] == [a, '=', b] && [a] + ['!', b] == [a, '!', b];
    LexExclamation(a, b);
    PairOk([a], NotEq, [b]);
    ExpressionsKeepMeaning(TREES, More(One(Name([a])), NotEq, Name([b])));
    assert Translated(Binary(NotEq, Atom([a]), Atom([b]))) == [Operand([a]), Operand([b]), Opt(NotEq)];
  }
}
