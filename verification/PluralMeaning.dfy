/** C expressions in `n`, how they are written, and that the evaluator gives what is written its
    value: precedence, associativity, brackets and blanks. */
module PluralMeaning {
  import opened Bytes
  import opened PluralExpression

  datatype Expr =
    | N
    | Num(number: nat)
    | Group(inner: Expr)
    | Not(operand: Expr)
    | Neg(operand: Expr)
    | Pos(operand: Expr)
    | Bin(op: Op, left: Expr, right: Expr)
    | Cond(test: Expr, yes: Expr, no: Expr)

  function Meaning(e: Expr, n: int): int
  {
    match e
    case N => n
    case Num(number) => number
    case Group(inner) => Meaning(inner, n)
    case Not(operand) => Truth(Meaning(operand, n) == 0)
    case Neg(operand) => -Meaning(operand, n)
    case Pos(operand) => Meaning(operand, n)
    case Bin(op, left, right) => Apply(op, Meaning(left, n), Meaning(right, n))
    case Cond(test, yes, no) => if Meaning(test, n) != 0 then Meaning(yes, n) else Meaning(no, n)
  }

  // ----- what C says of it

  function Abs(a: int): nat { if a < 0 then -a else a }

  /** The quotient toward zero and its remainder, which has the dividend's sign. */
  ghost predicate Divides(a: int, b: int, q: int, r: int)
  {
    a == b * q + r && Abs(r) < Abs(b) && (r > 0 ==> a > 0) && (r < 0 ==> a < 0)
  }

  /** The value of an operator, as C has it, and zero for a division by zero. */
  ghost predicate OpMeans(op: Op, a: int, b: int, v: int)
  {
    match op
    case Or => v == if a == 0 && b == 0 then 0 else 1
    case And => v == if a == 0 || b == 0 then 0 else 1
    case Eq => v == if a == b then 1 else 0
    case Ne => v == if a == b then 0 else 1
    case Le => v == if a > b then 0 else 1
    case Ge => v == if a < b then 0 else 1
    case Lt => v == if a < b then 1 else 0
    case Gt => v == if a > b then 1 else 0
    case Add => v == a + b
    case Sub => a == v + b
    case Mul => v == a * b
    case Div => if b == 0 then v == 0 else exists r :: Divides(a, b, v, r)
    case Mod => if b == 0 then v == 0 else exists q :: Divides(a, b, q, v)
  }

  /** The value of an expression: operands first, and one side of a choice. */
  ghost predicate Means(e: Expr, n: int, v: int)
  {
    match e
    case N => v == n
    case Num(number) => v == number
    case Group(inner) => Means(inner, n, v)
    case Not(operand) => exists x :: Means(operand, n, x) && v == if x == 0 then 1 else 0
    case Neg(operand) => Means(operand, n, -v)
    case Pos(operand) => Means(operand, n, v)
    case Bin(op, left, right) => exists a, b :: Means(left, n, a) && Means(right, n, b) && OpMeans(op, a, b, v)
    case Cond(test, yes, no) => exists t :: Means(test, n, t) && if t == 0 then Means(no, n, v) else Means(yes, n, v)
  }

  lemma MulGrows(b: int, d: int)
    requires d != 0
    ensures Abs(b * d) >= Abs(b)
  {
    if d > 0 {
      assert b >= 0 ==> b * d >= b;
      assert b < 0 ==> b * d <= b;
    } else {
      assert b >= 0 ==> b * d <= -b;
      assert b < 0 ==> b * d >= -b;
    }
  }

  lemma DividesOnce(a: int, b: int, q: int, r: int, q': int, r': int)
    requires Divides(a, b, q, r) && Divides(a, b, q', r')
    ensures q == q' && r == r'
  {
    assert b * (q - q') == r' - r;
    if q != q' {
      MulGrows(b, q - q');
    }
  }

  lemma QuotientIs(a: int, b: int)
    requires b != 0
    ensures Quotient(a, b) == if (a >= 0) == (b > 0) then Abs(a) / Abs(b) else -(Abs(a) / Abs(b))
  {
  }

  lemma DivMod(x: nat, y: nat)
    requires y > 0
    ensures x == y * (x / y) + x % y && 0 <= x % y < y && x % y <= x
  {
  }

  lemma QuotientDivides(a: int, b: int)
    requires b != 0
    ensures Divides(a, b, Quotient(a, b), Remainder(a, b))
  {
    hide Quotient;
    QuotientIs(a, b);
    DivMod(Abs(a), Abs(b));
    ProductSign(a, b, Abs(a) / Abs(b), Quotient(a, b));
    RemainderBounds(a, b, b * Quotient(a, b), Abs(b) * (Abs(a) / Abs(b)), Abs(a) % Abs(b));
  }

  lemma RemainderBounds(a: int, b: int, product: int, p: int, r: int)
    requires product == (if a >= 0 then p else -p) && Abs(a) == p + r && 0 <= r < Abs(b) && r <= Abs(a)
    ensures Abs(a - product) < Abs(b) && (a - product > 0 ==> a > 0) && (a - product < 0 ==> a < 0)
  {
  }

  lemma ProductSign(a: int, b: int, q: int, k: int)
    requires b != 0 && k == if (a >= 0) == (b > 0) then q else -q
    ensures b * k == if a >= 0 then Abs(b) * q else -(Abs(b) * q)
  {
    if b > 0 {
      SignedProduct(b, q);
    } else {
      SignedProduct(-b, q);
    }
  }

  lemma SignedProduct(y: int, q: int)
    ensures -y * -q == y * q && -y * q == -(y * q) && y * -q == -(y * q)
  {
  }

  /** The evaluator's operators are C's. */
  lemma OpIs(op: Op, a: int, b: int, v: int)
    ensures OpMeans(op, a, b, v) <==> v == Apply(op, a, b)
  {
    hide Quotient, Remainder, Divides;
    if b != 0 {
      var q, r := Quotient(a, b), Remainder(a, b);
      QuotientDivides(a, b);
      if op == Div && OpMeans(op, a, b, v) {
        var r' :| Divides(a, b, v, r');
        DividesOnce(a, b, q, r, v, r');
      }
      if op == Mod && OpMeans(op, a, b, v) {
        var q' :| Divides(a, b, q', v);
        DividesOnce(a, b, q, r, q', v);
      }
    } else {
      ByZero(a);
    }
  }

  lemma ByZero(a: int)
    ensures Quotient(a, 0) == 0 && Remainder(a, 0) == 0
  {
  }

  /** Every expression has one value. */
  lemma {:induction false} MeaningIs(e: Expr, n: int, v: int)
    ensures Means(e, n, v) <==> v == Meaning(e, n)
    decreases e
  {
    hide OpMeans, Apply;
    match e
    case N =>
    case Num(_) =>
    case Group(inner) => MeaningIs(inner, n, v);
    case Not(operand) =>
      forall x ensures Means(operand, n, x) <==> x == Meaning(operand, n) { MeaningIs(operand, n, x); }
      var x := Meaning(operand, n);
      assert Means(operand, n, x);
      assert Means(e, n, v) <==> v == if x == 0 then 1 else 0;
    case Neg(operand) => MeaningIs(operand, n, -v);
    case Pos(operand) => MeaningIs(operand, n, v);
    case Bin(op, left, right) =>
      forall x ensures Means(left, n, x) <==> x == Meaning(left, n) { MeaningIs(left, n, x); }
      forall x ensures Means(right, n, x) <==> x == Meaning(right, n) { MeaningIs(right, n, x); }
      OpIs(op, Meaning(left, n), Meaning(right, n), v);
      var a, b := Meaning(left, n), Meaning(right, n);
      assert Means(left, n, a) && Means(right, n, b);
    case Cond(test, yes, no) =>
      forall x ensures Means(test, n, x) <==> x == Meaning(test, n) { MeaningIs(test, n, x); }
      MeaningIs(yes, n, v);
      MeaningIs(no, n, v);
      var t := Meaning(test, n);
      assert Means(test, n, t);
      assert Means(e, n, v) <==> if t == 0 then Means(no, n, v) else Means(yes, n, v);
  }

  // ----- how C writes and groups it

  function Ascii(s: string): seq<byte>
    requires forall i | 0 <= i < |s| :: s[i] < 128 as char
  {
    seq(|s|, i requires 0 <= i < |s| => s[i] as int)
  }

  function SignText(op: Op): (s: string)
    ensures forall i | 0 <= i < |s| :: s[i] < 128 as char
  {
    match op
    case Or => "||"
    case And => "&&"
    case Eq => "=="
    case Ne => "!="
    case Le => "<="
    case Ge => ">="
    case Lt => "<"
    case Gt => ">"
    case Add => "+"
    case Sub => "-"
    case Mul => "*"
    case Div => "/"
    case Mod => "%"
  }

  /** The row of C's table of precedence that an operator is in. */
  function CRow(op: Op): nat
  {
    match op
    case Mul | Div | Mod => 3
    case Add | Sub => 4
    case Lt | Gt | Le | Ge => 6
    case Eq | Ne => 7
    case And => 11
    case Or => 12
  }

  /** The signs are C's, and an operator binds more strongly exactly when its row is higher up. */
  lemma SignsAreC(op: Op, other: Op)
    ensures Sign(op) == Ascii(SignText(op))
    ensures Level(op) > Level(other) <==> CRow(op) < CRow(other)
    ensures Level(op) == Level(other) <==> CRow(op) == CRow(other)
    ensures [OPEN] == Ascii("(") && [CLOSE] == Ascii(")") && [QUESTION] == Ascii("?") && [COLON] == Ascii(":")
    ensures [BANG] == Ascii("!") && [MINUS] == Ascii("-") && [PLUS] == Ascii("+") && [LETTER_N] == Ascii("n")
    ensures [BLANK] == Ascii(" ") && [TAB] == Ascii("\t") && [ZERO] == Ascii("0") && [NINE] == Ascii("9")
  {
  }

  // ----- three forms

  /** `n % 10` and the like. */
  function Digit(base: nat): Expr { Bin(Mod, N, Num(base)) }

  /** `n%10==1 && n%100!=11 ? 0 : n%10>=2 && n%10<=4 && (n%100<10 || n%100>=20) ? 1 : 2`. */
  const THREE_FORMS: Expr :=
    Cond(Bin(And, Bin(Eq, Digit(10), Num(1)), Bin(Ne, Digit(100), Num(11))), Num(0),
         Cond(Bin(And, Bin(And, Bin(Ge, Digit(10), Num(2)), Bin(Le, Digit(10), Num(4))),
                  Group(Bin(Or, Bin(Lt, Digit(100), Num(10)), Bin(Ge, Digit(100), Num(20))))),
              Num(1), Num(2)))

  /** The three-form rule of Russian, for every count. */
  lemma ThreeForms(n: nat)
    ensures Meaning(THREE_FORMS, n) ==
            if n % 10 == 1 && n % 100 != 11 then 0
            else if 2 <= n % 10 <= 4 && (n % 100 < 10 || n % 100 >= 20) then 1 else 2
  {
    hide Quotient, Remainder;
    DigitIs(n, 10);
    DigitIs(n, 100);
    CompareMeans(Eq, 10, 1, n);
    CompareMeans(Ne, 100, 11, n);
    CompareMeans(Ge, 10, 2, n);
    CompareMeans(Le, 10, 4, n);
    CompareMeans(Lt, 100, 10, n);
    CompareMeans(Ge, 100, 20, n);
    var first := Bin(And, Bin(Eq, Digit(10), Num(1)), Bin(Ne, Digit(100), Num(11)));
    var few := Bin(And, Bin(Ge, Digit(10), Num(2)), Bin(Le, Digit(10), Num(4)));
    var away := Bin(Or, Bin(Lt, Digit(100), Num(10)), Bin(Ge, Digit(100), Num(20)));
    assert Meaning(first, n) == Truth(n % 10 == 1 && n % 100 != 11);
    assert Meaning(few, n) == Truth(2 <= n % 10 <= 4);
    assert Meaning(away, n) == Truth(n % 100 < 10 || n % 100 >= 20);
    assert Meaning(Bin(And, few, Group(away)), n) == Truth(2 <= n % 10 <= 4 && (n % 100 < 10 || n % 100 >= 20));
    assert Meaning(Num(0), n) == 0 && Meaning(Num(1), n) == 1 && Meaning(Num(2), n) == 2;
  }

  lemma DigitIs(n: nat, base: nat)
    requires base > 0
    ensures Meaning(Digit(base), n) == n % base
  {
    hide Quotient, Remainder;
    QuotientDivides(n, base);
    assert Divides(n, base, n / base, n % base);
    DividesOnce(n, base, Quotient(n, base), Remainder(n, base), n / base, n % base);
  }

  lemma CompareMeans(op: Op, base: nat, number: nat, n: nat)
    ensures Meaning(Bin(op, Digit(base), Num(number)), n) == Apply(op, Meaning(Digit(base), n), number)
  {
    hide Apply;
    assert Meaning(Num(number), n) == number;
  }

  // ----- writing an expression

  function Decimal(n: nat): (s: seq<byte>)
    ensures s != [] && forall i | 0 <= i < |s| :: IsDigit(s[i])
  {
    if n < 10 then [ZERO + n] else Decimal(n / 10) + [ZERO + n % 10]
  }

  /** How strongly an expression's outermost operator binds. */
  function Strength(e: Expr): nat
  {
    match e
    case Cond(_, _, _) => 0
    case Bin(op, _, _) => Level(op)
    case Not(_) | Neg(_) | Pos(_) => 7
    case N | Num(_) | Group(_) => 8
  }

  /** The tokens of an expression where one of at least this strength is wanted: a weaker one is
      bracketed. Any other may be too, as a group. */
  function Tokens(e: Expr, level: nat): (ts: seq<seq<byte>>)
    decreases e, 1
  {
    if Strength(e) < level then [[OPEN]] + Bare(e) + [[CLOSE]] else Bare(e)
  }

  /** Operators of one level group from the left. */
  function Bare(e: Expr): (ts: seq<seq<byte>>)
    decreases e, 0
  {
    match e
    case N => [[LETTER_N]]
    case Num(number) => [Decimal(number)]
    case Group(inner) => [[OPEN]] + Bare(inner) + [[CLOSE]]
    case Not(operand) => [[BANG]] + Tokens(operand, 7)
    case Neg(operand) => [[MINUS]] + Tokens(operand, 7)
    case Pos(operand) => [[PLUS]] + Tokens(operand, 7)
    case Bin(op, left, right) => Tokens(left, Level(op)) + [Sign(op)] + Tokens(right, Level(op) + 1)
    case Cond(test, yes, no) => Tokens(test, 1) + [[QUESTION]] + Tokens(yes, 0) + [[COLON]] + Tokens(no, 0)
  }

  /** The tokens stand in the text from `at` to `end`, any blanks before each. */
  ghost predicate Stands(text: seq<byte>, at: nat, ts: seq<seq<byte>>, end: nat)
    requires at <= |text|
    decreases |ts|
  {
    if ts == [] then at == end
    else Has(text, Skip(text, at), ts[0]) && Stands(text, Skip(text, at) + |ts[0]|, ts[1..], end)
  }

  lemma {:induction false} StandsSplit(text: seq<byte>, at: nat, a: seq<seq<byte>>, b: seq<seq<byte>>, end: nat) returns (mid: nat)
    requires at <= |text| && Stands(text, at, a + b, end)
    ensures at <= mid <= |text| && Stands(text, at, a, mid) && Stands(text, mid, b, end)
    decreases |a|
  {
    if a == [] {
      assert a + b == b;
      mid := at;
    } else {
      assert (a + b)[1..] == a[1..] + b;
      mid := StandsSplit(text, Skip(text, at) + |a[0]|, a[1..], b, end);
    }
  }

  lemma {:induction false} StandsWithin(text: seq<byte>, at: nat, ts: seq<seq<byte>>, end: nat)
    requires at <= |text| && Stands(text, at, ts, end)
    ensures at <= end <= |text|
    decreases |ts|
  {
    if ts != [] {
      StandsWithin(text, Skip(text, at) + |ts[0]|, ts[1..], end);
    }
  }

  lemma StandsOne(text: seq<byte>, at: nat, t: seq<byte>, end: nat)
    requires at <= |text| && Stands(text, at, [t], end)
    ensures Has(text, Skip(text, at), t) && end == Skip(text, at) + |t|
  {
    assert [t][1..] == [];
  }

  // ----- what may follow

  /** The level of the operators that begin with a byte. */
  function SignLevel(b: byte): nat
  {
    if b == BAR then 1 else if b == AMPERSAND then 2 else if b == EQUALS || b == BANG then 3
    else if b == LESS || b == MORE then 4 else if b == PLUS || b == MINUS then 5
    else if b == STAR || b == STROKE || b == PERCENT then 6 else 0
  }

  /** Behind an operand: no operator that binds more strongly, and no word that goes on. */
  ghost predicate Follows(text: seq<byte>, end: nat, level: nat)
  {
    && end <= |text| && (end == |text| || !IsWord(text[end]))
    && var p := Skip(text, end);
       p == |text| || SignLevel(text[p]) <= level
  }

  /** Behind a whole expression. */
  ghost predicate Closes(text: seq<byte>, end: nat)
  {
    Follows(text, end, 0) && !Has(text, Skip(text, end), [QUESTION])
  }

  lemma {:induction false} NoneOf(ops: seq<Op>, text: seq<byte>, at: nat)
    requires at <= |text| && forall i | 0 <= i < |ops| :: at == |text| || SignLevel(text[at]) != Level(ops[i])
    ensures FirstOf(ops, text, at) == None
    decreases |ops|
  {
    hide SignLevel, Level, Sign;
    if ops != [] {
      if Has(text, at, Sign(ops[0])) {
        SignBegins(ops[0], text, at);
      }
      NoneOf(ops[1..], text, at);
    }
  }

  lemma SignBegins(op: Op, text: seq<byte>, at: nat)
    requires Has(text, at, Sign(op))
    ensures at < |text| && text[at] == Sign(op)[0] && SignLevel(text[at]) == Level(op)
  {
    assert text[at] == text[at..at + |Sign(op)|][0];
  }

  /** A loop ends where no operator of its level stands. */
  lemma RestEnds(text: seq<byte>, end: nat, level: nat, value: int, n: int)
    requires 1 <= level <= 6 && end <= |text|
    requires var p := Skip(text, end); p == |text| || SignLevel(text[p]) < level
    ensures Rest(text, end, level, value, n) == Read(value, Skip(text, end))
  {
    hide Rest, Binary, SignLevel, Skip, Sign, FirstOf;
    OpsLevel(level);
    NoneOf(Ops(level), text, Skip(text, end));
    RestIs(text, end, level, value, n);
  }

  lemma OpsLevel(level: nat)
    ensures forall i | 0 <= i < |Ops(level)| :: Level(Ops(level)[i]) == level
  {
  }

  /** Blanks before it make no difference. */
  lemma RestSkips(text: seq<byte>, end: nat, level: nat, value: int, n: int)
    requires 1 <= level <= 6 && end <= |text|
    ensures Rest(text, Skip(text, end), level, value, n) == Rest(text, end, level, value, n)
  {
    hide Rest, Binary, Skip, Sign, Ops, FirstOf, Apply;
    SkippedOnce(text, end);
    RestIs(text, end, level, value, n);
    RestIs(text, Skip(text, end), level, value, n);
  }

  /** An operator whose operand does not begin with an equals sign is the one taken. */
  lemma TakesOp(text: seq<byte>, at: nat, op: Op)
    requires Has(text, at, Sign(op)) && at + |Sign(op)| < |text| && text[at + |Sign(op)|] != EQUALS
    ensures FirstOf(Ops(Level(op)), text, at) == Some(op)
  {
    var ops := Ops(Level(op));
    SignBegins(op, text, at);
    assert |Sign(op)| == 2 ==> text[at + 1] == text[at..at + |Sign(op)|][1];
    forall other | Has(text, at, Sign(other)) ensures text[at] == Sign(other)[0] && (|Sign(other)| == 2 ==> text[at + 1] == Sign(other)[1]) {
      SignBegins(other, text, at);
      assert |Sign(other)| == 2 ==> text[at + 1] == text[at..at + |Sign(other)|][1];
    }
    var k := match op
      case Or | And | Eq | Le | Add | Mul => 0
      case Ne | Ge | Sub | Div => 1
      case Lt | Mod => 2
      case Gt => 3;
    assert ops[k] == op;
    forall j | 0 <= j < k ensures !Has(text, at, Sign(ops[j])) {
    }
    FirstIs(ops, text, at, k);
  }

  lemma {:induction false} FirstIs(ops: seq<Op>, text: seq<byte>, at: nat, k: nat)
    requires k < |ops| && Has(text, at, Sign(ops[k])) && forall j | 0 <= j < k :: !Has(text, at, Sign(ops[j]))
    ensures FirstOf(ops, text, at) == Some(ops[k])
    decreases |ops|
  {
    hide Has, Sign;
    if k > 0 {
      FirstIs(ops[1..], text, at, k - 1);
    }
  }

  // ----- how tokens begin

  predicate Begins(b: byte) { b == LETTER_N || IsDigit(b) || b == OPEN || b == BANG || b == MINUS || b == PLUS }

  lemma {:induction false} FirstToken(e: Expr, level: nat)
    ensures Tokens(e, level) != [] && Tokens(e, level)[0] != [] && Begins(Tokens(e, level)[0][0])
    ensures Bare(e) != [] && Bare(e)[0] != [] && Begins(Bare(e)[0][0])
    decreases e
  {
    match e
    case Bin(op, left, right) => FirstToken(left, Level(op));
    case Cond(test, yes, no) => FirstToken(test, 1);
    case _ =>
  }

  lemma OperandBegins(text: seq<byte>, at: nat, ts: seq<seq<byte>>, end: nat)
    requires at <= |text| && Stands(text, at, ts, end) && ts != [] && ts[0] != [] && Begins(ts[0][0])
    ensures at < |text| && text[at] != EQUALS && text[Skip(text, at)] == ts[0][0]
  {
    var p := Skip(text, at);
    assert text[p] == text[p..p + |ts[0]|][0];
    SkipBlank(text, at);
  }

  lemma SkipBlank(text: seq<byte>, at: nat)
    requires at <= |text|
    ensures Skip(text, at) == at || (at < |text| && IsBlank(text[at]))
  {
  }

  lemma FollowedBy(text: seq<byte>, mid: nat, t: seq<byte>, level: nat)
    requires mid <= |text| && Has(text, Skip(text, mid), t) && t != [] && !IsWord(t[0]) && SignLevel(t[0]) <= level
    ensures Follows(text, mid, level) && text[Skip(text, mid)] == t[0]
  {
    hide SignLevel, Skip;
    var p := Skip(text, mid);
    assert text[p] == text[p..p + |t|][0];
    SkipBlank(text, mid);
  }

  lemma SignFollows(text: seq<byte>, mid: nat, op: Op)
    requires mid <= |text| && Has(text, Skip(text, mid), Sign(op))
    ensures Follows(text, mid, Level(op))
  {
    hide Skip;
    FollowedBy(text, mid, Sign(op), Level(op));
  }

  // ----- numbers

  function Folded(s: seq<byte>, value: int): int
  {
    if s == [] then value else Folded(s[1..], 10 * value + (s[0] - ZERO))
  }

  lemma {:induction false} FoldedLast(s: seq<byte>, b: byte, value: int)
    ensures Folded(s + [b], value) == 10 * Folded(s, value) + (b - ZERO)
    decreases |s|
  {
    if s == [] {
      assert ([] + [b])[1..] == [];
    } else {
      assert (s + [b])[1..] == s[1..] + [b];
      FoldedLast(s[1..], b, 10 * value + (s[0] - ZERO));
    }
  }

  lemma {:induction false} DecimalFolds(n: nat)
    ensures Folded(Decimal(n), 0) == n
  {
    if n >= 10 {
      DecimalFolds(n / 10);
      FoldedLast(Decimal(n / 10), ZERO + n % 10, 0);
    } else {
      FoldedLast([], ZERO + n, 0);
      assert [] + [ZERO + n] == Decimal(n);
    }
  }

  lemma {:induction false} DigitsRead(text: seq<byte>, at: nat, s: seq<byte>, value: int)
    requires Has(text, at, s) && (forall i | 0 <= i < |s| :: IsDigit(s[i]))
    requires at + |s| == |text| || !IsDigit(text[at + |s|])
    ensures Digits(text, at, value) == Read(Folded(s, value), at + |s|)
    decreases |s|
  {
    if s != [] {
      assert text[at] == text[at..at + |s|][0];
      assert text[at + 1..at + |s|] == text[at..at + |s|][1..];
      DigitsRead(text, at + 1, s[1..], 10 * value + (s[0] - ZERO));
    }
  }

  // ----- the evaluator reads what is written

  lemma NumberRead(text: seq<byte>, at: nat, number: nat, n: int, end: nat)
    requires at <= |text| && Stands(text, at, [Decimal(number)], end) && Follows(text, end, 7)
    ensures Unary(text, at, n) == Read(number, end)
  {
    hide Decimal, Skip, Digits, Conditional;
    StandsOne(text, at, Decimal(number), end);
    var p := Skip(text, at);
    SkippedOnce(text, at);
    assert text[p] == text[p..p + |Decimal(number)|][0];
    assert IsDigit(text[p]);
    OneByte(text, p);
    DecimalFolds(number);
    DigitsRead(text, p, Decimal(number), 0);
    UnaryIs(text, at, n);
  }

  lemma OneByte(text: seq<byte>, p: nat)
    requires p < |text|
    ensures forall b: byte :: Has(text, p, [b]) <==> text[p] == b
  {
    assert text[p..p + 1] == [text[p]];
  }

  /** Past no sign, `unary` is `primary`. */
  lemma UnaryIs(text: seq<byte>, at: nat, n: int)
    requires at <= |text| && Skip(text, at) < |text|
    ensures var p := Skip(text, at); text[p] != BANG && text[p] != MINUS && text[p] != PLUS ==> Unary(text, at, n) == Primary(text, p, n)
    ensures var p := Skip(text, at); text[p] == BANG ==> Unary(text, at, n) == Read(Truth(Unary(text, p + 1, n).value == 0), Unary(text, p + 1, n).at)
    ensures var p := Skip(text, at); text[p] == MINUS ==> Unary(text, at, n) == Read(-Unary(text, p + 1, n).value, Unary(text, p + 1, n).at)
    ensures var p := Skip(text, at); text[p] == PLUS ==> Unary(text, at, n) == Unary(text, p + 1, n)
  {
    hide Primary, Has, Skip;
    OneByte(text, Skip(text, at));
  }

  lemma NRead(text: seq<byte>, at: nat, n: int, end: nat)
    requires at <= |text| && Stands(text, at, [[LETTER_N]], end) && Follows(text, end, 7)
    ensures Unary(text, at, n) == Read(n, end)
  {
    hide Skip, Digits, Conditional;
    StandsOne(text, at, [LETTER_N], end);
    SkippedOnce(text, at);
    OneByte(text, Skip(text, at));
    UnaryIs(text, at, n);
  }

  /** A bracketed expression is read whole. */
  lemma BracketRead(text: seq<byte>, at: nat, e: Expr, n: int, end: nat)
    requires at <= |text| && Stands(text, at, [[OPEN]] + Bare(e) + [[CLOSE]], end)
    ensures Unary(text, at, n) == Read(Meaning(e, n), end)
    decreases e, 0, 11
  {
    hide Skip, Conditional, Meaning, Bare, Stands, Digits;
    var q := StandsSplit(text, at, [[OPEN]] + Bare(e), [[CLOSE]], end);
    var p := StandsSplit(text, at, [[OPEN]], Bare(e), q);
    StandsOne(text, at, [OPEN], p);
    StandsOne(text, q, [CLOSE], end);
    FollowedBy(text, q, [CLOSE], 0);
    OneByte(text, Skip(text, at));
    OneByte(text, Skip(text, q));
    ReadWhole(text, p, e, n, q);
    SkippedOnce(text, at);
    SkippedOnce(text, q);
    UnaryIs(text, at, n);
  }

  lemma ReadWhole(text: seq<byte>, at: nat, e: Expr, n: int, end: nat)
    requires at <= |text| && Stands(text, at, Bare(e), end) && Closes(text, end)
    ensures Conditional(text, at, n) == Read(Meaning(e, n), Skip(text, end))
    decreases e, 0, 10
  {
    hide Skip, Binary, Rest, Stands, Has, SignLevel;
    ConditionalIs(text, at, n);
    SkippedOnce(text, end);
    match e
    case Cond(test, yes, no) =>
      ReadCond(text, at, test, yes, no, n, end);
    case _ =>
      assert Tokens(e, 1) == Bare(e);
      ReadAt(text, at, 1, e, n, end);
      RestEnds(text, end, 1, Meaning(e, n), n);
  }

  lemma ConditionalIs(text: seq<byte>, at: nat, n: int)
    requires at <= |text|
    ensures var test := Binary(text, at, 1, n); var p := Skip(text, test.at);
            !Has(text, p, [QUESTION]) ==> Conditional(text, at, n) == Read(test.value, p)
  {
    hide Binary, Skip, Has;
  }

  lemma ConditionalGoesOn(text: seq<byte>, at: nat, n: int, p: nat, q: nat)
    requires at <= |text| && p == Skip(text, Binary(text, at, 1, n).at) && Has(text, p, [QUESTION])
    requires q == Skip(text, Conditional(text, p + 1, n).at) && Has(text, q, [COLON])
    ensures var no := Conditional(text, q + 1, n);
            Conditional(text, at, n) ==
            Read(if Binary(text, at, 1, n).value != 0 then Conditional(text, p + 1, n).value else no.value, no.at)
  {
    hide Binary, Skip;
  }

  lemma ReadCond(text: seq<byte>, at: nat, test: Expr, yes: Expr, no: Expr, n: int, end: nat)
    requires at <= |text| && Stands(text, at, Bare(Cond(test, yes, no)), end) && Closes(text, end)
    ensures Conditional(text, at, n) == Read(Meaning(Cond(test, yes, no), n), Skip(text, end))
    decreases Cond(test, yes, no), 0, 9
  {
    hide Skip, Binary, Rest, Stands, Has, SignLevel, Tokens, Conditional, Closes, Follows;
    var a, b, c := Tokens(test, 1), Tokens(yes, 0), Tokens(no, 0);
    assert Bare(Cond(test, yes, no)) == a + [[QUESTION]] + b + [[COLON]] + c;
    var d := StandsSplit(text, at, a + [[QUESTION]] + b + [[COLON]], c, end);
    var f := StandsSplit(text, at, a + [[QUESTION]] + b, [[COLON]], d);
    var g := StandsSplit(text, at, a + [[QUESTION]], b, f);
    var h := StandsSplit(text, at, a, [[QUESTION]], g);
    StandsOne(text, h, [QUESTION], g);
    StandsOne(text, f, [COLON], d);
    BareAt(yes);
    BareAt(no);
    MarkFollows(text, h, QUESTION);
    ReadAt(text, at, 1, test, n, h);
    MarkEnds(text, h, QUESTION, 1, Meaning(test, n), n);
    MarkFollows(text, f, COLON);
    ReadWhole(text, g, yes, n, f);
    ReadWhole(text, d, no, n, end);
    SkippedOnce(text, h);
    SkippedOnce(text, f);
    ConditionalGoesOn(text, at, n, Skip(text, h), Skip(text, f));
  }

  lemma BareAt(e: Expr)
    ensures Tokens(e, 0) == Bare(e)
  {
  }

  lemma MarkFollows(text: seq<byte>, mid: nat, mark: byte)
    requires mid <= |text| && Has(text, Skip(text, mid), [mark]) && (mark == QUESTION || mark == COLON)
    ensures Follows(text, mid, 1) && (mark == COLON ==> Closes(text, mid))
  {
    hide Skip;
    FollowedBy(text, mid, [mark], 0);
    OneByte(text, Skip(text, mid));
  }

  lemma MarkEnds(text: seq<byte>, mid: nat, mark: byte, level: nat, value: int, n: int)
    requires mid <= |text| && Has(text, Skip(text, mid), [mark]) && (mark == QUESTION || mark == COLON) && 1 <= level <= 6
    ensures Rest(text, mid, level, value, n) == Read(value, Skip(text, mid))
  {
    hide Skip, Rest;
    OneByte(text, Skip(text, mid));
    RestEnds(text, mid, level, value, n);
  }

  /** The heart: reading an operand at a level leaves its value with the level's loop, which goes
      on behind it. */
  lemma ReadAt(text: seq<byte>, at: nat, level: nat, e: Expr, n: int, end: nat)
    requires at <= |text| && 1 <= level <= 7 && Stands(text, at, Tokens(e, level), end) && Follows(text, end, level)
    ensures level == 7 ==> Binary(text, at, level, n) == Read(Meaning(e, n), end)
    ensures level < 7 ==> Binary(text, at, level, n) == Rest(text, end, level, Meaning(e, n), n)
    decreases e, if Strength(e) < level then 1 else 0, 8 - level
  {
    hide Skip, Binary, Rest, Stands, Has, SignLevel, Unary, Meaning, Level;
    BinaryIs(text, at, level, n);
    if level == 7 {
      ReadOperand(text, at, e, n, end);
    } else if Strength(e) == level {
      ReadBin(text, at, e.op, e.left, e.right, n, end);
    } else {
      assert Tokens(e, level + 1) == Tokens(e, level);
      ReadAt(text, at, level + 1, e, n, end);
      LevelDone(text, end, level, Meaning(e, n), n);
    }
  }

  /** Where a stronger level has nothing more to take, the weaker one goes on. */
  lemma LevelDone(text: seq<byte>, end: nat, level: nat, value: int, n: int)
    requires 1 <= level <= 6 && Follows(text, end, level)
    ensures level < 6 ==> Rest(text, end, level + 1, value, n) == Read(value, Skip(text, end))
    ensures Rest(text, Skip(text, end), level, value, n) == Rest(text, end, level, value, n)
  {
    hide Skip, Rest, SignLevel;
    if level < 6 {
      RestEnds(text, end, level + 1, value, n);
    }
    RestSkips(text, end, level, value, n);
  }

  lemma ReadBin(text: seq<byte>, at: nat, op: Op, left: Expr, right: Expr, n: int, end: nat)
    requires at <= |text| && Stands(text, at, Bare(Bin(op, left, right)), end) && Follows(text, end, Level(op))
    ensures Binary(text, at, Level(op), n) == Rest(text, end, Level(op), Meaning(Bin(op, left, right), n), n)
    decreases Bin(op, left, right), 0, 0
  {
    hide Skip, Binary, Rest, Stands, Has, SignLevel, Tokens, Sign, Ops, FirstOf, Apply, Level;
    var level := Level(op);
    var a, b := Tokens(left, level), Tokens(right, level + 1);
    assert Bare(Bin(op, left, right)) == a + [Sign(op)] + b;
    var q := StandsSplit(text, at, a + [Sign(op)], b, end);
    var p := StandsSplit(text, at, a, [Sign(op)], q);
    StandsOne(text, p, Sign(op), q);
    SignFollows(text, p, op);
    ReadAt(text, at, level, left, n, p);
    FirstToken(right, level + 1);
    OperandBegins(text, q, b, end);
    TakesOp(text, Skip(text, p), op);
    RestIs(text, p, level, Meaning(left, n), n);
    ReadAt(text, q, level + 1, right, n, end);
    LevelDone(text, end, level, Meaning(right, n), n);
    LevelDone(text, end, level, Meaning(Bin(op, left, right), n), n);
  }

  lemma ReadOperand(text: seq<byte>, at: nat, e: Expr, n: int, end: nat)
    requires at <= |text| && Stands(text, at, Tokens(e, 7), end) && Follows(text, end, 7)
    ensures Unary(text, at, n) == Read(Meaning(e, n), end)
    decreases e, if Strength(e) < 7 then 1 else 0, 0
  {
    hide Skip, Stands, Has, Unary, Follows, Decimal;
    if Strength(e) < 7 {
      BracketRead(text, at, e, n, end);
    } else {
      match e
      case N => NRead(text, at, n, end);
      case Num(number) => NumberRead(text, at, number, n, end);
      case Group(inner) => BracketRead(text, at, inner, n, end);
      case Not(operand) => SignRead(text, at, BANG, operand, n, end);
      case Neg(operand) => SignRead(text, at, MINUS, operand, n, end);
      case Pos(operand) => SignRead(text, at, PLUS, operand, n, end);
    }
  }

  lemma SignRead(text: seq<byte>, at: nat, sign: byte, operand: Expr, n: int, end: nat)
    requires at <= |text| && Stands(text, at, [[sign]] + Tokens(operand, 7), end) && Follows(text, end, 7)
    requires sign == BANG || sign == MINUS || sign == PLUS
    ensures var value := Meaning(operand, n);
            Unary(text, at, n) ==
            Read(if sign == BANG then Truth(value == 0) else if sign == MINUS then -value else value, end)
    decreases operand, 2, 0
  {
    hide Skip, Stands, Unary, Follows, Meaning, Tokens;
    var p := StandsSplit(text, at, [[sign]], Tokens(operand, 7), end);
    StandsOne(text, at, [sign], p);
    OneByte(text, Skip(text, at));
    ReadOperand(text, p, operand, n, end);
    UnaryIs(text, at, n);
  }

  /** Whatever expression a text is written from, with any blanks between its tokens and at its
      end, evaluating the text gives the expression's value, as C has it. */
  lemma Evaluates(text: seq<byte>, e: Expr, n: int, end: nat)
    requires Stands(text, 0, Tokens(e, 0), end) && end <= |text| && Skip(text, end) == |text|
    ensures Conditional(text, 0, n).value == Meaning(e, n)
    ensures forall v :: Means(e, n, v) <==> v == Conditional(text, 0, n).value
  {
    hide Skip, Stands, Tokens, Conditional, Meaning, Means;
    forall v ensures Means(e, n, v) <==> v == Meaning(e, n) {
      MeaningIs(e, n, v);
    }
    BareAt(e);
    SkipBlank(text, end);
    assert Closes(text, end);
    ReadWhole(text, 0, e, n, end);
  }
}
