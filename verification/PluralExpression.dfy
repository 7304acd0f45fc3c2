/** The expression that picks a plural form: the reader's recursive-descent evaluator, and that it
    gives every C expression its value. */
module PluralExpression {
  import opened Bytes

  const TAB: byte := 9
  const BLANK: byte := 32
  const BANG: byte := 33
  const PERCENT: byte := 37
  const AMPERSAND: byte := 38
  const OPEN: byte := 40
  const CLOSE: byte := 41
  const STAR: byte := 42
  const PLUS: byte := 43
  const MINUS: byte := 45
  const STROKE: byte := 47
  const ZERO: byte := 48
  const NINE: byte := 57
  const COLON: byte := 58
  const LESS: byte := 60
  const EQUALS: byte := 61
  const MORE: byte := 62
  const QUESTION: byte := 63
  const LETTER_N: byte := 110
  const BAR: byte := 124

  predicate IsDigit(b: byte) { ZERO <= b <= NINE }

  predicate IsWord(b: byte) { IsDigit(b) || 97 <= b <= 122 || 65 <= b <= 90 }

  // ----- operators

  datatype Op = Or | And | Eq | Ne | Le | Ge | Lt | Gt | Add | Sub | Mul | Div | Mod

  /** The binding strength, weakest first. */
  function Level(op: Op): (level: nat)
    ensures 1 <= level <= 6
  {
    match op
    case Or => 1
    case And => 2
    case Eq | Ne => 3
    case Le | Ge | Lt | Gt => 4
    case Add | Sub => 5
    case Mul | Div | Mod => 6
  }

  function Sign(op: Op): (s: seq<byte>)
    ensures 1 <= |s| <= 2
  {
    match op
    case Or => [BAR, BAR]
    case And => [AMPERSAND, AMPERSAND]
    case Eq => [EQUALS, EQUALS]
    case Ne => [BANG, EQUALS]
    case Le => [LESS, EQUALS]
    case Ge => [MORE, EQUALS]
    case Lt => [LESS]
    case Gt => [MORE]
    case Add => [PLUS]
    case Sub => [MINUS]
    case Mul => [STAR]
    case Div => [STROKE]
    case Mod => [PERCENT]
  }

  /** A level's operators in the order they are tried. */
  function Ops(level: nat): seq<Op>
  {
    match level
    case 1 => [Or]
    case 2 => [And]
    case 3 => [Eq, Ne]
    case 4 => [Le, Ge, Lt, Gt]
    case 5 => [Add, Sub]
    case 6 => [Mul, Div, Mod]
    case _ => []
  }

  function Truth(b: bool): int { if b then 1 else 0 }

  /** C's division, toward zero; by zero it is taken for zero. */
  function Quotient(a: int, b: int): int
  {
    if b == 0 then 0
    else if a >= 0 then (if b > 0 then a / b else -(a / -b))
    else if b > 0 then -(-a / b) else -a / -b
  }

  function Remainder(a: int, b: int): int { if b == 0 then 0 else a - b * Quotient(a, b) }

  function Apply(op: Op, a: int, b: int): int
  {
    match op
    case Or => Truth(a != 0 || b != 0)
    case And => Truth(a != 0 && b != 0)
    case Eq => Truth(a == b)
    case Ne => Truth(a != b)
    case Le => Truth(a <= b)
    case Ge => Truth(a >= b)
    case Lt => Truth(a < b)
    case Gt => Truth(a > b)
    case Add => a + b
    case Sub => a - b
    case Mul => a * b
    case Div => Quotient(a, b)
    case Mod => Remainder(a, b)
  }

  // ----- the evaluator

  /** A value and where reading it stopped. */
  datatype Read = Read(value: int, at: nat)

  predicate IsBlank(b: byte) { b == BLANK || b == TAB }

  function Skip(text: seq<byte>, at: nat): (p: nat)
    requires at <= |text|
    ensures at <= p <= |text| && (p < |text| ==> !IsBlank(text[p]))
    decreases |text| - at
  {
    if at < |text| && IsBlank(text[at]) then Skip(text, at + 1) else at
  }

  predicate Has(text: seq<byte>, at: nat, token: seq<byte>)
  {
    at + |token| <= |text| && text[at..at + |token|] == token
  }

  /** The first of the operators that stands at `at`. */
  function FirstOf(ops: seq<Op>, text: seq<byte>, at: nat): (r: Option<Op>)
    ensures r.Some? ==> Has(text, at, Sign(r.value)) && r.value in ops
    decreases |ops|
  {
    if ops == [] then None
    else if Has(text, at, Sign(ops[0])) then Some(ops[0])
    else FirstOf(ops[1..], text, at)
  }

  function Conditional(text: seq<byte>, at: nat, n: int): (r: Read)
    requires at <= |text|
    ensures at <= r.at <= |text|
    decreases |text| - at, 9
  {
    var test := Binary(text, at, 1, n);
    var p := Skip(text, test.at);
    if !Has(text, p, [QUESTION]) then Read(test.value, p)
    else
      var yes := Conditional(text, p + 1, n);
      var q := Skip(text, yes.at);
      if !Has(text, q, [COLON]) then Read(yes.value, q)
      else
        var no := Conditional(text, q + 1, n);
        Read(if test.value != 0 then yes.value else no.value, no.at)
  }

  /** `logical_or` to `multiplicative`, which differ in their operators alone; behind the last is
      `unary`. */
  function Binary(text: seq<byte>, at: nat, level: nat, n: int): (r: Read)
    requires at <= |text| && 1 <= level <= 7
    ensures at <= r.at <= |text|
    decreases |text| - at, 9 - level
  {
    if level == 7 then Unary(text, at, n)
    else
      var first := Binary(text, at, level + 1, n);
      Rest(text, first.at, level, first.value, n)
  }

  /** The operators of a level and their right operands, from `value` on. */
  function Rest(text: seq<byte>, at: nat, level: nat, value: int, n: int): (r: Read)
    requires at <= |text| && 1 <= level <= 6
    ensures at <= r.at <= |text|
    decreases |text| - at, 0
  {
    var p := Skip(text, at);
    match FirstOf(Ops(level), text, p)
    case None => Read(value, p)
    case Some(op) =>
      var right := Binary(text, p + |Sign(op)|, level + 1, n);
      Rest(text, right.at, level, Apply(op, value, right.value), n)
  }

  function Unary(text: seq<byte>, at: nat, n: int): (r: Read)
    requires at <= |text|
    ensures at <= r.at <= |text|
    decreases |text| - at, 1
  {
    var p := Skip(text, at);
    if Has(text, p, [BANG]) then
      var r := Unary(text, p + 1, n);
      Read(Truth(r.value == 0), r.at)
    else if Has(text, p, [MINUS]) then
      var r := Unary(text, p + 1, n);
      Read(-r.value, r.at)
    else if Has(text, p, [PLUS]) then Unary(text, p + 1, n)
    else Primary(text, p, n)
  }

  function Primary(text: seq<byte>, at: nat, n: int): (r: Read)
    requires at <= |text|
    ensures at <= r.at <= |text|
    decreases |text| - at, 0
  {
    var p := Skip(text, at);
    if Has(text, p, [OPEN]) then
      var inner := Conditional(text, p + 1, n);
      var q := Skip(text, inner.at);
      Read(inner.value, if Has(text, q, [CLOSE]) then q + 1 else q)
    else if Has(text, p, [LETTER_N]) && (p + 1 == |text| || !IsWord(text[p + 1])) then Read(n, p + 1)
    else Digits(text, p, 0)
  }

  function Digits(text: seq<byte>, at: nat, value: int): (r: Read)
    requires at <= |text|
    ensures at <= r.at <= |text|
    decreases |text| - at
  {
    if at < |text| && IsDigit(text[at]) then Digits(text, at + 1, 10 * value + (text[at] - ZERO)) else Read(value, at)
  }

  /** `PluralEval`: the text, how far it is read, and the count. */
  class Evaluator {
    const text: seq<byte>
    const n: int
    var position: nat

    ghost predicate Valid()
      reads this
    {
      position <= |text|
    }

    constructor (text: seq<byte>, n: int)
      ensures this.text == text && this.n == n && position == 0 && Valid()
    {
      this.text := text;
      this.n := n;
      position := 0;
    }

    method SkipBlanks()
      requires Valid()
      modifies this
      ensures Valid() && position == Skip(text, old(position))
    {
      while position < |text| && IsBlank(text[position])
        invariant position <= |text| && Skip(text, old(position)) == Skip(text, position)
        decreases |text| - position
      {
        position := position + 1;
      }
    }

    method Take(token: seq<byte>) returns (ok: bool)
      requires Valid()
      modifies this
      ensures Valid() && var p := Skip(text, old(position));
              ok == Has(text, p, token) && position == if ok then p + |token| else p
    {
      SkipBlanks();
      ok := Has(text, position, token);
      if ok {
        position := position + |token|;
      }
    }

    method RunConditional() returns (value: int)
      requires Valid()
      modifies this
      ensures Valid() && Read(value, position) == Conditional(text, old(position), n)
      decreases |text| - position, 9
    {
      hide Binary, Skip;
      value := RunBinary(1);
      var asked := Take([QUESTION]);
      if asked {
        var yes := RunConditional();
        var other := Take([COLON]);
        if !other {
          return yes;
        }
        var no := RunConditional();
        value := if value != 0 then yes else no;
      }
    }

    method RunBinary(level: nat) returns (value: int)
      requires Valid() && 1 <= level <= 7
      modifies this
      ensures Valid() && Read(value, position) == Binary(text, old(position), level, n)
      decreases |text| - position, 9 - level
    {
      hide Binary, Rest, Unary, Skip, Sign, Ops, Apply, FirstOf;
      BinaryIs(text, position, level, n);
      if level == 7 {
        value := RunUnary();
        return;
      }
      value := RunBinary(level + 1);
      var more := true;
      while more
        invariant old(position) <= position <= |text|
        invariant more ==> Binary(text, old(position), level, n) == Rest(text, position, level, value, n)
        invariant !more ==> Read(value, position) == Binary(text, old(position), level, n)
        decreases more, |text| - position
      {
        RestIs(text, position, level, value, n);
        var op := TakeFirst(Ops(level));
        if op.None? {
          more := false;
        } else {
          var right := RunBinary(level + 1);
          value := Apply(op.value, value, right);
        }
      }
    }

    /** The operators are tried one after another. */
    method TakeFirst(ops: seq<Op>) returns (op: Option<Op>)
      requires Valid()
      modifies this
      ensures Valid() && var p := Skip(text, old(position));
              op == FirstOf(ops, text, p) && position == if op.Some? then p + |Sign(op.value)| else p
    {
      hide Sign;
      SkipBlanks();
      for i := 0 to |ops|
        invariant position == Skip(text, old(position)) <= |text|
        invariant FirstOf(ops, text, position) == FirstOf(ops[i..], text, position)
      {
        SkippedOnce(text, old(position));
        assert ops[i..][1..] == ops[i + 1..];
        var ok := Take(Sign(ops[i]));
        if ok {
          return Some(ops[i]);
        }
      }
      return None;
    }

    method RunUnary() returns (value: int)
      requires Valid()
      modifies this
      ensures Valid() && Read(value, position) == Unary(text, old(position), n)
      decreases |text| - position, 1
    {
      hide Primary, Skip;
      SkippedOnce(text, position);
      var ok := Take([BANG]);
      if ok {
        value := RunUnary();
        return Truth(value == 0);
      }
      ok := Take([MINUS]);
      if ok {
        value := RunUnary();
        return -value;
      }
      ok := Take([PLUS]);
      if ok {
        value := RunUnary();
        return;
      }
      value := RunPrimary();
    }

    method RunPrimary() returns (value: int)
      requires Valid()
      modifies this
      ensures Valid() && Read(value, position) == Primary(text, old(position), n)
      decreases |text| - position, 0
    {
      hide Conditional, Skip;
      SkippedOnce(text, position);
      SkipBlanks();
      var ok := Take([OPEN]);
      if ok {
        value := RunConditional();
        ok := Take([CLOSE]);
        return;
      }
      if Has(text, position, [LETTER_N]) && (position + 1 == |text| || !IsWord(text[position + 1])) {
        position := position + 1;
        return n;
      }
      value := 0;
      ghost var from := position;
      while position < |text| && IsDigit(text[position])
        invariant from <= position <= |text| && Digits(text, from, 0) == Digits(text, position, value)
        decreases |text| - position
      {
        value := value * 10 + (text[position] - ZERO);
        position := position + 1;
      }
    }
  }

  lemma BinaryIs(text: seq<byte>, at: nat, level: nat, n: int)
    requires at <= |text| && 1 <= level <= 7
    ensures Binary(text, at, level, n) ==
            if level == 7 then Unary(text, at, n)
            else Rest(text, Binary(text, at, level + 1, n).at, level, Binary(text, at, level + 1, n).value, n)
  {
    hide Unary, Rest;
  }

  lemma RestIs(text: seq<byte>, at: nat, level: nat, value: int, n: int)
    requires at <= |text| && 1 <= level <= 6
    ensures var p := Skip(text, at);
            match FirstOf(Ops(level), text, p)
            case None => Rest(text, at, level, value, n) == Read(value, p)
            case Some(op) =>
              && p + |Sign(op)| <= |text|
              && var right := Binary(text, p + |Sign(op)|, level + 1, n);
                 Rest(text, at, level, value, n) == Rest(text, right.at, level, Apply(op, value, right.value), n)
  {
    hide Binary, Sign, Ops, Apply;
  }

  lemma {:induction false} SkippedOnce(text: seq<byte>, at: nat)
    requires at <= |text|
    ensures Skip(text, Skip(text, at)) == Skip(text, at)
  {
  }
}
