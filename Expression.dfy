/** The calculator's expression evaluator (python/test_failure/expression.py):
    a tokenizer, a strictly left-to-right evaluator for expressions without
    parentheses, the rewriting loop that replaces parenthesised groups by
    their values, and the parenthesis/character validator.

    Numbers are exact reals (no floating-point rounding or overflow).
    Python's `str` of a non-whole float is the parameter `fmt`. */
module Expression {
  import opened Wrappers
  import opened Text

  /** Python's result: an `int` when the value is whole, else a `float`. */
  datatype Number = Int(i: int) | Float(r: real)

  function RealOf(n: Number): real {
    match n
    case Int(i) => i as real
    case Float(r) => r
  }

  /** `int(result)` when `result == int(result)`, else `result`. */
  function Whole(x: real): (n: Number)
    ensures RealOf(n) == x
    ensures n.Int? <==> x == x.Floor as real
  {
    if x == x.Floor as real then Int(x.Floor) else Float(x)
  }

  predicate IsOperator(c: char) {
    c == '+' || c == '-' || c == '*' || c == '/'
  }

  /** `char.isdigit() or char == '.'` (ASCII digits). */
  predicate IsNumberChar(c: char) {
    IsDigit(c) || c == '.'
  }

  predicate Lexable(c: char) {
    IsNumberChar(c) || IsOperator(c)
  }

  // ---------------------------------------------------------------------
  // tokenize
  // ---------------------------------------------------------------------

  /** The tokenizer's state: the tokens so far and the number being read. */
  datatype Lexer = Lexer(tokens: seq<string>, current: string)

  /** Python's `t in "+-*\/"`: `t` is one of the substrings of "+-*\/". */
  predicate InOperators(t: string) {
    t in {"", "+", "-", "*", "/", "+-", "-*", "*/", "+-*", "-*/", "+-*/"}
  }

  /** The substrings listed are all the substrings there are. */
  lemma InOperatorsIsSubstring(t: string)
    ensures InOperators(t) <==> Contains("+-*/", t)
  {
    if Contains("+-*/", t) {
      SubstringIsListed(t);
    }
    if InOperators(t) {
      ListedIsSubstring(t);
    }
  }

  lemma SubstringIsListed(t: string)
    requires Contains("+-*/", t)
    ensures InOperators(t)
  {
    var ops := "+-*/";
    {
      var i: nat :| i <= |ops| && OccursAt(t, ops, i);
      assert t == ops[i..i + |t|];
      if i == 0 {
        if |t| == 0 { assert t == ""; } else if |t| == 1 { assert t == ops[0..1] == "+"; } else if |t| == 2 { assert t == ops[0..2] == "+-"; } else if |t| == 3 { assert t == ops[0..3] == "+-*"; } else if |t| == 4 { assert t == ops[0..] == "+-*/"; }
      } else if i == 1 {
        if |t| == 0 { assert t == ""; } else if |t| == 1 { assert t == ops[1..2] == "-"; } else if |t| == 2 { assert t == ops[1..3] == "-*"; } else if |t| == 3 { assert t == ops[1..] == "-*/"; }
      } else if i == 2 {
        if |t| == 0 { assert t == ""; } else if |t| == 1 { assert t == ops[2..3] == "*"; } else if |t| == 2 { assert t == ops[2..] == "*/"; }
      } else if i == 3 {
        if |t| == 0 { assert t == ""; } else if |t| == 1 { assert t == ops[3..] == "/"; }
      } else if i == 4 {
        if |t| == 0 { assert t == ""; }
      }
    }
  }

  lemma ListedIsSubstring(t: string)
    requires InOperators(t)
    ensures Contains("+-*/", t)
  {
    var ops := "+-*/";
    {
      if t == "" { assert OccursAt(t, ops, 0); }
      else if t == "+" { assert OccursAt(t, ops, 0); }
      else if t == "-" { assert OccursAt(t, ops, 1); }
      else if t == "*" { assert OccursAt(t, ops, 2); }
      else if t == "/" { assert OccursAt(t, ops, 3); }
      else if t == "+-" { assert OccursAt(t, ops, 0); }
      else if t == "-*" { assert OccursAt(t, ops, 1); }
      else if t == "*/" { assert OccursAt(t, ops, 2); }
      else if t == "+-*" { assert OccursAt(t, ops, 0); }
      else if t == "-*/" { assert OccursAt(t, ops, 1); }
      else { assert OccursAt(t, ops, 0); }
    }
  }

  /** One character of the tokenizer's loop. A '-' read while no number is
      pending, with no token yet or after a token that is a substring of
      "+-*\/", starts a negative number. */
  function Feed(st: Lexer, c: char): Result<Lexer, string> {
    if IsNumberChar(c) then Ok(st.(current := st.current + [c]))
    else if IsOperator(c) then
      if st.current != [] then Ok(Lexer(st.tokens + [st.current, [c]], ""))
      else if c == '-' && (st.tokens == [] || InOperators(st.tokens[|st.tokens| - 1])) then Ok(st.(current := "-"))
      else Ok(Lexer(st.tokens + [[c]], ""))
    else Err("Invalid character: " + [c])
  }

  /** The tokenizer's state after reading all of `s`. */
  function Lex(s: string): Result<Lexer, string> {
    if s == [] then Ok(Lexer([], ""))
    else
      match Lex(s[..|s| - 1])
      case Err(e) => Err(e)
      case Ok(st) => Feed(st, s[|s| - 1])
  }

  /** `tokenize(s)`: the tokens, with the pending number flushed at the end. */
  function Tokens(s: string): Result<seq<string>, string> {
    match Lex(s)
    case Err(e) => Err(e)
    case Ok(st) => Ok(if st.current != [] then st.tokens + [st.current] else st.tokens)
  }

  /** `tokenize`. */
  method Tokenize(expression: string) returns (r: Result<seq<string>, string>)
    ensures r == Tokens(expression)
  {
    var tokens: seq<string> := [];
    var current := "";
    for i := 0 to |expression|
      invariant Lex(expression[..i]) == Ok(Lexer(tokens, current))
    {
      var c := expression[i];
      assert expression[..i + 1][..i] == expression[..i];
      assert Lex(expression[..i + 1]) == Feed(Lexer(tokens, current), c);
      if IsNumberChar(c) {
        current := current + [c];
      } else if IsOperator(c) {
        if current != [] {
          assert tokens + [current] + [[c]] == tokens + [current, [c]];
          tokens := tokens + [current];
          current := "";
        } else if c == '-' && (tokens == [] || InOperators(tokens[|tokens| - 1])) {
          current := "-";
          continue;
        }
        tokens := tokens + [[c]];
      } else {
        LexErrPersists(expression, i + 1);
        return Err("Invalid character: " + [c]);
      }
    }
    assert expression[..|expression|] == expression;
    if current != [] {
      tokens := tokens + [current];
    }
    return Ok(tokens);
  }

  /** Once a character is refused the tokenizer raises, whatever follows. */
  lemma {:induction false} LexErrPersists(s: string, k: nat)
    requires k <= |s| && Lex(s[..k]).Err?
    ensures Lex(s) == Lex(s[..k])
    decreases |s|
  {
    if k < |s| {
      var init := s[..|s| - 1];
      assert init[..k] == s[..k];
      LexErrPersists(init, k);
    } else {
      assert s[..k] == s;
    }
  }

  /** The tokens written one after the other. */
  function Concat(ts: seq<string>): string {
    if ts == [] then [] else Concat(ts[..|ts| - 1]) + ts[|ts| - 1]
  }

  predicate IsOperatorToken(t: string) {
    |t| == 1 && IsOperator(t[0])
  }

  /** A run of digits and dots, possibly led by a minus sign. */
  predicate IsNumberToken(t: string) {
    t != [] && (t[0] == '-' || IsNumberChar(t[0])) && forall k :: 1 <= k < |t| ==> IsNumberChar(t[k])
  }

  /** Every token is an operator or a number, and no two numbers are adjacent. */
  ghost predicate WellTokenized(ts: seq<string>) {
    && (forall k :: 0 <= k < |ts| ==> IsOperatorToken(ts[k]) || IsNumberToken(ts[k]))
    && (forall k :: 0 <= k < |ts| - 1 ==> IsOperatorToken(ts[k]) || IsOperatorToken(ts[k + 1]))
  }

  /** What the tokenizer's loop keeps: the tokens and the pending number
      spell out what was read, and every token emitted so far ends with an
      operator. */
  ghost predicate LexInv(s: string, st: Lexer) {
    && Concat(st.tokens) + st.current == s
    && WellTokenized(st.tokens)
    && (st.current == [] || IsNumberToken(st.current))
    && (st.tokens == [] || IsOperatorToken(st.tokens[|st.tokens| - 1]))
  }

  /** Reading one more character is one more turn of the loop. */
  lemma LexSnoc(s: string, c: char)
    ensures Lex(s + [c]) == match Lex(s)
                            case Err(e) => Err(e)
                            case Ok(st) => Feed(st, c)
  {
    assert (s + [c])[..|s|] == s;
  }

  lemma ConcatSnoc(ts: seq<string>, t: string)
    ensures Concat(ts + [t]) == Concat(ts) + t
  {
    assert (ts + [t])[..|ts|] == ts;
  }

  lemma AppendToken(s: string, st: Lexer, t: string)
    requires LexInv(s, st) && st.current == [] && IsOperatorToken(t)
    ensures LexInv(s + t, Lexer(st.tokens + [t], ""))
  {
    ConcatSnoc(st.tokens, t);
  }

  lemma FlushToken(s: string, st: Lexer, c: char)
    requires LexInv(s, st) && st.current != [] && IsOperator(c)
    ensures LexInv(s + [c], Lexer(st.tokens + [st.current, [c]], ""))
  {
    var ts1 := st.tokens + [st.current];
    ConcatSnoc(st.tokens, st.current);
    ConcatSnoc(ts1, [c]);
    assert ts1 + [[c]] == st.tokens + [st.current, [c]];
  }

  /** One character keeps the loop's invariant, and fails exactly when it is refused. */
  lemma FeedInv(s: string, st: Lexer, c: char)
    requires LexInv(s, st)
    ensures Feed(st, c).Ok? <==> Lexable(c)
    ensures Feed(st, c).Ok? ==> LexInv(s + [c], Feed(st, c).value)
    ensures Feed(st, c).Err? ==> Feed(st, c).error == "Invalid character: " + [c]
  {
    if IsNumberChar(c) {
      assert Concat(st.tokens) + (st.current + [c]) == s + [c];
    } else if IsOperator(c) {
      if st.current != [] {
        FlushToken(s, st, c);
      } else if c == '-' && (st.tokens == [] || InOperators(st.tokens[|st.tokens| - 1])) {
        assert Concat(st.tokens) + "-" == s + [c];
      } else {
        AppendToken(s, st, [c]);
      }
    }
  }

  /** The tokenizer reads exactly the strings made of digits, dots and
      operators; otherwise it raises on the first other character. */
  lemma {:induction false} LexSpec(s: string)
    ensures Lex(s).Ok? <==> forall k :: 0 <= k < |s| ==> Lexable(s[k])
    ensures Lex(s).Ok? ==> LexInv(s, Lex(s).value)
    ensures Lex(s).Err? ==> exists k :: 0 <= k < |s| && !Lexable(s[k]) && (forall q :: 0 <= q < k ==> Lexable(s[q]))
                                        && Lex(s).error == "Invalid character: " + [s[k]]
  {
    if s != [] {
      var init := s[..|s| - 1];
      var c := s[|s| - 1];
      LexSpec(init);
      assert s == init + [c];
      LexSnoc(init, c);
      assert forall k :: 0 <= k < |init| ==> init[k] == s[k];
      if Lex(init).Ok? {
        FeedInv(init, Lex(init).value, c);
        if Feed(Lex(init).value, c).Err? {
          var k := |s| - 1;
          assert !Lexable(s[k]) && Lex(s).error == "Invalid character: " + [s[k]];
          assert forall q :: 0 <= q < k ==> Lexable(s[q]);
        }
      } else {
        var k :| 0 <= k < |init| && !Lexable(init[k]) && (forall q :: 0 <= q < k ==> Lexable(init[q]))
                 && Lex(init).error == "Invalid character: " + [init[k]];
        assert !Lexable(s[k]);
      }
    }
  }

  /** `tokenize` accepts exactly the strings of digits, dots and operators.
      Its tokens spell out the input: digits and dots are grouped into
      numbers, never split between two adjacent tokens, and each operator
      is a token of its own unless it is a minus sign leading a number. */
  lemma TokensSpec(s: string)
    ensures Tokens(s).Ok? <==> forall k :: 0 <= k < |s| ==> Lexable(s[k])
    ensures Tokens(s).Ok? ==> Concat(Tokens(s).value) == s && WellTokenized(Tokens(s).value)
    ensures Tokens(s).Err? ==> exists k :: 0 <= k < |s| && !Lexable(s[k]) && (forall q :: 0 <= q < k ==> Lexable(s[q]))
                                           && Tokens(s).error == "Invalid character: " + [s[k]]
  {
    LexSpec(s);
    if Lex(s).Ok? && Lex(s).value.current != [] {
      var st := Lex(s).value;
      ConcatSnoc(st.tokens, st.current);
    }
  }

  /** The last token emitted is always an operator. */
  lemma LastTokenIsOperator(s: string)
    requires Lex(s).Ok? && Lex(s).value.tokens != []
    ensures InOperators(Lex(s).value.tokens[|Lex(s).value.tokens| - 1])
  {
    LexSpec(s);
    var last := Lex(s).value.tokens[|Lex(s).value.tokens| - 1];
    assert last == [last[0]];
  }

  /** A '-' read when no number is pending (at the start, or right after an
      operator token) begins a negative number with the digits after it. */
  lemma {:induction false} MinusStartsNumber(s: string, d: string)
    requires Lex(s).Ok? && Lex(s).value.current == []
    requires forall k :: 0 <= k < |d| ==> IsNumberChar(d[k])
    ensures Lex(s + "-" + d) == Ok(Lexer(Lex(s).value.tokens, "-" + d))
    decreases |d|
  {
    var st := Lex(s).value;
    if d == [] {
      assert s + "-" + d == s + ['-'] && "-" + d == "-";
      LexSnoc(s, '-');
      if st.tokens != [] {
        LastTokenIsOperator(s);
      }
    } else {
      var init := d[..|d| - 1];
      var c := d[|d| - 1];
      assert forall k :: 0 <= k < |init| ==> init[k] == d[k];
      MinusStartsNumber(s, init);
      var x := s + "-" + init;
      assert Lex(x) == Ok(Lexer(st.tokens, "-" + init));
      assert s + "-" + d == x + [c];
      LexSnoc(x, c);
      assert IsNumberChar(c);
      assert Feed(Lexer(st.tokens, "-" + init), c) == Ok(Lexer(st.tokens, "-" + init + [c]));
      assert "-" + init + [c] == "-" + d;
    }
  }

  // ---------------------------------------------------------------------
  // evaluate_simple
  // ---------------------------------------------------------------------

  function Pow10(n: nat): (p: nat)
    ensures p >= 1
  {
    if n == 0 then 1 else 10 * Pow10(n - 1)
  }

  /** What reading digits with at most one '.' yields: all the digits as
      one integer, how many of them follow the '.', whether a '.' was read,
      and how many digits there are. */
  datatype Scanned = Scanned(digits: nat, fraction: nat, dot: bool, count: nat)

  function Scan(t: string): Option<Scanned> {
    if t == [] then Some(Scanned(0, 0, false, 0))
    else
      match Scan(t[..|t| - 1])
      case None => None
      case Some(sc) =>
        var c := t[|t| - 1];
        if IsDigit(c) then Some(Scanned(10 * sc.digits + DigitValue(c), if sc.dot then sc.fraction + 1 else 0, sc.dot, sc.count + 1))
        else if c == '.' && !sc.dot then Some(sc.(dot := true))
        else None
  }

  /** Digits with at most one '.', and at least one digit. */
  function ParseUnsigned(t: string): Option<real> {
    match Scan(t)
    case None => None
    case Some(sc) => if sc.count > 0 then Some(sc.digits as real / Pow10(sc.fraction) as real) else None
  }

  /** Python's `float(t)` on the strings the tokenizer produces: an optional
      sign, then digits with at most one '.'. */
  function ParseFloat(t: string): Option<real> {
    if t != [] && (t[0] == '-' || t[0] == '+') then
      match ParseUnsigned(t[1..])
      case None => None
      case Some(v) => Some(if t[0] == '-' then -v else v)
    else ParseUnsigned(t)
  }

  function FloatError(t: string): string {
    "could not convert string to float: '" + t + "'"
  }

  /** Python's `str(int)` reads back through `float` as the same number. */
  lemma IntTextRoundTrip(i: int)
    ensures ParseFloat(IntToString(i)) == Some(i as real)
  {
    var n: nat := if i < 0 then -i else i;
    var digits := NatToString(n);
    ScanDigits(n);
    if i < 0 {
      assert IntToString(i)[1..] == digits;
    }
  }

  lemma {:induction false} ScanDigits(n: nat)
    ensures Scan(NatToString(n)) == Some(Scanned(n, 0, false, |NatToString(n)|))
    decreases n
  {
    var s := NatToString(n);
    if n < 10 {
      assert s[..0] == [];
    } else {
      ScanDigits(n / 10);
      assert s[..|s| - 1] == NatToString(n / 10);
    }
  }

  /** `token == op` for a one-character operator. */
  predicate Is(token: string, op: char) {
    |token| == 1 && token[0] == op
  }

  /** One step of the `if`/`elif` chain of `evaluate_simple`: the operator
      applied to the value so far and its operand. */
  function Apply(op: string, acc: real, x: real): Result<real, string> {
    if Is(op, '+') then Ok(acc + x)
    else if Is(op, '-') then Ok(acc - x)
    else if Is(op, '*') then Ok(acc * x)
    else if Is(op, '/') then
      if x == 0.0 then Err("Division by zero") else Ok(acc / x)
    else Err("Unknown operator: " + op)
  }

  /** The loop of `evaluate_simple` from token `i` on, `acc` being the value
      so far: each operator is applied to the value so far and the operand
      after it, strictly from left to right. */
  function Fold(acc: real, tokens: seq<string>, i: nat): Result<real, string>
    decreases |tokens| - i
  {
    if i >= |tokens| then Ok(acc)
    else if i + 1 >= |tokens| then Err("list index out of range")
    else
      match ParseFloat(tokens[i + 1])
      case None => Err(FloatError(tokens[i + 1]))
      case Some(x) =>
        match Apply(tokens[i], acc, x)
        case Err(e) => Err(e)
        case Ok(v) => Fold(v, tokens, i + 2)
  }

  lemma FoldStep(acc: real, tokens: seq<string>, i: nat, x: real)
    requires i + 1 < |tokens| && ParseFloat(tokens[i + 1]) == Some(x)
    ensures Apply(tokens[i], acc, x).Err? ==> Fold(acc, tokens, i) == Err(Apply(tokens[i], acc, x).error)
    ensures Apply(tokens[i], acc, x).Ok? ==> Fold(acc, tokens, i) == Fold(Apply(tokens[i], acc, x).value, tokens, i + 2)
  {
  }

  /** `evaluate_simple` on a token list. */
  function EvalTokens(tokens: seq<string>): Result<Number, string> {
    if tokens == [] then Err("Empty expression")
    else
      match ParseFloat(tokens[0])
      case None => Err(FloatError(tokens[0]))
      case Some(x) =>
        match Fold(x, tokens, 1)
        case Err(e) => Err(e)
        case Ok(v) => Ok(Whole(v))
  }

  /** `evaluate_simple(expression)`. */
  function Simple(expression: string): Result<Number, string> {
    match Tokens(expression)
    case Err(e) => Err(e)
    case Ok(tokens) => EvalTokens(tokens)
  }

  /** `evaluate_simple`. */
  method EvaluateSimple(expression: string) returns (r: Result<Number, string>)
    ensures r == Simple(expression)
  {
    var t := Tokenize(expression);
    if t.Err? {
      return Err(t.error);
    }
    var tokens := t.value;
    if tokens == [] {
      return Err("Empty expression");
    }
    var first := ParseFloat(tokens[0]);
    if first.None? {
      return Err(FloatError(tokens[0]));
    }
    var result := first.value;
    var i := 1;
    while i < |tokens|
      invariant Fold(result, tokens, i) == Fold(first.value, tokens, 1)
      decreases |tokens| - i
    {
      var operator := tokens[i];
      if i + 1 >= |tokens| {
        return Err("list index out of range");
      }
      var operand := ParseFloat(tokens[i + 1]);
      if operand.None? {
        return Err(FloatError(tokens[i + 1]));
      }
      var step := Apply(operator, result, operand.value);
      FoldStep(result, tokens, i, operand.value);
      if step.Err? {
        return Err(step.error);
      }
      result := step.value;
      i := i + 2;
    }
    return Ok(Whole(result));
  }

  /** "Empty expression" is raised exactly for the empty string. */
  lemma EmptyExpression(expression: string)
    ensures Simple(expression) == Err("Empty expression") <==> expression == []
  {
    TokensSpec(expression);
    if Simple(expression) == Err("Empty expression") {
      if Tokens(expression).Err? {
      } else if Tokens(expression).value == [] {
        assert Concat([]) == [];
      } else {
        var ts := Tokens(expression).value;
        if ParseFloat(ts[0]).Some? {
          FoldErrors(ParseFloat(ts[0]).value, ts, 1);
        }
      }
    }
  }

  /** The loop's own errors never read "Empty expression". */
  lemma {:induction false} FoldErrors(acc: real, tokens: seq<string>, i: nat)
    ensures Fold(acc, tokens, i).Err? ==> Fold(acc, tokens, i).error != "Empty expression"
    decreases |tokens| - i
  {
    if i + 1 < |tokens| {
      match ParseFloat(tokens[i + 1])
      case None =>
        assert FloatError(tokens[i + 1])[0] == 'c';
      case Some(x) =>
        match Apply(tokens[i], acc, x)
        case Err(e) =>
          assert e[0] == 'D' || e[0] == 'U';
        case Ok(v) =>
          FoldErrors(v, tokens, i + 2);
    }
  }

  /** A zero divisor raises "Division by zero" instead of producing a value. */
  lemma DivisionByZero(ta: string, tb: string)
    requires ParseFloat(ta).Some? && ParseFloat(tb) == Some(0.0)
    ensures EvalTokens([ta, "/", tb]) == Err("Division by zero")
  {
  }

  /** As written, `a + b * c` is `(a + b) * c`: the operators are applied in
      the order they appear, whatever they are. */
  lemma LeftToRight(ta: string, tb: string, tc: string, a: real, b: real, c: real)
    requires ParseFloat(ta) == Some(a) && ParseFloat(tb) == Some(b) && ParseFloat(tc) == Some(c)
    ensures EvalTokens([ta, "+", tb, "*", tc]) == Ok(Whole((a + b) * c))
  {
    var ts := [ta, "+", tb, "*", tc];
    assert Fold((a + b) * c, ts, 5) == Ok((a + b) * c);
    assert Fold(a + b, ts, 3) == Ok((a + b) * c);
    assert Fold(a, ts, 1) == Ok((a + b) * c);
  }

  /** "2+3*4" evaluates to 20, not 14. */
  lemma LeftToRightExample()
    ensures EvalTokens(["2", "+", "3", "*", "4"]) == Ok(Int(20))
  {
    assert "2"[..0] == [] && "3"[..0] == [] && "4"[..0] == [];
    LeftToRight("2", "3", "4", 2.0, 3.0, 4.0);
    assert (2.0 + 3.0) * 4.0 == 20.0;
  }

  // ---------------------------------------------------------------------
  // The evaluation the tests expect: '*' and '/' before '+' and '-'
  // ---------------------------------------------------------------------

  /** From token `i` on, `total` being the sum of the finished terms and
      `term` the product being built: '*' and '/' extend the term, '+' and
      '-' close it and start the next one. The errors are those of the loop
      as written. */
  function Precedence(total: real, term: real, tokens: seq<string>, i: nat): Result<real, string>
    decreases |tokens| - i
  {
    if i >= |tokens| then Ok(total + term)
    else if i + 1 >= |tokens| then Err("list index out of range")
    else
      match ParseFloat(tokens[i + 1])
      case None => Err(FloatError(tokens[i + 1]))
      case Some(x) =>
        if Is(tokens[i], '+') then Precedence(total + term, x, tokens, i + 2)
        else if Is(tokens[i], '-') then Precedence(total + term, -x, tokens, i + 2)
        else
          match Apply(tokens[i], term, x)
          case Err(e) => Err(e)
          case Ok(v) => Precedence(total, v, tokens, i + 2)
  }

  /** `evaluate_simple` with the usual precedence. */
  function EvalWithPrecedence(tokens: seq<string>): Result<Number, string> {
    if tokens == [] then Err("Empty expression")
    else
      match ParseFloat(tokens[0])
      case None => Err(FloatError(tokens[0]))
      case Some(x) =>
        match Precedence(0.0, x, tokens, 1)
        case Err(e) => Err(e)
        case Ok(v) => Ok(Whole(v))
  }

  /** With precedence, `a + b * c` is `a + (b * c)`. */
  lemma PrecedenceExample(ta: string, tb: string, tc: string, a: real, b: real, c: real)
    requires ParseFloat(ta) == Some(a) && ParseFloat(tb) == Some(b) && ParseFloat(tc) == Some(c)
    ensures EvalWithPrecedence([ta, "+", tb, "*", tc]) == Ok(Whole(a + b * c))
  {
    var ts := [ta, "+", tb, "*", tc];
    assert ts[1] == "+" && ts[2] == tb && ts[3] == "*" && ts[4] == tc;
    assert Apply("*", b, c) == Ok(b * c);
    assert Precedence(a, b * c, ts, 5) == Ok(a + b * c);
    assert Precedence(a, b, ts, 3) == Ok(a + b * c);
    assert Precedence(0.0, a, ts, 1) == Ok(a + b * c);
  }

  /** The operators at the odd positions from `i` on. */
  ghost predicate OperatorsIn(tokens: seq<string>, i: nat, ops: set<string>) {
    forall k :: i <= k < |tokens| && (k - i) % 2 == 0 ==> tokens[k] in ops
  }

  /** Without '+' and '-' the two evaluations agree: only the mixing of
      additive and multiplicative operators is affected by precedence. */
  lemma {:induction false} MultiplicativeAgrees(total: real, term: real, tokens: seq<string>, i: nat)
    requires OperatorsIn(tokens, i, {"*", "/"})
    ensures Precedence(total, term, tokens, i) == match Fold(term, tokens, i)
                                                 case Ok(v) => Ok(total + v)
                                                 case Err(e) => Err(e)
    decreases |tokens| - i
  {
    if i + 1 < |tokens| && ParseFloat(tokens[i + 1]).Some? {
      var x := ParseFloat(tokens[i + 1]).value;
      assert tokens[i] in {"*", "/"};
      assert OperatorsIn(tokens, i + 2, {"*", "/"}) by {
        forall k | i + 2 <= k < |tokens| && (k - (i + 2)) % 2 == 0
          ensures tokens[k] in {"*", "/"}
        {
          assert (k - i) % 2 == 0;
        }
      }
      if Apply(tokens[i], term, x).Ok? {
        MultiplicativeAgrees(total, Apply(tokens[i], term, x).value, tokens, i + 2);
      }
    }
  }

  /** Without '*' and '/' the two evaluations agree as well. */
  lemma {:induction false} AdditiveAgrees(total: real, term: real, tokens: seq<string>, i: nat)
    requires OperatorsIn(tokens, i, {"+", "-"})
    ensures Precedence(total, term, tokens, i) == Fold(total + term, tokens, i)
    decreases |tokens| - i
  {
    if i + 1 < |tokens| && ParseFloat(tokens[i + 1]).Some? {
      var x := ParseFloat(tokens[i + 1]).value;
      assert tokens[i] in {"+", "-"};
      assert OperatorsIn(tokens, i + 2, {"+", "-"}) by {
        forall k | i + 2 <= k < |tokens| && (k - (i + 2)) % 2 == 0
          ensures tokens[k] in {"+", "-"}
        {
          assert (k - i) % 2 == 0;
        }
      }
      if Is(tokens[i], '+') {
        AdditiveAgrees(total + term, x, tokens, i + 2);
      } else {
        AdditiveAgrees(total + term, -x, tokens, i + 2);
        assert total + term + -x == total + term - x;
      }
    }
  }

  // ---------------------------------------------------------------------
  // evaluate_expression
  // ---------------------------------------------------------------------

  /** How `evaluate_expression` ends: a value, an exception, or no end at
      all (the loop spins when a '(' is left that no "(...)" group matches). */
  datatype Outcome = Value(n: Number) | Raised(message: string) | Spins

  function Finish(r: Result<Number, string>): Outcome {
    match r
    case Ok(n) => Value(n)
    case Err(e) => Raised(e)
  }

  /** `expression.replace(" ", "")`. */
  function RemoveSpaces(s: string): (r: string)
    ensures |r| <= |s|
    ensures forall c :: c in r <==> c in s && c != ' '
  {
    if s == [] then []
    else
      var rest := RemoveSpaces(s[..|s| - 1]);
      assert s == s[..|s| - 1] + [s[|s| - 1]];
      if s[|s| - 1] == ' ' then rest else rest + [s[|s| - 1]]
  }

  /** Number of '(' in `s`. */
  function Opens(s: string): nat {
    if s == [] then 0 else Opens(s[..|s| - 1]) + (if s[|s| - 1] == '(' then 1 else 0)
  }

  lemma {:induction false} OpensAppend(a: string, b: string)
    ensures Opens(a + b) == Opens(a) + Opens(b)
    decreases |b|
  {
    if b == [] {
      assert a + b == a;
    } else {
      OpensAppend(a, b[..|b| - 1]);
      assert (a + b)[..|a + b| - 1] == a + b[..|b| - 1];
    }
  }

  lemma {:induction false} OpensZero(s: string)
    ensures Opens(s) == 0 <==> '(' !in s
  {
    if s != [] {
      OpensZero(s[..|s| - 1]);
      assert s == s[..|s| - 1] + [s[|s| - 1]];
    }
  }

  /** `(` at `i` and `)` at `j` enclose a non-empty text without parentheses:
      a match of the regular expression `\(([^()]+)\)`. */
  predicate GroupAt(s: string, i: nat, j: nat) {
    i + 1 < j < |s| && s[i] == '(' && s[j] == ')' && forall k :: i < k < j ==> s[k] != '(' && s[k] != ')'
  }

  /** The index of the first parenthesis at or after `i`, or |s|. */
  function NextParen(s: string, i: nat): (j: nat)
    requires i <= |s|
    ensures i <= j <= |s|
    ensures forall k :: i <= k < j ==> s[k] != '(' && s[k] != ')'
    ensures j < |s| ==> s[j] == '(' || s[j] == ')'
    decreases |s| - i
  {
    if i == |s| || s[i] == '(' || s[i] == ')' then i else NextParen(s, i + 1)
  }

  /** `re.search(r'\(([^()]+)\)', s)` searching from position `i`: the
      leftmost group, as (index of '(', index of ')'). */
  function FindGroupFrom(s: string, i: nat): Option<(nat, nat)>
    requires i <= |s|
    decreases |s| - i
  {
    if i == |s| then None
    else if s[i] == '(' && NextParen(s, i + 1) < |s| && s[NextParen(s, i + 1)] == ')' && NextParen(s, i + 1) > i + 1 then
      Some((i, NextParen(s, i + 1)))
    else FindGroupFrom(s, i + 1)
  }

  function FindGroup(s: string): Option<(nat, nat)> {
    FindGroupFrom(s, 0)
  }

  lemma {:induction false} FindGroupBounds(s: string, i: nat)
    requires i <= |s|
    ensures FindGroupFrom(s, i).Some? ==> FindGroupFrom(s, i).value.0 + 1 < FindGroupFrom(s, i).value.1 < |s|
    decreases |s| - i
  {
    if i < |s| {
      FindGroupBounds(s, i + 1);
    }
  }

  /** The search finds the leftmost group, and nothing when there is none. */
  lemma {:induction false} FindGroupFromSpec(s: string, i: nat)
    requires i <= |s|
    ensures FindGroupFrom(s, i).Some? ==>
      var (a, b) := FindGroupFrom(s, i).value;
      i <= a && GroupAt(s, a, b) && forall a': nat, b': nat :: i <= a' < a ==> !GroupAt(s, a', b')
    ensures FindGroupFrom(s, i).None? ==> forall a': nat, b': nat :: i <= a' ==> !GroupAt(s, a', b')
    decreases |s| - i
  {
    if i < |s| {
      var j := NextParen(s, i + 1);
      if !(s[i] == '(' && j < |s| && s[j] == ')' && j > i + 1) {
        FindGroupFromSpec(s, i + 1);
        assert forall b': nat :: !GroupAt(s, i, b');
      }
    }
  }

  lemma FindGroupSpec(s: string)
    ensures FindGroup(s).Some? ==>
      var (a, b) := FindGroup(s).value;
      GroupAt(s, a, b) && forall a': nat, b': nat :: a' < a ==> !GroupAt(s, a', b')
    ensures FindGroup(s).None? ==> forall a': nat, b': nat :: !GroupAt(s, a', b')
  {
    FindGroupFromSpec(s, 0);
  }

  /** Python's `str` of an evaluation result; `fmt` renders non-whole floats. */
  function NumberText(n: Number, fmt: real -> string): string {
    match n
    case Int(i) => IntToString(i)
    case Float(r) => fmt(r)
  }

  /** Python never renders a number with a parenthesis. */
  ghost predicate PlainFormat(fmt: real -> string) {
    forall x :: '(' !in fmt(x)
  }

  lemma NumberTextPlain(n: Number, fmt: real -> string)
    requires PlainFormat(fmt)
    ensures '(' !in NumberText(n, fmt)
  {
    if n.Int? {
      var t := IntToString(n.i);
      if n.i < 0 {
        assert t == "-" + NatToString(-n.i);
      }
    }
  }

  /** Replacing a group by a text without '(' removes exactly one '('. */
  lemma ReplaceGroup(e: string, i: nat, j: nat, text: string)
    requires GroupAt(e, i, j) && '(' !in text
    ensures Opens(e[..i] + text + e[j + 1..]) == Opens(e) - 1
  {
    assert e == e[..i] + e[i..j + 1] + e[j + 1..];
    OpensAppend(e[..i] + e[i..j + 1], e[j + 1..]);
    OpensAppend(e[..i], e[i..j + 1]);
    OpensAppend(e[..i] + text, e[j + 1..]);
    OpensAppend(e[..i], text);
    OpensZero(text);
    var g := e[i..j + 1];
    assert g == [g[0]] + g[1..];
    OpensAppend([g[0]], g[1..]);
    assert '(' !in g[1..];
    OpensZero(g[1..]);
    assert Opens([g[0]]) == 1 by {
      assert [g[0]][..0] == [];
    }
  }

  /** The text the loop of `evaluate_expression` goes on with once the group
      at (i, j) is replaced by the text of its value `v`. */
  function Replaced(e: string, i: nat, j: nat, v: Number, fmt: real -> string): string
    requires i < j < |e|
  {
    e[..i] + NumberText(v, fmt) + e[j + 1..]
  }

  /** Replacing the leftmost group removes exactly one '('. */
  lemma ReplacedRemovesOpen(e: string, i: nat, j: nat, v: Number, fmt: real -> string)
    requires PlainFormat(fmt) && FindGroup(e) == Some((i, j))
    ensures i + 1 < j < |e|
    ensures Opens(Replaced(e, i, j, v, fmt)) == Opens(e) - 1
  {
    FindGroupSpec(e);
    NumberTextPlain(v, fmt);
    ReplaceGroup(e, i, j, NumberText(v, fmt));
  }

  /** The loop of `evaluate_expression` on a space-free string, run to its
      end: without '(' the text is evaluated; otherwise the leftmost group
      "(...)" without inner parentheses is evaluated and replaced by the text
      of its value, and the loop goes on; a '(' with no such group leaves the
      string as it is, so the loop never ends. */
  function Reduce(e: string, fmt: real -> string): Outcome
    requires PlainFormat(fmt)
    decreases Opens(e)
  {
    if Opens(e) == 0 then Finish(Simple(e))
    else
      match FindGroup(e)
      case None => Spins
      case Some((i, j)) =>
        ReplacedRemovesOpen(e, i, j, Int(0), fmt);
        match Simple(e[i + 1..j])
        case Err(msg) => Raised(msg)
        case Ok(v) =>
          ReplacedRemovesOpen(e, i, j, v, fmt);
          Reduce(Replaced(e, i, j, v, fmt), fmt)
  }

  /** The turn the loop takes on `e`, stated with the test of the source
      (`'(' in e`): evaluate the text, spin, raise, or go on with the text
      where the leftmost group is replaced by its value, which has one '('
      fewer. */
  lemma ReduceTurn(e: string, fmt: real -> string)
    requires PlainFormat(fmt)
    ensures '(' !in e ==> Reduce(e, fmt) == Finish(Simple(e))
    ensures '(' in e && FindGroup(e).None? ==> Reduce(e, fmt) == Spins
    ensures '(' in e && FindGroup(e).Some? ==>
      var (i, j) := FindGroup(e).value;
      && i + 1 < j < |e|
      && (Simple(e[i + 1..j]).Err? ==> Reduce(e, fmt) == Raised(Simple(e[i + 1..j]).error))
      && (Simple(e[i + 1..j]).Ok? ==>
            var rest := Replaced(e, i, j, Simple(e[i + 1..j]).value, fmt);
            Reduce(e, fmt) == Reduce(rest, fmt) && Opens(rest) < Opens(e))
  {
    OpensZero(e);
    if FindGroup(e).Some? {
      var (i, j) := FindGroup(e).value;
      FindGroupBounds(e, 0);
      if Simple(e[i + 1..j]).Ok? {
        ReplacedRemovesOpen(e, i, j, Simple(e[i + 1..j]).value, fmt);
      }
    }
  }

  /** `evaluate_expression`. Where the source loops forever the model
      returns `Spins`. */
  method EvaluateExpression(expression: string, fmt: real -> string) returns (r: Outcome)
    requires PlainFormat(fmt)
    ensures r == Reduce(RemoveSpaces(expression), fmt)
  {
    var e := RemoveSpaces(expression);
    while '(' in e
      invariant Reduce(e, fmt) == Reduce(RemoveSpaces(expression), fmt)
      decreases Opens(e)
    {
      ReduceTurn(e, fmt);
      var m := FindGroup(e);
      if m.None? {
        return Spins;
      }
      var (i, j) := m.value;
      var inner := EvaluateSimple(e[i + 1..j]);
      if inner.Err? {
        return Raised(inner.error);
      }
      e := Replaced(e, i, j, inner.value, fmt);
    }
    ReduceTurn(e, fmt);
    var v := EvaluateSimple(e);
    return Finish(v);
  }

  // ---------------------------------------------------------------------
  // validate_expression
  // ---------------------------------------------------------------------

  /** Opening minus closing parentheses in `s`. */
  function Depth(s: string): int {
    if s == [] then 0
    else Depth(s[..|s| - 1]) + (if s[|s| - 1] == '(' then 1 else if s[|s| - 1] == ')' then -1 else 0)
  }

  /** The characters of `set("0123456789+-*\/().() ")`. */
  predicate Allowed(c: char) {
    IsDigit(c) || c in "+-*/(). "
  }

  /** No prefix closes more parentheses than it opened. */
  ghost predicate NeverUnderflows(s: string) {
    forall k :: 0 <= k <= |s| ==> Depth(s[..k]) >= 0
  }

  /** `validate_expression`: true exactly when the parentheses are balanced,
      never closed before they are opened, and every character is allowed. */
  method ValidateExpression(expression: string) returns (valid: bool)
    ensures valid <==> NeverUnderflows(expression) && Depth(expression) == 0
                       && forall k :: 0 <= k < |expression| ==> Allowed(expression[k])
  {
    var depth := 0;
    for i := 0 to |expression|
      invariant depth == Depth(expression[..i])
      invariant forall k :: 0 <= k <= i ==> Depth(expression[..k]) >= 0
    {
      assert expression[..i + 1][..i] == expression[..i];
      if expression[i] == '(' {
        depth := depth + 1;
      } else if expression[i] == ')' {
        depth := depth - 1;
        if depth < 0 {
          return false;
        }
      }
    }
    assert expression[..|expression|] == expression;
    if depth != 0 {
      return false;
    }
    for i := 0 to |expression|
      invariant forall k :: 0 <= k < i ==> Allowed(expression[k])
    {
      if !Allowed(expression[i]) {
        return false;
      }
    }
    return true;
  }

  /** A valid expression without parentheses always tokenizes once its
      spaces are removed. */
  lemma ValidTokenizes(expression: string)
    requires forall k :: 0 <= k < |expression| ==> Allowed(expression[k])
    requires '(' !in expression && ')' !in expression
    ensures Tokens(RemoveSpaces(expression)).Ok?
  {
    var e := RemoveSpaces(expression);
    forall k | 0 <= k < |e|
      ensures Lexable(e[k])
    {
      assert e[k] in e;
      var j :| 0 <= j < |expression| && expression[j] == e[k];
      assert Allowed(expression[j]);
    }
    LexSpec(e);
  }

  /** `validate_expression` accepts "()". */
  lemma EmptyGroupValid()
    ensures NeverUnderflows("()") && Depth("()") == 0
    ensures forall k :: 0 <= k < |"()"| ==> Allowed("()"[k])
  {
    var e := "()";
    assert e[..1] == "(" && e[..0] == [] && e[..2] == e;
  }

  /** Removing spaces from a text without spaces leaves it as it is. */
  lemma {:induction false} RemoveSpacesNone(s: string)
    requires ' ' !in s
    ensures RemoveSpaces(s) == s
  {
    if s != [] {
      var init := s[..|s| - 1];
      assert ' ' !in init by {
        assert forall c :: c in init ==> c in s;
      }
      RemoveSpacesNone(init);
      assert s == init + [s[|s| - 1]];
    }
  }

  /** On "()", which `validate_expression` accepts, `evaluate_expression`
      never returns: the only '(' is followed by no group to replace. */
  lemma EmptyGroupSpins(fmt: real -> string)
    requires PlainFormat(fmt)
    ensures Reduce(RemoveSpaces("()"), fmt) == Spins
  {
    var e := "()";
    RemoveSpacesNone(e);
    assert Opens(e) == 1 by {
      assert e[..1] == "(" && "("[..0] == [];
    }
    assert FindGroup(e) == None by {
      assert NextParen(e, 1) == 1;
      assert FindGroupFrom(e, 2) == None;
      assert FindGroupFrom(e, 1) == None;
    }
  }
}
