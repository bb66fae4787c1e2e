/**
 * Integer expressions: conversion of an infix expression to postfix with
 * an operator stack (the shunting-yard algorithm), and evaluation of a
 * postfix expression with an operand stack. Tokens are separated by white
 * space; a stack is a sequence whose last element is its top.
 */
module Postfix {
  import opened CLib

  // ---------------------------------------------------------------------
  // Tokens
  // ---------------------------------------------------------------------

  /** A token as `>>` reads one: non-empty, without white space. */
  predicate Word(w: string) {
    w != [] && forall i :: 0 <= i < |w| ==> !IsSpace(w[i])
  }

  /** A non-empty string: every token the two algorithms handle. */
  type Token = w: string | w != [] witness "0"

  /** The length of the run of non-space characters that starts `t`. */
  function WordLength(t: string): (n: nat)
    ensures n <= |t|
  {
    if t != [] && !IsSpace(t[0]) then 1 + WordLength(t[1..]) else 0
  }

  /** The run holds no white space and stops at the end or at white space. */
  lemma {:induction false} WordLengthStops(t: string)
    ensures forall i :: 0 <= i < WordLength(t) ==> !IsSpace(t[i])
    ensures WordLength(t) < |t| ==> IsSpace(t[WordLength(t)])
  {
    if t != [] && !IsSpace(t[0]) {
      WordLengthStops(t[1..]);
    }
  }

  /** The tokens successive `ss >> token` extractions read from `s`. */
  function Tokens(s: string): seq<Token>
    decreases |s|
  {
    var t := SkipSpace(s);
    if t == [] then []
    else
      SkipSpaceSkips(s);
      var n := WordLength(t);
      assert 0 < n <= |t| <= |s|;
      [t[..n]] + Tokens(t[n..])
  }

  /** Every token of `ts` is a word. */
  predicate Words(ts: seq<Token>) {
    forall i :: 0 <= i < |ts| ==> Word(ts[i])
  }

  lemma WordsAppend(a: seq<Token>, b: seq<Token>)
    requires Words(a) && Words(b)
    ensures Words(a + b)
  {
    assert forall i :: |a| <= i < |a + b| ==> (a + b)[i] == b[i - |a|];
  }

  /** Every token read is a word: non-empty and free of white space. */
  lemma {:induction false} TokensAreWords(s: string)
    ensures Words(Tokens(s))
    decreases |s|
  {
    var t := SkipSpace(s);
    SkipSpaceSkips(s);
    if t != [] {
      var n := WordLength(t);
      LeadingWord(t);
      TokensAreWords(t[n..]);
      assert Tokens(s) == [t[..n]] + Tokens(t[n..]);
      WordsAppend([t[..n]], Tokens(t[n..]));
    }
  }

  /** A string that starts with a non-space character starts with a word. */
  lemma LeadingWord(t: string)
    requires t != [] && !IsSpace(t[0])
    ensures 0 < WordLength(t) && Word(t[..WordLength(t)])
  {
    var n := WordLength(t);
    WordLengthStops(t);
    assert forall i :: 0 <= i < n ==> t[..n][i] == t[i];
  }

  /** Each token written out followed by one space, as `postfix << token << " "` does. */
  function Join(ts: seq<Token>): string {
    if ts == [] then [] else ts[0] + " " + Join(ts[1..])
  }

  lemma {:induction false} JoinAppend(ts: seq<Token>, w: Token)
    ensures Join(ts + [w]) == Join(ts) + w + " "
  {
    if ts != [] {
      assert (ts + [w])[1..] == ts[1..] + [w];
      JoinAppend(ts[1..], w);
    }
  }

  /** Reading back what was written out gives the same tokens. */
  lemma {:induction false} TokensOfJoin(ts: seq<Token>)
    requires Words(ts)
    ensures Tokens(Join(ts)) == ts
  {
    if ts != [] {
      assert Words(ts[1..]) by {
        assert forall i :: 0 <= i < |ts| - 1 ==> ts[1..][i] == ts[i + 1];
      }
      TokensOfJoin(ts[1..]);
      TokensOfWord(ts[0], Join(ts[1..]));
      assert ts == [ts[0]] + ts[1..];
    } else {
      assert SkipSpace([]) == [];
    }
  }

  /** A word and a space in front of a string are read as that word, then the string's tokens. */
  lemma TokensOfWord(w: Token, rest: string)
    requires Word(w)
    ensures Tokens(w + " " + rest) == [w] + Tokens(rest)
  {
    var s := w + " " + rest;
    assert s[0] == w[0];
    assert SkipSpace(s) == s;
    WordLengthOfWord(w, " " + rest);
    assert s == w + (" " + rest);
    assert s[..|w|] == w && s[|w|..] == " " + rest;
    SkipLeadingSpace(rest);
  }

  lemma SkipLeadingSpace(rest: string)
    ensures SkipSpace(" " + rest) == SkipSpace(rest)
    ensures Tokens(" " + rest) == Tokens(rest)
  {
    assert (" " + rest)[1..] == rest;
  }

  lemma {:induction false} WordLengthOfWord(w: string, rest: string)
    requires forall i :: 0 <= i < |w| ==> !IsSpace(w[i])
    requires rest == [] || IsSpace(rest[0])
    ensures WordLength(w + rest) == |w|
  {
    if w != [] {
      assert (w + rest)[1..] == w[1..] + rest;
      WordLengthOfWord(w[1..], rest);
    }
  }

  // ---------------------------------------------------------------------
  // Infix to postfix
  // ---------------------------------------------------------------------

  /** The five arithmetic operators. */
  predicate IsOperator(op: char) {
    op == '+' || op == '-' || op == '*' || op == '/' || op == '%'
  }

  /** precedence(op): 1 for + and -, 2 for *, / and %, -1 for anything else, '(' included. */
  function Precedence(op: char): int
  {
    if op == '+' || op == '-' then 1
    else if op == '*' || op == '/' || op == '%' then 2
    else -1
  }

  /** Exactly the five operators rank above everything else, '*', '/' and '%' above '+' and '-'. */
  lemma PrecedenceRanks(op: char)
    ensures var p := Precedence(op);
      (p == 1 || p == 2 || p == -1) && (p == 2 <==> op == '*' || op == '/' || op == '%') && (p > 0 <==> IsOperator(op))
  {
  }

  /** The converter between two tokens: the tokens written so far, the operator stack, and whether an operand comes next. */
  datatype Converter = Converter(out: seq<Token>, stack: seq<char>, expectOperand: bool)

  /** No '(' at or above index `lo` of the stack. */
  predicate OperatorsFrom(s: seq<char>, lo: nat) {
    forall i :: lo <= i < |s| ==> s[i] != '('
  }

  /** How many operators sit above the topmost '(' of the stack: all of them when there is none. */
  function AboveParen(stack: seq<char>): (n: nat)
    ensures n <= |stack|
    decreases |stack|
  {
    if stack == [] || stack[|stack| - 1] == '(' then 0 else AboveParen(stack[..|stack| - 1]) + 1
  }

  /** The operators counted are exactly those above the topmost '(', which is just below them. */
  lemma {:induction false} AboveParenStops(stack: seq<char>)
    ensures var n := AboveParen(stack);
      OperatorsFrom(stack, |stack| - n) && (n < |stack| ==> stack[|stack| - 1 - n] == '(')
    decreases |stack|
  {
    if stack != [] && stack[|stack| - 1] != '(' {
      AboveParenStops(stack[..|stack| - 1]);
    }
  }

  /** Every operator at or above index `lo` of the stack has precedence at least `p`. */
  predicate AtLeastFrom(s: seq<char>, lo: nat, p: int) {
    forall i :: lo <= i < |s| ==> p <= Precedence(s[i])
  }

  /** How many operators of precedence at least `p` sit on top of the stack. */
  function AboveWhile(stack: seq<char>, p: int): (n: nat)
    ensures n <= |stack|
    decreases |stack|
  {
    if stack != [] && p <= Precedence(stack[|stack| - 1]) then AboveWhile(stack[..|stack| - 1], p) + 1 else 0
  }

  /** The operators counted all have precedence at least `p`, and the one just below them has less. */
  lemma {:induction false} AboveWhileStops(stack: seq<char>, p: int)
    ensures var n := AboveWhile(stack, p);
      AtLeastFrom(stack, |stack| - n, p) && (n < |stack| ==> Precedence(stack[|stack| - 1 - n]) < p)
    decreases |stack|
  {
    if stack != [] && p <= Precedence(stack[|stack| - 1]) {
      AboveWhileStops(stack[..|stack| - 1], p);
    }
  }

  /** The one-character tokens of a stack segment, popped from the top down. */
  function Popped(s: seq<char>): (r: seq<Token>)
    ensures |r| == |s|
  {
    if s == [] then [] else [[s[|s| - 1]]] + Popped(s[..|s| - 1])
  }

  /** The i-th token popped is the i-th operator from the top. */
  lemma {:induction false} PoppedAt(s: seq<char>, i: nat)
    requires i < |s|
    ensures Popped(s)[i] == [s[|s| - 1 - i]]
  {
    if i > 0 {
      PoppedAt(s[..|s| - 1], i - 1);
    }
  }

  /** Popping one more operator, the one just below a popped segment, writes it last. */
  lemma PoppedOneMore(out: seq<Token>, stack: seq<char>, k: nat)
    requires 0 < k <= |stack|
    ensures out + Popped(stack[k - 1..]) == out + Popped(stack[k..]) + [[stack[k - 1]]]
  {
    assert stack[k - 1..] == [stack[k - 1]] + stack[k..];
    PoppedBottom(stack[k - 1], stack[k..]);
  }

  /** The operator at the bottom of a segment is popped last. */
  lemma {:induction false} PoppedBottom(c: char, s: seq<char>)
    ensures Popped([c] + s) == Popped(s) + [[c]]
    decreases |s|
  {
    if s == [] {
      assert [c] + s == [c] && [c][..0] == [];
    } else {
      var t := [c] + s;
      assert t[..|t| - 1] == [c] + s[..|s| - 1];
      PoppedBottom(c, s[..|s| - 1]);
    }
  }

  /** Writing out one more operator from the stack. */
  lemma WriteOneMore(out: seq<Token>, stack: seq<char>, k: nat)
    requires 0 < k <= |stack|
    ensures Join(out + Popped(stack[k - 1..])) == Join(out + Popped(stack[k..])) + [stack[k - 1]] + " "
  {
    PoppedOneMore(out, stack, k);
    JoinAppend(out + Popped(stack[k..]), [stack[k - 1]]);
  }

  /** An operand token: it starts with a digit, or it is a negative number where an operand is expected. */
  predicate IsOperand(token: Token, expectOperand: bool)
  {
    IsDigit(token[0]) || (expectOperand && token[0] == '-' && |token| > 1)
  }

  /**
   * One token of infix2postfix: an operand goes straight to the output; '('
   * is pushed; ')' pops to the output down to the matching '(', which is
   * dropped; any other token is an operator (its first character), which
   * first pops every stacked operator of greater or equal precedence.
   */
  function ConvertStep(c: Converter, token: Token): Converter
  {
    var ch := token[0];
    if IsOperand(token, c.expectOperand) then Converter(c.out + [token], c.stack, false)
    else if ch == '(' then Converter(c.out, c.stack + [ch], true)
    else if ch == ')' then
      var k := |c.stack| - AboveParen(c.stack);
      Converter(c.out + Popped(c.stack[k..]), if k == 0 then [] else c.stack[..k - 1], true)
    else
      var k := |c.stack| - AboveWhile(c.stack, Precedence(ch));
      Converter(c.out + Popped(c.stack[k..]), c.stack[..k] + [ch], true)
  }

  /** The converter after the tokens of `ts`. */
  function Convert(ts: seq<Token>): Converter
  {
    if ts == [] then Converter([], [], true) else ConvertStep(Convert(ts[..|ts| - 1]), ts[|ts| - 1])
  }

  /** The postfix tokens of an infix token sequence: what is left on the stack is popped last. */
  function PostfixTokens(ts: seq<Token>): seq<Token>
  {
    var c := Convert(ts);
    c.out + Popped(c.stack)
  }

  /**
   * infix2postfix(infix): reads the tokens one at a time, writing operands
   * and popped operators to the output, each followed by a space.
   */
  method Infix2Postfix(infix: string) returns (postfix: string)
    ensures postfix == Join(PostfixTokens(Tokens(infix)))
  {
    var tokens := Tokens(infix);
    var stack: seq<char> := [];
    var expectOperand := true;
    postfix := "";
    ghost var out: seq<Token> := [];
    for i := 0 to |tokens|
      invariant Convert(tokens[..i]) == Converter(out, stack, expectOperand)
      invariant postfix == Join(out)
    {
      assert tokens[..i + 1][..i] == tokens[..i];
      postfix, out, stack, expectOperand := ConvertToken(postfix, out, stack, expectOperand, tokens[i]);
    }
    assert tokens[..|tokens|] == tokens;
    postfix := FlushStack(postfix, out, stack);
  }

  /** The body of the loop of infix2postfix, for one token. */
  method ConvertToken(postfix: string, ghost out: seq<Token>, stack: seq<char>, expectOperand: bool, token: Token)
    returns (postfix': string, ghost out': seq<Token>, stack': seq<char>, expectOperand': bool)
    requires postfix == Join(out)
    ensures Converter(out', stack', expectOperand') == ConvertStep(Converter(out, stack, expectOperand), token)
    ensures postfix' == Join(out')
  {
    var c := token[0];
    if IsDigit(c) || (expectOperand && c == '-' && |token| > 1) {
      JoinAppend(out, token);
      postfix', out', stack' := postfix + token + " ", out + [token], stack;
      expectOperand' := false;
    } else if c == '(' {
      postfix', out', stack' := postfix, out, stack + [c];
      expectOperand' := true;
    } else if c == ')' {
      CloseParenStep(Converter(out, stack, expectOperand), token);
      postfix', out', stack' := PopUntilParen(postfix, out, stack);
      if stack' != [] {
        stack' := stack'[..|stack'| - 1];
      }
      expectOperand' := true;
    } else {
      OperatorPopStep(Converter(out, stack, expectOperand), token);
      postfix', out', stack' := PopWhilePrecedes(postfix, out, stack, c);
      stack' := stack' + [c];
      expectOperand' := true;
    }
  }

  lemma CloseParenStep(c: Converter, token: Token)
    requires !IsOperand(token, c.expectOperand) && token[0] == ')'
    ensures var k := |c.stack| - AboveParen(c.stack);
      ConvertStep(c, token) == Converter(c.out + Popped(c.stack[k..]), if k == 0 then [] else c.stack[..k][..k - 1], true)
  {
  }

  lemma OperatorPopStep(c: Converter, token: Token)
    requires !IsOperand(token, c.expectOperand) && token[0] != '(' && token[0] != ')'
    ensures var k := |c.stack| - AboveWhile(c.stack, Precedence(token[0]));
      ConvertStep(c, token) == Converter(c.out + Popped(c.stack[k..]), c.stack[..k] + [token[0]], true)
  {
  }

  /** The loop for ')': operators are popped and written out until '(' is on top or the stack is empty. */
  method PopUntilParen(postfix: string, ghost out: seq<Token>, stack: seq<char>)
    returns (postfix': string, ghost out': seq<Token>, stack': seq<char>)
    requires postfix == Join(out)
    ensures var k := |stack| - AboveParen(stack);
      stack' == stack[..k] && out' == out + Popped(stack[k..]) && postfix' == Join(out')
  {
    ghost var k := |stack| - AboveParen(stack);
    postfix', stack' := postfix, stack;
    assert out + Popped(stack[|stack|..]) == out;
    while stack' != [] && stack'[|stack'| - 1] != '('
      invariant k <= |stack'| <= |stack| && stack' == stack[..|stack'|]
      invariant AboveParen(stack') == |stack'| - k
      invariant postfix' == Join(out + Popped(stack[|stack'|..]))
    {
      var top := stack'[|stack'| - 1];
      WriteOneMore(out, stack, |stack'|);
      postfix' := postfix' + [top] + " ";
      stack' := stack'[..|stack'| - 1];
    }
    out' := out + Popped(stack[|stack'|..]);
  }

  /** The loop for an operator: operators of at least its precedence are popped and written out. */
  method PopWhilePrecedes(postfix: string, ghost out: seq<Token>, stack: seq<char>, op: char)
    returns (postfix': string, ghost out': seq<Token>, stack': seq<char>)
    requires postfix == Join(out)
    ensures var k := |stack| - AboveWhile(stack, Precedence(op));
      stack' == stack[..k] && out' == out + Popped(stack[k..]) && postfix' == Join(out')
  {
    var p := Precedence(op);
    ghost var k := |stack| - AboveWhile(stack, p);
    postfix', stack' := postfix, stack;
    assert out + Popped(stack[|stack|..]) == out;
    while stack' != [] && p <= Precedence(stack'[|stack'| - 1])
      invariant k <= |stack'| <= |stack| && stack' == stack[..|stack'|]
      invariant AboveWhile(stack', p) == |stack'| - k
      invariant postfix' == Join(out + Popped(stack[|stack'|..]))
    {
      var top := stack'[|stack'| - 1];
      WriteOneMore(out, stack, |stack'|);
      postfix' := postfix' + [top] + " ";
      stack' := stack'[..|stack'| - 1];
    }
    out' := out + Popped(stack[|stack'|..]);
  }

  /** The end of infix2postfix: every operator left on the stack is popped and written out. */
  method FlushStack(postfix: string, ghost out: seq<Token>, stack: seq<char>) returns (r: string)
    requires postfix == Join(out)
    ensures r == Join(out + Popped(stack))
  {
    r := postfix;
    var rest := stack;
    assert out + Popped(stack[|rest|..]) == out;
    while rest != []
      invariant |rest| <= |stack| && rest == stack[..|rest|]
      invariant r == Join(out + Popped(stack[|rest|..]))
    {
      var top := rest[|rest| - 1];
      WriteOneMore(out, stack, |rest|);
      r := r + [top] + " ";
      rest := rest[..|rest| - 1];
    }
    assert stack[0..] == stack;
  }

  /** A token that can only have been written as an operand: it starts with a digit, or it is '-' followed by more. */
  predicate OperandShaped(token: Token) {
    IsDigit(token[0]) || (token[0] == '-' && |token| > 1)
  }

  /** The operand-shaped tokens of `ts`, in order. */
  function OperandTokens(ts: seq<Token>): (r: seq<Token>)
    ensures |r| <= |ts|
  {
    if ts == [] then []
    else OperandTokens(ts[..|ts| - 1]) + (if OperandShaped(ts[|ts| - 1]) then [ts[|ts| - 1]] else [])
  }

  /** Whether an operand is expected after the tokens of `ts`: at the start, and after anything but an operand. */
  function ExpectsOperand(ts: seq<Token>): bool
  {
    ts == [] || !IsOperand(ts[|ts| - 1], ExpectsOperand(ts[..|ts| - 1]))
  }

  /** The tokens of `ts` read as operands, each judged by whether an operand was expected where it stands. */
  function Operands(ts: seq<Token>): (r: seq<Token>)
    ensures |r| <= |ts|
  {
    if ts == [] then []
    else
      var pre := ts[..|ts| - 1];
      Operands(pre) + (if IsOperand(ts[|ts| - 1], ExpectsOperand(pre)) then [ts[|ts| - 1]] else [])
  }

  /** Every token that starts with a digit is read as an operand, wherever it stands. */
  lemma {:induction false} DigitsAreOperands(ts: seq<Token>, i: nat)
    requires i < |ts| && IsDigit(ts[i][0])
    ensures ts[i] in Operands(ts)
  {
    var pre := ts[..|ts| - 1];
    if i < |ts| - 1 {
      assert pre[i] == ts[i];
      DigitsAreOperands(pre, i);
    }
  }

  lemma {:induction false} OperandTokensAppend(a: seq<Token>, b: seq<Token>)
    ensures OperandTokens(a + b) == OperandTokens(a) + OperandTokens(b)
    decreases |b|
  {
    if b == [] {
      assert a + b == a;
    } else {
      assert (a + b)[..|a + b| - 1] == a + b[..|b| - 1];
      OperandTokensAppend(a, b[..|b| - 1]);
    }
  }

  /** Operators are written out as single characters that are never digits, so none looks like an operand. */
  lemma {:induction false} NoOperandPopped(s: seq<char>)
    requires NoDigit(s)
    ensures OperandTokens(Popped(s)) == []
  {
    if s != [] {
      NoOperandPopped(s[..|s| - 1]);
      OperandTokensAppend([[s[|s| - 1]]], Popped(s[..|s| - 1]));
      assert OperandTokens([[s[|s| - 1]]]) == OperandTokens([]) + [];
    }
  }

  /**
   * The operands, negative numbers included, reach the output unchanged and
   * in their input order, and nothing else written looks like an operand.
   */
  lemma OperandsInOrder(ts: seq<Token>)
    ensures OperandTokens(PostfixTokens(ts)) == Operands(ts)
  {
    ConvertOperands(ts);
    var c := Convert(ts);
    OperandTokensAppend(c.out, Popped(c.stack));
    NoOperandPopped(c.stack);
  }

  /** No character of `s` is a digit. */
  predicate NoDigit(s: seq<char>) {
    forall i :: 0 <= i < |s| ==> !IsDigit(s[i])
  }

  lemma {:induction false} ConvertOperands(ts: seq<Token>)
    ensures Convert(ts).expectOperand == ExpectsOperand(ts)
    ensures OperandTokens(Convert(ts).out) == Operands(ts)
    ensures NoDigit(Convert(ts).stack)
  {
    if ts != [] {
      var pre := ts[..|ts| - 1];
      var token := ts[|ts| - 1];
      ConvertOperands(pre);
      var c := Convert(pre);
      var d := ConvertStep(c, token);
      assert Convert(ts) == d;
      if IsOperand(token, c.expectOperand) {
        OperandTokensAppend(c.out, [token]);
        assert OperandTokens([token]) == OperandTokens([]) + [token];
      } else if token[0] == '(' {
        NoDigitPush(c.stack, '(');
      } else if token[0] == ')' {
        var k := |c.stack| - AboveParen(c.stack);
        PopOperands(c.out, c.stack, k);
        if k != 0 {
          NoDigitPrefix(c.stack, k - 1);
        }
      } else {
        var k := |c.stack| - AboveWhile(c.stack, Precedence(token[0]));
        PopOperands(c.out, c.stack, k);
        NoDigitPush(c.stack[..k], token[0]);
      }
    }
  }

  /** Popping operators onto the output adds nothing that looks like an operand. */
  lemma PopOperands(out: seq<Token>, stack: seq<char>, k: nat)
    requires NoDigit(stack) && k <= |stack|
    ensures OperandTokens(out + Popped(stack[k..])) == OperandTokens(out) && NoDigit(stack[..k])
  {
    var above := stack[k..];
    assert forall i :: 0 <= i < |above| ==> above[i] == stack[k + i];
    NoOperandPopped(above);
    OperandTokensAppend(out, Popped(above));
    NoDigitPrefix(stack, k);
  }

  lemma NoDigitPrefix(s: seq<char>, k: nat)
    requires NoDigit(s) && k <= |s|
    ensures NoDigit(s[..k])
  {
    assert forall i :: 0 <= i < k ==> s[..k][i] == s[i];
  }

  lemma NoDigitPush(s: seq<char>, c: char)
    requires NoDigit(s) && !IsDigit(c)
    ensures NoDigit(s + [c])
  {
    assert forall i :: 0 <= i < |s| ==> (s + [c])[i] == s[i];
  }

  /** A token the converter handles as a parenthesis or one of the five operators, or an operand starting with a digit. */
  predicate Known(token: Token)
  {
    IsDigit(token[0]) || token[0] == '(' || token[0] == ')' || Precedence(token[0]) > 0
  }

  /** What a token does to the number of open parentheses. */
  function Nesting(t: Token): int
  {
    if IsDigit(t[0]) then 0 else if t[0] == '(' then 1 else if t[0] == ')' then -1 else 0
  }

  /** Open parentheses not yet closed, after the tokens of `ts`. */
  function Depth(ts: seq<Token>): int
  {
    if ts == [] then 0 else Depth(ts[..|ts| - 1]) + Nesting(ts[|ts| - 1])
  }

  /** Every ')' closes an earlier '(' and every '(' is closed. */
  ghost predicate Balanced(ts: seq<Token>)
  {
    (forall i :: 0 <= i <= |ts| ==> Depth(ts[..i]) >= 0) && Depth(ts) == 0
  }

  predicate IsParen(token: Token) {
    token == "(" || token == ")"
  }

  /** The stacked '(' characters. */
  function Opens(s: seq<char>): nat {
    multiset(s)['(']
  }

  /** No token of `ts` is a lone parenthesis. */
  predicate NoParen(ts: seq<Token>) {
    forall i :: 0 <= i < |ts| ==> !IsParen(ts[i])
  }

  /** A stack of '(' and the five operators only. */
  predicate Stacked(s: seq<char>) {
    forall i :: 0 <= i < |s| ==> s[i] == '(' || Precedence(s[i]) > 0
  }

  /**
   * In an expression of operands, the five operators and balanced
   * parentheses, no parenthesis reaches the output.
   */
  lemma NoParentheses(ts: seq<Token>)
    requires forall i :: 0 <= i < |ts| ==> Known(ts[i])
    requires Balanced(ts)
    ensures NoParen(PostfixTokens(ts))
  {
    assert ts[..|ts|] == ts;
    ConvertParens(ts);
    var c := Convert(ts);
    NoOpens(c.stack);
    PoppedOperators(c.stack, 0);
    assert c.stack[0..] == c.stack;
    NoParenAppend(c.out, Popped(c.stack));
  }

  lemma NoParenAppend(a: seq<Token>, b: seq<Token>)
    requires NoParen(a) && NoParen(b)
    ensures NoParen(a + b)
  {
    assert forall i :: |a| <= i < |a + b| ==> (a + b)[i] == b[i - |a|];
  }

  lemma {:induction false} ConvertParens(ts: seq<Token>)
    requires forall i :: 0 <= i < |ts| ==> Known(ts[i])
    requires forall i :: 0 <= i <= |ts| ==> Depth(ts[..i]) >= 0
    ensures NoParen(Convert(ts).out) && Stacked(Convert(ts).stack)
    ensures Opens(Convert(ts).stack) == Depth(ts)
  {
    if ts != [] {
      var pre := ts[..|ts| - 1];
      assert forall i :: 0 <= i <= |pre| ==> pre[..i] == ts[..i];
      ConvertParens(pre);
      assert ts[..|ts|] == ts;
      ParenStep(Convert(pre), ts[|ts| - 1]);
    }
  }

  /** One token keeps the output free of parentheses and the stack count of '(' equal to the depth. */
  lemma ParenStep(c: Converter, token: Token)
    requires Known(token) && NoParen(c.out) && Stacked(c.stack) && Opens(c.stack) + Nesting(token) >= 0
    ensures var d := ConvertStep(c, token);
      NoParen(d.out) && Stacked(d.stack) && Opens(d.stack) == Opens(c.stack) + Nesting(token)
  {
    if IsOperand(token, c.expectOperand) {
      NoParenAppend(c.out, [token]);
    } else if token[0] == '(' {
      OpensPush(c.stack, '(');
      StackedPush(c.stack, '(');
    } else if token[0] == ')' {
      CloseStep(c, token);
    } else {
      OperatorStep(c, token);
    }
  }

  lemma CloseStep(c: Converter, token: Token)
    requires !IsOperand(token, c.expectOperand) && token[0] == ')'
    requires NoParen(c.out) && Stacked(c.stack) && Opens(c.stack) > 0
    ensures var d := ConvertStep(c, token);
      NoParen(d.out) && Stacked(d.stack) && Opens(d.stack) == Opens(c.stack) - 1
  {
    PopToParenKeeps(c.out, c.stack);
  }

  lemma OperatorStep(c: Converter, token: Token)
    requires !IsOperand(token, c.expectOperand) && token[0] != '(' && token[0] != ')' && Precedence(token[0]) > 0
    requires NoParen(c.out) && Stacked(c.stack)
    ensures var d := ConvertStep(c, token);
      NoParen(d.out) && Stacked(d.stack) && Opens(d.stack) == Opens(c.stack)
  {
    var p := Precedence(token[0]);
    PopWhileKeeps(c.out, c.stack, p);
    var k := |c.stack| - AboveWhile(c.stack, p);
    OpensPush(c.stack[..k], token[0]);
    StackedPush(c.stack[..k], token[0]);
  }

  lemma StackedPush(s: seq<char>, ch: char)
    requires Stacked(s) && (ch == '(' || Precedence(ch) > 0)
    ensures Stacked(s + [ch])
  {
    assert forall i :: 0 <= i < |s| ==> (s + [ch])[i] == s[i];
  }

  /** Closing a parenthesis writes out no parenthesis and removes one '(' from the stack. */
  lemma PopToParenKeeps(out: seq<Token>, stack: seq<char>)
    requires NoParen(out) && Stacked(stack) && Opens(stack) > 0
    ensures var k := |stack| - AboveParen(stack);
      k > 0 && NoParen(out + Popped(stack[k..])) && Stacked(stack[..k - 1]) && Opens(stack[..k - 1]) == Opens(stack) - 1
  {
    var k := |stack| - AboveParen(stack);
    AboveParenStops(stack);
    MatchingParen(stack, k);
    PoppedOperators(stack, k);
    NoParenAppend(out, Popped(stack[k..]));
  }

  /** When '(' is just below the operators above `k`, dropping it and them removes exactly one '('. */
  lemma MatchingParen(stack: seq<char>, k: nat)
    requires k <= |stack| && Stacked(stack) && Opens(stack) > 0 && OperatorsFrom(stack, k)
    requires k > 0 ==> stack[k - 1] == '('
    ensures k > 0 && Stacked(stack[..k - 1]) && Opens(stack[..k - 1]) == Opens(stack) - 1
  {
    OpensSplit(stack, k);
    OpensAbove(stack, k);
    var t := stack[..k];
    OpensSplit(t, k - 1);
    assert t[k - 1..] == ['('] && t[..k - 1] == stack[..k - 1];
    StackedSuffix(stack, k - 1);
  }

  /** Popping for an operator writes out no parenthesis and leaves every '(' on the stack. */
  lemma PopWhileKeeps(out: seq<Token>, stack: seq<char>, p: int)
    requires NoParen(out) && Stacked(stack) && p > 0
    ensures var k := |stack| - AboveWhile(stack, p);
      NoParen(out + Popped(stack[k..])) && Stacked(stack[..k]) && Opens(stack[..k]) == Opens(stack)
  {
    var k := |stack| - AboveWhile(stack, p);
    AboveWhileStops(stack, p);
    forall i | k <= i < |stack|
      ensures stack[i] != '('
    {
      assert p <= Precedence(stack[i]);
    }
    OpensSplit(stack, k);
    OpensAbove(stack, k);
    StackedSuffix(stack, k);
    PoppedOperators(stack, k);
    NoParenAppend(out, Popped(stack[k..]));
  }

  lemma OpensPush(s: seq<char>, ch: char)
    ensures Opens(s + [ch]) == Opens(s) + (if ch == '(' then 1 else 0)
  {
    assert multiset(s + [ch]) == multiset(s) + multiset{ch};
  }

  lemma OpensSplit(s: seq<char>, k: nat)
    requires k <= |s|
    ensures Opens(s) == Opens(s[..k]) + Opens(s[k..])
  {
    assert s == s[..k] + s[k..];
  }

  /** Above `lo` there are only operators, so no '(' is counted there. */
  lemma OpensAbove(s: seq<char>, lo: nat)
    requires lo <= |s| && OperatorsFrom(s, lo)
    ensures Opens(s[lo..]) == 0
  {
    var a := s[lo..];
    forall i | 0 <= i < |a|
      ensures a[i] != '('
    {
      assert a[i] == s[lo + i];
    }
    assert '(' !in multiset(a);
  }

  /** A stack without any '(' holds only operators. */
  lemma NoOpens(s: seq<char>)
    requires Opens(s) == 0
    ensures OperatorsFrom(s, 0)
  {
    forall i | 0 <= i < |s|
      ensures s[i] != '('
    {
      assert s[i] in multiset(s);
    }
  }

  lemma StackedSuffix(s: seq<char>, k: nat)
    requires Stacked(s) && k <= |s|
    ensures Stacked(s[..k])
  {
    assert forall i :: 0 <= i < k ==> s[..k][i] == s[i];
  }

  /** Popping the operators above `lo`, none of them '(', writes out no parenthesis. */
  lemma PoppedOperators(s: seq<char>, lo: nat)
    requires lo <= |s| && Stacked(s) && OperatorsFrom(s, lo)
    ensures NoParen(Popped(s[lo..]))
  {
    var a := s[lo..];
    forall i | 0 <= i < |a|
      ensures !IsParen(Popped(a)[i])
    {
      PoppedAt(a, i);
      assert a[|a| - 1 - i] == s[lo + |a| - 1 - i];
    }
  }

  /** "2 + 3 * 4" becomes "2 3 4 * + ". */
  lemma ConvertExample()
    ensures PostfixTokens(["2", "+", "3", "*", "4"]) == ["2", "3", "4", "*", "+"]
  {
    ConvertWholeExample();
    assert ['+', '*'][..1] == ['+'];
    assert Popped(['+', '*']) == ["*", "+"];
    assert ["2", "3", "4"] + ["*", "+"] == ["2", "3", "4", "*", "+"];
  }

  lemma ConvertWholeExample()
    ensures Convert(["2", "+", "3", "*", "4"]) == Converter(["2", "3", "4"], ['+', '*'], false)
  {
    var ts := ["2", "+", "3", "*", "4"];
    assert ts[..4] == ["2", "+", "3", "*"];
    ConvertPrefixExample();
  }

  lemma ConvertPrefixExample()
    ensures Convert(["2", "+", "3", "*"]) == Converter(["2", "3"], ['+', '*'], true)
  {
    var ts := ["2", "+", "3", "*"];
    assert ts[..3] == ["2", "+", "3"];
    ConvertOperandExample();
    MultiplyStepExample();
  }

  /** '*' binds tighter than the stacked '+', so nothing is popped before it is pushed. */
  lemma MultiplyStepExample()
    ensures ConvertStep(Converter(["2", "3"], ['+'], false), "*") == Converter(["2", "3"], ['+', '*'], true)
  {
    assert AboveWhile(['+'], 2) == 0;
    assert ['+'][1..] == [] && ['+'][..1] == ['+'];
    assert ["2", "3"] + Popped([]) == ["2", "3"];
  }

  lemma ConvertOperandExample()
    ensures Convert(["2", "+", "3"]) == Converter(["2", "3"], ['+'], false)
  {
    var ts := ["2", "+", "3"];
    assert ts[..2] == ["2", "+"];
    assert ts[..2][..1] == ["2"];
    assert Convert(["2"]) == Converter(["2"], [], false);
    assert Convert(["2", "+"]) == Converter(["2"], ['+'], true);
  }

  /** The postfix of the example, written out. */
  lemma JoinExample()
    ensures Join(["2", "3", "4", "*", "+"]) == "2 3 4 * + "
  {
    var ts := ["2", "3", "4", "*", "+"];
    assert ts[1..] == ["3", "4", "*", "+"] && ts[1..][1..] == ["4", "*", "+"];
    JoinTailExample();
  }

  lemma JoinTailExample()
    ensures Join(["4", "*", "+"]) == "4 * + "
  {
    var ts := ["4", "*", "+"];
    assert ts[1..] == ["*", "+"] && ts[1..][1..] == ["+"] && ["+"][1..] == [];
  }

  // ---------------------------------------------------------------------
  // Postfix evaluation
  // ---------------------------------------------------------------------

  /** `op1 op op2`, with C++ truncating `/` and `%`; a zero divisor or another operator throws std::invalid_argument. */
  function Apply(op: char, op1: int, op2: int): (r: Result<int>)
    ensures r.Err? <==> !IsOperator(op) || ((op == '/' || op == '%') && op2 == 0)
    ensures r.Err? ==> r.error == InvalidArgument
  {
    match op
    case '+' => Ok(op1 + op2)
    case '-' => Ok(op1 - op2)
    case '*' => Ok(op1 * op2)
    case '/' => if op2 == 0 then Err(InvalidArgument) else Ok(TruncDiv(op1, op2))
    case '%' => if op2 == 0 then Err(InvalidArgument) else Ok(TruncRem(op1, op2))
    case _ => Err(InvalidArgument)
  }

  /** A token eval_postfix reads as a number. */
  predicate IsNumber(token: Token)
  {
    IsDigit(token[0]) || (|token| > 1 && token[0] == '-')
  }

  /**
   * One token of eval_postfix: a number is converted by std::stoi and
   * pushed; an operator needs two operands, pops op2 then op1 and pushes
   * `op1 op op2`.
   */
  function EvalStep(stack: seq<int>, token: Token): (r: Result<seq<int>>)
    ensures r.Ok? ==> |r.value| == |stack| + (if IsNumber(token) then 1 else -1)
  {
    if IsNumber(token) then
      match Stoi(token)
      case Ok(n) => Ok(stack + [n])
      case Err(e) => Err(e)
    else if |stack| < 2 then Err(InvalidArgument)
    else
      match Apply(token[0], stack[|stack| - 2], stack[|stack| - 1])
      case Ok(v) => Ok(stack[..|stack| - 2] + [v])
      case Err(e) => Err(e)
  }

  /** The operand stack after the tokens of `ts`, or the first exception. */
  function EvalFrom(stack: seq<int>, ts: seq<Token>): Result<seq<int>>
    decreases |ts|
  {
    if ts == [] then Ok(stack)
    else
      match EvalStep(stack, ts[0])
      case Ok(s) => EvalFrom(s, ts[1..])
      case Err(e) => Err(e)
  }

  /** The value of a postfix token sequence: exactly one operand must be left. */
  function Evaluate(ts: seq<Token>): Result<int>
  {
    match EvalFrom([], ts)
    case Ok(s) => if |s| != 1 then Err(InvalidArgument) else Ok(s[0])
    case Err(e) => Err(e)
  }

  /** eval_postfix(postfix): the value of the expression, or the exception it throws. */
  method EvalPostfix(postfix: string) returns (r: Result<int>)
    ensures r == Evaluate(Tokens(postfix))
  {
    var tokens := Tokens(postfix);
    var stack: seq<int> := [];
    for i := 0 to |tokens|
      invariant EvalFrom(stack, tokens[i..]) == EvalFrom([], tokens)
    {
      var token := tokens[i];
      assert tokens[i..][1..] == tokens[i + 1..];
      if IsDigit(token[0]) || (|token| > 1 && token[0] == '-') {
        var num := Stoi(token);
        if num.Err? {
          return Err(num.error);
        }
        stack := stack + [num.value];
      } else {
        if |stack| < 2 {
          return Err(InvalidArgument);
        }
        var op2 := stack[|stack| - 1];
        var op1 := stack[|stack| - 2];
        stack := stack[..|stack| - 2];
        var v := Apply(token[0], op1, op2);
        if v.Err? {
          return Err(v.error);
        }
        stack := stack + [v.value];
      }
    }
    assert tokens[|tokens|..] == [];
    if |stack| != 1 {
      return Err(InvalidArgument);
    }
    r := Ok(stack[0]);
  }

  /** Evaluating two pieces one after the other is evaluating the whole. */
  lemma {:induction false} EvalFromAppend(stack: seq<int>, a: seq<Token>, b: seq<Token>)

    ensures EvalFrom(stack, a + b) == match EvalFrom(stack, a) case Ok(s) => EvalFrom(s, b) case Err(e) => Err(e)
    decreases |a|
  {
    if a == [] {
      assert a + b == b;
    } else {
      assert (a + b)[1..] == a[1..] + b;
      match EvalStep(stack, a[0])
      case Ok(s) => EvalFromAppend(s, a[1..], b);
      case Err(_) =>
    }
  }

  /** After a piece that succeeds, evaluation goes on from the stack it leaves. */
  lemma EvalFromThen(stack: seq<int>, a: seq<Token>, b: seq<Token>, s: seq<int>)
    requires EvalFrom(stack, a) == Ok(s)
    ensures EvalFrom(stack, a + b) == EvalFrom(s, b)
  {
    EvalFromAppend(stack, a, b);
  }

  /** Operands below what an expression needs are left alone: it works the same on any deeper stack. */
  lemma {:induction false} EvalFromDeeper(below: seq<int>, stack: seq<int>, ts: seq<Token>)
    requires EvalFrom(stack, ts).Ok?
    ensures EvalFrom(below + stack, ts) == Ok(below + EvalFrom(stack, ts).value)
    decreases |ts|
  {
    if ts != [] {
      var t := ts[0];
      var s := EvalStep(stack, t).value;
      EvalStepDeeper(below, stack, t);
      EvalFromDeeper(below, s, ts[1..]);
    }
  }

  /** One token on a deeper stack: the same step, with the operands below it untouched. */
  lemma EvalStepDeeper(below: seq<int>, stack: seq<int>, t: Token)
    requires EvalStep(stack, t).Ok?
    ensures EvalStep(below + stack, t) == Ok(below + EvalStep(stack, t).value)
  {
    if IsNumber(t) {
      var n := Stoi(t).value;
      assert below + stack + [n] == below + (stack + [n]);
    } else {
      var n := |stack|;
      var deeper := below + stack;
      assert deeper[|deeper| - 2] == stack[n - 2] && deeper[|deeper| - 1] == stack[n - 1];
      var v := Apply(t[0], stack[n - 2], stack[n - 1]).value;
      assert deeper[..|deeper| - 2] == below + stack[..n - 2];
      assert deeper[..|deeper| - 2] + [v] == below + (stack[..n - 2] + [v]);
    }
  }

  /**
   * `op1 op op2` in postfix: the expression for op1, then the one for op2,
   * then the operator, evaluates to the operator applied to their values,
   * the top of the stack being the right operand.
   */
  lemma EvaluateBinary(a: seq<Token>, b: seq<Token>, op: char, x: int, y: int)
    requires EvalFrom([], a) == Ok([x]) && EvalFrom([], b) == Ok([y])
    requires !IsDigit(op)
    ensures Evaluate(a + b + [[op]]) == Apply(op, x, y)
    ensures Apply(op, x, y).Ok? ==> EvalFrom([], a + b + [[op]]) == Ok([Apply(op, x, y).value])
  {
    EvalFromPair(a, b, x, y);
    EvalOperatorLast(a + b, op, x, y);
  }

  /** An operator after an expression that leaves two values applies to them. */
  lemma EvalOperatorLast(ts: seq<Token>, op: char, x: int, y: int)
    requires EvalFrom([], ts) == Ok([x, y]) && !IsDigit(op)
    ensures EvalFrom([], ts + [[op]]) == match Apply(op, x, y) case Ok(v) => Ok([v]) case Err(e) => Err(e)
  {
    EvalFromThen([], ts, [[op]], [x, y]);
    EvalOperator(x, y, op);
  }

  /** Two expressions in a row leave their two values on the stack. */
  lemma EvalFromPair(a: seq<Token>, b: seq<Token>, x: int, y: int)
    requires EvalFrom([], a) == Ok([x]) && EvalFrom([], b) == Ok([y])
    ensures EvalFrom([], a + b) == Ok([x, y])
  {
    EvalFromThen([], a, b, [x]);
    EvalFromDeeper([x], [], b);
    assert [x] + [] == [x] && [x] + [y] == [x, y];
  }

  /** A lone operator applied to a stack of two operands. */
  lemma EvalOperator(x: int, y: int, op: char)
    requires !IsDigit(op)
    ensures EvalFrom([x, y], [[op]]) == match Apply(op, x, y) case Ok(v) => Ok([v]) case Err(e) => Err(e)
  {
    var t: Token := [op];
    var st := [x, y];
    assert !IsNumber(t) && t[0] == op;
    assert st[|st| - 2] == x && st[|st| - 1] == y && st[..|st| - 2] == [];
    assert [t][1..] == [];
    match Apply(op, x, y)
    case Ok(v) =>
      EvalStepOperator(st, t);
      assert EvalStep(st, t) == Ok([] + [v]);
      assert [] + [v] == [v];
    case Err(e) =>
  }

  /** An operator with two operands on the stack replaces them by its result. */
  lemma EvalStepOperator(stack: seq<int>, t: Token)
    requires !IsNumber(t) && |stack| >= 2 && Apply(t[0], stack[|stack| - 2], stack[|stack| - 1]).Ok?
    ensures EvalStep(stack, t) == Ok(stack[..|stack| - 2] + [Apply(t[0], stack[|stack| - 2], stack[|stack| - 1]).value])
  {
  }

  /** A number token is pushed with its decimal value. */
  lemma EvalDigits(stack: seq<int>, d: Token, v: int)
    requires AllDigits(d) && DigitsValue(d) == v <= INT_MAX
    ensures EvalFrom(stack, [d]) == Ok(stack + [v])
  {
    StoiOfDigits(d, []);
    assert d + [] == d;
    assert [d][1..] == [];
  }

  /** "2 3 4 * +" evaluates to 14. */
  lemma EvaluateExample()
    ensures Evaluate(["2", "3", "4", "*", "+"]) == Ok(14)
  {
    EvalDigits([], "2", 2);
    assert [] + [2] == [2];
    ProductExample();
    EvaluateBinary(["2"], ["3", "4", "*"], '+', 2, 12);
    assert ["2"] + ["3", "4", "*"] + [['+']] == ["2", "3", "4", "*", "+"];
  }

  lemma ProductExample()
    ensures EvalFrom([], ["3", "4", "*"]) == Ok([12])
  {
    OperandsExample();
    EvalOperatorLast(["3", "4"], '*', 3, 4);
    assert ["3", "4"] + [['*']] == ["3", "4", "*"];
  }

  lemma OperandsExample()
    ensures EvalFrom([], ["3", "4"]) == Ok([3, 4])
  {
    EvalDigits([], "3", 3);
    assert [] + [3] == [3];
    EvalFromThen([], ["3"], ["4"], [3]);
    assert ["3"] + ["4"] == ["3", "4"];
    EvalDigits([3], "4", 4);
    assert [3] + [4] == [3, 4];
  }

  /** A zero divisor throws std::invalid_argument. */
  lemma ZeroDivisor()
    ensures Evaluate(["1", "0", "%"]) == Err(InvalidArgument)
  {
    assert DigitsValue("0") == 0;
    BinaryError("0", 0, '%');
    assert ["1", "0", ['%']] == ["1", "0", "%"];
  }

  /** An operator other than the five throws std::invalid_argument. */
  lemma UnknownOperator()
    ensures Evaluate(["1", "2", "^"]) == Err(InvalidArgument)
  {
    assert DigitsValue("2") == 2;
    BinaryError("2", 2, '^');
    assert ["1", "2", ['^']] == ["1", "2", "^"];
  }

  /** "1 d op" with an operator `op` that fails on 1 and d. */
  lemma BinaryError(d: Token, v: int, op: char)
    requires AllDigits(d) && DigitsValue(d) == v <= INT_MAX && !IsDigit(op) && Apply(op, 1, v).Err?
    ensures Evaluate(["1", d, [op]]) == Err(InvalidArgument)
  {
    EvalDigits([], "1", 1);
    EvalDigits([], d, v);
    assert [] + [1] == [1] && [] + [v] == [v];
    EvaluateBinary(["1"], [d], op, 1, v);
    assert ["1"] + [d] + [[op]] == ["1", d, [op]];
  }

  /** An operator with fewer than two operands on the stack throws std::invalid_argument. */
  lemma TooFewOperands()
    ensures Evaluate(["1", "+"]) == Err(InvalidArgument)
  {
    EvalDigits([], "1", 1);
    assert [] + [1] == [1];
    EvalFromAppend([], ["1"], ["+"]);
    assert ["1"] + ["+"] == ["1", "+"];
    var t: Token := "+";
    assert !IsNumber(t);
    assert EvalStep([1], t) == Err(InvalidArgument);
  }

  /** More than one value left at the end throws std::invalid_argument. */
  lemma OperandsLeft()
    ensures Evaluate(["1", "2"]) == Err(InvalidArgument)
  {
    EvalDigits([], "1", 1);
    assert [] + [1] == [1];
    EvalFromAppend([], ["1"], ["2"]);
    assert ["1"] + ["2"] == ["1", "2"];
    EvalDigits([1], "2", 2);
    assert [1] + [2] == [1, 2];
  }

  /** What infix2postfix writes, eval_postfix reads back token for token. */
  lemma PipelineTokens(infix: string)
    ensures Tokens(Join(PostfixTokens(Tokens(infix)))) == PostfixTokens(Tokens(infix))
  {
    var ts := Tokens(infix);
    TokensAreWords(infix);
    ConvertWords(ts);
    var c := Convert(ts);
    PoppedWords(c.stack);
    WordsAppend(c.out, Popped(c.stack));
    TokensOfJoin(PostfixTokens(ts));
  }

  /** No character of `s` is white space. */
  predicate NoSpace(s: seq<char>) {
    forall i :: 0 <= i < |s| ==> !IsSpace(s[i])
  }

  lemma {:induction false} ConvertWords(ts: seq<Token>)
    requires Words(ts)
    ensures Words(Convert(ts).out) && NoSpace(Convert(ts).stack)
  {
    if ts != [] {
      var pre := ts[..|ts| - 1];
      var token := ts[|ts| - 1];
      assert Words(pre) by {
        assert forall i :: 0 <= i < |pre| ==> pre[i] == ts[i];
      }
      assert Word(token);
      ConvertWords(pre);
      var c := Convert(pre);
      var d := ConvertStep(c, token);
      assert Convert(ts) == d;
      if IsOperand(token, c.expectOperand) {
        WordsAppend(c.out, [token]);
      } else if token[0] == '(' {
        NoSpacePush(c.stack, '(');
      } else if token[0] == ')' {
        var k := |c.stack| - AboveParen(c.stack);
        PopWords(c.out, c.stack, k);
        if k != 0 {
          NoSpacePrefix(c.stack, k - 1);
        }
      } else {
        var k := |c.stack| - AboveWhile(c.stack, Precedence(token[0]));
        PopWords(c.out, c.stack, k);
        NoSpacePush(c.stack[..k], token[0]);
      }
    }
  }

  /** Operators popped onto the output are words. */
  lemma PopWords(out: seq<Token>, stack: seq<char>, k: nat)
    requires Words(out) && NoSpace(stack) && k <= |stack|
    ensures Words(out + Popped(stack[k..])) && NoSpace(stack[..k])
  {
    var above := stack[k..];
    assert forall i :: 0 <= i < |above| ==> above[i] == stack[k + i];
    PoppedWords(above);
    WordsAppend(out, Popped(above));
    NoSpacePrefix(stack, k);
  }

  lemma PoppedWords(s: seq<char>)
    requires NoSpace(s)
    ensures Words(Popped(s))
  {
    forall i | 0 <= i < |s|
      ensures Word(Popped(s)[i])
    {
      PoppedAt(s, i);
    }
  }

  lemma NoSpacePrefix(s: seq<char>, k: nat)
    requires NoSpace(s) && k <= |s|
    ensures NoSpace(s[..k])
  {
    assert forall i :: 0 <= i < k ==> s[..k][i] == s[i];
  }

  lemma NoSpacePush(s: seq<char>, c: char)
    requires NoSpace(s) && !IsSpace(c)
    ensures NoSpace(s + [c])
  {
    assert forall i :: 0 <= i < |s| ==> (s + [c])[i] == s[i];
  }
}
