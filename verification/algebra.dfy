/** The atoms of `parsec/algebra.py`: symbol equality and hashing, and the
    `number` and `variable` parsers, both plain compositions of the engine.
 */
module Algebra {
  import opened Symbols
  import opened Parse
  import opened ParseLaws

  // ---------------------------------------------------------------------
  // Symbol equality and hash

  /** The outcome of `a == other`: a boolean, or the `TypeError` that
      `Symbol.__eq__` raises when `other` is not of `a`'s class. */
  datatype Comparison = Compared(equal: bool) | CannotCompare

  function Eq(a: Symbol, other: Value): (r: Comparison)
    ensures r.Compared? <==> other.Sym? && SameClass(a, other.sym)
    ensures r.Compared? ==> (r.equal <==> a == other.sym)
  {
    if other.Sym? && SameClass(a, other.sym) then Compared(a.name == other.sym.name)
    else CannotCompare
  }

  /** Comparison does not depend on which side is asked. */
  lemma EqSymmetric(a: Symbol, b: Symbol)
    ensures Eq(a, Sym(b)) == Eq(b, Sym(a))
  {
  }

  /** A variable and an operation never compare, whatever their names, and
      neither compares with a value that is not a symbol. */
  lemma EqAcrossClassesFails(name1: string, name2: string)
    ensures Eq(Variable(name1), Sym(Operation(name2))) == CannotCompare
    ensures Eq(Operation(name1), Sym(Variable(name2))) == CannotCompare
    ensures forall v: Value :: !v.Sym? ==>
              Eq(Variable(name1), v) == CannotCompare && Eq(Operation(name1), v) == CannotCompare
  {
  }

  /** The hash ignores the class: a variable and an operation of the same
      name collide, which is harmless since they never compare. */
  lemma HashIgnoresClass(name: string, stringHash: string -> int)
    ensures Hash(Variable(name), stringHash) == Hash(Operation(name), stringHash)
    ensures Eq(Variable(name), Sym(Operation(name))) == CannotCompare
  {
  }

  /** Symbols that compare equal hash equally, for any string hash. */
  lemma EqualSymbolsHashEqually(a: Symbol, b: Symbol, stringHash: string -> int)
    requires Eq(a, Sym(b)) == Compared(true)
    ensures Hash(a, stringHash) == Hash(b, stringHash)
  {
  }

  // ---------------------------------------------------------------------
  // Character runs and digit text

  /** Length of the longest prefix of `s` whose characters all satisfy `isIn`. */
  function RunLength(s: string, isIn: char -> bool): (n: nat)
    ensures n <= |s|
    ensures forall i :: 0 <= i < n ==> isIn(s[i])
    ensures n < |s| ==> !isIn(s[n])
  {
    if s != "" && isIn(s[0]) then 1 + RunLength(s[1..], isIn) else 0
  }

  /** The run stops exactly at the end of a prefix made of `isIn` characters
      when what follows does not start with one. */
  lemma {:induction false} RunLengthOfPrefix(x: string, y: string, isIn: char -> bool)
    requires forall i :: 0 <= i < |x| ==> isIn(x[i])
    requires y == "" || !isIn(y[0])
    ensures RunLength(x + y, isIn) == |x|
    decreases |x|
  {
    if x != [] {
      assert (x + y)[1..] == x[1..] + y;
      RunLengthOfPrefix(x[1..], y, isIn);
    } else {
      assert x + y == y;
    }
  }

  /** Splitting `x + y` at the end of the run recovers `x` and `y`. */
  lemma RunLengthSplit(x: string, y: string, isIn: char -> bool)
    requires forall i :: 0 <= i < |x| ==> isIn(x[i])
    requires y == "" || !isIn(y[0])
    ensures RunLength(x + y, isIn) == |x|
    ensures (x + y)[..|x|] == x && (x + y)[|x|..] == y
  {
    RunLengthOfPrefix(x, y, isIn);
  }

  /** One single-character string value per character of `s`. */
  function Chars(s: string): (vs: seq<Value>)
    ensures |vs| == |s|
    ensures forall i :: 0 <= i < |s| ==> vs[i] == Str([s[i]])
  {
    if s == "" then [] else [Str([s[0]])] + Chars(s[1..])
  }

  lemma {:induction false} JoinedChars(s: string)
    ensures Joined(Chars(s)) == s
  {
    if s != "" {
      JoinedChars(s[1..]);
      assert Chars(s)[1..] == Chars(s[1..]);
      assert [s[0]] + s[1..] == s;
    }
  }

  function DigitValue(c: char): nat {
    if IsDigitChar(c) then c as int - '0' as int else 0
  }

  /** The natural number a string of decimal digits denotes. */
  function DigitsToNat(ds: string): nat {
    if ds == "" then 0 else DigitsToNat(ds[..|ds| - 1]) * 10 + DigitValue(ds[|ds| - 1])
  }

  // ---------------------------------------------------------------------
  // Single-character parsers repeated by many

  /** `p` matches exactly one character, those satisfying `isIn`, and yields it. */
  ghost predicate MatchesOneChar(p: Parser, isIn: char -> bool) {
    forall t: string ::
      && !Run(p, t).Abort?
      && (Run(p, t).Ok? <==> t != "" && isIn(t[0]))
      && (Run(p, t).Ok? ==> Run(p, t) == Ok(Str([t[0]]), t[1..]))
  }

  /** What `MatchesOneChar` says about one input. */
  lemma OneCharStep(p: Parser, isIn: char -> bool, s: string)
    requires MatchesOneChar(p, isIn)
    ensures s == "" || !isIn(s[0]) ==> Run(p, s).Fail?
    ensures s != "" && isIn(s[0]) ==> Run(p, s) == Ok(Str([s[0]]), s[1..])
  {
    var r := Run(p, s);
    assert !r.Abort? && (r.Ok? <==> s != "" && isIn(s[0]));
  }

  /** Peeling the first character off a non-empty prefix of `s`. */
  lemma CharsOfPrefix(s: string, n: nat)
    requires 0 < n <= |s|
    ensures Chars(s[..n]) == [Str([s[0]])] + Chars(s[1..][..n - 1])
    ensures s[n..] == s[1..][n - 1..]
  {
    assert s[..n][1..] == s[1..][..n - 1];
  }

  /** The loop of `many` over a one-character parser takes the longest run of
      matching characters, one value per character. */
  lemma {:induction false} ManyLoopOfOneChar(p: Parser, isIn: char -> bool, s: string)
    requires MatchesOneChar(p, isIn)
    ensures RunMany(p, s) == Ok(Chars(s[..RunLength(s, isIn)]), s[RunLength(s, isIn)..])
    decreases |s|
  {
    var n := RunLength(s, isIn);
    OneCharStep(p, isIn, s);
    if s == "" || !isIn(s[0]) {
      assert n == 0;
    } else {
      var t := s[1..];
      assert |t| < |s|;
      ManyStep(p, s, Str([s[0]]), t);
      ManyLoopOfOneChar(p, isIn, t);
      assert n == RunLength(t, isIn) + 1;
      CharsOfPrefix(s, n);
    }
  }

  /** `many` over a one-character parser takes the longest run of matching
      characters, one value per character. */
  lemma ManyOfOneChar(p: Parser, isIn: char -> bool, s: string)
    requires MatchesOneChar(p, isIn)
    ensures RunMany(p, s) == Ok(Chars(s[..RunLength(s, isIn)]), s[RunLength(s, isIn)..])
    ensures Run(Many(p), s) == Ok(List(Chars(s[..RunLength(s, isIn)])), s[RunLength(s, isIn)..])
  {
    ManyLoopOfOneChar(p, isIn, s);
    ManyIsLoop(p, s);
  }

  /** `manyone` over a one-character parser: the same run, which must be non-empty. */
  lemma ManyOneOfOneChar(p: Parser, isIn: char -> bool, s: string)
    requires MatchesOneChar(p, isIn)
    ensures Run(ManyOne(p), s).Ok? <==> s != "" && isIn(s[0])
    ensures !Run(ManyOne(p), s).Ok? ==> Run(ManyOne(p), s).Fail?
    ensures Run(ManyOne(p), s).Ok? ==>
              Run(ManyOne(p), s) == Ok(List(Chars(s[..RunLength(s, isIn)])), s[RunLength(s, isIn)..])
  {
    ManyOneLaw(p, s);
    OneCharStep(p, isIn, s);
    if s != "" && isIn(s[0]) {
      ManyOfOneChar(p, isIn, s[1..]);
      var n := RunLength(s, isIn);
      assert n == RunLength(s[1..], isIn) + 1;
      CharsOfPrefix(s, n);
    }
  }

  lemma DigitMatchesOneChar()
    ensures MatchesOneChar(Digit, IsDigitChar)
  {
  }

  /** `manyone(digit)` takes the longest run of digits, which must be non-empty. */
  lemma ManyOneDigits(s: string)
    ensures Run(ManyOne(Digit), s).Ok? <==> s != "" && IsDigitChar(s[0])
    ensures !Run(ManyOne(Digit), s).Ok? ==> Run(ManyOne(Digit), s).Fail?
    ensures Run(ManyOne(Digit), s).Ok? ==>
              var k := RunLength(s, IsDigitChar);
              Run(ManyOne(Digit), s) == Ok(List(Chars(s[..k])), s[k..])
  {
    DigitMatchesOneChar();
    ManyOneOfOneChar(Digit, IsDigitChar, s);
  }

  // ---------------------------------------------------------------------
  // number

  const Fraction: Parser := Sequence([Literal("."), ManyOne(Digit)])

  /** `sequence(manyone(digit), try_(sequence(literal('.'), manyone(digit))))`
      mapped to the exact decimal its text denotes. */
  const NumberGrammar: Parser := Sequence([ManyOne(Digit), Try(Fraction)])

  const NumberParser: Parser := Map(NumberGrammar, NumberValue)

  /** The function `number` maps over its grammar's value: `intdigits` alone,
      or `intdigits . decimaldigits`, read as an exact decimal. Values of any
      other shape cannot come out of the grammar. */
  function NumberValue(v: Value): (r: Value) {
    if v.List? && |v.items| == 2 && v.items[0].List? then
      var intText := Joined(v.items[0].items);
      var floatpart := v.items[1];
      if floatpart.NoneV? then Num(DigitsToNat(intText), 0)
      else if floatpart.List? && |floatpart.items| == 2 && floatpart.items[1].List? then
        var decimalText := Joined(floatpart.items[1].items);
        Num(DigitsToNat(intText + decimalText), |decimalText|)
      else NoneV
    else NoneV
  }

  /** The fractional part applies iff a '.' is followed by at least one digit. */
  lemma FractionLaw(t: string)
    ensures Run(Fraction, t).Ok? <==> |t| >= 2 && t[0] == '.' && IsDigitChar(t[1])
    ensures Run(Fraction, t).Ok? ==>
              var m := RunLength(t[1..], IsDigitChar);
              Run(Fraction, t) == Ok(List([Str("."), List(Chars(t[1..][..m]))]), t[1..][m..])
    ensures !Run(Fraction, t).Ok? ==> Run(Fraction, t).Fail?
  {
    Sequence2(Literal("."), ManyOne(Digit), t);
    LiteralCharLaw('.', t);
    if t != "" && t[0] == '.' {
      ManyOneDigits(t[1..]);
    }
  }

  /** The grammar of `number` before its value is mapped: the digit run, then
      the fraction or, through `try_`, `None` and nothing consumed. */
  lemma NumberGrammarLaw(s: string)
    ensures Run(NumberGrammar, s).Ok? <==> s != "" && IsDigitChar(s[0])
    ensures !Run(NumberGrammar, s).Ok? ==> Run(NumberGrammar, s).Fail?
    ensures Run(NumberGrammar, s).Ok? ==>
              var k := RunLength(s, IsDigitChar);
              var t := s[k..];
              var frac := Run(Fraction, t);
              if frac.Ok? then Run(NumberGrammar, s) == Ok(List([List(Chars(s[..k])), frac.value]), frac.rest)
              else Run(NumberGrammar, s) == Ok(List([List(Chars(s[..k])), NoneV]), t)
  {
    ManyOneDigits(s);
    Sequence2(ManyOne(Digit), Try(Fraction), s);
    if s != "" && IsDigitChar(s[0]) {
      var k := RunLength(s, IsDigitChar);
      FractionLaw(s[k..]);
      TryLaw(Fraction, s[k..]);
    }
  }

  /** The value `number` maps its grammar's value to is the exact decimal
      the matched text denotes. */
  lemma NumberValueOfText(a: string, b: string)
    ensures NumberValue(List([List(Chars(a)), NoneV])) == Num(DigitsToNat(a), 0)
    ensures NumberValue(List([List(Chars(a)), List([Str("."), List(Chars(b))])]))
            == Num(DigitsToNat(a + b), |b|)
  {
    JoinedChars(a);
    JoinedChars(b);
  }

  /** `number` takes the longest run of digits (at least one), then, only if
      a '.' and at least one digit follow, the '.' and the longest run of
      digits after it; its value is the exact decimal that text denotes. */
  lemma NumberLaw(s: string)
    ensures Run(NumberParser, s).Ok? <==> s != "" && IsDigitChar(s[0])
    ensures !Run(NumberParser, s).Ok? ==> Run(NumberParser, s).Fail?
    ensures Run(NumberParser, s).Ok? ==>
              var k := RunLength(s, IsDigitChar);
              var t := s[k..];
              if |t| >= 2 && t[0] == '.' && IsDigitChar(t[1]) then
                var m := RunLength(t[1..], IsDigitChar);
                Run(NumberParser, s) == Ok(Num(DigitsToNat(s[..k] + t[1..][..m]), m), t[1..][m..])
              else
                Run(NumberParser, s) == Ok(Num(DigitsToNat(s[..k]), 0), t)
  {
    NumberGrammarLaw(s);
    MapLaw(NumberGrammar, NumberValue, s);
    if s != "" && IsDigitChar(s[0]) {
      var k := RunLength(s, IsDigitChar);
      var t := s[k..];
      FractionLaw(t);
      if |t| >= 2 && t[0] == '.' && IsDigitChar(t[1]) {
        var m := RunLength(t[1..], IsDigitChar);
        NumberValueOfText(s[..k], t[1..][..m]);
      } else {
        NumberValueOfText(s[..k], "");
      }
    }
  }

  /** Writing digits `a`, a '.' and digits `b` in front of any text `t`
      that does not start with a digit parses back to `a.b` and `t`. */
  lemma NumberRoundTrip(a: string, b: string, t: string)
    requires a != "" && forall i :: 0 <= i < |a| ==> IsDigitChar(a[i])
    requires b != "" && forall i :: 0 <= i < |b| ==> IsDigitChar(b[i])
    requires t == "" || !IsDigitChar(t[0])
    ensures Run(NumberParser, a + ("." + (b + t))) == Ok(Num(DigitsToNat(a + b), |b|), t)
  {
    var v := b + t;
    var u := "." + v;
    var s := a + u;
    RunLengthSplit(a, u, IsDigitChar);
    assert u[1..] == v;
    RunLengthSplit(b, t, IsDigitChar);
    assert |u| >= 2 && u[0] == '.' && IsDigitChar(u[1]);
    NumberLaw(s);
    var k := RunLength(s, IsDigitChar);
    assert k == |a| && s[..k] == a && s[k..] == u;
    var m := RunLength(u[1..], IsDigitChar);
    assert m == |b| && u[1..][..m] == b && u[1..][m..] == t;
  }

  /** Writing digits `a` in front of any text `t` that cannot extend the
      number parses back to `a` and `t`. */
  lemma IntegerRoundTrip(a: string, t: string)
    requires a != "" && forall i :: 0 <= i < |a| ==> IsDigitChar(a[i])
    requires t == "" || !IsDigitChar(t[0])
    requires !(|t| >= 2 && t[0] == '.' && IsDigitChar(t[1]))
    ensures Run(NumberParser, a + t) == Ok(Num(DigitsToNat(a), 0), t)
  {
    RunLengthSplit(a, t, IsDigitChar);
    NumberLaw(a + t);
  }

  /** A '.' with no digit after it is left in place: only the integer digits
      are consumed, and the remainder still starts with the '.'. */
  lemma NumberAbandonsBareDot(a: string, t: string)
    requires a != "" && forall i :: 0 <= i < |a| ==> IsDigitChar(a[i])
    requires t == "" || !IsDigitChar(t[0])
    ensures Run(NumberParser, a + ("." + t)) == Ok(Num(DigitsToNat(a), 0), "." + t)
  {
    IntegerRoundTrip(a, "." + t);
  }

  /** No sign and no leading point: the first character must be a digit. */
  lemma NumberNeedsLeadingDigit(s: string)
    requires s == "" || !IsDigitChar(s[0])
    ensures Run(NumberParser, s).Fail?
  {
    NumberLaw(s);
  }

  // ---------------------------------------------------------------------
  // variable

  predicate IsIdentChar(c: char) {
    IsLetterChar(c) || IsDigitChar(c) || c == '_'
  }

  /** `or_(letter, digit, literal('_'))`. */
  const IdentChar: Parser := Or([Letter, Digit, Literal("_")])

  /** `sequence(letter, many(or_(letter, digit, literal('_'))))`. */
  const VariableGrammar: Parser := Sequence([Letter, Many(IdentChar)])

  /** That grammar mapped to a `Variable`. */
  const VariableParser: Parser := Map(VariableGrammar, VariableValue)

  /** The function `variable` maps over its grammar's value: the first letter
      and the following characters, joined into a variable name. Values of
      any other shape cannot come out of the grammar. */
  function VariableValue(v: Value): (r: Value) {
    if v.List? && |v.items| == 2 && v.items[0].Str? && v.items[1].List? then
      Sym(Variable(v.items[0].s + Joined(v.items[1].items)))
    else NoneV
  }

  lemma IdentCharMatchesOneChar()
    ensures MatchesOneChar(IdentChar, IsIdentChar)
  {
    forall t: string
      ensures !Run(IdentChar, t).Abort?
      ensures Run(IdentChar, t).Ok? <==> t != "" && IsIdentChar(t[0])
      ensures Run(IdentChar, t).Ok? ==> Run(IdentChar, t) == Ok(Str([t[0]]), t[1..])
    {
      var ps := [Letter, Digit, Literal("_")];
      LiteralCharLaw('_', t);
      if t != "" && IsLetterChar(t[0]) {
        OrFirstNonFailure(ps, t, 0);
      } else if t != "" && IsDigitChar(t[0]) {
        OrFirstNonFailure(ps, t, 1);
      } else if t != "" && t[0] == '_' {
        OrFirstNonFailure(ps, t, 2);
      } else {
        OrAllFail(ps, t);
      }
    }
  }

  /** `many(or_(letter, digit, literal('_')))` takes the longest run of
      identifier characters. */
  lemma ManyIdentChars(s: string)
    ensures Run(Many(IdentChar), s) ==
            Ok(List(Chars(s[..RunLength(s, IsIdentChar)])), s[RunLength(s, IsIdentChar)..])
  {
    IdentCharMatchesOneChar();
    ManyOfOneChar(IdentChar, IsIdentChar, s);
  }

  /** The grammar of `variable` before its value is mapped. */
  lemma VariableGrammarLaw(s: string)
    ensures Run(VariableGrammar, s).Ok? <==> s != "" && IsLetterChar(s[0])
    ensures !Run(VariableGrammar, s).Ok? ==> Run(VariableGrammar, s).Fail?
    ensures Run(VariableGrammar, s).Ok? ==>
              var k := RunLength(s[1..], IsIdentChar);
              Run(VariableGrammar, s) == Ok(List([Str([s[0]]), List(Chars(s[1..][..k]))]), s[1..][k..])
  {
    Sequence2(Letter, Many(IdentChar), s);
    if s != "" && IsLetterChar(s[0]) {
      ManyIdentChars(s[1..]);
    }
  }

  lemma VariableValueOfText(c: char, x: string)
    ensures VariableValue(List([Str([c]), List(Chars(x))])) == Sym(Variable([c] + x))
  {
    JoinedChars(x);
  }

  /** The first character followed by a run after it is a prefix of `s`. */
  lemma FirstAndRun(s: string, k: nat)
    requires 1 + k <= |s|
    ensures [s[0]] + s[1..][..k] == s[..1 + k]
    ensures s[1..][k..] == s[1 + k..]
  {
  }

  /** `variable` applies iff the input starts with a letter; the name is that
      letter and the longest run of letters, digits and '_' after it, and the
      remainder does not start with any of those. */
  lemma VariableLaw(s: string)
    ensures Run(VariableParser, s).Ok? <==> s != "" && IsLetterChar(s[0])
    ensures !Run(VariableParser, s).Ok? ==> Run(VariableParser, s).Fail?
    ensures Run(VariableParser, s).Ok? ==>
              var k := RunLength(s[1..], IsIdentChar);
              Run(VariableParser, s) == Ok(Sym(Variable(s[..1 + k])), s[1 + k..])
    ensures Run(VariableParser, s).Ok? ==>
              var rest := Run(VariableParser, s).rest;
              rest == "" || !IsIdentChar(rest[0])
  {
    VariableGrammarLaw(s);
    MapLaw(VariableGrammar, VariableValue, s);
    if s != "" && IsLetterChar(s[0]) {
      var k := RunLength(s[1..], IsIdentChar);
      VariableValueOfText(s[0], s[1..][..k]);
      FirstAndRun(s, k);
    }
  }

  /** Any identifier written in front of text that cannot extend it parses
      back to that variable and that text. */
  lemma VariableRoundTrip(name: string, t: string)
    requires name != "" && IsLetterChar(name[0])
    requires forall i :: 0 <= i < |name| ==> IsIdentChar(name[i])
    requires t == "" || !IsIdentChar(t[0])
    ensures Run(VariableParser, name + t) == Ok(Sym(Variable(name)), t)
  {
    var s := name + t;
    assert s[1..] == name[1..] + t;
    RunLengthOfPrefix(name[1..], t, IsIdentChar);
    assert s[..|name|] == name && s[|name|..] == t;
    VariableLaw(s);
  }

  // ---------------------------------------------------------------------
  // Worked inputs

  lemma NumberExamples()
    ensures Run(NumberParser, "12.x") == Ok(Num(12, 0), ".x")
    ensures Run(NumberParser, "3.25;") == Ok(Num(325, 2), ";")
    ensures Run(NumberParser, "-1").Fail?
    ensures Run(NumberParser, ".5").Fail?
  {
    NumberAbandonsBareDot("12", "x");
    assert "12" + ("." + "x") == "12.x";
    NumberRoundTrip("3", "25", ";");
    assert "3" + ("." + ("25" + ";")) == "3.25;";
    assert "3" + "25" == "325";
    assert DigitsToNat("3") == 3;
    assert "32"[..1] == "3" && DigitsToNat("32") == 32;
    assert "325"[..2] == "32" && DigitsToNat("325") == 325;
    NumberNeedsLeadingDigit("-1");
    NumberNeedsLeadingDigit(".5");
  }

  lemma VariableExamples()
    ensures Run(VariableParser, "x_1+y") == Ok(Sym(Variable("x_1")), "+y")
    ensures Run(VariableParser, "_x").Fail?
    ensures Run(VariableParser, "1x").Fail?
  {
    VariableRoundTrip("x_1", "+y");
    assert "x_1" + "+y" == "x_1+y";
    VariableLaw("_x");
    VariableLaw("1x");
  }
}
