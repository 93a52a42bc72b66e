/** What each combinator of `parsec/parse.py` promises, stated against the
    interpreter `Parse.Run` and proved for all parsers and all inputs.
 */
module ParseLaws {
  import opened Parse

  /** The primitive matchers, seen through the interpreter. */
  lemma DigitLaw(s: string)
    ensures Run(Digit, s).Ok? <==> s != "" && IsDigitChar(s[0])
    ensures Run(Digit, s).Ok? ==> Run(Digit, s) == Ok(Str([s[0]]), s[1..])
    ensures s == "" ==> Run(Digit, s) == Fail(EmptyString)
  {
  }

  lemma LetterLaw(s: string)
    ensures Run(Letter, s).Ok? <==> s != "" && IsLetterChar(s[0])
    ensures Run(Letter, s).Ok? ==> Run(Letter, s) == Ok(Str([s[0]]), s[1..])
    ensures s == "" ==> Run(Letter, s) == Fail(EmptyString)
  {
  }

  lemma EndLaw(s: string)
    ensures Run(End, s).Ok? <==> s == ""
    ensures s == "" ==> Run(End, s) == Ok(NoneV, "")
  {
  }

  /** A one-character literal behaves like a character test. */
  lemma LiteralCharLaw(c: char, s: string)
    ensures Run(Literal([c]), s).Ok? <==> s != "" && s[0] == c
    ensures Run(Literal([c]), s).Ok? ==> Run(Literal([c]), s) == Ok(Str([c]), s[1..])
    ensures !Run(Literal([c]), s).Ok? ==> Run(Literal([c]), s) == Fail(LiteralMismatch([c]))
  {
    if s != "" {
      if s[0] == c {
        assert s[..1] == [c];
      } else {
        assert s[..1][0] != [c][0];
      }
    }
  }

  // ---------------------------------------------------------------------
  // sequence

  /** `rests[i]` is the input `ps[i]` ran on and `vs[i]` its value, for the
      first `|vs|` parsers of `ps`; each starts where the previous one ended. */
  ghost predicate SeqTrace(ps: seq<Parser>, s: string, vs: seq<Value>, rests: seq<string>) {
    && |vs| <= |ps|
    && |rests| == |vs| + 1
    && rests[0] == s
    && forall i :: 0 <= i < |vs| ==> Run(ps[i], rests[i]) == Ok(vs[i], rests[i + 1])
  }

  lemma {:induction false} SeqTraceTail(ps: seq<Parser>, s: string, vs: seq<Value>, rests: seq<string>)
    requires SeqTrace(ps, s, vs, rests) && |vs| > 0
    ensures SeqTrace(ps[1..], rests[1], vs[1..], rests[1..])
  {
    forall i | 0 <= i < |vs| - 1
      ensures Run(ps[1..][i], rests[1..][i]) == Ok(vs[1..][i], rests[1..][i + 1])
    {
      assert Run(ps[i + 1], rests[i + 1]) == Ok(vs[i + 1], rests[i + 2]);
    }
  }

  /** If every `ps[i]` succeeds on what `ps[i-1]` left, the sequence succeeds
      with all the values, in order, and the last remainder. */
  lemma {:induction false} SequenceSucceeds(ps: seq<Parser>, s: string, vs: seq<Value>, rests: seq<string>)
    requires SeqTrace(ps, s, vs, rests) && |vs| == |ps|
    ensures RunSeq(ps, s) == Ok(vs, rests[|ps|])
    ensures Run(Sequence(ps), s) == Ok(List(vs), rests[|ps|])
  {
    if ps != [] {
      SeqTraceTail(ps, s, vs, rests);
      SequenceSucceeds(ps[1..], rests[1], vs[1..], rests[1..]);
      assert [vs[0]] + vs[1..] == vs;
    }
  }

  /** If the first `k` parsers succeed in turn and `ps[k]` does not, the
      sequence ends with exactly `ps[k]`'s failure. */
  lemma {:induction false} SequenceStops(ps: seq<Parser>, s: string, vs: seq<Value>, rests: seq<string>)
    requires SeqTrace(ps, s, vs, rests) && |vs| < |ps|
    requires !Run(ps[|vs|], rests[|vs|]).Ok?
    ensures !Run(Sequence(ps), s).Ok?
    ensures Run(Sequence(ps), s) == Run(ps[|vs|], rests[|vs|])
  {
    if |vs| > 0 {
      SeqTraceTail(ps, s, vs, rests);
      SequenceStops(ps[1..], rests[1], vs[1..], rests[1..]);
    }
  }

  /** One successful step of the `sequence` loop. */
  lemma SeqStep(ps: seq<Parser>, s: string)
    requires ps != [] && Run(ps[0], s).Ok?
    ensures RunSeq(ps, s) ==
            RunSeq(ps[1..], Run(ps[0], s).rest).MapValue(vs => [Run(ps[0], s).value] + vs)
  {
  }

  /** `sequence(*ps)` wraps the values of its loop in a list. */
  lemma SequenceIsLoop(ps: seq<Parser>, s: string)
    ensures RunSeq(ps, s).Ok? ==> Run(Sequence(ps), s) == Ok(List(RunSeq(ps, s).value), RunSeq(ps, s).rest)
    ensures !RunSeq(ps, s).Ok? ==> !Run(Sequence(ps), s).Ok?
  {
  }

  lemma {:induction false} SeqLoopTrace(ps: seq<Parser>, s: string) returns (rests: seq<string>)
    requires RunSeq(ps, s).Ok?
    ensures SeqTrace(ps, s, RunSeq(ps, s).value, rests)
    ensures rests[|ps|] == RunSeq(ps, s).rest
    decreases ps
  {
    if ps == [] {
      rests := [s];
    } else {
      var first := Run(ps[0], s);
      assert first.Ok?;
      SeqStep(ps, s);
      var tail := SeqLoopTrace(ps[1..], first.rest);
      rests := [s] + tail;
      var vs := RunSeq(ps, s).value;
      assert vs == [first.value] + RunSeq(ps[1..], first.rest).value;
      forall i | 0 <= i < |vs|
        ensures Run(ps[i], rests[i]) == Ok(vs[i], rests[i + 1])
      {
        if i > 0 {
          assert Run(ps[1..][i - 1], tail[i - 1]) == Ok(vs[i], tail[i]);
        }
      }
    }
  }

  /** Conversely, a successful sequence has one value per parser and a trace
      that explains it. */
  lemma SequenceTrace(ps: seq<Parser>, s: string) returns (rests: seq<string>)
    requires Run(Sequence(ps), s).Ok?
    ensures Run(Sequence(ps), s).value.List?
    ensures |Run(Sequence(ps), s).value.items| == |ps|
    ensures SeqTrace(ps, s, Run(Sequence(ps), s).value.items, rests)
    ensures rests[|ps|] == Run(Sequence(ps), s).rest
  {
    SequenceIsLoop(ps, s);
    rests := SeqLoopTrace(ps, s);
  }

  /** The two-parser case of the sequence laws, which the grammars use. */
  lemma Sequence2(p1: Parser, p2: Parser, s: string)
    ensures !Run(p1, s).Ok? ==> Run(Sequence([p1, p2]), s) == Run(p1, s)
    ensures Run(p1, s).Ok? && !Run(p2, Run(p1, s).rest).Ok? ==>
              Run(Sequence([p1, p2]), s) == Run(p2, Run(p1, s).rest)
    ensures Run(p1, s).Ok? && Run(p2, Run(p1, s).rest).Ok? ==>
              var r1 := Run(p1, s);
              var r2 := Run(p2, r1.rest);
              Run(Sequence([p1, p2]), s) == Ok(List([r1.value, r2.value]), r2.rest)
  {
    var ps := [p1, p2];
    var r1 := Run(p1, s);
    if !r1.Ok? {
      SequenceStops(ps, s, [], [s]);
    } else {
      var r2 := Run(p2, r1.rest);
      if !r2.Ok? {
        SequenceStops(ps, s, [r1.value], [s, r1.rest]);
      } else {
        SequenceSucceeds(ps, s, [r1.value, r2.value], [s, r1.rest, r2.rest]);
      }
    }
  }

  // ---------------------------------------------------------------------
  // concat and pmap

  /** `concat` succeeds or fails with `sequence`, keeps its remainder, and
      joins the non-empty strings among its values; a truthy value that is
      not a string makes the join raise. */
  lemma ConcatLaw(ps: seq<Parser>, s: string)
    ensures Run(Concat(ps), s).Fail? <==> Run(Sequence(ps), s).Fail?
    ensures Run(Sequence(ps), s).Fail? ==> Run(Concat(ps), s) == Run(Sequence(ps), s)
    ensures Run(Concat(ps), s).Ok? ==>
              Run(Sequence(ps), s).Ok? && Run(Concat(ps), s).rest == Run(Sequence(ps), s).rest
    ensures Run(Concat(ps), s).Ok? ==>
              Run(Concat(ps), s).value == Str(Joined(Run(Sequence(ps), s).value.items))
    ensures Run(Sequence(ps), s).Ok? ==>
              var vs := Run(Sequence(ps), s).value.items;
              (Run(Concat(ps), s).Ok? <==> forall i :: 0 <= i < |vs| && Truthy(vs[i]) ==> vs[i].Str?)
    ensures Run(Sequence(ps), s).Ok? && !Run(Concat(ps), s).Ok? ==>
              Run(Concat(ps), s) == Abort(JoinTypeError)
    ensures Run(Sequence(ps), s).Abort? ==> Run(Concat(ps), s) == Run(Sequence(ps), s)
  {
    SequenceIsLoop(ps, s);
    match RunSeq(ps, s)
    case Ok(vs, t) =>
      JoinTruthyLaw(vs);
      assert Run(Sequence(ps), s).value.items == vs;
    case Fail(_) =>
    case Abort(_) =>
  }

  lemma {:induction false} JoinTruthyLaw(vs: seq<Value>)
    ensures JoinTruthy(vs).JoinOk? <==> forall i :: 0 <= i < |vs| && Truthy(vs[i]) ==> vs[i].Str?
    ensures JoinTruthy(vs).JoinOk? ==> JoinTruthy(vs).text == Joined(vs)
    ensures JoinTruthy(vs).JoinRaises? ==> JoinTruthy(vs).error == JoinTypeError
  {
    if vs != [] {
      JoinTruthyLaw(vs[1..]);
      assert forall i :: 1 <= i < |vs| ==> vs[i] == vs[1..][i - 1];
    }
  }

  /** `pmap(p)(f)`: same success, same remainder, value passed through `f`. */
  lemma MapLaw(p: Parser, f: Value -> Value, s: string)
    ensures Run(Map(p, f), s).Ok? <==> Run(p, s).Ok?
    ensures Run(p, s).Ok? ==> Run(Map(p, f), s) == Ok(f(Run(p, s).value), Run(p, s).rest)
    ensures !Run(p, s).Ok? ==> Run(Map(p, f), s) == Run(p, s)
  {
  }

  // ---------------------------------------------------------------------
  // or_ and try_

  /** `or_` answers with the first alternative that does not raise a
      `ParseError`, run on the original input. */
  lemma {:induction false} OrFirstNonFailure(ps: seq<Parser>, s: string, k: nat)
    requires k < |ps|
    requires forall j :: 0 <= j < k ==> Run(ps[j], s).Fail?
    requires !Run(ps[k], s).Fail?
    ensures Run(Or(ps), s) == Run(ps[k], s)
  {
    if k > 0 {
      assert Run(ps[0], s).Fail?;
      assert forall j :: 0 <= j < k - 1 ==> ps[1..][j] == ps[j + 1];
      OrFirstNonFailure(ps[1..], s, k - 1);
    }
  }

  /** `or_` fails exactly when every alternative fails, and then with its own message. */
  lemma {:induction false} OrAllFail(ps: seq<Parser>, s: string)
    ensures Run(Or(ps), s).Fail? <==> forall j :: 0 <= j < |ps| ==> Run(ps[j], s).Fail?
    ensures Run(Or(ps), s).Fail? ==> Run(Or(ps), s) == Fail(NoneApply)
    decreases ps
  {
    if ps != [] {
      OrAllFail(ps[1..], s);
      assert forall j :: 1 <= j < |ps| ==> ps[j] == ps[1..][j - 1];
    }
  }

  /** Whatever `or_` returns on success is what one of its alternatives
      returned on the very same input. */
  lemma {:induction false} OrResultComesFromAnAlternative(ps: seq<Parser>, s: string) returns (k: nat)
    requires Run(Or(ps), s).Ok?
    ensures k < |ps| && Run(ps[k], s) == Run(Or(ps), s)
    ensures forall j :: 0 <= j < k ==> Run(ps[j], s).Fail?
    decreases ps
  {
    if Run(ps[0], s).Fail? {
      var k' := OrResultComesFromAnAlternative(ps[1..], s);
      k := k' + 1;
      assert forall j :: 1 <= j < k ==> ps[j] == ps[1..][j - 1];
    } else {
      k := 0;
    }
  }

  /** `try_` never raises a `ParseError`; on one it returns `None` and the
      untouched input, otherwise it is `p` itself. */
  lemma TryLaw(p: Parser, s: string)
    ensures !Run(Try(p), s).Fail?
    ensures Run(p, s).Fail? ==> Run(Try(p), s) == Ok(NoneV, s)
    ensures !Run(p, s).Fail? ==> Run(Try(p), s) == Run(p, s)
  {
  }

  // ---------------------------------------------------------------------
  // many and manyone

  /** `rests[i]` is the input of the i-th kept iteration of `many(p)`, which
      produced `vs[i]` and strictly shortened the input. */
  ghost predicate ManyTrace(p: Parser, s: string, vs: seq<Value>, rests: seq<string>) {
    && |rests| == |vs| + 1
    && rests[0] == s
    && forall i :: 0 <= i < |vs| ==>
         Run(p, rests[i]) == Ok(vs[i], rests[i + 1]) && |rests[i + 1]| < |rests[i]|
  }

  /** The attempt that ends the loop: a `ParseError`, or a success that
      consumed nothing. */
  ghost predicate StopsAt(p: Parser, t: string) {
    Run(p, t).Fail? || (Run(p, t).Ok? && Run(p, t).rest == t)
  }

  lemma {:induction false} ManyTraceTail(p: Parser, s: string, vs: seq<Value>, rests: seq<string>)
    requires ManyTrace(p, s, vs, rests) && |vs| > 0
    ensures ManyTrace(p, rests[1], vs[1..], rests[1..])
  {
    forall i | 0 <= i < |vs| - 1
      ensures Run(p, rests[1..][i]) == Ok(vs[1..][i], rests[1..][i + 1])
      ensures |rests[1..][i + 1]| < |rests[1..][i]|
    {
      assert Run(p, rests[i + 1]) == Ok(vs[i + 1], rests[i + 2]);
    }
  }

  /** The attempt that stops the loop leaves it with no values. */
  lemma ManyStop(p: Parser, s: string)
    requires StopsAt(p, s)
    ensures RunMany(p, s) == Ok([], s)
  {
  }

  lemma {:induction false} ManyLoopSucceeds(p: Parser, s: string, vs: seq<Value>, rests: seq<string>)
    requires ManyTrace(p, s, vs, rests) && StopsAt(p, rests[|vs|])
    ensures RunMany(p, s) == Ok(vs, rests[|vs|])
    decreases |vs|
  {
    if vs == [] {
      ManyStop(p, s);
    } else {
      assert Run(p, s) == Ok(vs[0], rests[1]);
      ManyStep(p, s, vs[0], rests[1]);
      ManyTraceTail(p, s, vs, rests);
      ManyLoopSucceeds(p, rests[1], vs[1..], rests[1..]);
      assert [vs[0]] + vs[1..] == vs;
    }
  }

  /** If the iterations of a trace each consumed input and the next attempt
      stops the loop, `many(p)` returns exactly the trace's values. */
  lemma ManySucceeds(p: Parser, s: string, vs: seq<Value>, rests: seq<string>)
    requires ManyTrace(p, s, vs, rests) && StopsAt(p, rests[|vs|])
    ensures RunMany(p, s) == Ok(vs, rests[|vs|])
    ensures Run(Many(p), s) == Ok(List(vs), rests[|vs|])
  {
    ManyLoopSucceeds(p, s, vs, rests);
    ManyIsLoop(p, s);
  }

  lemma {:induction false} ManyLoopAborts(p: Parser, s: string, vs: seq<Value>, rests: seq<string>)
    requires ManyTrace(p, s, vs, rests) && Run(p, rests[|vs|]).Abort?
    ensures RunMany(p, s) == Abort(Run(p, rests[|vs|]).error)
    decreases |vs|
  {
    if vs != [] {
      assert Run(p, s) == Ok(vs[0], rests[1]);
      ManyStep(p, s, vs[0], rests[1]);
      ManyTraceTail(p, s, vs, rests);
      ManyLoopAborts(p, rests[1], vs[1..], rests[1..]);
    }
  }

  /** An exception other than `ParseError` escapes `many(p)`. */
  lemma ManyAborts(p: Parser, s: string, vs: seq<Value>, rests: seq<string>)
    requires ManyTrace(p, s, vs, rests) && Run(p, rests[|vs|]).Abort?
    ensures RunMany(p, s) == Abort(Run(p, rests[|vs|]).error)
    ensures Run(Many(p), s) == Abort(Run(p, rests[|vs|]).error)
  {
    ManyLoopAborts(p, s, vs, rests);
    ManyIsLoop(p, s);
  }

  /** Conversely, every result of `many(p)` comes from such a trace: each kept
      iteration strictly consumed input and the loop stopped where it says. */
  lemma {:induction false} ManyTraceOf(p: Parser, s: string) returns (rests: seq<string>)
    requires Run(Many(p), s).Ok?
    ensures Run(Many(p), s).value.List?
    ensures ManyTrace(p, s, Run(Many(p), s).value.items, rests)
    ensures rests[|Run(Many(p), s).value.items|] == Run(Many(p), s).rest
    ensures StopsAt(p, Run(Many(p), s).rest)
    decreases |s|
  {
    var first := Run(p, s);
    if first.Fail? || first.rest == s {
      rests := [s];
    } else {
      assert first.Ok?;
      var t := first.rest;
      assert |t| < |s|;
      var tail := ManyTraceOf(p, t);
      rests := [s] + tail;
      var vs := Run(Many(p), s).value.items;
      assert vs == [first.value] + Run(Many(p), t).value.items;
      forall i | 0 <= i < |vs|
        ensures Run(p, rests[i]) == Ok(vs[i], rests[i + 1]) && |rests[i + 1]| < |rests[i]|
      {
        if i > 0 {
          assert rests[i] == tail[i - 1] && rests[i + 1] == tail[i];
        }
      }
    }
  }

  /** One consuming step of the `many` loop. */
  lemma ManyStep(p: Parser, s: string, v: Value, t: string)
    requires Run(p, s) == Ok(v, t) && t != s
    ensures RunMany(p, s) == RunMany(p, t).MapValue(vs => [v] + vs)
  {
  }

  /** `many(p)` wraps the values of its loop in a list. */
  lemma ManyIsLoop(p: Parser, s: string)
    ensures RunMany(p, s).Ok? ==> Run(Many(p), s) == Ok(List(RunMany(p, s).value), RunMany(p, s).rest)
    ensures RunMany(p, s).Abort? ==> Run(Many(p), s) == Abort(RunMany(p, s).error)
  {
  }

  /** `many(p)` never raises a `ParseError`, leaves a suffix of its input,
      and answers an immediate failure of `p` with no values and no input consumed. */
  lemma ManyNeverFails(p: Parser, s: string)
    ensures !Run(Many(p), s).Fail?
    ensures Run(Many(p), s).Ok? ==> IsSuffix(Run(Many(p), s).rest, s)
    ensures Run(p, s).Fail? ==> Run(Many(p), s) == Ok(List([]), s)
  {
  }

  /** Each kept value paid for at least one character, so `many(p)` never
      returns more values than characters it consumed. */
  lemma {:induction false} ManyCountBound(p: Parser, s: string)
    requires Run(Many(p), s).Ok?
    ensures |Run(Many(p), s).value.items| <= |s| - |Run(Many(p), s).rest|
  {
    var rests := ManyTraceOf(p, s);
    TraceShrinks(p, s, Run(Many(p), s).value.items, rests);
  }

  lemma {:induction false} TraceShrinks(p: Parser, s: string, vs: seq<Value>, rests: seq<string>)
    requires ManyTrace(p, s, vs, rests)
    ensures |vs| <= |s| - |rests[|vs|]|
    decreases |vs|
  {
    if vs != [] {
      ManyTraceTail(p, s, vs, rests);
      TraceShrinks(p, rests[1], vs[1..], rests[1..]);
    }
  }

  /** `manyone(p)` raises exactly what `p`'s first attempt raises; otherwise
      it is that first value in front of `many(p)` on the remainder. */
  lemma ManyOneLaw(p: Parser, s: string)
    ensures Run(ManyOne(p), s).Fail? <==> Run(p, s).Fail?
    ensures !Run(p, s).Ok? ==> Run(ManyOne(p), s) == Run(p, s)
    ensures Run(p, s).Ok? ==>
              var many := Run(Many(p), Run(p, s).rest);
              && (many.Ok? ==> Run(ManyOne(p), s) == Ok(List([Run(p, s).value] + many.value.items), many.rest))
              && (many.Abort? ==> Run(ManyOne(p), s) == many)
    ensures Run(ManyOne(p), s).Ok? ==> Run(ManyOne(p), s).value.List? && |Run(ManyOne(p), s).value.items| >= 1
  {
    if Run(p, s).Ok? {
      ManyIsLoop(p, Run(p, s).rest);
    }
  }

  /** Unlike `many`, `manyone` keeps a first success that consumed nothing. */
  lemma ManyOneKeepsEmptyFirstMatch(p: Parser, s: string, v: Value)
    requires Run(p, s) == Ok(v, s)
    ensures Run(ManyOne(p), s) == Ok(List([v]), s)
    ensures Run(Many(p), s) == Ok(List([]), s)
  {
    ManyStop(p, s);
    ManyIsLoop(p, s);
    ManyOneLaw(p, s);
    assert [v] + [] == [v];
  }
}
