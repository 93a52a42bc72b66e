/** The parser-combinator engine of `parsec/parse.py`, as a deep embedding.

    A Python parser is a callable from a string to `(value, remainder)` that
    raises `ParseError` when it does not apply. Here a parser is a value of the
    datatype `Parser`, and `Run` interprets it: `Ok(value, rest)` for the pair,
    `Fail(msg)` for a raised `ParseError`, and `Abort(error)` for any other
    exception, which no combinator catches.
 */
module Parse {
  import opened Symbols

  /** A literal's text; the empty string is refused when the parser is built. */
  type NonEmptyString = s: string | s != "" witness "_"

  /** The Python values the engine and the grammars built on it produce.
      `Num(m, k)` is the exact decimal m * 10^-k. */
  datatype Value =
    | Str(s: string)
    | List(items: seq<Value>)
    | NoneV
    | Sym(sym: Symbol)
    | Num(mantissa: nat, scale: nat)

  datatype Result<+T> =
    | Ok(value: T, rest: string)
    | Fail(msg: string)
    | Abort(error: string)
  {
    /** Transforms the value of a success; failures pass through unchanged. */
    function MapValue<U>(f: T -> U): (r: Result<U>)
      ensures r.Ok? <==> Ok?
      ensures Ok? ==> r.value == f(value) && r.rest == rest
      ensures Fail? ==> r == Fail(msg)
      ensures Abort? ==> r == Abort(error)
    {
      match this
      case Ok(v, t) => Ok(f(v), t)
      case Fail(m) => Fail(m)
      case Abort(e) => Abort(e)
    }
  }

  datatype Parser =
    | Digit
    | Letter
    | Literal(lit: NonEmptyString)
    | End
    | Sequence(ps: seq<Parser>)
    | Concat(ps: seq<Parser>)
    | Map(p: Parser, f: Value -> Value)
    | Or(ps: seq<Parser>)
    | Try(p: Parser)
    | Many(p: Parser)
    | ManyOne(p: Parser)

  /** `literal(lit)` either builds a parser or raises `ValueError` on the spot. */
  datatype Built = Built(parser: Parser) | ValueError(msg: string)

  const EmptyString := "empty string"
  const NotADigit := "not a digit"
  const NotALetter := "not a letter"
  const NotTheEnd := "not the end of input"
  const NoneApply := "none of the given parsers apply"
  const JoinTypeError := "sequence item: expected str instance"

  function LiteralMismatch(lit: string): string {
    "doesn't match literal '" + lit + "'"
  }

  predicate IsDigitChar(c: char) {
    '0' <= c <= '9'
  }

  predicate IsLetterChar(c: char) {
    ('A' <= c <= 'Z') || ('a' <= c <= 'z')
  }

  /** `t` is what is left of `s` after dropping some prefix. */
  predicate IsSuffix(t: string, s: string) {
    |t| <= |s| && s[|s| - |t|..] == t
  }

  /** A suffix of a suffix of `s` is a suffix of `s`. */
  lemma SuffixOfSuffix<T>(r: Result<T>, t: string, s: string)
    requires IsSuffix(t, s)
    requires r.Ok? ==> IsSuffix(r.rest, t)
    ensures r.Ok? ==> IsSuffix(r.rest, s)
  {
    if r.Ok? {
      assert s[|s| - |r.rest|..] == s[|s| - |t|..][|t| - |r.rest|..];
    }
  }

  predicate StartsWith(s: string, prefix: string) {
    |prefix| <= |s| && s[..|prefix|] == prefix
  }

  /** `digit`: one ASCII digit, recognised by its character code. */
  function RunDigit(s: string): (r: Result<Value>)
    ensures r.Ok? <==> s != "" && IsDigitChar(s[0])
    ensures r.Ok? ==> r.value == Str([s[0]]) && r.rest == s[1..]
    ensures s == "" ==> r == Fail(EmptyString)
    ensures s != "" && !IsDigitChar(s[0]) ==> r == Fail(NotADigit)
  {
    if |s| == 0 then Fail(EmptyString)
    else
      var code := s[0] as int;
      if code <= 57 && code >= 48 then Ok(Str([s[0]]), s[1..])
      else Fail(NotADigit)
  }

  /** `letter`: one ASCII letter, recognised by its character code. */
  function RunLetter(s: string): (r: Result<Value>)
    ensures r.Ok? <==> s != "" && IsLetterChar(s[0])
    ensures r.Ok? ==> r.value == Str([s[0]]) && r.rest == s[1..]
    ensures s == "" ==> r == Fail(EmptyString)
    ensures s != "" && !IsLetterChar(s[0]) ==> r == Fail(NotALetter)
  {
    if |s| == 0 then Fail(EmptyString)
    else
      var code := s[0] as int;
      if (code <= 90 && code >= 65) || (code <= 122 && code >= 97) then Ok(Str([s[0]]), s[1..])
      else Fail(NotALetter)
  }

  /** `literal(lit)` once built: matches `lit` at the front of the input. */
  function RunLiteral(lit: NonEmptyString, s: string): (r: Result<Value>)
    ensures r.Ok? <==> StartsWith(s, lit)
    ensures r.Ok? ==> r.value == Str(lit) && lit + r.rest == s
    ensures !r.Ok? ==> r == Fail(LiteralMismatch(lit))
  {
    if |lit| <= |s| && s[..|lit|] == lit then
      assert s == s[..|lit|] + s[|lit|..];
      Ok(Str(lit), s[|lit|..])
    else Fail(LiteralMismatch(lit))
  }

  /** `end`: matches only the empty input. */
  function RunEnd(s: string): (r: Result<Value>)
    ensures r.Ok? <==> s == ""
    ensures r.Ok? ==> r.value == NoneV && r.rest == ""
    ensures !r.Ok? ==> r == Fail(NotTheEnd)
  {
    if s != "" then Fail(NotTheEnd) else Ok(NoneV, "")
  }

  /** `literal(lit)` at construction time. */
  function MakeLiteral(lit: string): (r: Built)
    ensures r.ValueError? <==> lit == ""
    ensures r.Built? ==> r.parser.Literal? && r.parser.lit == lit
  {
    if lit == "" then ValueError("literal mustn't be an empty string")
    else Built(Literal(lit))
  }

  /** Python truthiness, which `filter(bool, ...)` in `concat` tests. */
  predicate Truthy(v: Value)
    ensures !Truthy(v) <==> v == NoneV || v == Str("") || v == List([]) || (v.Num? && v.mantissa == 0)
  {
    match v
    case Str(s) => s != ""
    case List(items) => items != []
    case NoneV => false
    case Sym(_) => true
    case Num(m, _) => m != 0
  }

  /** The text of the string values among `vs`, in order; the others add nothing. */
  function Joined(vs: seq<Value>): string {
    if vs == [] then ""
    else (if vs[0].Str? then vs[0].s else "") + Joined(vs[1..])
  }

  /** The outcome of `"".join(...)`: the joined text, or the `TypeError` it raises. */
  datatype Join = JoinOk(text: string) | JoinRaises(error: string)

  /** `"".join(filter(bool, values))`: the falsy values are dropped, the
      remaining ones must all be strings or the join raises `TypeError`. */
  function JoinTruthy(vs: seq<Value>): (r: Join)
    ensures r.JoinRaises? ==> r.error == JoinTypeError
    ensures r.JoinRaises? ==> exists i :: 0 <= i < |vs| && Truthy(vs[i]) && !vs[i].Str?
  {
    if vs == [] then JoinOk("")
    else if !Truthy(vs[0]) then JoinTruthy(vs[1..])
    else if !vs[0].Str? then JoinRaises(JoinTypeError)
    else
      match JoinTruthy(vs[1..])
      case JoinOk(t) => JoinOk(vs[0].s + t)
      case JoinRaises(e) => JoinRaises(e)
  }

  /** The interpreter. Every successful run leaves a suffix of its input,
      which is what makes `Many` terminate. */
  function Run(p: Parser, s: string): (r: Result<Value>)
    decreases p, |s|, 1
    ensures r.Ok? ==> IsSuffix(r.rest, s)
  {
    match p
    case Digit => RunDigit(s)
    case Letter => RunLetter(s)
    case Literal(lit) => RunLiteral(lit, s)
    case End => RunEnd(s)
    case Sequence(ps) => RunSeq(ps, s).MapValue(vs => List(vs))
    case Concat(ps) =>
      (match RunSeq(ps, s)
       case Ok(vs, t) =>
         (match JoinTruthy(vs)
          case JoinOk(joined) => Ok(Str(joined), t)
          case JoinRaises(e) => Abort(e))
       case Fail(m) => Fail(m)
       case Abort(e) => Abort(e))
    case Map(q, f) => Run(q, s).MapValue(f)
    case Or(ps) => RunOr(ps, s)
    case Try(q) =>
      (match Run(q, s)
       case Fail(_) => Ok(NoneV, s)
       case Ok(v, t) => Ok(v, t)
       case Abort(e) => Abort(e))
    case Many(q) => RunMany(q, s).MapValue(vs => List(vs))
    case ManyOne(q) =>
      (match Run(q, s)
       case Ok(v, t) =>
         var r := RunMany(q, t);
         SuffixOfSuffix(r, t, s);
         r.MapValue(vs => List([v] + vs))
       case Fail(m) => Fail(m)
       case Abort(e) => Abort(e))
  }

  /** `sequence(*ps)`: each parser runs on what the previous one left. */
  function RunSeq(ps: seq<Parser>, s: string): (r: Result<seq<Value>>)
    decreases ps, |s|, 1
    ensures r.Ok? ==> IsSuffix(r.rest, s) && |r.value| == |ps|
  {
    if ps == [] then Ok([], s)
    else
      match Run(ps[0], s)
      case Ok(v, t) =>
        var r := RunSeq(ps[1..], t);
        SuffixOfSuffix(r, t, s);
        r.MapValue(vs => [v] + vs)
      case Fail(m) => Fail(m)
      case Abort(e) => Abort(e)
  }

  /** `or_(*ps)`: every alternative runs on the same input; a `ParseError`
      moves on to the next one, anything else is the answer. */
  function RunOr(ps: seq<Parser>, s: string): (r: Result<Value>)
    decreases ps, |s|, 1
    ensures r.Ok? ==> IsSuffix(r.rest, s)
    ensures r.Fail? ==> r.msg == NoneApply
  {
    if ps == [] then Fail(NoneApply)
    else
      match Run(ps[0], s)
      case Fail(_) => RunOr(ps[1..], s)
      case Ok(v, t) => Ok(v, t)
      case Abort(e) => Abort(e)
  }

  /** The loop of `many(p)`: it ends at the first `ParseError`, which includes
      the "no input is being consumed" error raised for a success that left the
      input unchanged; the value of that last attempt is not kept. */
  function RunMany(p: Parser, s: string): (r: Result<seq<Value>>)
    decreases p, |s|, 2
    ensures !r.Fail?
    ensures r.Ok? ==> IsSuffix(r.rest, s)
  {
    match Run(p, s)
    case Fail(_) => Ok([], s)
    case Abort(e) => Abort(e)
    case Ok(v, t) =>
      if t == s then Ok([], s)
      else
        var r := RunMany(p, t);
        SuffixOfSuffix(r, t, s);
        r.MapValue(vs => [v] + vs)
  }
}
