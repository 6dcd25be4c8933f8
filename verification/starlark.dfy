/**
 * The generated Starlark, as a structured expression tree instead of text.
 * Constructor calls carry keyword arguments only, in a fixed declared order.
 */
module Starlark {
  import opened Base

  datatype Expr =
    | Str(s: string)                          // "..."
    | NoneLit                                 // None
    | BoolLit(b: bool)                        // True / False
    | ListOf(items: seq<Expr>)                // [a, b, ...]
    | Ident(name: string)                     // a reference to a hoisted declaration
    | Call(callee: string, args: seq<KwArg>)  // callee(name = value, ...)

  datatype KwArg = KwArg(name: string, value: Expr)

  /** A keyword argument that may be left out: (name, Some(value)) or (name, None). */
  type Candidate = (string, Option<Expr>)

  function ArgNames(args: seq<KwArg>): seq<string> {
    seq(|args|, i requires 0 <= i < |args| => args[i].name)
  }

  function CandidateNames(cs: seq<Candidate>): seq<string> {
    seq(|cs|, i requires 0 <= i < |cs| => cs[i].0)
  }

  /** The value of the first argument called `name`. */
  function Arg(args: seq<KwArg>, name: string): (r: Option<Expr>)
    ensures r.Some? ==> exists i :: 0 <= i < |args| && args[i] == KwArg(name, r.value)
  {
    if |args| == 0 then None
    else if args[0].name == name then Some(args[0].value)
    else Arg(args[1..], name)
  }

  /** `a` is `b` with some elements left out. */
  predicate SubsequenceOf<T(==)>(a: seq<T>, b: seq<T>) {
    |a| == 0 || (|b| > 0 && if a[0] == b[0] then SubsequenceOf(a[1..], b[1..]) else SubsequenceOf(a, b[1..]))
  }

  /**
   * The arguments of a constructor call: the present candidates, in the
   * declared order of the candidates and never in any other order.
   */
  function Kwargs(cs: seq<Candidate>): (r: seq<KwArg>)
    ensures SubsequenceOf(ArgNames(r), CandidateNames(cs))
    ensures NoDup(CandidateNames(cs)) ==> forall i :: 0 <= i < |cs| ==> Arg(r, cs[i].0) == cs[i].1
  {
    if |cs| == 0 then []
    else
      var rest := Kwargs(cs[1..]);
      var r := match cs[0].1
        case Some(v) => [KwArg(cs[0].0, v)] + rest
        case None => rest;
      assert CandidateNames(cs)[0] == cs[0].0;
      assert CandidateNames(cs)[1..] == CandidateNames(cs[1..]);
      assert ArgNames(r) == if cs[0].1.Some? then [cs[0].0] + ArgNames(rest) else ArgNames(rest);
      assert SubsequenceOf(ArgNames(r), CandidateNames(cs)) by {
        if cs[0].1.None? {
          SubsequenceSkip(ArgNames(rest), CandidateNames(cs));
        }
      }
      assert NoDup(CandidateNames(cs)) ==> forall i :: 0 <= i < |cs| ==> Arg(r, cs[i].0) == cs[i].1 by {
        if NoDup(CandidateNames(cs)) {
          forall i | 0 <= i < |cs|
            ensures Arg(r, cs[i].0) == cs[i].1
          {
            if i > 0 {
              assert cs[i] == cs[1..][i - 1];
              assert CandidateNames(cs)[i] != CandidateNames(cs)[0];
              assert NoDup(CandidateNames(cs[1..]));
            } else {
              assert cs[0].0 !in CandidateNames(cs[1..]);
              SubsequenceMembers(ArgNames(rest), CandidateNames(cs[1..]), cs[0].0);
              ArgNotNamed(rest, cs[0].0);
            }
          }
        }
      }
      r
  }

  lemma {:induction false} SubsequenceSkip<T>(a: seq<T>, b: seq<T>)
    requires |b| > 0 && SubsequenceOf(a, b[1..])
    ensures SubsequenceOf(a, b)
    decreases |a| + |b|
  {
    if |a| > 0 && a[0] == b[0] {
      // a[1..] is a subsequence of b[1..] because a is
      SubsequenceTail(a, b[1..]);
    }
  }

  lemma {:induction false} SubsequenceTail<T>(a: seq<T>, b: seq<T>)
    requires |a| > 0 && SubsequenceOf(a, b)
    ensures SubsequenceOf(a[1..], b)
    decreases |a| + |b|
  {
    if a[0] == b[0] {
      if |b[1..]| > 0 {
        SubsequenceSkip(a[1..], b);
      }
    } else {
      SubsequenceTail(a, b[1..]);
      SubsequenceSkip(a[1..], b);
    }
  }

  lemma {:induction false} SubsequenceMembers<T>(a: seq<T>, b: seq<T>, x: T)
    requires SubsequenceOf(a, b) && x !in b
    ensures x !in a
    decreases |b|
  {
    if |a| > 0 {
      if a[0] == b[0] {
        SubsequenceMembers(a[1..], b[1..], x);
        assert a == [a[0]] + a[1..];
      } else {
        SubsequenceMembers(a, b[1..], x);
      }
    }
  }

  lemma {:induction false} ArgNotNamed(args: seq<KwArg>, name: string)
    requires name !in ArgNames(args)
    ensures Arg(args, name) == None
  {
    if |args| > 0 {
      assert ArgNames(args)[0] == args[0].name;
      assert ArgNames(args[1..]) == ArgNames(args)[1..];
      ArgNotNamed(args[1..], name);
    }
  }

  /** A list of string literals. */
  function Strings(xs: seq<string>): Expr {
    ListOf(seq(|xs|, i requires 0 <= i < |xs| => Str(xs[i])))
  }

  /** A list argument, left out when empty. */
  function ListArg(name: string, items: seq<Expr>): Candidate {
    (name, if |items| == 0 then None else Some(ListOf(items)))
  }

  function StringsArg(name: string, xs: seq<string>): Candidate {
    (name, if |xs| == 0 then None else Some(Strings(xs)))
  }

  function OptionalStrArg(name: string, x: Option<string>): Candidate {
    (name, match x case Some(s) => Some(Str(s)) case None => None)
  }

  function StrArg(name: string, s: string): Candidate {
    (name, Some(Str(s)))
  }

  // ---- reading values back ----

  /** Decodes every item of a list, failing if any item fails. */
  function DecodeAll<T>(items: seq<Expr>, decode: Expr -> Option<T>): Option<seq<T>> {
    if |items| == 0 then Some([])
    else match (decode(items[0]), DecodeAll(items[1..], decode))
      case (Some(x), Some(xs)) => Some([x] + xs)
      case _ => None
  }

  function DecodeList<T>(e: Expr, decode: Expr -> Option<T>): Option<seq<T>> {
    if e.ListOf? then DecodeAll(e.items, decode) else None
  }

  /** A list whose items each decode to the matching element decodes to the whole sequence. */
  lemma {:induction false} DecodeAllOf<T>(items: seq<Expr>, decode: Expr -> Option<T>, xs: seq<T>)
    requires |items| == |xs| && forall i :: 0 <= i < |xs| ==> decode(items[i]) == Some(xs[i])
    ensures DecodeAll(items, decode) == Some(xs)
  {
    if |xs| > 0 {
      DecodeAllOf(items[1..], decode, xs[1..]);
      assert xs == [xs[0]] + xs[1..];
    }
  }

  function DecodeStr(e: Expr): Option<string> {
    if e.Str? then Some(e.s) else None
  }

  function DecodeStrings(e: Expr): Option<seq<string>> {
    DecodeList(e, DecodeStr)
  }

  /** A string-list literal is read back element by element, in order. */
  lemma {:induction false} StringsDecode(xs: seq<string>)
    ensures DecodeStrings(Strings(xs)) == Some(xs)
  {
    DecodeAllOf(Strings(xs).items, DecodeStr, xs);
  }

  /** Two string lists render alike exactly when they are equal, element by element and in order. */
  lemma {:induction false} StringsInjective(xs: seq<string>, ys: seq<string>)
    ensures Strings(xs) == Strings(ys) <==> xs == ys
  {
    if Strings(xs) == Strings(ys) {
      assert |xs| == |ys|;
      forall i | 0 <= i < |xs|
        ensures xs[i] == ys[i]
      {
        assert Strings(xs).items[i] == Str(xs[i]);
        assert Strings(ys).items[i] == Str(ys[i]);
      }
    }
  }
}
