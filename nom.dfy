/** A model of the parts of the nom 7 parser-combinator library that the SIE 4 parser uses.

    A parser is a total function from the remaining input to a result.  The remainder it
    hands back is never longer than its input (nom's spans only ever move forward): each
    primitive promises this, and each combinator promises it whenever the parsers it is
    given do.  Functions here take the input as an extra argument instead of returning
    closures: `Opt(p, i)` is nom's `opt(p)(i)`. */
module Nom {

  datatype Option<+T> = None | Some(value: T)

  /** nom's `IResult`: `Ok((rest, value))`, `Err::Incomplete`, `Err::Error` (recoverable),
      `Err::Failure` (raised by `cut`).  `Panic` stands for the place where the modelled Rust
      code aborts instead of returning (a slice index past the end). */
  datatype Res<E, T> =
    | Done(rest: seq<E>, value: T)
    | Incomplete
    | Error
    | Failure
    | Panic
  {
    predicate IsFailure() { !Done? }

    function PropagateFailure<U>(): (r: Res<E, U>)
      requires !Done?
      ensures !r.Done?
      ensures r.Incomplete? == Incomplete? && r.Error? == Error? && r.Failure? == Failure?
    {
      match this
      case Incomplete => Incomplete
      case Error => Error
      case Failure => Failure
      case Panic => Panic
    }

    function Extract(): Parsed<E, T>
      requires Done?
    {
      Parsed(rest, value)
    }
  }

  /** What `:-` binds on success: the remainder and the value. */
  datatype Parsed<E, T> = Parsed(rest: seq<E>, value: T)

  /** A successful result hands back no more input than it was given. */
  predicate Consumes<E, T>(r: Res<E, T>, i: seq<E>) {
    r.Done? ==> |r.rest| <= |i|
  }

  type Parser<!E, T> = seq<E> -> Res<E, T>

  /** A sequence splits in only one way into a run of elements satisfying `p` followed by
      a part that does not start with one. */
  lemma RunSplit<E>(p: E -> bool, a: seq<E>, b: seq<E>, v: seq<E>, w: seq<E>)
    requires a + b == v + w
    requires forall k :: 0 <= k < |a| ==> p(a[k])
    requires b == [] || !p(b[0])
    requires forall k :: 0 <= k < |v| ==> p(v[k])
    requires w == [] || !p(w[0])
    ensures v == a && w == b
  {
    assert v == (v + w)[..|v|] == (a + b)[..|a|] == a;
    assert w == (v + w)[|v|..] == (a + b)[|a|..] == b;
  }

  /** A run of elements satisfying `p`, ended by one that does not, is what take_while
      takes. */
  lemma TakeWhileSplit<E>(p: E -> bool, a: seq<E>, b: seq<E>)
    requires forall k :: 0 <= k < |a| ==> p(a[k])
    requires b != [] && !p(b[0])
    ensures TakeWhile(p, a + b) == Done(b, a)
  {
    var r := TakeWhile(p, a + b);
    assert !p((a + b)[|a|]);
    RunSplit(p, a, b, r.value, r.rest);
  }

  /** What take_while and then a tag accept: the run, the tag, then what is left. */
  lemma TakeWhileThenTag<E>(p: E -> bool, t: seq<E>, i: seq<E>)
    requires TakeWhile(p, i).Done? && Tag(t, TakeWhile(p, i).rest).Done?
    ensures i == TakeWhile(p, i).value + t + Tag(t, TakeWhile(p, i).rest).rest
  {
  }

  /** What a tag accepts: the tag, then what is left. */
  lemma TagSplit<E>(t: seq<E>, i: seq<E>)
    requires Tag(t, i).Done?
    ensures i == t + Tag(t, i).rest
  {
    assert i == i[..|t|] + i[|t|..];
  }

  /** The number of leading elements of `i` that satisfy `p`. */
  function PrefixLen<E>(p: E -> bool, i: seq<E>): (n: nat)
    ensures n <= |i|
    ensures forall k :: 0 <= k < n ==> p(i[k])
    ensures n < |i| ==> !p(i[n])
  {
    if |i| == 0 || !p(i[0]) then 0 else 1 + PrefixLen(p, i[1..])
  }

  // ---------------------------------------------------------------- streaming primitives

  /** `bytes::streaming::tag`: the input must start with `t`; a proper prefix of `t` is
      Incomplete, anything else an Error. */
  function Tag<E(==)>(t: seq<E>, i: seq<E>): (r: Res<E, seq<E>>)
    ensures Consumes(r, i)
    ensures r.Done? <==> t <= i
    ensures r.Done? ==> r.rest == i[|t|..] && r.value == t
    ensures r.Incomplete? <==> i < t
    ensures !r.Failure? && !r.Panic?
  {
    if t <= i then Done(i[|t|..], t)
    else if i < t then Incomplete
    else Error
  }

  /** `character::streaming::char`. */
  function Char<E(==)>(c: E, i: seq<E>): (r: Res<E, E>)
    ensures Consumes(r, i)
    ensures r.Incomplete? <==> i == []
    ensures r.Done? <==> i != [] && i[0] == c
    ensures r.Done? ==> r.rest == i[1..] && r.value == c
    ensures !r.Failure? && !r.Panic?
  {
    if |i| == 0 then Incomplete
    else if i[0] == c then Done(i[1..], c)
    else Error
  }

  /** `bytes::streaming::take_while`: the longest prefix satisfying `p`; Incomplete when
      every element of the input satisfies `p` (more input could extend the run). */
  function TakeWhile<E>(p: E -> bool, i: seq<E>): (r: Res<E, seq<E>>)
    ensures Consumes(r, i)
    ensures r.Incomplete? <==> forall k :: 0 <= k < |i| ==> p(i[k])
    ensures r.Done? ==> i == r.value + r.rest && r.rest != [] && !p(r.rest[0])
    ensures r.Done? ==> forall k :: 0 <= k < |r.value| ==> p(r.value[k])
    ensures r.Done? || r.Incomplete?
  {
    var n := PrefixLen(p, i);
    if n == |i| then Incomplete else Done(i[n..], i[..n])
  }

  /** `bytes::streaming::take_while1` (and `character::streaming::digit1` for the digit
      predicate): as TakeWhile, but an empty run is an Error. */
  function TakeWhile1<E>(p: E -> bool, i: seq<E>): (r: Res<E, seq<E>>)
    ensures Consumes(r, i)
    ensures r.Incomplete? <==> forall k :: 0 <= k < |i| ==> p(i[k])
    ensures r.Error? <==> i != [] && !p(i[0])
    ensures r.Done? ==> i == r.value + r.rest && r.value != [] && r.rest != [] && !p(r.rest[0])
    ensures r.Done? ==> forall k :: 0 <= k < |r.value| ==> p(r.value[k])
    ensures r.Done? || r.Incomplete? || r.Error?
  {
    var n := PrefixLen(p, i);
    if n == |i| then Incomplete
    else if n == 0 then Error
    else Done(i[n..], i[..n])
  }

  // ---------------------------------------------------------------- complete primitives

  /** `bytes::complete::tag`: as Tag, but a short input is an Error. */
  function CompleteTag<E(==)>(t: seq<E>, i: seq<E>): (r: Res<E, seq<E>>)
    ensures Consumes(r, i)
    ensures r.Done? <==> t <= i
    ensures r.Done? ==> r.rest == i[|t|..] && r.value == t
    ensures r.Done? || r.Error?
  {
    if t <= i then Done(i[|t|..], t) else Error
  }

  /** `bytes::complete::take_while`: never fails; at the end of the input it takes it all. */
  function TakeWhileComplete<E>(p: E -> bool, i: seq<E>): (r: Res<E, seq<E>>)
    ensures Consumes(r, i)
    ensures r.Done? && i == r.value + r.rest
    ensures forall k :: 0 <= k < |r.value| ==> p(r.value[k])
    ensures r.rest == [] || !p(r.rest[0])
  {
    var n := PrefixLen(p, i);
    Done(i[n..], i[..n])
  }

  /** `bytes::complete::take_while1`: as TakeWhileComplete, but an empty run is an Error. */
  function TakeWhile1Complete<E>(p: E -> bool, i: seq<E>): (r: Res<E, seq<E>>)
    ensures Consumes(r, i)
    ensures r.Error? <==> i == [] || !p(i[0])
    ensures r.Done? ==> i == r.value + r.rest && r.value != [] && (r.rest == [] || !p(r.rest[0]))
    ensures r.Done? ==> forall k :: 0 <= k < |r.value| ==> p(r.value[k])
    ensures r.Done? || r.Error?
  {
    var n := PrefixLen(p, i);
    if n == 0 then Error else Done(i[n..], i[..n])
  }

  /** `bytes::complete::take_till`: the longest prefix none of whose elements satisfies `p`. */
  function TakeTillComplete<E>(p: E -> bool, i: seq<E>): (r: Res<E, seq<E>>)
    ensures Consumes(r, i)
    ensures r.Done? && i == r.value + r.rest
    ensures forall k :: 0 <= k < |r.value| ==> !p(r.value[k])
    ensures r.rest == [] || p(r.rest[0])
  {
    TakeWhileComplete(c => !p(c), i)
  }

  /** `bytes::complete::is_not`: a non-empty run of elements outside `stop`. */
  function IsNotComplete<E(==)>(stop: set<E>, i: seq<E>): (r: Res<E, seq<E>>)
    ensures Consumes(r, i)
    ensures r.Error? <==> i == [] || i[0] in stop
    ensures r.Done? ==> i == r.value + r.rest && r.value != [] && (r.rest == [] || r.rest[0] in stop)
    ensures r.Done? ==> forall k :: 0 <= k < |r.value| ==> r.value[k] !in stop
    ensures r.Done? || r.Error?
  {
    TakeWhile1Complete(c => c !in stop, i)
  }

  // ---------------------------------------------------------------- combinators

  /** `combinator::opt`: a recoverable Error becomes an absent value with the input left
      unconsumed; every other outcome is passed through. */
  function Opt<E, T>(p: Parser<E, T>, i: seq<E>): (r: Res<E, Option<T>>)
    ensures Consumes(p(i), i) ==> Consumes(r, i)
    ensures !r.Error?
    ensures p(i).Error? ==> r == Done(i, None)
    ensures p(i).Done? ==> r == Done(p(i).rest, Some(p(i).value))
  {
    match p(i)
    case Done(rest, v) => Done(rest, Some(v))
    case Error => Done(i, None)
    case Incomplete => Incomplete
    case Failure => Failure
    case Panic => Panic
  }

  /** What `opt` does with each outcome of the parser it wraps. */
  lemma OptSemantics<E, T>(p: Parser<E, T>, i: seq<E>)
    ensures Opt(p, i) == Done(i, None) <== p(i).Error?
    ensures Opt(p, i).Done? && Opt(p, i).value.None? ==> p(i).Error?
    ensures p(i).Done? <==> Opt(p, i).Done? && Opt(p, i).value.Some?
    ensures p(i).Done? ==> Opt(p, i) == Done(p(i).rest, Some(p(i).value))
    ensures p(i).Incomplete? <==> Opt(p, i).Incomplete?
    ensures p(i).Failure? <==> Opt(p, i).Failure?
    ensures p(i).Panic? <==> Opt(p, i).Panic?
    ensures !Opt(p, i).Error?
  {
  }

  /** `branch::alt` over two parsers: the second is tried only after a recoverable Error. */
  function Alt2<E, T>(p: Parser<E, T>, q: Parser<E, T>, i: seq<E>): (r: Res<E, T>)
    ensures Consumes(p(i), i) && Consumes(q(i), i) ==> Consumes(r, i)
    ensures r.Error? <==> p(i).Error? && q(i).Error?
  {
    if p(i).Error? then q(i) else p(i)
  }

  /** `branch::alt` over a tuple of parsers, in order; the result is the first outcome that
      is not a recoverable Error, or the last Error. */
  function Alt<E, T>(ps: seq<Parser<E, T>>, i: seq<E>): (r: Res<E, T>)
    requires |ps| > 0
    ensures r.Error? <==> forall k :: 0 <= k < |ps| ==> ps[k](i).Error?
    ensures !r.Error? ==> exists k :: 0 <= k < |ps| && r == ps[k](i) && forall j :: 0 <= j < k ==> ps[j](i).Error?
  {
    if |ps| == 1 || !ps[0](i).Error? then ps[0](i)
    else
      var r := Alt(ps[1..], i);
      assert forall k :: 1 <= k < |ps| ==> ps[k] == ps[1..][k - 1];
      r
  }

  /** When every alternative but one fails recoverably, `alt` is that one. */
  lemma AltSelect<E, T>(ps: seq<Parser<E, T>>, i: seq<E>, k: nat)
    requires k < |ps|
    requires forall j :: 0 <= j < |ps| && j != k ==> ps[j](i).Error?
    ensures Alt(ps, i) == ps[k](i)
  {
  }

  /** `combinator::complete`: Incomplete becomes a recoverable Error. */
  function Complete<E, T>(p: Parser<E, T>, i: seq<E>): (r: Res<E, T>)
    ensures Consumes(p(i), i) ==> Consumes(r, i)
    ensures !r.Incomplete?
  {
    if p(i).Incomplete? then Error else p(i)
  }

  /** `combinator::cut`: a recoverable Error becomes a Failure. */
  function Cut<E, T>(p: Parser<E, T>, i: seq<E>): (r: Res<E, T>)
    ensures Consumes(p(i), i) ==> Consumes(r, i)
    ensures !r.Error?
  {
    if p(i).Error? then Failure else p(i)
  }

  /** `combinator::map`. */
  function Map<E, T, U>(p: Parser<E, T>, f: T -> U, i: seq<E>): (r: Res<E, U>)
    ensures Consumes(p(i), i) ==> Consumes(r, i)
    ensures r.Done? <==> p(i).Done?
    ensures r.Done? ==> r.rest == p(i).rest && r.value == f(p(i).value)
    ensures !p(i).Done? ==> r == p(i).PropagateFailure()
  {
    match p(i)
    case Done(rest, v) => Done(rest, f(v))
    case Incomplete => Incomplete
    case Error => Error
    case Failure => Failure
    case Panic => Panic
  }

  /** `combinator::map_res`: a conversion that fails turns a success into a recoverable
      Error (never a Failure). */
  function MapRes<E, T, U>(p: Parser<E, T>, f: T -> Option<U>, i: seq<E>): (r: Res<E, U>)
    ensures Consumes(p(i), i) ==> Consumes(r, i)
    ensures r.Done? <==> p(i).Done? && f(p(i).value).Some?
    ensures r.Done? ==> r.rest == p(i).rest && r.value == f(p(i).value).value
    ensures p(i).Done? && f(p(i).value).None? ==> r.Error?
    ensures !p(i).Done? ==> r == p(i).PropagateFailure()
  {
    match p(i)
    case Done(rest, v) => if f(v).Some? then Done(rest, f(v).value) else Error
    case Incomplete => Incomplete
    case Error => Error
    case Failure => Failure
    case Panic => Panic
  }

  /** `sequence::preceded`: run `p`, drop its value, run `q` on the remainder. */
  function Preceded<E, T, U>(p: Parser<E, T>, q: Parser<E, U>, i: seq<E>): (r: Res<E, U>)
    ensures Consumes(p(i), i) && (p(i).Done? ==> Consumes(q(p(i).rest), p(i).rest)) ==> Consumes(r, i)
    ensures p(i).Done? ==> r == q(p(i).rest)
    ensures !p(i).Done? ==> r == p(i).PropagateFailure()
  {
    var a :- p(i);
    q(a.rest)
  }

  /** `sequence::delimited`: the value of the middle parser. */
  function Delimited<E, T, U, V>(p: Parser<E, T>, q: Parser<E, U>, s: Parser<E, V>, i: seq<E>): (r: Res<E, U>)
    ensures Consumes(p(i), i) && (p(i).Done? ==> Consumes(q(p(i).rest), p(i).rest))
            && (p(i).Done? && q(p(i).rest).Done? ==> Consumes(s(q(p(i).rest).rest), q(p(i).rest).rest))
            ==> Consumes(r, i)
    ensures r.Done? <==> p(i).Done? && q(p(i).rest).Done? && s(q(p(i).rest).rest).Done?
    ensures r.Done? ==> r.value == q(p(i).rest).value && r.rest == s(q(p(i).rest).rest).rest
    ensures !p(i).Done? ==> r == p(i).PropagateFailure()
  {
    var a :- p(i);
    var b :- q(a.rest);
    var c :- s(b.rest);
    Done(c.rest, b.value)
  }

  /** `combinator::recognize`: the consumed input instead of the value.  (A parser that
      handed back more than it was given has consumed nothing that could be returned; no
      parser here does that.) */
  function Recognize<E, T>(p: Parser<E, T>, i: seq<E>): (r: Res<E, seq<E>>)
    ensures Consumes(r, i)
    ensures r.Done? ==> p(i).Done? && r.rest == p(i).rest && r.value == i[..|i| - |r.rest|]
    ensures !p(i).Done? ==> r == p(i).PropagateFailure()
  {
    var a :- p(i);
    if |a.rest| <= |i| then Done(a.rest, i[..|i| - |a.rest|]) else Error
  }

  /** `multi::many0`: apply `p` until it fails recoverably; other failures propagate.  A
      success that consumes nothing is an Error, nom's guard against looping forever (it is
      checked as "not shorter", which is the same for parsers that never grow the input). */
  function Many0<E, T>(p: Parser<E, T>, i: seq<E>): (r: Res<E, seq<T>>)
    ensures Consumes(r, i)
    ensures r.Done? ==> p(r.rest).Error?
    ensures p(i).Error? ==> r == Done(i, [])
    decreases |i|
  {
    match p(i)
    case Error => Done(i, [])
    case Done(rest, v) =>
      if |rest| >= |i| then Error
      else
        (match Many0(p, rest)
         case Done(rest', vs) => Done(rest', [v] + vs)
         case Incomplete => Incomplete
         case Error => Error
         case Failure => Failure
         case Panic => Panic)
    case Incomplete => Incomplete
    case Failure => Failure
    case Panic => Panic
  }

  /** `vs` is what successive successful, input-consuming runs of `p` produce from `i`,
      leaving `rest`. */
  ghost predicate Chain<E, T>(p: Parser<E, T>, i: seq<E>, vs: seq<T>, rest: seq<E>)
    decreases |vs|
  {
    if vs == [] then rest == i
    else p(i).Done? && |p(i).rest| < |i| && p(i).value == vs[0] && Chain(p, p(i).rest, vs[1..], rest)
  }

  /** many0 succeeds exactly with a chain of successes followed by a recoverable Error. */
  lemma {:induction false} Many0Chain<E, T>(p: Parser<E, T>, i: seq<E>, vs: seq<T>, rest: seq<E>)
    ensures Many0(p, i) == Done(rest, vs) <==> Chain(p, i, vs, rest) && p(rest).Error?
    decreases |i|
  {
    match p(i)
    case Done(r, v) =>
      if |r| < |i| {
        Many0Chain(p, r, if vs == [] then [] else vs[1..], rest);
        if vs != [] {
          assert vs == [vs[0]] + vs[1..];
        }
      }
    case _ =>
  }

  /** With a parser that always consumes when it succeeds, many0 never fails recoverably:
      it ends at the first recoverable Error, and the other outcomes are not one. */
  lemma {:induction false} Many0NeverError<E, T>(p: Parser<E, T>, i: seq<E>)
    requires forall j :: p(j).Done? ==> |p(j).rest| < |j|
    ensures !Many0(p, i).Error?
    decreases |i|
  {
    if p(i).Done? {
      Many0NeverError(p, p(i).rest);
    }
  }

  /** Every value many0 collects is a value `p` produces, so a property of all of those
      holds of all of these. */
  lemma {:induction false} Many0All<E, T>(p: Parser<E, T>, i: seq<E>, P: T -> bool)
    requires forall j :: p(j).Done? ==> P(p(j).value)
    ensures Many0(p, i).Done? ==> forall k :: 0 <= k < |Many0(p, i).value| ==> P(Many0(p, i).value[k])
    decreases |i|
  {
    match p(i)
    case Done(rest, v) =>
      if |rest| < |i| {
        Many0All(p, rest, P);
      }
    case _ =>
  }
}
