/** `take_until_unbalanced` of src/parsers.rs: take everything up to the first closing bracket
    that has no opening partner, skipping nested bracket pairs and escape pairs.

    The scanner is generic in the element type so that one definition serves the character
    tokenizer (`{`, `}`, `\` as chars) and the byte-level brace region (the same three
    as bytes).  Positions count elements; the Rust code counts UTF-8 bytes of the same
    characters, which moves through the same characters in the same order. */
module Unbalanced {
  import opened Nom

  /** The opening bracket, the closing bracket and the escape element. */
  datatype Brackets<E> = Brackets(open: E, close: E, escape: E)

  /** Where the scan stops: at the unmatched closer (or at the end with depth 0), with
      brackets still open at the end, or past the end after a trailing lone escape. */
  datatype Stop = At(pos: nat) | Unbalanced | Overrun

  predicate IsSpecial<E(==)>(b: Brackets<E>, c: E) {
    c == b.open || c == b.close || c == b.escape
  }

  /** The reference scan: from position `k` with `depth` brackets open. */
  function ScanFrom<E(==)>(s: seq<E>, b: Brackets<E>, k: nat, depth: nat): Stop
    requires k <= |s|
    decreases |s| - k
  {
    if k == |s| then (if depth == 0 then At(|s|) else Unbalanced)
    else if s[k] == b.escape then (if k + 1 == |s| then Overrun else ScanFrom(s, b, k + 2, depth))
    else if s[k] == b.open then ScanFrom(s, b, k + 1, depth + 1)
    else if s[k] == b.close then (if depth == 0 then At(k) else ScanFrom(s, b, k + 1, depth - 1))
    else ScanFrom(s, b, k + 1, depth)
  }

  /** The parser's result: remainder starting at the stop position, content before it; a
      region still open at the end is nom's TakeUntil Error; a trailing lone escape makes
      the Rust code slice past the end of the input and panic. */
  function TakeUntilUnbalancedSpec<E(==)>(s: seq<E>, b: Brackets<E>): (r: Res<E, seq<E>>)
    ensures Consumes(r, s)
    ensures r.Done? ==> s == r.value + r.rest
  {
    match ScanFrom(s, b, 0, 0)
    case At(j) => if j <= |s| then Done(s[j..], s[..j]) else Error
    case Unbalanced => Error
    case Overrun => Panic
  }

  /** `str::find` with a set of three characters: the first special position, if any. */
  function FindSpecial<E(==)>(s: seq<E>, b: Brackets<E>): (r: Option<nat>)
    ensures r.Some? ==> r.value < |s| && IsSpecial(b, s[r.value])
    ensures r.Some? ==> forall k :: 0 <= k < r.value ==> !IsSpecial(b, s[k])
    ensures r.None? ==> forall k :: 0 <= k < |s| ==> !IsSpecial(b, s[k])
  {
    if |s| == 0 then None
    else if IsSpecial(b, s[0]) then Some(0)
    else
      match FindSpecial(s[1..], b)
      case None => None
      case Some(n) => Some(n + 1)
  }

  /** The scan passes over ordinary elements without changing anything. */
  lemma {:induction false} ScanSkipsPlain<E>(s: seq<E>, b: Brackets<E>, k: nat, j: nat, depth: nat)
    requires k <= j <= |s|
    requires forall m :: k <= m < j ==> !IsSpecial(b, s[m])
    ensures ScanFrom(s, b, k, depth) == ScanFrom(s, b, j, depth)
    decreases j - k
  {
    if k < j {
      ScanSkipsPlain(s, b, k + 1, j, depth);
    }
  }

  /** The loop of src/parsers.rs: jump to the next special element, act on it, stop at the
      unmatched closer; slicing past the end after a trailing `\` is the panic. */
  method TakeUntilUnbalanced<E(==)>(i: seq<E>, b: Brackets<E>) returns (r: Res<E, seq<E>>)
    ensures r == TakeUntilUnbalancedSpec(i, b)
  {
    var index: nat := 0;
    var counter: int := 0;
    while index <= |i|
      invariant index <= |i| + 1
      invariant counter >= 0
      invariant index <= |i| ==> ScanFrom(i, b, index, counter) == ScanFrom(i, b, 0, 0)
      invariant index == |i| + 1 ==> ScanFrom(i, b, 0, 0) == Overrun
      decreases |i| + 1 - index
    {
      var n := FindSpecial(i[index..], b);
      if n.None? {
        ScanSkipsPlain(i, b, index, |i|, counter);
        break;
      }
      ScanSkipsPlain(i, b, index, index + n.value, counter);
      index := index + n.value;
      var c := i[index];
      if c == b.escape {
        // the escape element and the one after it (a default one when there is none)
        index := index + 1;
        index := index + 1;
      } else if c == b.open {
        counter := counter + 1;
        index := index + 1;
      } else {
        counter := counter - 1;
        index := index + 1;
      }
      if counter == -1 {
        // the unmatched closer is not consumed
        index := index - 1;
        return Done(i[index..], i[..index]);
      }
    }
    if index > |i| {
      return Panic;
    }
    if counter == 0 {
      assert i[..|i|] == i && i[|i|..] == [];
      return Done([], i);
    } else {
      return Error;
    }
  }

  // ---------------------------------------------------------------- nesting depth

  /** The nesting depth after reading `s` from position `k` with `depth` open, escape pairs
      skipped; a trailing lone escape adds nothing. */
  function Walk<E(==)>(s: seq<E>, b: Brackets<E>, k: nat, depth: int): int
    decreases |s| - k
  {
    if k >= |s| then depth
    else if s[k] == b.escape then Walk(s, b, k + 2, depth)
    else if s[k] == b.open then Walk(s, b, k + 1, depth + 1)
    else if s[k] == b.close then Walk(s, b, k + 1, depth - 1)
    else Walk(s, b, k + 1, depth)
  }

  /** The escape-aware bracket balance of `s`: openers minus closers outside escape pairs. */
  function Depth<E(==)>(s: seq<E>, b: Brackets<E>): int {
    Walk(s, b, 0, 0)
  }

  /** `s` ends in an escape element that has nothing to escape. */
  function EndsInLoneEscape<E(==)>(s: seq<E>, b: Brackets<E>, k: nat): bool
    decreases |s| - k
  {
    if k >= |s| then false
    else if s[k] == b.escape then (k + 1 == |s| || EndsInLoneEscape(s, b, k + 2))
    else EndsInLoneEscape(s, b, k + 1)
  }

  /** The core induction: while the scan runs from `k` with `depth` open, the depth of every
      prefix it has passed is non-negative and the prefixes still ahead are measured from
      the scan's own state. */
  lemma {:induction false} ScanDepth<E>(s: seq<E>, b: Brackets<E>, k: nat, depth: nat)
    requires k <= |s|
    requires forall m :: 0 <= m <= k ==> Depth(s[..m], b) >= 0
    requires forall m :: k <= m <= |s| ==> Depth(s[..m], b) == Walk(s[..m], b, k, depth)
    requires Depth(s, b) == Walk(s, b, k, depth)
    requires EndsInLoneEscape(s, b, 0) == EndsInLoneEscape(s, b, k)
    ensures match ScanFrom(s, b, k, depth)
            case At(j) =>
              k <= j <= |s| && (forall m :: 0 <= m <= j ==> Depth(s[..m], b) >= 0) &&
              (j == |s| ==> Depth(s, b) == 0 && !EndsInLoneEscape(s, b, 0)) &&
              (j < |s| ==> s[j] == b.close && Depth(s[..j], b) == 0 && Depth(s[..j + 1], b) == -1)
            case Unbalanced =>
              (forall m :: 0 <= m <= |s| ==> Depth(s[..m], b) >= 0) && Depth(s, b) > 0 &&
              !EndsInLoneEscape(s, b, 0)
            case Overrun =>
              (forall m :: 0 <= m <= |s| ==> Depth(s[..m], b) >= 0) && EndsInLoneEscape(s, b, 0)
    decreases |s| - k
  {
    assert s[..|s|] == s;
    if k == |s| {
    } else if s[k] == b.escape {
      if k + 1 < |s| {
        forall m | k + 2 <= m <= |s|
          ensures Depth(s[..m], b) == Walk(s[..m], b, k + 2, depth)
        {
          assert s[..m][k] == s[k];
        }
        assert Depth(s[..k + 1], b) == Walk(s[..k + 1], b, k, depth) == depth;
        assert Depth(s[..k + 2], b) == Walk(s[..k + 2], b, k + 2, depth);
        ScanDepth(s, b, k + 2, depth);
      }
    } else {
      var d' := if s[k] == b.open then depth + 1 else if s[k] == b.close then depth - 1 else depth;
      forall m | k + 1 <= m <= |s|
        ensures Depth(s[..m], b) == Walk(s[..m], b, k + 1, d')
      {
        assert s[..m][k] == s[k];
      }
      if s[k] != b.open && s[k] == b.close && depth == 0 {
        var p := s[..k + 1];
        assert p[k] == s[k] && |p| == k + 1;
        assert Walk(p, b, k, 0) == Walk(p, b, k + 1, -1) == -1;
        assert Depth(p, b) == Walk(p, b, k, depth);
        assert Depth(s[..k + 1], b) == -1;
        assert Depth(s[..k], b) == Walk(s[..k], b, k, depth) == 0;
      } else {
        ScanDepth(s, b, k + 1, d');
      }
    }
  }

  /** What the scanner returns, in terms of the bracket balance of its input:
      - on success, content ++ rest is the input and no prefix of the content closes more
        than it opens;
      - the rest is either empty (the whole input, balanced, returned as content) or starts
        with the unmatched closer, which stays unconsumed;
      - an Error means the input ends with brackets still open;
      - the panic happens exactly when no prefix closes more than it opens and the input
        ends in a lone escape. */
  lemma TakeUntilUnbalancedBalance<E>(s: seq<E>, b: Brackets<E>)
    ensures var r := TakeUntilUnbalancedSpec(s, b);
            r.Done? || r.Error? || r.Panic?
    ensures var r := TakeUntilUnbalancedSpec(s, b);
            r.Done? ==>
              r.value + r.rest == s &&
              (forall m :: 0 <= m <= |r.value| ==> Depth(r.value[..m], b) >= 0) &&
              Depth(r.value, b) == 0 &&
              (r.rest == [] ==> r.value == s && !EndsInLoneEscape(s, b, 0)) &&
              (r.rest != [] ==> r.rest[0] == b.close && Depth(r.value + [b.close], b) == -1)
    ensures TakeUntilUnbalancedSpec(s, b).Error? ==>
              (forall m :: 0 <= m <= |s| ==> Depth(s[..m], b) >= 0) && Depth(s, b) > 0 &&
              !EndsInLoneEscape(s, b, 0)
    ensures TakeUntilUnbalancedSpec(s, b).Panic? <==>
              EndsInLoneEscape(s, b, 0) && forall m :: 0 <= m <= |s| ==> Depth(s[..m], b) >= 0
  {
    assert s[..|s|] == s;
    ScanDepth(s, b, 0, 0);
    match ScanFrom(s, b, 0, 0)
    case At(j) =>
      var content := s[..j];
      forall m | 0 <= m <= |content|
        ensures content[..m] == s[..m]
      {
      }
      if j < |s| {
        assert s[..j + 1] == content + [b.close];
      }
    case _ =>
  }

  /** An escape element at a position the scan reaches makes the scan ignore the element
      after it: replacing that element by anything, even a bracket, changes nothing. */
  lemma EscapedElementIgnored<E>(s: seq<E>, b: Brackets<E>, k: nat, depth: nat, x: E)
    requires k + 1 < |s| && s[k] == b.escape
    ensures ScanFrom(s[k + 1 := x], b, k, depth) == ScanFrom(s, b, k, depth)
  {
    var t := s[k + 1 := x];
    SameTail(s, t, b, k + 2, depth);
  }

  /** The scan from `k` reads nothing before `k`. */
  lemma {:induction false} SameTail<E>(s: seq<E>, t: seq<E>, b: Brackets<E>, k: nat, depth: nat)
    requires |s| == |t| && k <= |s|
    requires forall m :: k <= m < |s| ==> s[m] == t[m]
    ensures ScanFrom(s, b, k, depth) == ScanFrom(t, b, k, depth)
    decreases |s| - k
  {
    if k < |s| {
      if s[k] == b.escape {
        if k + 1 < |s| {
          SameTail(s, t, b, k + 2, depth);
        }
      } else if s[k] == b.open {
        SameTail(s, t, b, k + 1, depth + 1);
      } else if s[k] == b.close {
        if depth > 0 {
          SameTail(s, t, b, k + 1, depth - 1);
        }
      } else {
        SameTail(s, t, b, k + 1, depth);
      }
    }
  }

  /** An opener raises the depth the rest of the scan sees, a closer lowers it, anything
      else leaves it. */
  lemma BracketsCount<E>(s: seq<E>, b: Brackets<E>, k: nat, depth: nat)
    requires k < |s| && s[k] != b.escape
    ensures s[k] == b.open ==> ScanFrom(s, b, k, depth) == ScanFrom(s, b, k + 1, depth + 1)
    ensures s[k] != b.open && s[k] == b.close && depth > 0 ==> ScanFrom(s, b, k, depth) == ScanFrom(s, b, k + 1, depth - 1)
    ensures s[k] != b.open && s[k] == b.close && depth == 0 ==> ScanFrom(s, b, k, depth) == At(k)
    ensures !IsSpecial(b, s[k]) ==> ScanFrom(s, b, k, depth) == ScanFrom(s, b, k + 1, depth)
  {
  }

  // ---------------------------------------------------------------- reading a region piece by piece

  /** `r` with `p` put in front of its content. */
  function Prefixed<E>(p: seq<E>, r: Res<E, seq<E>>): (q: Res<E, seq<E>>)
    ensures q.Done? <==> r.Done?
    ensures q.Done? ==> q.rest == r.rest && q.value == p + r.value
    ensures !r.Done? ==> q == r
  {
    match r
    case Done(rest, v) => Done(rest, p + v)
    case _ => r
  }

  /** A stop position moved `n` elements further. */
  function ShiftStop(st: Stop, n: nat): Stop {
    match st
    case At(j) => At(j + n)
    case _ => st
  }

  /** The scan of `y` behind anything reads `y` alone, at positions moved by what is in
      front. */
  lemma {:induction false} ScanShift<E>(a: seq<E>, y: seq<E>, b: Brackets<E>, k: nat, depth: nat)
    requires k <= |y|
    ensures ScanFrom(a + y, b, |a| + k, depth) == ShiftStop(ScanFrom(y, b, k, depth), |a|)
    decreases |y| - k
  {
    var s := a + y;
    if k < |y| {
      assert s[|a| + k] == y[k];
      if y[k] == b.escape {
        if k + 1 < |y| {
          ScanShift(a, y, b, k + 2, depth);
        }
      } else if y[k] == b.open {
        ScanShift(a, y, b, k + 1, depth + 1);
      } else if y[k] == b.close {
        if depth > 0 {
          ScanShift(a, y, b, k + 1, depth - 1);
        }
      } else {
        ScanShift(a, y, b, k + 1, depth);
      }
    }
  }

  /** When the scan of `p + y` reaches the end of `p` with nothing open, the result is
      that of `y` alone with `p` put in front of its content. */
  lemma FromPrefix<E>(p: seq<E>, y: seq<E>, b: Brackets<E>)
    requires ScanFrom(p + y, b, 0, 0) == ScanFrom(p + y, b, |p|, 0)
    ensures TakeUntilUnbalancedSpec(p + y, b) == Prefixed(p, TakeUntilUnbalancedSpec(y, b))
  {
    ScanShift(p, y, b, 0, 0);
    match ScanFrom(y, b, 0, 0)
    case At(j) =>
      if j <= |y| {
        assert (p + y)[|p| + j..] == y[j..];
        assert (p + y)[..|p| + j] == p + y[..j];
      }
    case _ =>
  }

  /** A run without brackets or escapes in front of the input becomes part of the
      content. */
  lemma PlainPrefix<E>(p: seq<E>, y: seq<E>, b: Brackets<E>)
    requires forall k :: 0 <= k < |p| ==> !IsSpecial(b, p[k])
    ensures TakeUntilUnbalancedSpec(p + y, b) == Prefixed(p, TakeUntilUnbalancedSpec(y, b))
  {
    assert forall m :: 0 <= m < |p| ==> (p + y)[m] == p[m];
    ScanSkipsPlain(p + y, b, 0, |p|, 0);
    FromPrefix(p, y, b);
  }

  /** An empty bracket pair in front of the input becomes part of the content. */
  lemma PairPrefix<E>(y: seq<E>, b: Brackets<E>)
    requires b.open != b.close && b.open != b.escape && b.close != b.escape
    ensures TakeUntilUnbalancedSpec([b.open, b.close] + y, b) == Prefixed([b.open, b.close], TakeUntilUnbalancedSpec(y, b))
  {
    var s := [b.open, b.close] + y;
    assert s[0] == b.open && s[1] == b.close;
    assert ScanFrom(s, b, 0, 0) == ScanFrom(s, b, 2, 0);
    FromPrefix([b.open, b.close], y, b);
  }

  /** An unmatched closer at the front ends the content there, empty. */
  lemma CloserFirst<E>(rest: seq<E>, b: Brackets<E>)
    requires b.close != b.open && b.close != b.escape
    ensures TakeUntilUnbalancedSpec([b.close] + rest, b) == Done([b.close] + rest, [])
  {
    var s := [b.close] + rest;
    assert s[0] == b.close;
    assert s[0..] == s;
  }

  /** The example of src/parsers.rs: `delimited(tag("<"), take_until_unbalanced('<', '>'),
      tag(">"))` on "<<inside>inside>abc" gives "<inside>inside" and leaves "abc". */
  lemma DelimitedExample()
    ensures
      var b := Brackets('<', '>', '\\');
      var inner := "<inside>inside>abc";
      var scanned := TakeUntilUnbalancedSpec(inner, b);
      CompleteTag("<", "<<inside>inside>abc") == Done(inner, "<") &&
      scanned == Done(">abc", "<inside>inside") &&
      CompleteTag(">", ">abc") == Done("abc", ">")
  {
    var b := Brackets('<', '>', '\\');
    var s := "<inside>inside>abc";
    assert ScanFrom(s, b, 8, 0) == At(14) by {
      ScanSkipsPlain(s, b, 8, 14, 0);
    }
    assert ScanFrom(s, b, 1, 1) == ScanFrom(s, b, 7, 1) by {
      ScanSkipsPlain(s, b, 1, 7, 1);
    }
    assert ScanFrom(s, b, 0, 0) == At(14);
    assert s[14..] == ">abc" && s[..14] == "<inside>inside";
  }
}
