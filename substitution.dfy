/** Beta reduction on de Bruijn terms (`bind`) and the cosmetic renaming of a
    lambda's head (`renameHead`).  `bind` is proved equal to the textbook
    shift / substitute / unshift definition of the beta rule. */
module Substitution {
  import opened Terms
  import opened Walks
  import opened Indices

  // ---------------------------------------------------------------------------
  // The textbook operators on de Bruijn terms.

  /** Raises by `n` every index that is free below `c` binders (at least `c`). */
  function Shift(t: Term<Index>, c: nat, n: nat): Term<Index> {
    match t
    case Var(k) => if k >= c then Var(k + n) else Var(k)
    case Lam(h, body) => Lam(h, Shift(body, c + 1, n))
    case App(a, b) => App(Shift(a, c, n), Shift(b, c, n))
  }

  /** Lowers by one every index above `c`: removes the binder at `c`. */
  function Unshift(t: Term<Index>, c: nat): Term<Index> {
    match t
    case Var(k) => if k > c then Var(k - 1) else Var(k)
    case Lam(h, body) => Lam(h, Unshift(body, c + 1))
    case App(a, b) => App(Unshift(a, c), Unshift(b, c))
  }

  /** Replaces index `j` by `s`, raising `s` by one under each lambda crossed. */
  function Subst(t: Term<Index>, j: nat, s: Term<Index>): Term<Index> {
    match t
    case Var(k) => if k == j then s else Var(k)
    case Lam(h, body) => Lam(h, Subst(body, j + 1, Shift(s, 0, 1)))
    case App(a, b) => App(Subst(a, j, s), Subst(b, j, s))
  }

  /** The beta rule: `(\.body) arg` contracts to the body with its bound index
      replaced by the argument, and the binder removed. */
  function Beta(body: Term<Index>, arg: Term<Index>): Term<Index> {
    Unshift(Subst(body, 0, Shift(arg, 0, 1)), 0)
  }

  // ---------------------------------------------------------------------------
  // The callbacks of `bind`.

  /** The `incrementFreeBy` callback: an index at least the depth is free and goes up by `n`. */
  function IncrementLeaf(n: nat): Mapper<Index, Index> {
    (i: Index, bs: seq<Letter>) => Var(if i >= |bs| then i + n else i)
  }

  /** The `bind` callback: the index of the removed binder becomes the argument with
      its free indices raised by the depth; indices above it go down by one. */
  function BindLeaf(arg: Term<Index>): Mapper<Index, Index> {
    (i: Index, bs: seq<Letter>) =>
      if i == |bs| then Shift(arg, 0, |bs|)
      else if i > |bs| then Var(i - 1)
      else Var(i)
  }

  lemma {:induction false} IncrementIsShift(t: Term<Index>, bs: seq<Letter>, n: nat)
    ensures MapVars(t, bs, IncrementLeaf(n)) == Shift(t, |bs|, n)
  {
    match t
    case Var(_) =>
    case Lam(h, body) => IncrementIsShift(body, bs + [h], n);
    case App(a, b) => IncrementIsShift(a, bs, n); IncrementIsShift(b, bs, n);
  }

  /** `incrementFreeBy`: raises the free indices of `expr` by `n`. */
  method IncrementFreeBy(expr: Term<Index>, n: nat) returns (r: Term<Index>)
    ensures r == Shift(expr, 0, n)
  {
    r := MapVariables(expr, IncrementLeaf(n));
    IncrementIsShift(expr, [], n);
  }

  lemma {:induction false} ShiftZero(t: Term<Index>, c: nat)
    ensures Shift(t, c, 0) == t
  {
    match t
    case Var(_) =>
    case Lam(_, body) => ShiftZero(body, c + 1);
    case App(a, b) => ShiftZero(a, c); ShiftZero(b, c);
  }

  /** Two shifts at the same cutoff add up. */
  lemma {:induction false} ShiftShift(t: Term<Index>, c: nat, n: nat, m: nat)
    ensures Shift(Shift(t, c, n), c, m) == Shift(t, c, n + m)
  {
    match t
    case Var(_) =>
    case Lam(_, body) => ShiftShift(body, c + 1, n, m);
    case App(a, b) => ShiftShift(a, c, n, m); ShiftShift(b, c, n, m);
  }

  /** Removing a binder that a shift has stepped over undoes one unit of the shift. */
  lemma {:induction false} UnshiftShift(t: Term<Index>, c: nat, e: nat, n: nat)
    requires c <= e <= c + n
    ensures Unshift(Shift(t, c, n + 1), e) == Shift(t, c, n)
  {
    match t
    case Var(_) =>
    case Lam(_, body) => UnshiftShift(body, c + 1, e + 1, n);
    case App(a, b) => UnshiftShift(a, c, e, n); UnshiftShift(b, c, e, n);
  }

  lemma {:induction false} BindLeafIsBeta(t: Term<Index>, bs: seq<Letter>, arg: Term<Index>)
    ensures MapVars(t, bs, BindLeaf(arg)) ==
      Unshift(Subst(t, |bs|, Shift(arg, 0, |bs| + 1)), |bs|)
  {
    var d := |bs|;
    match t
    case Var(k) =>
      if k == d {
        UnshiftShift(arg, 0, d, d);
      }
    case Lam(h, body) =>
      BindLeafIsBeta(body, bs + [h], arg);
      ShiftShift(arg, 0, d + 1, 1);
    case App(a, b) =>
      BindLeafIsBeta(a, bs, arg);
      BindLeafIsBeta(b, bs, arg);
  }

  /** `bind`: contracts the application of `lam` to `expr`, which is the beta rule. */
  method Bind(lam: Term<Index>, expr: Term<Index>) returns (r: Term<Index>)
    requires lam.Lam?
    ensures r == Beta(lam.body, expr)
  {
    r := MapVariables(lam.body, BindLeaf(expr));
    BindLeafIsBeta(lam.body, [], expr);
  }

  /** `bind(\x.0, e)` is `e`. */
  lemma BetaIdentity(e: Term<Index>)
    ensures Beta(Var(0), e) == e
  {
    UnshiftShift(e, 0, 0, 0);
    ShiftZero(e, 0);
  }

  /** `bind(\x.(0 (\x.0)) 0, 1)` is `(1 (\x.0)) 1`: the inner lambda's own 0 is left alone. */
  lemma BetaLexicalScope()
    ensures Beta(App(App(Var(0), Lam('x', Var(0))), Var(0)), Var(1)) == App(App(Var(1), Lam('x', Var(0))), Var(1))
  {
  }

  // ---------------------------------------------------------------------------
  // renameHead

  /** The clash test of `renameHead` for head `h`: a leaf of the body that is the
      free index which, printed, would show the letter `h`. */
  function Clashes(h: Letter): (Index, seq<Letter>) -> bool {
    (i: Index, bs: seq<Letter>) => i == Pos(h) + |bs| + 1
  }

  predicate Clash(body: Term<Index>, h: Letter) {
    FindFirst(body, [], Clashes(h)).Some?
  }

  /** The heads `renameHead` tries in turn: the present head, then `a` to `y`. */
  function Candidates(h: Letter): (cs: seq<Letter>)
    ensures |cs| == 26 && cs[0] == h
    ensures forall k :: 1 <= k < 26 ==> cs[k] == LetterAt(k - 1)
  {
    [h] + seq(25, k requires 0 <= k < 25 => LetterAt(k))
  }

  /** Position of the first candidate that does not clash in `body` (|cs| when none). */
  function FirstFree(cs: seq<Letter>, body: Term<Index>): (k: nat)
    ensures k <= |cs|
    ensures forall j :: 0 <= j < k ==> Clash(body, cs[j])
    ensures k < |cs| ==> !Clash(body, cs[k])
    decreases |cs|
  {
    if cs == [] || !Clash(body, cs[0]) then 0
    else 1 + FirstFree(cs[1..], body)
  }

  /** The head `renameHead` settles on: the first candidate without a clash, or
      `z` (taken without a clash check) when every candidate clashes. */
  function RenamedHead(h: Letter, body: Term<Index>): Letter {
    var cs := Candidates(h);
    var k := FirstFree(cs, body);
    if k < |cs| then cs[k] else 'z'
  }

  /** The head is kept when it does not clash; otherwise the new head is the first
      letter from `a` that does not clash, and `z` only when all of `a` to `y` do. */
  lemma RenamedHeadChoice(h: Letter, body: Term<Index>)
    ensures !Clash(body, h) ==> RenamedHead(h, body) == h
    ensures Clash(body, h) ==> forall k :: 0 <= k < 25 && LetterAt(k) < RenamedHead(h, body) ==> Clash(body, LetterAt(k))
    ensures RenamedHead(h, body) != 'z' ==> !Clash(body, RenamedHead(h, body))
    ensures RenamedHead(h, body) != h ==> Clash(body, h)
  {
    var cs := Candidates(h);
    var k := FirstFree(cs, body);
    if Clash(body, h) {
      forall j | 0 <= j < 25 && LetterAt(j) < RenamedHead(h, body)
        ensures Clash(body, LetterAt(j))
      {
        assert cs[j + 1] == LetterAt(j);
        if k < 26 {
          assert cs[k] == LetterAt(k - 1);
        }
      }
    }
  }

  /** `renameHead`: tries the present head and then the letters of the alphabet,
      keeping the first that no free index of the body would print as. */
  method RenameHead(lam: Term<Index>) returns (r: Term<Index>)
    requires lam.Lam?
    ensures r == Lam(RenamedHead(lam.head, lam.body), lam.body)
  {
    ghost var cs := Candidates(lam.head);
    var head := lam.head;
    var k := 0;
    while k < 26
      invariant 0 <= k <= 26
      invariant head == if k == 0 then lam.head else LetterAt(k - 1)
      invariant forall j :: 0 <= j < k ==> Clash(lam.body, cs[j])
      decreases 26 - k
    {
      // A found leaf is at least 1, so the source's truthiness test is `Some?`.
      var found := FindBy(lam.body, Clashes(head));
      if found == None {
        break;
      }
      head := LetterAt(k);
      k := k + 1;
    }
    assert k < 26 ==> head == cs[k];
    r := Lam(head, lam.body);
  }
}
