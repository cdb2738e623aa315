/** Conversion between named terms and de Bruijn terms (`convertToIndices`,
    `convertToNames`).  Both are `mapVariables` callbacks: a leaf is rewritten
    from its own value and the heads of the lambdas around it. */
module Indices {
  import opened Terms
  import opened Walks

  /** A de Bruijn index: 0 names the innermost enclosing lambda; an index past
      every enclosing lambda names a free letter of the alphabet. */
  type Index = nat

  /** `bindings.lastIndexOf(x)`: the position of the innermost head `x`, or -1. */
  function LastIndexOf(bs: seq<Letter>, x: Letter): (j: int)
    ensures -1 <= j < |bs|
    ensures j == -1 <==> x !in bs
    ensures j >= 0 ==> bs[j] == x && forall k :: j < k < |bs| ==> bs[k] != x
    decreases |bs|
  {
    if bs == [] then -1
    else if bs[|bs| - 1] == x then |bs| - 1
    else LastIndexOf(bs[..|bs| - 1], x)
  }

  /** The `convertToIndices` callback: a bound name counts the lambdas between it
      and its nearest binder of the same name; a free name is its alphabet
      position plus the number of enclosing lambdas. */
  function IndexOfName(x: Letter, bs: seq<Letter>): (i: Index)
    ensures x in bs ==> i < |bs| && bs[|bs| - 1 - i] == x
    ensures x in bs ==> forall k :: |bs| - 1 - i < k < |bs| ==> bs[k] != x
    ensures x !in bs ==> i == Pos(x) + |bs|
  {
    var j := LastIndexOf(bs, x);
    if j >= 0 then |bs| - 1 - j else Pos(x) + |bs|
  }

  /** The `convertToNames` callback.  An index below the depth reads the head of
      its binder; a free index reads the alphabet after the enclosing lambdas,
      and past the end of the alphabet the source produces `undefined` (None). */
  function NameOfIndex(i: Index, bs: seq<Letter>): Option<Letter> {
    var index := |bs| - 1 - i;
    if 0 <= index < |bs| then Some(bs[index])
    else if 0 <= i - |bs| < 26 then Some(LetterAt(i - |bs|))
    else None
  }

  function IndexLeaf(x: Letter, bs: seq<Letter>): Term<Index> {
    Var(IndexOfName(x, bs))
  }

  function NameLeaf(i: Index, bs: seq<Letter>): Term<Option<Letter>> {
    Var(NameOfIndex(i, bs))
  }

  function ToIndices(t: Term<Letter>): Term<Index> {
    MapVars(t, [], IndexLeaf)
  }

  function ToNames(t: Term<Index>): Term<Option<Letter>> {
    MapVars(t, [], NameLeaf)
  }

  /** A named term read as the result type of `convertToNames`. */
  function Named(t: Term<Letter>): Term<Option<Letter>> {
    match t
    case Var(x) => Var(Some(x))
    case Lam(h, body) => Lam(h, Named(body))
    case App(a, b) => App(Named(a), Named(b))
  }

  /** `convertToIndices`. */
  method ConvertToIndices(expr: Term<Letter>) returns (r: Term<Index>)
    ensures r == ToIndices(expr)
  {
    r := MapVariables(expr, IndexLeaf);
  }

  /** `convertToNames`. */
  method ConvertToNames(expr: Term<Index>) returns (r: Term<Option<Letter>>)
    ensures r == ToNames(expr)
  {
    r := MapVariables(expr, NameLeaf);
  }

  /** Conversion to indices keeps every head and the application shape, and each
      leaf becomes the index of its name under the heads around it. */
  lemma ToIndicesLeaves(t: Term<Letter>)
    ensures ShapeOf(ToIndices(t)) == ShapeOf(t)
    ensures |Leaves(ToIndices(t), [])| == |Leaves(t, [])|
    ensures forall k :: 0 <= k < |Leaves(t, [])| ==>
      Leaves(ToIndices(t), [])[k] == (IndexOfName(Leaves(t, [])[k].0, Leaves(t, [])[k].1), Leaves(t, [])[k].1)
  {
    MapVarsLeafwise(t, [], IndexLeaf, IndexOfName);
  }

  /** One leaf: its name is read back from its index under the same heads. */
  lemma NameOfIndexOfName(x: Letter, bs: seq<Letter>)
    ensures NameOfIndex(IndexOfName(x, bs), bs) == Some(x)
  {
    var i := IndexOfName(x, bs);
    if x !in bs {
      assert i - |bs| == Pos(x);
    }
  }

  lemma {:induction false} NamesOfIndicesUnder(t: Term<Letter>, bs: seq<Letter>)
    ensures MapVars(MapVars(t, bs, IndexLeaf), bs, NameLeaf) == Named(t)
  {
    match t
    case Var(x) => NameOfIndexOfName(x, bs);
    case Lam(h, body) => NamesOfIndicesUnder(body, bs + [h]);
    case App(a, b) =>
      NamesOfIndicesUnder(a, bs);
      NamesOfIndicesUnder(b, bs);
  }

  /** The round trip: converting to indices and back gives every name back. */
  lemma NamesOfIndices(t: Term<Letter>)
    ensures ToNames(ToIndices(t)) == Named(t)
  {
    NamesOfIndicesUnder(t, []);
  }

  lemma {:induction false} NamedInjective(s: Term<Letter>, t: Term<Letter>)
    requires Named(s) == Named(t)
    ensures s == t
  {
    match s
    case Var(_) =>
    case Lam(_, body) => NamedInjective(body, t.body);
    case App(a, b) => NamedInjective(a, t.a); NamedInjective(b, t.b);
  }

  /** Two named terms with the same de Bruijn form are the same term. */
  lemma ToIndicesInjective(s: Term<Letter>, t: Term<Letter>)
    requires ToIndices(s) == ToIndices(t)
    ensures s == t
  {
    NamesOfIndices(s);
    NamesOfIndices(t);
    NamedInjective(s, t);
  }

  /** `abc` is `(0 1) 2`: free names count from the start of the alphabet. */
  lemma ToIndicesFree()
    ensures ToIndices(App(App(Var('a'), Var('b')), Var('c'))) == App(App(Var(0), Var(1)), Var(2))
  {
    assert Pos('b') == 1 && Pos('c') == 2;
  }

  /** `\x.a` is `\x.1`: a free name is shifted by the lambdas around it. */
  lemma ToIndicesUnderLambda()
    ensures ToIndices(Lam('x', Var('a'))) == Lam('x', Var(1))
  {
    assert LastIndexOf(['x'], 'a') == -1;
  }

  /** `(\x.ax)b` is `(\x.1 0) 1`. */
  lemma ToIndicesRedex()
    ensures ToIndices(App(Lam('x', App(Var('a'), Var('x'))), Var('b'))) ==
      App(Lam('x', App(Var(1), Var(0))), Var(1))
  {
    assert [] + ['x'] == ['x'];
    assert IndexOfName('a', ['x']) == 1 && IndexOfName('x', ['x']) == 0;
    assert MapVars<Letter, Index>(App(Var('a'), Var('x')), ['x'], IndexLeaf) == App(Var(1), Var(0));
    assert Pos('b') == 1;
  }

  /** `(\x.\y.z x (\u.u x)) (\x.w x)` is `(\x.\y.27 1 (\u.0 2)) (\x.23 0)`. */
  lemma ToIndicesNested()
    ensures ToIndices(App(Lam('x', Lam('y', App(App(Var('z'), Var('x')), Lam('u', App(Var('u'), Var('x')))))),
                          Lam('x', App(Var('w'), Var('x'))))) ==
      App(Lam('x', Lam('y', App(App(Var(27), Var(1)), Lam('u', App(Var(0), Var(2)))))),
          Lam('x', App(Var(23), Var(0))))
  {
    assert [] + ['x'] == ['x'] && ['x'] + ['y'] == ['x', 'y'];
    NestedLeftBody();
    NestedArgument();
  }

  lemma NestedInnerLambda()
    ensures MapVars<Letter, Index>(Lam('u', App(Var('u'), Var('x'))), ['x', 'y'], IndexLeaf) == Lam('u', App(Var(0), Var(2)))
  {
    assert ['x', 'y'] + ['u'] == ['x', 'y', 'u'];
    assert LastIndexOf(['x', 'y', 'u'], 'x') == 0;
  }

  lemma NestedLeftBody()
    ensures MapVars<Letter, Index>(App(App(Var('z'), Var('x')), Lam('u', App(Var('u'), Var('x')))), ['x', 'y'], IndexLeaf) ==
      App(App(Var(27), Var(1)), Lam('u', App(Var(0), Var(2))))
  {
    assert LastIndexOf(['x', 'y'], 'z') == -1 && Pos('z') == 25;
    NestedInnerLambda();
  }

  lemma NestedArgument()
    ensures MapVars<Letter, Index>(Lam('x', App(Var('w'), Var('x'))), [], IndexLeaf) == Lam('x', App(Var(23), Var(0)))
  {
    assert [] + ['x'] == ['x'];
    assert LastIndexOf(['x'], 'w') == -1 && Pos('w') == 22;
  }
}
