/** The scope handling of `Traverser` (lambda.ts) as written, with the body
    pointer of every entered lambda object made explicit.  The zipper of module
    Zipper keeps frames as values and recovers the whole term by plugging; here
    the `expression` getter instead follows the lambdas' body pointers, and
    `exitScope` runs the `current` setter before it restores the saved path, as
    the source does.  The setter then points the enclosing lambda's body at the
    lambda being exited, which is wrong whenever that lambda is not the topmost
    node of the enclosing scope, and stays wrong until the walk next runs the
    setter with an empty path in that scope; a walk that stops before then, as
    `findBy` does at its first match, leaves it wrong for good. */
module Aliasing {
  import opened Terms
  import opened Zipper
  import opened Indices
  import opened Walks
  import opened Substitution
  import opened Evaluator

  /** An entered lambda object: its head, the path saved on entry, and where its
      body pointer leads.  None: to the topmost node of the scope inside it (the
      subterm the path of that scope rebuilds); Some(t): to some other node, the
      root of subterm `t`, which the walk has left behind and does not change. */
  datatype Entered<V> = Entered(head: Letter, path: seq<Frame<V>>, body: Option<Term<V>>)

  /** The lambda object of `c` read through its body pointer, when `inner` is the
      topmost node of the scope inside it. */
  function Object<V>(c: Entered<V>, inner: Term<V>): (r: Term<V>)
    ensures r.Lam? && r.head == c.head
    ensures c.body.None? ==> r.body == inner
  {
    Lam(c.head, if c.body.Some? then c.body.value else inner)
  }

  /** What the `expression` getter reads: from the outermost object down, every
      scope's path above its lambda object, whose body is read through the pointer. */
  function Reread<V>(inner: Term<V>, contexts: seq<Entered<V>>): Term<V>
    decreases |contexts|
  {
    if contexts == [] then inner
    else
      var n := |contexts| - 1;
      Reread(Plug(Object(contexts[n], inner), Steps(contexts[n].path)), contexts[..n])
  }

  /** The contexts without the pointers: what the zipper of module Zipper keeps. */
  function Tracked<V>(contexts: seq<Entered<V>>): (cs: seq<Context<V>>)
    ensures |cs| == |contexts|
    ensures forall i :: 0 <= i < |contexts| ==> cs[i] == Context(contexts[i].head, contexts[i].path)
  {
    seq(|contexts|, i requires 0 <= i < |contexts| => Context(contexts[i].head, contexts[i].path))
  }

  /** No body pointer has gone astray. */
  predicate InPlace<V>(contexts: seq<Entered<V>>) {
    forall i :: 0 <= i < |contexts| ==> contexts[i].body.None?
  }

  /** The last context with its body pointer set to `p`. */
  function Repointed<V>(contexts: seq<Entered<V>>, p: Option<Term<V>>): (cs: seq<Entered<V>>)
    requires contexts != []
    ensures |cs| == |contexts| && cs[..|cs| - 1] == contexts[..|contexts| - 1]
    ensures cs[|cs| - 1] == contexts[|contexts| - 1].(body := p)
  {
    contexts[..|contexts| - 1] + [contexts[|contexts| - 1].(body := p)]
  }

  lemma {:induction false} PlugConcat<V>(x: Term<V>, a: seq<Item<V>>, b: seq<Item<V>>)
    ensures Plug(x, a + b) == Plug(Plug(x, b), a)
    decreases |b|
  {
    if b != [] {
      var n := |b| - 1;
      assert (a + b)[..|a + b| - 1] == a + b[..n];
      PlugConcat(Wrap(x, b[n]), a, b[..n]);
    } else {
      assert a + b == a;
    }
  }

  /** With every pointer in place the getter reads the term the zipper rebuilds:
      the as-written getter and `Root` agree. */
  lemma {:induction false} RereadInPlace<V>(inner: Term<V>, contexts: seq<Entered<V>>)
    requires InPlace(contexts)
    ensures Reread(inner, contexts) == Plug(inner, CtxFlat(Tracked(contexts)))
    decreases |contexts|
  {
    if contexts != [] {
      var n := |contexts| - 1;
      var c := contexts[n];
      var init := contexts[..n];
      assert InPlace(init);
      assert Tracked(contexts)[..n] == Tracked(init);
      var outer := CtxFlat(Tracked(init));
      assert CtxFlat(Tracked(contexts)) == outer + Steps(c.path) + [Scope(c.head)];
      RereadInPlace(Plug(Lam(c.head, inner), Steps(c.path)), init);
      PlugSnoc(inner, outer + Steps(c.path), Scope(c.head));
      PlugConcat(Lam(c.head, inner), outer, Steps(c.path));
    }
  }

  /** `Traverser` as written: the focus, the path of frames in the current scope,
      and the entered lambda objects with their body pointers. */
  class Traverser<V> {
    var cur: Term<V>
    var stack: seq<Frame<V>>
    var contexts: seq<Entered<V>>

    constructor (expr: Term<V>)
      ensures cur == expr && stack == [] && contexts == []
      ensures Expression() == expr
    {
      cur := expr;
      stack := [];
      contexts := [];
    }

    /** The `expression` getter, following the pointers. */
    function Expression(): Term<V>
      reads this
    {
      Reread(Plug(cur, Steps(stack)), contexts)
    }

    /** The same state as the zipper of module Zipper sees it. */
    function Root(): Term<V>
      reads this
    {
      Plug(cur, CtxFlat(Tracked(contexts)) + Steps(stack))
    }

    /** While no pointer is astray the getter reads the zipper's whole term. */
    lemma ExpressionInPlace()
      requires InPlace(contexts)
      ensures Expression() == Root()
    {
      RereadInPlace(Plug(cur, Steps(stack)), contexts);
      PlugConcat(cur, CtxFlat(Tracked(contexts)), Steps(stack));
    }

    /** `rightSibling`: the argument of the application whose function is the focus. */
    function RightSibling(): (r: Option<Term<V>>)
      reads this
      ensures r.Some? <==> stack != [] && stack[|stack| - 1].WentLeft?
      ensures r.Some? ==> r.value == stack[|stack| - 1].right
    {
      if stack != [] && stack[|stack| - 1].WentLeft? then Some(stack[|stack| - 1].right) else None
    }

    /** The `current` setter: with a frame above the focus it writes that frame's
        branch; with an empty path it points the innermost lambda's body at the
        new focus, the topmost node of the scope. */
    method SetCurrent(e: Term<V>)
      modifies this
      ensures cur == e && stack == old(stack)
      ensures old(stack) == [] && old(contexts) != [] ==> contexts == Repointed(old(contexts), None)
      ensures old(stack) != [] || old(contexts) == [] ==> contexts == old(contexts)
    {
      cur := e;
      if stack == [] && contexts != [] {
        contexts := Repointed(contexts, None);
      }
    }

    method Left() returns (moved: bool)
      modifies this
      ensures moved == old(cur).App?
      ensures moved ==> cur == old(cur).a && stack == old(stack) + [WentLeft(old(cur).b)]
      ensures !moved ==> cur == old(cur) && stack == old(stack)
      ensures contexts == old(contexts)
    {
      if cur.App? {
        stack := stack + [WentLeft(cur.b)];
        SetCurrent(cur.a);
        moved := true;
      } else {
        moved := false;
      }
    }

    method Right() returns (moved: bool)
      modifies this
      ensures moved == old(cur).App?
      ensures moved ==> cur == old(cur).b && stack == old(stack) + [WentRight(old(cur).a)]
      ensures !moved ==> cur == old(cur) && stack == old(stack)
      ensures contexts == old(contexts)
    {
      if cur.App? {
        stack := stack + [WentRight(cur.a)];
        SetCurrent(cur.b);
        moved := true;
      } else {
        moved := false;
      }
    }

    /** `up`: pops the innermost frame and makes its application the focus through
        the setter; popping the last frame puts the innermost lambda's body
        pointer back in place. */
    method Up() returns (moved: bool)
      modifies this
      ensures moved == (old(stack) != [])
      ensures moved ==> cur == Wrap(old(cur), Step(old(stack)[|old(stack)| - 1]))
      ensures moved ==> stack == old(stack)[..|old(stack)| - 1]
      ensures moved && stack == [] && old(contexts) != [] ==> contexts == Repointed(old(contexts), None)
      ensures !(moved && stack == [] && old(contexts) != []) ==> contexts == old(contexts)
      ensures !moved ==> cur == old(cur) && stack == old(stack)
    {
      if stack != [] {
        var above := stack[|stack| - 1];
        stack := stack[..|stack| - 1];
        SetCurrent(Wrap(cur, Step(above)));
        moved := true;
      } else {
        moved := false;
      }
    }

    /** `enterScope`: saves the lambda and the path, and moves into the body
        without the setter; the new lambda's pointer is in place. */
    method EnterScope()
      modifies this
      ensures old(cur).Lam? ==> cur == old(cur).body && stack == []
      ensures old(cur).Lam? ==> contexts == old(contexts) + [Entered(old(cur).head, old(stack), None)]
      ensures !old(cur).Lam? ==> cur == old(cur) && stack == old(stack) && contexts == old(contexts)
    {
      if cur.Lam? {
        contexts := contexts + [Entered(cur.head, stack, None)];
        cur := cur.body;
        stack := [];
      }
    }

    /** `exitScope` as written: pops the context and, with an empty path, makes
        the lambda object the focus through the setter while the path is still
        empty, and only then restores the saved path.  The enclosing lambda's
        body pointer is left on the exited lambda, which is the topmost node of
        the enclosing scope only when the saved path is empty. */
    method ExitScope()
      modifies this
      ensures old(contexts) == [] ==> cur == old(cur) && stack == old(stack) && contexts == []
      ensures old(contexts) != [] && old(stack) != [] ==>
        cur == old(cur) && stack == old(stack) && contexts == old(contexts)[..|old(contexts)| - 1]
      ensures old(contexts) != [] && old(stack) == [] ==>
        var outer := old(contexts)[|old(contexts)| - 1];
        var rest := old(contexts)[..|old(contexts)| - 1];
        cur == Object(outer, old(cur)) && stack == outer.path &&
        contexts == (if rest == [] then [] else Repointed(rest, Some(cur)))
    {
      if contexts != [] {
        var outer := contexts[|contexts| - 1];
        contexts := contexts[..|contexts| - 1];
        if stack == [] {
          var lambda := Object(outer, cur);
          SetCurrent(lambda);
          // The pointer just written designates the lambda object itself, and
          // keeps designating it once the path below changes.
          if contexts != [] {
            contexts := Repointed(contexts, Some(lambda));
          }
          stack := outer.path;
        }
      }
    }
  }

  /** Exiting the scope of `\b` in `\a.x(\b.y)`: before the exit the getter reads
      the whole term; after it, the enclosing lambda's body is the exited lambda,
      and the application with `x` is lost from the getter's view. */
  method ExitScopeLosesPath() returns (before: Term<Letter>, after: Term<Letter>)
    ensures var e: Term<Letter> := Lam('a', App(Var('x'), Lam('b', Var('y')))); before == e
    ensures var e: Term<Letter> := Lam('a', Lam('b', Var('y'))); after == e
  {
    var y: Term<Letter> := Var('y');
    var lb: Term<Letter> := Lam('b', y);
    var x: Term<Letter> := Var('x');
    var t := new Traverser(Lam('a', App(x, lb)));
    t.EnterScope();
    assert t.contexts == [Entered('a', [], None)];
    var _ := t.Right();
    assert t.cur == lb && t.stack == [WentRight(x)];
    t.EnterScope();
    assert t.cur == y && t.stack == [];
    assert t.contexts == [Entered('a', [], None), Entered('b', [WentRight(x)], None)];
    ReadBeforeExit();
    before := t.Expression();
    t.ExitScope();
    assert t.cur == lb && t.stack == [WentRight(x)];
    assert t.contexts == [Entered('a', [], Some(lb))];
    ReadAfterExit();
    after := t.Expression();
  }

  lemma ReadBeforeExit()
    ensures var x: Term<Letter> := Var('x');
      var y: Term<Letter> := Var('y');
      Reread(Plug(y, Steps([])), [Entered('a', [], None), Entered('b', [WentRight(x)], None)]) ==
      Lam('a', App(x, Lam('b', y)))
  {
    var x: Term<Letter> := Var('x');
    var y: Term<Letter> := Var('y');
    var lb: Term<Letter> := Lam('b', y);
    var cs := [Entered('a', [], None), Entered('b', [WentRight(x)], None)];
    var steps: seq<Item<Letter>> := [Step(WentRight(x))];
    assert Steps([WentRight(x)]) == steps;
    assert Plug(lb, steps) == App(x, lb);
    assert cs[..1] == [Entered('a', [], None)];
    assert Reread(y, cs) == Reread(App(x, lb), cs[..1]);
  }

  lemma ReadAfterExit()
    ensures var x: Term<Letter> := Var('x');
      var lb: Term<Letter> := Lam('b', Var('y'));
      Reread(Plug(lb, Steps([WentRight(x)])), [Entered('a', [], Some(lb))]) == Lam('a', lb)
  {
    var x: Term<Letter> := Var('x');
    var lb: Term<Letter> := Lam('b', Var('y'));
    var steps: seq<Item<Letter>> := [Step(WentRight(x))];
    assert Steps([WentRight(x)]) == steps;
  }

  // ---------------------------------------------------------------------------
  // `evaluate` on `\a.x(\b.y)((\c.c)w)v`, in de Bruijn form `\.24(\.26)((\.0)23)22`.

  /** `x(\b.y)` inside `\a`. */
  function Operator(): Term<Index> {
    App(Var(24), Lam('b', Var(26)))
  }

  /** `(\c.c)w` inside `\a`. */
  function Operand(): Term<Index> {
    App(Lam('c', Var(0)), Var(23))
  }

  function Sample(): Term<Index> {
    Lam('a', App(App(Operator(), Operand()), Var(22)))
  }

  /** The contraction of the only redex: `\a.x(\b.y)wv`. */
  function SampleReduced(): Term<Index> {
    Lam('a', App(App(Operator(), Var(23)), Var(22)))
  }

  /** The path down to `y` while the walk is in the scope of `\b`. */
  function PathToB(): seq<Frame<Index>> {
    [WentLeft(Var(22)), WentLeft(Operand()), WentRight(Var(24))]
  }

  /** `evaluateGen`'s loop from the start to the body of `\b`: enter `\a`, go left
      three times (`forward` on applications), move from `x` to its right sibling
      (`nextBranch`), enter `\b`. */
  method DescendToB(t: Traverser<Index>)
    requires t.cur == Sample() && t.stack == [] && t.contexts == []
    modifies t
    ensures t.cur == Var(26) && t.stack == []
    ensures t.contexts == [Entered('a', [], None), Entered('b', PathToB(), None)]
  {
    assert t.RightSibling().None?;
    t.EnterScope();
    var _ := t.Left();
    var _ := t.Left();
    var _ := t.Left();
    assert t.cur == Var(24) && t.stack == [WentLeft(Var(22)), WentLeft(Operand()), WentLeft(Lam('b', Var(26)))];
    var _ := t.Up();
    var _ := t.Right();
    assert t.cur == Lam('b', Var(26)) && t.stack == PathToB();
    assert t.RightSibling().None?;
    t.EnterScope();
  }

  /** `forward` at `y`: `nextBranch` finds no frame, so `exitScopes` exits the
      scope of `\b` (and the setter points the body of `\a` at `\b.y`), then goes
      forward: up from the right child, up from the left child, right to `(\c.c)w`,
      whose left child is entered next. */
  method LeaveB(t: Traverser<Index>)
    requires t.cur == Var(26) && t.stack == []
    requires t.contexts == [Entered('a', [], None), Entered('b', PathToB(), None)]
    modifies t
    ensures t.cur == Lam('c', Var(0)) && t.stack == [WentLeft(Var(22)), WentRight(Operator()), WentLeft(Var(23))]
    ensures t.contexts == [Entered('a', [], Some(Lam('b', Var(26))))]
  {
    t.ExitScope();
    assert t.cur == Lam('b', Var(26)) && t.stack == PathToB();
    assert t.contexts == [Entered('a', [], Some(Lam('b', Var(26))))];
    var _ := t.Up();
    assert t.stack == [WentLeft(Var(22)), WentLeft(Operand())];
    var _ := t.Up();
    var _ := t.Right();
    assert t.cur == Operand();
    var _ := t.Left();
  }

  /** The contraction: `bind` of `\c.c` to `w`, up to the application, set the
      focus to the result (not a lambda, so no `renameHead`). */
  method ContractC(t: Traverser<Index>)
    requires t.cur == Lam('c', Var(0)) && t.stack == [WentLeft(Var(22)), WentRight(Operator()), WentLeft(Var(23))]
    requires t.contexts == [Entered('a', [], Some(Lam('b', Var(26))))]
    modifies t
    ensures t.cur == Var(23) && t.stack == [WentLeft(Var(22)), WentRight(Operator())]
    ensures t.contexts == [Entered('a', [], Some(Lam('b', Var(26))))]
  {
    var arg := t.RightSibling();
    BetaIdentity(Var(23));
    var result := Reduct(t.cur.body, arg.value);
    assert result == Var(23);
    var _ := t.Up();
    t.SetCurrent(result);
  }

  /** The rest of the walk: up and right to `v`, up to the top of the scope (the
      setter puts the body pointer of `\a` back), exit the scope of `\a`, and
      `exitScopes` reports the walk complete. */
  method Finish(t: Traverser<Index>) returns (done: bool)
    requires t.cur == Var(23) && t.stack == [WentLeft(Var(22)), WentRight(Operator())]
    requires t.contexts == [Entered('a', [], Some(Lam('b', Var(26))))]
    modifies t
    ensures done && t.cur == SampleReduced() && t.stack == [] && t.contexts == []
  {
    var _ := t.Up();
    var _ := t.Up();
    assert t.stack == [] && t.contexts == [Entered('a', [], None)];
    var _ := t.Right();
    var _ := t.Up();
    assert t.stack == [] && t.cur == SampleReduced().body;
    t.ExitScope();
    done := t.stack == [] && t.contexts == [];
  }

  /** The calls `evaluateGen` makes on the sample, in the order its loop and
      `forward`, `nextBranch` and `exitScopes` make them, with the traverser as
      written.  It yielded the input and then, after the one contraction, a term
      read through the stray pointer: `\a.\b.y`.  That last yield is what
      `evaluate` returns, although the term the walk leaves behind is the right
      one, `\a.x(\b.y)wv`. */
  method SampleAsWritten() returns (yielded: seq<Term<Index>>, left: Term<Index>)
    ensures yielded == [Sample(), Lam('a', Lam('b', Var(26)))]
    ensures left == SampleReduced()
  {
    var t := new Traverser(Sample());
    yielded := [t.Expression()];
    DescendToB(t);
    LeaveB(t);
    ContractC(t);
    ReadContracted();
    yielded := yielded + [t.Expression()];
    var done := Finish(t);
    assert done;
    left := t.Expression();
  }

  lemma ReadContracted()
    ensures Reread(Plug(Var(23), Steps([WentLeft(Var(22)), WentRight(Operator())])),
                   [Entered('a', [], Some(Lam('b', Var(26))))]) == Lam('a', Lam('b', Var(26)))
  {
    var cs := [Entered('a', [], Some(Lam('b', Var(26))))];
    assert cs[..0] == [];
  }

  /** The corrected traverser on the same input: the model's `evaluate` returns
      the contraction of the one redex. */
  lemma SampleEvaluates()
    ensures Run(Sample(), [], 2) == Some(SampleReduced())
  {
    var fl: seq<Item<Index>> := [Scope('a'), Step(WentLeft(Var(22))), Step(WentRight(Operator()))];
    SeekToRedex();
    BetaIdentity(Var(23));
    assert Reduct(Var(0), Var(23)) == Var(23);
    ReducedPlug(fl);
    SeekOnNormal(Var(23), fl);
  }

  /** The walk of the model from the root meets `(\c.c)w` as the first redex. */
  lemma SeekToRedex()
    ensures Seek(Sample(), []) ==
      Redex('c', Var(0), Var(23), [Scope('a'), Step(WentLeft(Var(22))), Step(WentRight(Operator()))])
  {
    var lb: Term<Index> := Lam('b', Var(26));
    var top: seq<Item<Index>> := [Scope('a'), Step(WentLeft(Var(22)))];
    var atX := top + [Step(WentLeft(Operand())), Step(WentLeft(lb))];
    SeekToX(top, atX);
    var atB := top + [Step(WentLeft(Operand())), Step(WentRight(Var(24)))];
    SeekFromX(atX, atB);
    var fl := top + [Step(WentRight(Operator()))];
    ClimbToOperand(atB);
    assert Seek(Var(26), atB + [Scope('b')]) == Seek(Operand(), fl);
    assert Seek(Operand(), fl) == Redex('c', Var(0), Var(23), fl);
  }

  lemma SeekToX(top: seq<Item<Index>>, atX: seq<Item<Index>>)
    requires top == [Scope('a'), Step(WentLeft(Var(22)))]
    requires atX == top + [Step(WentLeft(Operand())), Step(WentLeft(Lam('b', Var(26))))]
    ensures Seek(Sample(), []) == Seek(Var(24), atX)
  {
    var inA: seq<Item<Index>> := [Scope('a')];
    var none: seq<Item<Index>> := [];
    assert none + [Scope('a')] == inA && inA + [Step(WentLeft(Var(22)))] == top;
    assert !LeftOfApp(none) && !LeftOfApp(inA);
    assert Seek(Sample(), []) == Seek(Sample().body, inA);
    assert Seek(Sample().body, inA) == Seek(App(Operator(), Operand()), top);
    assert Seek(App(Operator(), Operand()), top) == Seek(Operator(), top + [Step(WentLeft(Operand()))]);
    assert top + [Step(WentLeft(Operand()))] + [Step(WentLeft(Lam('b', Var(26))))] == atX;
  }

  lemma SeekFromX(atX: seq<Item<Index>>, atB: seq<Item<Index>>)
    requires atX == [Scope('a'), Step(WentLeft(Var(22))), Step(WentLeft(Operand())), Step(WentLeft(Lam('b', Var(26))))]
    requires atB == [Scope('a'), Step(WentLeft(Var(22))), Step(WentLeft(Operand())), Step(WentRight(Var(24)))]
    ensures Seek(Var(24), atX) == Seek(Var(26), atB + [Scope('b')])
  {
    assert atX[..|atX| - 1] + [Step(WentRight(Var(24)))] == atB;
    assert Advance(Var(24), atX) == At(Lam('b', Var(26)), atB);
    assert !LeftOfApp(atB);
  }

  lemma ClimbToOperand(atB: seq<Item<Index>>)
    requires atB == [Scope('a'), Step(WentLeft(Var(22))), Step(WentLeft(Operand())), Step(WentRight(Var(24)))]
    ensures Advance(Var(26), atB + [Scope('b')]) ==
      At(Operand(), [Scope('a'), Step(WentLeft(Var(22))), Step(WentRight(Operator()))])
  {
    var inB := atB + [Scope('b')];
    assert inB[..|inB| - 1] == atB;
    assert Climb(Var(26), inB) == Climb(Lam('b', Var(26)), atB);
    var f: seq<Item<Index>> := [Scope('a'), Step(WentLeft(Var(22))), Step(WentLeft(Operand()))];
    assert atB[..|atB| - 1] == f;
    assert Climb(Lam('b', Var(26)), atB) == Climb(Operator(), f);
    assert Climb(Operator(), f) == (Operator(), f);
    assert f[..|f| - 1] + [Step(WentRight(Operator()))] ==
      [Scope('a'), Step(WentLeft(Var(22))), Step(WentRight(Operator()))];
  }

  lemma ReducedPlug(fl: seq<Item<Index>>)
    requires fl == [Scope('a'), Step(WentLeft(Var(22))), Step(WentRight(Operator()))]
    ensures Plug(Var(23), fl) == SampleReduced() && NoRedex(SampleReduced())
  {
    var top: seq<Item<Index>> := [Scope('a'), Step(WentLeft(Var(22)))];
    var inA: seq<Item<Index>> := [Scope('a')];
    assert fl[..2] == top && top[..1] == inA && inA[..0] == [];
    assert Plug(Var(23), fl) == Plug(App(Operator(), Var(23)), top);
    assert Plug(App(Operator(), Var(23)), top) == Plug(SampleReduced().body, inA);
  }

  // ---------------------------------------------------------------------------
  // `evaluate` on `(\q.\y.\a.x(\b.b)qr)y`, in de Bruijn form `(\.\.\.26(\.0)2 20)24`.
  // `bind` gives `\y.\a.x(\b.b)yr`, whose free `y` the head `y` would capture,
  // so `renameHead` searches the body with `findBy`, in place.

  /** The redex of the input: `\q.\y.\a.x(\b.b)qr` applied to `y`. */
  function Captured(): Term<Index> {
    App(Lam('q', Lam('y', Lam('a', App(App(App(Var(26), Lam('b', Var(0))), Var(2)), Var(20))))), Var(24))
  }

  /** `x(\b.b)yr` inside `\y.\a` once `q` is bound to `y`. */
  function Spine(): Term<Index> {
    App(App(App(Var(25), Lam('b', Var(0))), Var(26)), Var(19))
  }

  /** The result of `bind`: `\y.\a.x(\b.b)yr`. */
  function CaptureBound(): Term<Index> {
    Lam('y', Lam('a', Spine()))
  }

  /** The path down to `b` while the search is in the scope of `\b`. */
  function PathInSpine(): seq<Frame<Index>> {
    [WentLeft(Var(19)), WentLeft(Var(26)), WentRight(Var(25))]
  }

  /** What `evaluate` returns as written: `\a.\a.\b.b`. */
  function CaptureLost(): Term<Index> {
    Lam('a', Lam('a', Lam('b', Var(0))))
  }

  lemma BindCapture()
    ensures Beta(Captured().a.body, Var(24)) == CaptureBound()
  {
    var s: Term<Index> := Var(25);
    assert Shift(s, 0, 1) == Var(26);
    assert Subst(Lam('b', Var(0)), 2, Var(26)) == Lam('b', Var(0));
    assert Subst(Captured().a.body, 0, s) ==
      Lam('y', Lam('a', App(App(App(Var(26), Lam('b', Var(0))), Var(27)), Var(20))));
  }

  /** The first `findBy` of `renameHead`, for the head `y` on the body `\a.x(\b.b)yr`,
      up to the body of `\b`: enter `\a`, go left three times, test `x`, move to
      its right sibling (`nextBranch`), enter `\b`, test `b`. */
  method ClashDescend(t: Traverser<Index>) returns (bindings: seq<Letter>)
    requires t.cur == Lam('a', Spine()) && t.stack == [] && t.contexts == []
    modifies t
    ensures bindings == ['a', 'b'] && t.cur == Var(0) && t.stack == []
    ensures t.contexts == [Entered('a', [], None), Entered('b', PathInSpine(), None)]
  {
    bindings := [t.cur.head];
    t.EnterScope();
    var _ := t.Left();
    var _ := t.Left();
    var _ := t.Left();
    assert t.cur == Var(25) && t.stack == [WentLeft(Var(19)), WentLeft(Var(26)), WentLeft(Lam('b', Var(0)))];
    var hit := Clashes('y')(t.cur.v, bindings);
    assert !hit;
    var _ := t.Up();
    var _ := t.Right();
    assert t.cur == Lam('b', Var(0)) && t.stack == PathInSpine();
    bindings := bindings + [t.cur.head];
    t.EnterScope();
    hit := Clashes('y')(t.cur.v, bindings);
    assert !hit;
  }

  /** `nextBranch` at `b` finds no frame, so `exitScopes` exits the scope of `\b`
      (the setter points the body of `\a` at `\b.b`) and goes forward: up from the
      right child, up from the left child, right to the free `y`, which matches.
      `findBy` returns there, before the walk climbs back to the top of the scope. */
  method ClashReturn(t: Traverser<Index>, bindings: seq<Letter>) returns (found: Option<Index>)
    requires bindings == ['a', 'b'] && t.cur == Var(0) && t.stack == []
    requires t.contexts == [Entered('a', [], None), Entered('b', PathInSpine(), None)]
    modifies t
    ensures found == Some(26)
    ensures t.cur == Var(26) && t.stack == [WentLeft(Var(19)), WentRight(App(Var(25), Lam('b', Var(0))))]
    ensures t.contexts == [Entered('a', [], Some(Lam('b', Var(0))))]
  {
    t.ExitScope();
    assert t.cur == Lam('b', Var(0)) && t.stack == PathInSpine();
    assert t.contexts == [Entered('a', [], Some(Lam('b', Var(0))))];
    var inA := bindings[..1];
    var _ := t.Up();
    assert t.stack == [WentLeft(Var(19)), WentLeft(Var(26))];
    var _ := t.Up();
    var _ := t.Right();
    assert t.cur == Var(26);
    found := if Clashes('y')(t.cur.v, inA) then Some(t.cur.v) else None;
  }

  /** Where `findBy` returned, the getter of its traverser reads the lambda it
      was given, `lambda.body` of `renameHead`, through the stray pointer. */
  lemma ReadClash()
    ensures Reread(Plug(Var(26), Steps([WentLeft(Var(19)), WentRight(App(Var(25), Lam('b', Var(0))))])),
                   [Entered('a', [], Some(Lam('b', Var(0))))]) == Lam('a', Lam('b', Var(0)))
  {
    var cs := [Entered('a', [], Some(Lam('b', Var(0))))];
    assert cs[..0] == [];
  }

  /** The second `findBy`, for the head `a` on what is left of the body,
      `\a.\b.b`: no match, and the walk completes. */
  method FindNoClash(t: Traverser<Index>) returns (found: Option<Index>)
    requires t.cur == Lam('a', Lam('b', Var(0))) && t.stack == [] && t.contexts == []
    modifies t
    ensures found == None
    ensures t.cur == Lam('a', Lam('b', Var(0))) && t.stack == [] && t.contexts == []
  {
    var bindings := [t.cur.head];
    t.EnterScope();
    bindings := bindings + [t.cur.head];
    t.EnterScope();
    assert t.cur == Var(0) && t.contexts == [Entered('a', [], None), Entered('b', [], None)];
    var hit := Clashes('a')(t.cur.v, bindings);
    assert !hit;
    // `nextBranch` finds no frame: `exitScopes` exits `\b`, goes forward, and
    // from the lambda `nextBranch` again finds no frame and exits `\a`.
    t.ExitScope();
    t.ExitScope();
    var done := t.stack == [] && t.contexts == [];
    assert done;
    found := None;
  }

  /** `renameHead` as written on `\y.\a.x(\b.b)yr`: `y` clashes, so the head
      becomes `a`; the next search, for `a`, walks the body as the first search
      left it, `\a.\b.b`, finds nothing, and the loop stops. */
  method RenameCaptureAsWritten(lam: Term<Index>) returns (r: Term<Index>)
    requires lam == CaptureBound()
    ensures r == CaptureLost()
  {
    var head := lam.head;
    var t := new Traverser(lam.body);
    var bindings := ClashDescend(t);
    var found := ClashReturn(t, bindings);
    assert found.Some?;
    head := LetterAt(0);
    ReadClash();
    var body := t.Expression();
    var u := new Traverser(body);
    found := FindNoClash(u);
    assert found.None?;
    r := Lam(head, body);
  }

  /** The rest of the walk of `evaluateGen` on `\a.\a.\b.b`: no lambda has a right
      sibling, so the three are entered; at `b` the scopes are exited in turn and
      `exitScopes` reports the walk complete. */
  method FinishCapture(t: Traverser<Index>) returns (done: bool)
    requires t.cur == CaptureLost() && t.stack == [] && t.contexts == []
    modifies t
    ensures done && t.cur == CaptureLost() && t.stack == [] && t.contexts == []
  {
    assert t.RightSibling().None?;
    t.EnterScope();
    assert t.RightSibling().None?;
    t.EnterScope();
    assert t.RightSibling().None?;
    t.EnterScope();
    assert t.cur == Var(0) && t.stack == [];
    t.ExitScope();
    t.ExitScope();
    t.ExitScope();
    done := t.stack == [] && t.contexts == [];
  }

  /** The calls `evaluateGen` makes on `(\q.\y.\a.x(\b.b)qr)y` with the traverser
      as written: `bind`, then `renameHead`, whose first `findBy` returns while
      the body of `\a` points at `\b.b`.  The pointer is never put back: the
      yield after the contraction, what `evaluate` returns, and the term the walk
      leaves behind are all `\a.\a.\b.b`. */
  method CaptureAsWritten() returns (yielded: seq<Term<Index>>, left: Term<Index>)
    ensures yielded == [Captured(), CaptureLost()]
    ensures left == CaptureLost()
  {
    var t := new Traverser(Captured());
    yielded := [t.Expression()];
    var _ := t.Left();
    var arg := t.RightSibling();
    var result := Bind(t.cur, arg.value);
    BindCapture();
    var _ := t.Up();
    t.SetCurrent(result);
    var renamed := RenameCaptureAsWritten(t.cur);
    t.SetCurrent(renamed);
    yielded := yielded + [t.Expression()];
    var done := FinishCapture(t);
    assert done;
    left := t.Expression();
  }

  /** With the corrected traverser the search for `y` leaves the body alone, the
      head is renamed to `a`, and `evaluate` returns `\a.\a.x(\b.b)yr`. */
  lemma CaptureEvaluates()
    ensures Run(Captured(), [], 2) == Some(Lam('a', Lam('a', Spine())))
  {
    var lam := Captured().a;
    var flat: seq<Item<Index>> := [Step(WentLeft(Var(24)))];
    assert Seek(Captured(), []) == Seek(lam, flat);
    assert flat[..0] == [];
    BindCapture();
    RenameAwayFromYInSpine();
    assert Reduct(lam.body, Var(24)) == Lam('a', Lam('a', Spine()));
    SeekOnNormal(Lam('a', Lam('a', Spine())), []);
  }

  /** In `\a.x(\b.b)yr` the free `y` clashes with the head `y`, and no index
      prints as `a`. */
  lemma RenameAwayFromYInSpine()
    ensures RenamedHead('y', Lam('a', Spine())) == 'a'
  {
    var body := Lam('a', Spine());
    var cs := Candidates('y');
    var none: seq<Letter> := [];
    assert none + ['a'] == ['a'];
    assert FindFirst(Spine(), ['a'], Clashes('y')) == Some(26);
    assert Clash(body, 'y');
    assert FindFirst(Spine(), ['a'], Clashes('a')) == None;
    assert cs[1..][0] == 'a' && !Clash(body, 'a');
    assert FirstFree(cs, body) == 1;
  }
}
