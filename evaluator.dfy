/** The normal-order evaluator (`evaluateGen`, `evaluate`).  The generator walks
    the term depth first; a lambda in function position is contracted in place
    with `bind` (and `renameHead` when the result is again a lambda), each
    contraction yields the whole term, and the walk resumes at the result. */
module Evaluator {
  import opened Terms
  import opened Zipper
  import opened Walks
  import opened Indices
  import opened Substitution

  /** Where the walk of `evaluateGen` stops next: the walk completes with the
      whole term, or it meets a lambda applied to an argument. */
  datatype Found =
    | Normal(root: Term<Index>)
    | Redex(head: Letter, body: Term<Index>, arg: Term<Index>, flat: seq<Item<Index>>)

  /** The focus is the function of an application (`rightSibling` is defined). */
  predicate LeftOfApp<V>(flat: seq<Item<V>>) {
    flat != [] && flat[|flat| - 1].Step? && flat[|flat| - 1].frame.WentLeft?
  }

  /** The walk of `evaluateGen` from focus `x`: a lambda with a right sibling is a
      redex; any other lambda is entered; an application is entered on the left;
      a variable moves on to the next branch. */
  function Seek(x: Term<Index>, flat: seq<Item<Index>>): Found
    decreases Size(x) + RestSize(flat)
  {
    match x
    case Lam(h, body) =>
      if LeftOfApp(flat) then Redex(h, body, flat[|flat| - 1].frame.right, flat[..|flat| - 1])
      else
        RestSizeSnoc(flat, Scope(h));
        Seek(body, flat + [Scope(h)])
    case App(a, b) =>
      RestSizeSnoc(flat, Step(WentLeft(b)));
      Seek(a, flat + [Step(WentLeft(b))])
    case Var(_) =>
      AdvanceShrinks(x, flat);
      match Advance(x, flat)
      case Finished(r) => Normal(r)
      case At(c, g) => Seek(c, g)
  }

  /** What replaces the redex: `bind`, then `renameHead` when the result is a lambda. */
  function Reduct(body: Term<Index>, arg: Term<Index>): Term<Index> {
    var r := Beta(body, arg);
    if r.Lam? then Lam(RenamedHead(r.head, r.body), r.body) else r
  }

  /** The result of `evaluate` with at most `fuel` calls of the generator after the
      first: the last term yielded, or None when the fuel runs out first. */
  function Run(x: Term<Index>, flat: seq<Item<Index>>, fuel: nat): Option<Term<Index>>
    decreases fuel
  {
    if fuel == 0 then None
    else
      match Seek(x, flat)
      case Normal(r) => Some(r)
      case Redex(_, body, arg, fl) => Run(Reduct(body, arg), fl, fuel - 1)
  }

  /** One pull of the generator: a completed walk ends the run with the term, a
      redex continues it from the reduct with one pull fewer. */
  lemma RunStep(x: Term<Index>, flat: seq<Item<Index>>, n: nat)
    ensures Seek(x, flat).Normal? ==> Run(x, flat, n + 1) == Some(Seek(x, flat).root)
    ensures Seek(x, flat).Redex? ==>
      var f := Seek(x, flat);
      Run(x, flat, n + 1) == Run(Reduct(f.body, f.arg), f.flat, n)
  {
  }

  /** The search never changes the term: a completed walk returns the whole term,
      and a redex is a lambda applied to its argument at the place found. */
  lemma {:induction false} SeekRoot(x: Term<Index>, flat: seq<Item<Index>>)
    ensures Seek(x, flat).Normal? ==> Seek(x, flat).root == Plug(x, flat)
    ensures Seek(x, flat).Redex? ==>
      var f := Seek(x, flat);
      Plug(App(Lam(f.head, f.body), f.arg), f.flat) == Plug(x, flat)
    decreases Size(x) + RestSize(flat)
  {
    match x
    case Lam(h, body) =>
      if LeftOfApp(flat) {
        var n := |flat| - 1;
        assert flat[..n] + [flat[n]] == flat;
        PlugSnoc(x, flat[..n], flat[n]);
      } else {
        RestSizeSnoc(flat, Scope(h));
        SeekRoot(body, flat + [Scope(h)]);
        PlugSnoc(body, flat, Scope(h));
      }
    case App(a, b) =>
      RestSizeSnoc(flat, Step(WentLeft(b)));
      SeekRoot(a, flat + [Step(WentLeft(b))]);
      PlugSnoc(a, flat, Step(WentLeft(b)));
    case Var(_) =>
      AdvanceShrinks(x, flat);
      AdvancePlug(x, flat);
      match Advance(x, flat)
      case Finished(r) =>
      case At(c, g) => SeekRoot(c, g);
  }

  /** One step of the walk of `evaluateGen`, and the part of the walk it consumes. */
  lemma SeekStep(x: Term<Index>, flat: seq<Item<Index>>)
    ensures x.Lam? && !LeftOfApp(flat) ==>
      Seek(x, flat) == Seek(x.body, flat + [Scope(x.head)]) &&
      Size(x.body) + RestSize(flat + [Scope(x.head)]) < Size(x) + RestSize(flat)
    ensures x.App? ==>
      Seek(x, flat) == Seek(x.a, flat + [Step(WentLeft(x.b))]) &&
      Size(x.a) + RestSize(flat + [Step(WentLeft(x.b))]) < Size(x) + RestSize(flat)
    ensures x.Var? ==>
      match Advance(x, flat)
      case Finished(r) => Seek(x, flat) == Normal(r)
      case At(c, g) => Seek(x, flat) == Seek(c, g) && Size(c) + RestSize(g) < Size(x) + RestSize(flat)
  {
    match x
    case Lam(h, _) => RestSizeSnoc(flat, Scope(h));
    case App(_, b) => RestSizeSnoc(flat, Step(WentLeft(b)));
    case Var(_) => AdvanceShrinks(x, flat);
  }

  /** The focus has a right sibling exactly when the innermost path frame was
      entered from the left. */
  lemma FlatLeftOfApp<V>(contexts: seq<Context<V>>, stack: seq<Frame<V>>)
    ensures LeftOfApp(CtxFlat(contexts) + Steps(stack)) <==> stack != [] && stack[|stack| - 1].WentLeft?
  {
    if stack != [] {
      FlatPop(contexts, stack);
    } else {
      assert CtxFlat(contexts) + Steps(stack) == CtxFlat(contexts);
    }
  }

  /** The generator object of `evaluateGen`: the traverser over the term being
      reduced, whether the first yield (the input) has happened, and whether the
      walk is complete. */
  class Evaluation {
    const t: DepthFirst<Index>
    var started: bool
    var done: bool

    constructor (expr: Term<Index>)
      ensures fresh(t) && !started && !done
      ensures t.cur == expr && t.stack == [] && t.contexts == []
    {
      t := new DepthFirst(expr);
      started := false;
      done := false;
    }

    /** The contraction step of `evaluateGen`: binds the lambda in focus to its
        right sibling, moves up to the application and replaces it with the result. */
    method Contract(arg: Term<Index>)
      requires t.cur.Lam? && t.stack != [] && t.stack[|t.stack| - 1] == WentLeft(arg)
      modifies t
      ensures t.cur == Reduct(old(t.cur).body, arg)
      ensures t.contexts == old(t.contexts) && t.stack == old(t.stack)[..|old(t.stack)| - 1]
    {
      var result := Bind(t.cur, arg);
      var _ := t.Up();
      t.SetCurrent(result);
      if t.cur.Lam? {
        var renamed := RenameHead(t.cur);
        t.SetCurrent(renamed);
      }
    }

    /** One `next()`: the input first; then the whole term after the next
        contraction, or nothing once the walk is complete. */
    method Next() returns (y: Option<Term<Index>>)
      modifies this, t
      ensures started
      ensures !old(started) ==> y == Some(old(t.Root())) && done == old(done) && unchanged(t)
      ensures old(started) && old(done) ==> y == None && done && unchanged(t)
      ensures old(started) && !old(done) ==>
        match Seek(old(t.cur), old(t.Flat()))
        case Normal(r) => y == None && done && t.cur == r && t.stack == [] && t.contexts == []
        case Redex(_, body, arg, fl) => !done && t.cur == Reduct(body, arg) && t.Flat() == fl && y == Some(t.Root())
    {
      if !started {
        started := true;
        y := Some(t.Root());
        return;
      }
      if done {
        y := None;
        return;
      }
      ghost var goal := Seek(t.cur, t.Flat());
      var finished := false;
      while !finished
        invariant started && !done
        invariant !finished ==> Seek(t.cur, t.Flat()) == goal
        invariant finished ==> goal == Normal(t.cur) && t.stack == [] && t.contexts == []
        decreases !finished, Size(t.cur) + RestSize(t.Flat())
      {
        ghost var x, flat, st := t.cur, t.Flat(), t.stack;
        SeekStep(x, flat);
        if t.cur.Lam? {
          FlatLeftOfApp(t.contexts, t.stack);
          var arg := t.RightSibling();
          if arg.Some? {
            FlatPop(t.contexts, t.stack);
            Contract(arg.value);
            y := Some(t.Root());
            return;
          }
          t.EnterScope();
        } else {
          ghost var pos := Advance(x, flat);
          finished := t.Forward();
          if x.App? {
            FlatPush(t.contexts, st, WentLeft(x.b));
            assert t.cur == x.a && t.Flat() == flat + [Step(WentLeft(x.b))];
          } else {
            assert t.Reached(pos, finished);
            if pos.At? {
              assert t.cur == pos.focus && t.Flat() == pos.flat;
            }
          }
        }
      }
      done := true;
      y := None;
    }
  }

  /** `evaluate`: pulls the generator until it is exhausted and returns the last
      term it yielded; the fuel bounds the pulls after the first. */
  method Evaluate(expr: Term<Index>, fuel: nat) returns (r: Option<Term<Index>>)
    ensures r == Run(expr, [], fuel)
  {
    var gen := new Evaluation(expr);
    var next := gen.Next();
    var result := expr;
    var steps := fuel;
    ghost var x: Term<Index>, flat: seq<Item<Index>> := expr, [];
    while next.Some?
      invariant fresh(gen) && fresh(gen.t) && gen.started
      invariant next.Some? ==> !gen.done && gen.t.cur == x && gen.t.Flat() == flat
      invariant next.Some? ==> next.value == Plug(x, flat) && Run(x, flat, steps) == Run(expr, [], fuel)
      invariant next.None? ==> Some(result) == Run(expr, [], fuel)
      decreases steps, next.Some?
    {
      if steps == 0 {
        return None;
      }
      result := next.value;
      ghost var sought := Seek(x, flat);
      SeekRoot(x, flat);
      next := gen.Next();
      steps := steps - 1;
      RunStep(x, flat, steps);
      if sought.Redex? {
        x, flat := Reduct(sought.body, sought.arg), sought.flat;
      }
    }
    r := Some(result);
  }

  // ---------------------------------------------------------------------------
  // What the evaluator returns.

  /** No lambda stands in function position anywhere: a beta normal form. */
  predicate NoRedex(t: Term<Index>) {
    match t
    case Var(_) => true
    case Lam(_, body) => NoRedex(body)
    case App(a, b) => !a.Lam? && NoRedex(a) && NoRedex(b)
  }

  /** What the walk has left behind on its path: every left sibling it came back
      from is a normal form and not a lambda, and no lambda it entered stands in
      function position. */
  predicate Passed(flat: seq<Item<Index>>)
    decreases |flat|
  {
    flat == [] ||
    var init := flat[..|flat| - 1];
    Passed(init) &&
    match flat[|flat| - 1]
    case Step(WentRight(l)) => NoRedex(l) && !l.Lam?
    case Step(WentLeft(_)) => true
    case Scope(_) => !LeftOfApp(init)
  }

  lemma {:induction false} ClimbPassed(x: Term<Index>, flat: seq<Item<Index>>)
    requires Passed(flat) && NoRedex(x) && (x.Lam? ==> !LeftOfApp(flat))
    ensures Passed(Climb(x, flat).1) && NoRedex(Climb(x, flat).0)
    ensures Climb(x, flat).0.Lam? ==> !LeftOfApp(Climb(x, flat).1)
    decreases |flat|
  {
    if flat != [] {
      var last := flat[|flat| - 1];
      if !(last.Step? && last.frame.WentLeft?) {
        ClimbPassed(Wrap(x, last), flat[..|flat| - 1]);
      }
    }
  }

  /** Moving on from a variable keeps what was passed in normal form, and a walk
      that completes has passed a normal form. */
  lemma AdvancePassed(x: Term<Index>, flat: seq<Item<Index>>)
    requires x.Var? && Passed(flat)
    ensures Advance(x, flat).Finished? ==> NoRedex(Advance(x, flat).root)
    ensures Advance(x, flat).At? ==> Passed(Advance(x, flat).flat)
  {
    ClimbPassed(x, flat);
    var (c, f) := Climb(x, flat);
    if f != [] {
      var n := |f| - 1;
      var g := f[..n] + [Step(WentRight(c))];
      assert g[..|g| - 1] == f[..n];
      assert f[..n] + [f[n]] == f;
    }
  }

  lemma {:induction false} SeekPassed(x: Term<Index>, flat: seq<Item<Index>>)
    requires Passed(flat)
    ensures Seek(x, flat).Normal? ==> NoRedex(Seek(x, flat).root)
    ensures Seek(x, flat).Redex? ==> Passed(Seek(x, flat).flat)
    decreases Size(x) + RestSize(flat)
  {
    match x
    case Lam(h, body) =>
      if !LeftOfApp(flat) {
        RestSizeSnoc(flat, Scope(h));
        assert (flat + [Scope(h)])[..|flat|] == flat;
        SeekPassed(body, flat + [Scope(h)]);
      }
    case App(a, b) =>
      RestSizeSnoc(flat, Step(WentLeft(b)));
      assert (flat + [Step(WentLeft(b))])[..|flat|] == flat;
      SeekPassed(a, flat + [Step(WentLeft(b))]);
    case Var(_) =>
      AdvanceShrinks(x, flat);
      AdvancePassed(x, flat);
      match Advance(x, flat)
      case Finished(r) =>
      case At(c, g) => SeekPassed(c, g);
  }

  /** What `Passed` means item by item: no lambda on the path stands in function
      position, and every application on the path entered from the right has a
      left sibling that is a normal form and not a lambda. */
  lemma {:induction false} PassedItems(flat: seq<Item<Index>>)
    requires Passed(flat)
    ensures forall i :: 0 <= i < |flat| && flat[i].Scope? ==> !LeftOfApp(flat[..i])
    ensures forall i :: 0 <= i < |flat| && flat[i].Step? && flat[i].frame.WentRight? ==>
      NoRedex(flat[i].frame.left) && !flat[i].frame.left.Lam?
    decreases |flat|
  {
    if flat != [] {
      var n := |flat| - 1;
      var init := flat[..n];
      PassedItems(init);
      assert forall i :: 0 <= i < n ==> init[i] == flat[i] && init[..i] == flat[..i];
    }
  }

  /** Normal order (leftmost outermost): when the walk stops at a redex, none of
      the lambdas enclosing it is applied, so no redex encloses it, and every
      left sibling on its path is a normal form other than a lambda, so no redex
      lies to its left.  The walk starts at the root, where nothing is passed,
      and every later walk resumes where `Passed` still holds (`SeekPassed`). */
  lemma SeekLeftmostOutermost(x: Term<Index>, flat: seq<Item<Index>>)
    requires Passed(flat)
    ensures Seek(x, flat).Redex? ==>
      var fl := Seek(x, flat).flat;
      (forall i :: 0 <= i < |fl| && fl[i].Scope? ==> !LeftOfApp(fl[..i])) &&
      (forall i :: 0 <= i < |fl| && fl[i].Step? && fl[i].frame.WentRight? ==>
         NoRedex(fl[i].frame.left) && !fl[i].frame.left.Lam?)
  {
    SeekPassed(x, flat);
    if Seek(x, flat).Redex? {
      PassedItems(Seek(x, flat).flat);
    }
  }

  lemma {:induction false} RunPassed(x: Term<Index>, flat: seq<Item<Index>>, fuel: nat)
    requires Passed(flat)
    ensures Run(x, flat, fuel).Some? ==> NoRedex(Run(x, flat, fuel).value)
    decreases fuel
  {
    if fuel > 0 {
      SeekPassed(x, flat);
      match Seek(x, flat)
      case Normal(_) =>
      case Redex(_, body, arg, fl) => RunPassed(Reduct(body, arg), fl, fuel - 1);
    }
  }

  /** Whatever `evaluate` returns is a beta normal form. */
  lemma EvaluateNormal(expr: Term<Index>, fuel: nat)
    ensures Run(expr, [], fuel).Some? ==> NoRedex(Run(expr, [], fuel).value)
  {
    RunPassed(expr, [], fuel);
  }

  lemma {:induction false} PlugNoRedex(y: Term<Index>, flat: seq<Item<Index>>)
    requires NoRedex(Plug(y, flat))
    ensures NoRedex(y)
    decreases |flat|
  {
    if flat != [] {
      PlugNoRedex(Wrap(y, flat[|flat| - 1]), flat[..|flat| - 1]);
    }
  }

  /** On a term in normal form the walk meets no redex and completes with the term. */
  lemma SeekOnNormal(x: Term<Index>, flat: seq<Item<Index>>)
    requires NoRedex(Plug(x, flat))
    ensures Seek(x, flat) == Normal(Plug(x, flat))
  {
    SeekRoot(x, flat);
    if Seek(x, flat).Redex? {
      var f := Seek(x, flat);
      PlugNoRedex(App(Lam(f.head, f.body), f.arg), f.flat);
      assert false;
    }
  }

  /** A term already in normal form evaluates to itself, with no contraction. */
  lemma EvaluateOnNormal(expr: Term<Index>, fuel: nat)
    requires NoRedex(expr) && fuel >= 1
    ensures Run(expr, [], fuel) == Some(expr)
  {
    SeekOnNormal(expr, []);
  }

  // ---------------------------------------------------------------------------
  // Examples.

  /** `evaluate((\x.0) 0)` is `0`. */
  lemma EvaluateIdentityApp(fuel: nat)
    requires fuel >= 2
    ensures Run(App(Lam('x', Var(0)), Var(0)), [], fuel) == Some(Var(0))
  {
    var flat: seq<Item<Index>> := [Step(WentLeft(Var(0)))];
    assert Seek(App(Lam('x', Var(0)), Var(0)), []) == Seek(Lam('x', Var(0)), flat);
    assert flat[..0] == [];
    BetaIdentity(Var(0));
    SeekOnNormal(Var(0), []);
  }

  /** The self-application of `\x.0 0`. */
  function Omega(): Term<Index> {
    App(Lam('x', App(Var(0), Var(0))), Lam('x', App(Var(0), Var(0))))
  }

  /** `(\x.0 0)(\x.0 0)` contracts to itself, so `evaluate` never finishes on it. */
  lemma {:induction false} OmegaDiverges(fuel: nat)
    ensures Run(Omega(), [], fuel) == None
    decreases fuel
  {
    if fuel > 0 {
      var w: Term<Index> := Lam('x', App(Var(0), Var(0)));
      var flat: seq<Item<Index>> := [Step(WentLeft(w))];
      assert Seek(Omega(), []) == Seek(w, flat);
      assert flat[..0] == [];
      assert Shift(w, 0, 1) == w;
      assert Unshift(w, 0) == w;
      assert Reduct(App(Var(0), Var(0)), w) == Omega();
      OmegaDiverges(fuel - 1);
    }
  }

  /** `(\x.\y.x) y` reduces to a lambda whose body is the free `y`; the head `y`
      would capture it in print, so it is renamed to `a`: `\a.y`. */
  lemma NoCapture()
    ensures ToIndices(App(Lam('x', Lam('y', Var('x'))), Var('y'))) == App(Lam('x', Lam('y', Var(1))), Var(24))
    ensures Run(App(Lam('x', Lam('y', Var(1))), Var(24)), [], 2) == Some(Lam('a', Var(25)))
    ensures ToNames(Lam('a', Var(25))) == Lam('a', Var(Some('y')))
  {
    NoCaptureIndices();
    NoCaptureRun();
    NoCaptureNames();
  }

  lemma NoCaptureIndices()
    ensures ToIndices(App(Lam('x', Lam('y', Var('x'))), Var('y'))) == App(Lam('x', Lam('y', Var(1))), Var(24))
  {
    assert [] + ['x'] == ['x'] && ['x'] + ['y'] == ['x', 'y'];
    assert IndexOfName('x', ['x', 'y']) == 1;
    assert MapVars<Letter, Index>(Lam('y', Var('x')), ['x'], IndexLeaf) == Lam('y', Var(1));
    assert Pos('y') == 24;
  }

  /** The free index 25 prints as `y` under one lambda, so `y` clashes and `a` does not. */
  lemma RenameAwayFromY()
    ensures RenamedHead('y', Var(25)) == 'a'
  {
    var body: Term<Index> := Var(25);
    var cs := Candidates('y');
    assert Clash(body, 'y');
    assert cs[1..][0] == 'a' && !Clash(body, 'a');
    assert FirstFree(cs, body) == 1;
  }

  lemma NoCaptureRun()
    ensures Run(App(Lam('x', Lam('y', Var(1))), Var(24)), [], 2) == Some(Lam('a', Var(25)))
  {
    var lam: Term<Index> := Lam('x', Lam('y', Var(1)));
    var flat: seq<Item<Index>> := [Step(WentLeft(Var(24)))];
    assert Seek(App(lam, Var(24)), []) == Seek(lam, flat);
    assert flat[..0] == [];
    var body: Term<Index> := Var(25);
    assert Beta(Lam('y', Var(1)), Var(24)) == Lam('y', body);
    RenameAwayFromY();
    assert Reduct(Lam('y', Var(1)), Var(24)) == Lam('a', body);
    SeekOnNormal(Lam('a', body), []);
  }

  lemma NoCaptureNames()
    ensures ToNames(Lam('a', Var(25))) == Lam('a', Var(Some('y')))
  {
    assert [] + ['a'] == ['a'];
    assert NameOfIndex(25, ['a']) == Some(LetterAt(24));
  }
}
