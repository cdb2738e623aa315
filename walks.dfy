/** The loops of lambda.ts that drive a `DepthFirst` over a whole term while
    keeping a `bindings` list of the enclosing lambda heads: `mapVariables`,
    `findBy` and `clone`, and the top-level walk of the traversal tests. */
module Walks {
  import opened Terms
  import opened Zipper

  /** The leaf callback of `mapVariables`: a leaf and the enclosing heads,
      outermost first, give the term that replaces the leaf. */
  type Mapper<!A, B> = (A, seq<Letter>) -> Term<B>

  /** `mapVariables` as a structural recursion: the same lambda heads and
      application shape, every leaf replaced by the callback's term. */
  function MapVars<A, B>(t: Term<A>, bindings: seq<Letter>, f: Mapper<A, B>): Term<B> {
    match t
    case Var(x) => f(x, bindings)
    case Lam(h, body) => Lam(h, MapVars(body, bindings + [h], f))
    case App(a, b) => App(MapVars(a, bindings, f), MapVars(b, bindings, f))
  }

  /** Each leaf of `t` with the heads that enclose it, left to right. */
  function Leaves<A>(t: Term<A>, bindings: seq<Letter>): seq<(A, seq<Letter>)> {
    match t
    case Var(x) => [(x, bindings)]
    case Lam(h, body) => Leaves(body, bindings + [h])
    case App(a, b) => Leaves(a, bindings) + Leaves(b, bindings)
  }

  /** The lambda heads and application skeleton of a term, leaves forgotten. */
  datatype Shape = Leaf | Binder(head: Letter, body: Shape) | Pair(a: Shape, b: Shape)

  function ShapeOf<A>(t: Term<A>): Shape {
    match t
    case Var(_) => Leaf
    case Lam(h, body) => Binder(h, ShapeOf(body))
    case App(a, b) => Pair(ShapeOf(a), ShapeOf(b))
  }

  /** Mapping with a callback that keeps every leaf a leaf keeps the lambda heads
      and the application shape, and the leaves become the callback's values on
      the old leaves with their enclosing heads. */
  lemma {:induction false} MapVarsLeafwise<A, B>(t: Term<A>, bindings: seq<Letter>, f: Mapper<A, B>,
                                                 g: (A, seq<Letter>) -> B)
    requires forall x, bs :: f(x, bs) == Var(g(x, bs))
    ensures ShapeOf(MapVars(t, bindings, f)) == ShapeOf(t)
    ensures |Leaves(MapVars(t, bindings, f), bindings)| == |Leaves(t, bindings)|
    ensures forall i :: 0 <= i < |Leaves(t, bindings)| ==>
      Leaves(MapVars(t, bindings, f), bindings)[i] ==
        (g(Leaves(t, bindings)[i].0, Leaves(t, bindings)[i].1), Leaves(t, bindings)[i].1)
  {
    match t
    case Var(x) =>
    case Lam(h, body) => MapVarsLeafwise(body, bindings + [h], f, g);
    case App(a, b) =>
      MapVarsLeafwise(a, bindings, f, g);
      MapVarsLeafwise(b, bindings, f, g);
      var la, lb := Leaves(a, bindings), Leaves(b, bindings);
      var ma, mb := Leaves(MapVars(a, bindings, f), bindings), Leaves(MapVars(b, bindings, f), bindings);
      var ls: seq<(A, seq<Letter>)> := la + lb;
      var ms: seq<(B, seq<Letter>)> := ma + mb;
      forall i | 0 <= i < |ls|
        ensures ms[i] == (g(ls[i].0, ls[i].1), ls[i].1)
      {
        if i >= |la| {
          assert ms[i] == mb[i - |la|] && ls[i] == lb[i - |la|];
        } else {
          assert ms[i] == ma[i] && ls[i] == la[i];
        }
      }
  }

  /** The first of two search answers that found something. */
  function OrElse<A>(first: Option<A>, second: Option<A>): Option<A> {
    if first.Some? then first else second
  }

  /** `findBy` as a structural recursion: the first leaf, left to right, that
      satisfies the predicate under its enclosing heads. */
  function FindFirst<A>(t: Term<A>, bindings: seq<Letter>, p: (A, seq<Letter>) -> bool): Option<A> {
    match t
    case Var(x) => if p(x, bindings) then Some(x) else None
    case Lam(h, body) => FindFirst(body, bindings + [h], p)
    case App(a, b) =>
      var l := FindFirst(a, bindings, p);
      if l.Some? then l else FindFirst(b, bindings, p)
  }

  /** No leaf in `ls` satisfies the predicate. */
  ghost predicate NoMatch<A>(ls: seq<(A, seq<Letter>)>, p: (A, seq<Letter>) -> bool) {
    forall i :: 0 <= i < |ls| ==> !p(ls[i].0, ls[i].1)
  }

  /** The leaf at position `i` of `ls` is the first that satisfies the predicate. */
  ghost predicate FirstMatchAt<A>(ls: seq<(A, seq<Letter>)>, p: (A, seq<Letter>) -> bool, i: int) {
    0 <= i < |ls| && p(ls[i].0, ls[i].1) && NoMatch(ls[..i], p)
  }

  /** FindFirst answers with the first leaf that satisfies the predicate, and
      with None exactly when no leaf does. */
  lemma {:induction false} FindFirstIsFirst<A>(t: Term<A>, bindings: seq<Letter>, p: (A, seq<Letter>) -> bool)
    ensures FindFirst(t, bindings, p).None? <==> NoMatch(Leaves(t, bindings), p)
    ensures FindFirst(t, bindings, p).Some? ==>
      exists i :: FirstMatchAt(Leaves(t, bindings), p, i) &&
        Leaves(t, bindings)[i].0 == FindFirst(t, bindings, p).value
  {
    match t
    case Var(x) =>
      if p(x, bindings) {
        assert FirstMatchAt(Leaves(t, bindings), p, 0);
      }
    case Lam(h, body) =>
      FindFirstIsFirst(body, bindings + [h], p);
      assert Leaves(t, bindings) == Leaves(body, bindings + [h]);
    case App(a, b) =>
      FindFirstIsFirst(a, bindings, p);
      FindFirstIsFirst(b, bindings, p);
      var la, lb := Leaves(a, bindings), Leaves(b, bindings);
      var ls := la + lb;
      assert Leaves(t, bindings) == ls;
      var ra, rb := FindFirst(a, bindings, p), FindFirst(b, bindings, p);
      if ra.Some? {
        var i :| FirstMatchAt(la, p, i) && la[i].0 == ra.value;
        assert ls[..i] == la[..i];
        assert FirstMatchAt(ls, p, i);
      } else {
        assert NoMatch(la, p);
        if rb.Some? {
          var i :| FirstMatchAt(lb, p, i) && lb[i].0 == rb.value;
          assert ls[..|la| + i] == la + lb[..i];
          assert ls[|la| + i] == lb[i];
          assert FirstMatchAt(ls, p, |la| + i);
        } else {
          assert NoMatch(lb, p);
          assert NoMatch(ls, p);
        }
      }
      if NoMatch(ls, p) {
        assert ls[..|la|] == la;
        if ra.None? {
          assert ls[|la|..] == lb;
        }
      }
  }

  // ---------------------------------------------------------------------------
  // What is still ahead of a walk, read off the path.

  /** The first matching leaf among the right siblings still waiting in the path,
      innermost first, each searched under the heads that enclose it. */
  function FindRest<A>(flat: seq<Item<A>>, p: (A, seq<Letter>) -> bool): Option<A>
    decreases |flat|
  {
    if flat == [] then None
    else
      var init := flat[..|flat| - 1];
      var last := flat[|flat| - 1];
      if last.Step? && last.frame.WentLeft? then
        OrElse(FindFirst(last.frame.right, Heads(init), p), FindRest(init, p))
      else FindRest(init, p)
  }

  lemma {:induction false} ClimbFindRest<A>(x: Term<A>, flat: seq<Item<A>>, p: (A, seq<Letter>) -> bool)
    ensures FindRest(Climb(x, flat).1, p) == FindRest(flat, p)
    decreases |flat|
  {
    if flat != [] {
      var last := flat[|flat| - 1];
      if !(last.Step? && last.frame.WentLeft?) {
        ClimbFindRest(Wrap(x, last), flat[..|flat| - 1], p);
      }
    }
  }

  /** After `nextBranch`, the search that remains is the one the path held. */
  lemma AdvanceFind<A>(x: Term<A>, flat: seq<Item<A>>, p: (A, seq<Letter>) -> bool)
    ensures Advance(x, flat).Finished? ==> FindRest(flat, p) == None
    ensures Advance(x, flat).At? ==>
      var q := Advance(x, flat);
      OrElse(FindFirst(q.focus, Heads(q.flat), p), FindRest(q.flat, p)) == FindRest(flat, p)
  {
    ClimbFindRest(x, flat, p);
    var (c, f) := Climb(x, flat);
    if f != [] {
      var n := |f| - 1;
      var init := f[..n];
      var g := init + [Step(WentRight(c))];
      assert Advance(x, flat) == At(f[n].frame.right, g);
      assert g[..|g| - 1] == init && g[|g| - 1] == Step(WentRight(c));
      assert FindRest(g, p) == FindRest(init, p);
      assert Heads(g) == Heads(init);
      assert FindRest(f, p) == OrElse(FindFirst(f[n].frame.right, Heads(init), p), FindRest(init, p));
    }
  }

  /** A path is split by a walk of `mapVariables`: siblings still to the right are
      untouched input, siblings already passed on the left are fully mapped. */
  ghost predicate Split<A, B>(flat: seq<Item<Either<A, B>>>) {
    forall i :: 0 <= i < |flat| ==>
      match flat[i]
      case Step(WentLeft(r)) => AllBefore(r)
      case Step(WentRight(l)) => AllAfter(l)
      case Scope(_) => true
  }

  lemma {:induction false} ClimbSplit<A, B>(x: Term<Either<A, B>>, flat: seq<Item<Either<A, B>>>)
    requires Split(flat) && AllAfter(x)
    ensures AllAfter(Climb(x, flat).0)
    decreases |flat|
  {
    if flat != [] {
      var last := flat[|flat| - 1];
      if !(last.Step? && last.frame.WentLeft?) {
        ClimbSplit(Wrap(x, last), flat[..|flat| - 1]);
      }
    }
  }

  lemma AdvanceSplit<A, B>(x: Term<Either<A, B>>, flat: seq<Item<Either<A, B>>>)
    requires Split(flat) && AllAfter(x)
    ensures Advance(x, flat).Finished? ==> AllAfter(Advance(x, flat).root)
    ensures Advance(x, flat).At? ==> AllBefore(Advance(x, flat).focus) && Split(Advance(x, flat).flat)
  {
    ClimbSplit(x, flat);
  }

  /** What the walk of `mapVariables` will have made of a partly mapped term:
      input leaves mapped under their enclosing heads, mapped leaves kept. */
  function MapMixed<A, B>(t: Term<Either<A, B>>, bindings: seq<Letter>, f: Mapper<A, B>): Term<Either<A, B>> {
    match t
    case Var(Before(x)) => InjectAfter(f(x, bindings))
    case Var(After(y)) => Var(After(y))
    case Lam(h, body) => Lam(h, MapMixed(body, bindings + [h], f))
    case App(a, b) => App(MapMixed(a, bindings, f), MapMixed(b, bindings, f))
  }

  lemma {:induction false} MapMixedBefore<A, B>(t: Term<A>, bindings: seq<Letter>, f: Mapper<A, B>)
    ensures MapMixed(InjectBefore(t), bindings, f) == InjectAfter(MapVars(t, bindings, f))
  {
    match t
    case Var(_) =>
    case Lam(h, body) => MapMixedBefore(body, bindings + [h], f);
    case App(a, b) => MapMixedBefore(a, bindings, f); MapMixedBefore(b, bindings, f);
  }

  lemma {:induction false} MapMixedAfter<A, B>(t: Term<Either<A, B>>, bindings: seq<Letter>, f: Mapper<A, B>)
    requires AllAfter(t)
    ensures MapMixed(t, bindings, f) == t
  {
    match t
    case Var(_) =>
    case Lam(h, body) => MapMixedAfter(body, bindings + [h], f);
    case App(a, b) => MapMixedAfter(a, bindings, f); MapMixedAfter(b, bindings, f);
  }

  /** Replacing the focus by a term that maps to the same result under the focus's
      enclosing heads does not change what the whole term maps to. */
  lemma {:induction false} MapMixedPlug<A, B>(x: Term<Either<A, B>>, y: Term<Either<A, B>>,
                                              flat: seq<Item<Either<A, B>>>, f: Mapper<A, B>)
    requires MapMixed(x, Heads(flat), f) == MapMixed(y, Heads(flat), f)
    ensures MapMixed(Plug(x, flat), [], f) == MapMixed(Plug(y, flat), [], f)
    decreases |flat|
  {
    if flat != [] {
      var n := |flat| - 1;
      var init := flat[..n];
      match flat[n]
      case Scope(h) =>
        assert Heads(flat) == Heads(init) + [h];
        MapMixedPlug(Wrap(x, flat[n]), Wrap(y, flat[n]), init, f);
      case Step(_) =>
        MapMixedPlug(Wrap(x, flat[n]), Wrap(y, flat[n]), init, f);
    }
  }

  // ---------------------------------------------------------------------------
  // The loops.

  /** `clone`: a depth-first walk that replaces every lambda and application by a
      new node with the same fields, so the copy equals the input. */
  method Clone<V>(expr: Term<V>) returns (r: Term<V>)
    ensures r == expr
  {
    var t := new DepthFirst(expr);
    var done := false;
    while !done
      invariant t.Root() == expr
      invariant done ==> t.stack == [] && t.contexts == []
      decreases !done, Size(t.cur) + RestSize(t.Flat())
    {
      done := CloneNode(t);
    }
    r := t.cur;
  }

  /** One step of `clone`: the node in focus is replaced by a fresh one with the
      same fields and the walk moves on, into a lambda or one step forward. */
  method CloneNode<V>(t: DepthFirst<V>) returns (done: bool)
    modifies t
    ensures t.Root() == old(t.Root())
    ensures done ==> t.stack == [] && t.contexts == []
    ensures !done ==> Size(t.cur) + RestSize(t.Flat()) < old(Size(t.cur) + RestSize(t.Flat()))
  {
    ghost var x, flat, st := t.cur, t.Flat(), t.stack;
    if t.cur.Lam? {
      t.SetCurrent(Lam(t.cur.head, t.cur.body));
      t.EnterScope();
      RestSizeSnoc(flat, Scope(x.head));
      done := false;
    } else {
      ghost var pos := Advance(x, flat);
      if t.cur.App? {
        t.SetCurrent(App(t.cur.a, t.cur.b));
      } else {
        AdvanceShrinks(x, flat);
      }
      done := t.Forward();
      if x.App? {
        FlatPush(t.contexts, st, WentLeft(x.b));
        RestSizeSnoc(flat, Step(WentLeft(x.b)));
      } else {
        assert t.Reached(pos, done);
        if pos.At? {
          assert t.cur == pos.focus && t.Flat() == pos.flat;
        }
      }
    }
  }

  lemma ContextHeadsPrefix<V>(contexts: seq<Context<V>>, before: seq<Context<V>>)
    requires |contexts| <= |before| && contexts == before[..|contexts|]
    ensures ContextHeads(before)[..|contexts|] == ContextHeads(contexts)
  {
  }

  /** Entering a lambda keeps the path split and consumes its node. */
  lemma MapEnterStep<A, B>(flat: seq<Item<Either<A, B>>>, h: Letter, body: Term<Either<A, B>>)
    requires Split(flat) && AllBefore(Lam(h, body))
    ensures Split(flat + [Scope(h)]) && AllBefore(body)
    ensures Heads(flat + [Scope(h)]) == Heads(flat) + [h]
    ensures Size(body) + RestSize(flat + [Scope(h)]) < Size(Lam(h, body)) + RestSize(flat)
  {
    RestSizeSnoc(flat, Scope(h));
    assert (flat + [Scope(h)])[..|flat|] == flat;
  }

  /** Entering the left child keeps the path split and consumes the application node. */
  lemma MapLeftStep<A, B>(flat: seq<Item<Either<A, B>>>, a: Term<Either<A, B>>, b: Term<Either<A, B>>)
    requires Split(flat) && AllBefore(App(a, b))
    ensures Split(flat + [Step(WentLeft(b))]) && AllBefore(a)
    ensures Heads(flat + [Step(WentLeft(b))]) == Heads(flat)
    ensures Size(a) + RestSize(flat + [Step(WentLeft(b))]) < Size(App(a, b)) + RestSize(flat)
  {
    RestSizeSnoc(flat, Step(WentLeft(b)));
    assert (flat + [Step(WentLeft(b))])[..|flat|] == flat;
  }

  /** Mapping the leaf in focus and moving on: the mapped result of the whole term
      is unchanged, the path stays split, and the walk shrinks. */
  lemma MapLeafStep<A, B>(x: Term<Either<A, B>>, flat: seq<Item<Either<A, B>>>, f: Mapper<A, B>,
                          goal: Term<Either<A, B>>)
    requires x.Var? && x.v.Before? && Split(flat)
    requires MapMixed(Plug(x, flat), [], f) == goal
    ensures var y := InjectAfter(f(x.v.before, Heads(flat)));
      match Advance(y, flat)
      case Finished(r) => AllAfter(r) && MapMixed(r, [], f) == goal
      case At(c, g) =>
        AllBefore(c) && Split(g) && MapMixed(Plug(c, g), [], f) == goal &&
        Size(c) + RestSize(g) < Size(x) + RestSize(flat)
  {
    var y := InjectAfter(f(x.v.before, Heads(flat)));
    MapMixedAfter(y, Heads(flat), f);
    MapMixedPlug(x, y, flat, f);
    AdvanceShrinks(y, flat);
    AdvanceSplit(y, flat);
    AdvancePlug(y, flat);
  }

  /** `mapVariables`: maps a clone of `expr`, replacing each leaf by the callback's
      term for that leaf and the heads of the lambdas around it. */
  method MapVariables<A, B>(expr: Term<A>, f: Mapper<A, B>) returns (r: Term<B>)
    ensures r == MapVars(expr, [], f)
  {
    var exprToModify := Clone(expr);
    var t := new DepthFirst<Either<A, B>>(InjectBefore(exprToModify));
    var bindings: seq<Letter> := [];
    var done := false;
    ghost var goal := InjectAfter(MapVars(expr, [], f));
    MapMixedBefore(expr, [], f);
    while !done
      invariant bindings == t.Bindings()
      invariant Split(t.Flat())
      invariant !done ==> AllBefore(t.cur)
      invariant done ==> t.stack == [] && t.contexts == [] && AllAfter(t.cur)
      invariant MapMixed(t.Root(), [], f) == goal
      decreases !done, Size(t.cur) + RestSize(t.Flat())
    {
      ghost var x, flat, st := t.cur, t.Flat(), t.stack;
      if t.cur.Lam? {
        bindings := bindings + [t.cur.head];
        t.EnterScope();
        MapEnterStep(flat, x.head, x.body);
      } else if t.cur.App? {
        done := t.Forward();
        FlatPush(t.contexts, st, WentLeft(x.b));
        MapLeftStep(flat, x.a, x.b);
      } else {
        ghost var before := t.contexts;
        MapLeafStep(x, flat, f, goal);
        t.SetCurrent(InjectAfter(f(t.cur.v.before, bindings)));
        done := t.NextBranch();
        ContextHeadsPrefix(t.contexts, before);
        bindings := bindings[..|t.contexts|];
      }
    }
    MapMixedAfter(t.cur, [], f);
    ProjectInjectAfter<A, B>(MapVars(expr, [], f));
    r := ProjectAfter(t.cur);
  }

  /** Entering a lambda or a left child leaves the search that remains unchanged. */
  lemma FindEnterStep<A>(flat: seq<Item<A>>, x: Term<A>, p: (A, seq<Letter>) -> bool)
    requires x.Lam? || x.App?
    ensures x.Lam? ==>
      OrElse(FindFirst(x.body, Heads(flat + [Scope(x.head)]), p), FindRest(flat + [Scope(x.head)], p)) ==
      OrElse(FindFirst(x, Heads(flat), p), FindRest(flat, p))
    ensures x.App? ==>
      OrElse(FindFirst(x.a, Heads(flat + [Step(WentLeft(x.b))]), p), FindRest(flat + [Step(WentLeft(x.b))], p)) ==
      OrElse(FindFirst(x, Heads(flat), p), FindRest(flat, p))
    ensures x.Lam? ==> Size(x.body) + RestSize(flat + [Scope(x.head)]) < Size(x) + RestSize(flat)
    ensures x.App? ==> Size(x.a) + RestSize(flat + [Step(WentLeft(x.b))]) < Size(x) + RestSize(flat)
  {
    if x.Lam? {
      RestSizeSnoc(flat, Scope(x.head));
      assert (flat + [Scope(x.head)])[..|flat|] == flat;
    } else {
      RestSizeSnoc(flat, Step(WentLeft(x.b)));
      assert (flat + [Step(WentLeft(x.b))])[..|flat|] == flat;
    }
  }

  /** `findBy`: walks `expr` and answers with the first leaf that satisfies the
      predicate under the heads of the lambdas around it, or None. */
  method FindBy<A>(expr: Term<A>, p: (A, seq<Letter>) -> bool) returns (r: Option<A>)
    ensures r == FindFirst(expr, [], p)
  {
    var t := new DepthFirst(expr);
    var bindings: seq<Letter> := [];
    var done := false;
    while !done
      invariant bindings == t.Bindings()
      invariant !done ==> OrElse(FindFirst(t.cur, Heads(t.Flat()), p), FindRest(t.Flat(), p)) == FindFirst(expr, [], p)
      invariant done ==> FindFirst(expr, [], p) == None
      decreases !done, Size(t.cur) + RestSize(t.Flat())
    {
      ghost var x, flat, st := t.cur, t.Flat(), t.stack;
      if t.cur.Lam? {
        bindings := bindings + [t.cur.head];
        t.EnterScope();
        FindEnterStep(flat, x, p);
      } else if t.cur.App? {
        done := t.Forward();
        FlatPush(t.contexts, st, WentLeft(x.b));
        FindEnterStep(flat, x, p);
      } else {
        if p(t.cur.v, bindings) {
          return Some(t.cur.v);
        }
        ghost var before := t.contexts;
        AdvanceFind(x, flat, p);
        AdvanceShrinks(x, flat);
        done := t.NextBranch();
        ContextHeadsPrefix(t.contexts, before);
        bindings := bindings[..|t.contexts|];
      }
    }
    r := None;
  }

  // ---------------------------------------------------------------------------
  // The walk without entering scopes.

  /** The nodes a walk that never enters a lambda stops at, left to right:
      every lambda and every variable not nested in a lambda. */
  function Atoms<V>(t: Term<V>): (r: seq<Term<V>>)
    ensures |r| >= 1
    ensures forall i :: 0 <= i < |r| ==> !r[i].App?
  {
    match t
    case App(a, b) => Atoms(a) + Atoms(b)
    case _ => [t]
  }

  /** The atoms of the right siblings still waiting in the path, innermost first. */
  function PendingAtoms<V>(flat: seq<Item<V>>): seq<Term<V>>
    decreases |flat|
  {
    if flat == [] then []
    else
      var init := flat[..|flat| - 1];
      var last := flat[|flat| - 1];
      if last.Step? && last.frame.WentLeft? then Atoms(last.frame.right) + PendingAtoms(init)
      else PendingAtoms(init)
  }

  lemma {:induction false} ClimbPending<V>(x: Term<V>, flat: seq<Item<V>>)
    ensures PendingAtoms(Climb(x, flat).1) == PendingAtoms(flat)
    decreases |flat|
  {
    if flat != [] {
      var last := flat[|flat| - 1];
      if !(last.Step? && last.frame.WentLeft?) {
        ClimbPending(Wrap(x, last), flat[..|flat| - 1]);
      }
    }
  }

  /** Moving on from a node that is not an application visits the next pending
      atom, or finishes exactly when none is pending. */
  lemma AdvancePending<V>(x: Term<V>, flat: seq<Item<V>>)
    ensures Advance(x, flat).Finished? <==> PendingAtoms(flat) == []
    ensures Advance(x, flat).At? ==>
      Atoms(Advance(x, flat).focus) + PendingAtoms(Advance(x, flat).flat) == PendingAtoms(flat)
  {
    ClimbPending(x, flat);
    var (c, f) := Climb(x, flat);
    if f != [] {
      var n := |f| - 1;
      var init := f[..n];
      var g := init + [Step(WentRight(c))];
      assert Advance(x, flat) == At(f[n].frame.right, g);
      assert g[..|g| - 1] == init && g[|g| - 1] == Step(WentRight(c));
      assert PendingAtoms(g) == PendingAtoms(init);
      assert PendingAtoms(f) == Atoms(f[n].frame.right) + PendingAtoms(init);
    }
  }

  lemma VisitStep<V>(x: Term<V>, flat: seq<Item<V>>, visited: seq<Term<V>>, goal: seq<Term<V>>)
    requires !x.App? && visited + (Atoms(x) + PendingAtoms(flat)) == goal
    ensures match Advance(x, flat)
      case Finished(_) => visited + [x] == goal
      case At(c, g) =>
        (visited + [x]) + (Atoms(c) + PendingAtoms(g)) == goal &&
        Size(c) + RestSize(g) < Size(x) + RestSize(flat)
  {
    AdvancePending(x, flat);
    AdvanceShrinks(x, flat);
    assert Atoms(x) == [x];
    match Advance(x, flat)
    case Finished(_) =>
      assert [x] + PendingAtoms(flat) == [x];
    case At(c, g) =>
      var rest := Atoms(c) + PendingAtoms(g);
      assert rest == PendingAtoms(flat);
      assert visited + ([x] + rest) == (visited + [x]) + rest;
  }

  lemma PendingLeft<V>(flat: seq<Item<V>>, a: Term<V>, b: Term<V>)
    ensures Atoms(a) + PendingAtoms(flat + [Step(WentLeft(b))]) == Atoms(App(a, b)) + PendingAtoms(flat)
    ensures Size(a) + RestSize(flat + [Step(WentLeft(b))]) < Size(App(a, b)) + RestSize(flat)
  {
    RestSizeSnoc(flat, Step(WentLeft(b)));
    PendingSnocLeft(flat, b);
    assert Atoms(App(a, b)) == Atoms(a) + Atoms(b);
    assert Atoms(a) + (Atoms(b) + PendingAtoms(flat)) == (Atoms(a) + Atoms(b)) + PendingAtoms(flat);
  }

  lemma PendingSnocLeft<V>(flat: seq<Item<V>>, b: Term<V>)
    ensures PendingAtoms(flat + [Step(WentLeft(b))]) == Atoms(b) + PendingAtoms(flat)
  {
    var g := flat + [Step(WentLeft(b))];
    assert g[..|g| - 1] == flat && g[|g| - 1] == Step(WentLeft(b));
  }

  /** The traversal tests: iterating `forward` from a fresh traverser stops at
      every lambda and every variable not nested in a lambda, once each and left
      to right, and ends with the focus equal to the term it started from. */
  method WalkTopLevel<V>(expr: Term<V>) returns (visited: seq<Term<V>>, root: Term<V>)
    ensures visited == Atoms(expr)
    ensures root == expr
  {
    var t := new DepthFirst(expr);
    visited := [];
    var done := false;
    while !done
      invariant t.contexts == []
      invariant t.Root() == expr
      invariant !done ==> visited + (Atoms(t.cur) + PendingAtoms(t.Flat())) == Atoms(expr)
      invariant done ==> visited == Atoms(expr) && t.stack == []
      decreases !done, Size(t.cur) + RestSize(t.Flat())
    {
      ghost var x, flat, st := t.cur, t.Flat(), t.stack;
      if !t.cur.App? {
        VisitStep(x, flat, visited, Atoms(expr));
        ghost var pos := Advance(x, flat);
        visited := visited + [t.cur];
        done := t.Forward();
        assert t.Reached(pos, done);
        if pos.At? {
          assert t.cur == pos.focus && t.Flat() == pos.flat;
        }
      } else {
        PendingLeft(flat, x.a, x.b);
        done := t.Forward();
        FlatPush(t.contexts, st, WentLeft(x.b));
      }
    }
    root := t.cur;
  }
}
