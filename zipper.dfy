/** The zipper of lambda.ts (`Traverser` and `DepthFirst`).  The source keeps
    the live parent `Application` objects in its path and patches them through
    aliasing; here a frame holds the sibling that was not entered, and the
    whole term is recovered by plugging the focus back (`Root`). */
module Zipper {
  import opened Terms

  /** One path frame: the branch taken out of an application and the other child. */
  datatype Frame<V> = WentLeft(right: Term<V>) | WentRight(left: Term<V>)

  /** One scope context: the head of the entered lambda and the path saved on entry. */
  datatype Context<V> = Context(head: Letter, path: seq<Frame<V>>)

  /** The contexts and the path read as one sequence of frames from the root
      down to the focus, with a Scope item for each entered lambda. */
  datatype Item<V> = Step(frame: Frame<V>) | Scope(head: Letter)

  /** Where a walk stands after `nextBranch`: complete, or focused on a new subterm. */
  datatype Position<V> = Finished(root: Term<V>) | At(focus: Term<V>, flat: seq<Item<V>>)

  /** The node that sits one item above `x`. */
  function Wrap<V>(x: Term<V>, it: Item<V>): Term<V> {
    match it
    case Step(WentLeft(r)) => App(x, r)
    case Step(WentRight(l)) => App(l, x)
    case Scope(h) => Lam(h, x)
  }

  /** Rebuilds the whole term around the focus `x`. */
  function Plug<V>(x: Term<V>, flat: seq<Item<V>>): Term<V>
    decreases |flat|
  {
    if flat == [] then x else Plug(Wrap(x, flat[|flat| - 1]), flat[..|flat| - 1])
  }

  function Steps<V>(path: seq<Frame<V>>): (r: seq<Item<V>>)
    ensures |r| == |path|
  {
    seq(|path|, i requires 0 <= i < |path| => Step(path[i]))
  }

  function CtxFlat<V>(contexts: seq<Context<V>>): seq<Item<V>>
    decreases |contexts|
  {
    if contexts == [] then []
    else
      var c := contexts[|contexts| - 1];
      CtxFlat(contexts[..|contexts| - 1]) + Steps(c.path) + [Scope(c.head)]
  }

  /** The heads of the entered lambdas, outermost first: `bindings` in the source. */
  function Heads<V>(flat: seq<Item<V>>): seq<Letter>
    decreases |flat|
  {
    if flat == [] then []
    else
      var rest := Heads(flat[..|flat| - 1]);
      match flat[|flat| - 1]
      case Scope(h) => rest + [h]
      case Step(_) => rest
  }

  function ContextHeads<V>(contexts: seq<Context<V>>): (hs: seq<Letter>)
    ensures |hs| == |contexts|
    ensures forall i :: 0 <= i < |contexts| ==> hs[i] == contexts[i].head
  {
    seq(|contexts|, i requires 0 <= i < |contexts| => contexts[i].head)
  }

  /** The climb of `nextBranch`: leave every frame that was entered from the right
      and every scope, until a frame entered from the left (or nothing) is on top. */
  function Climb<V>(x: Term<V>, flat: seq<Item<V>>): (r: (Term<V>, seq<Item<V>>))
    ensures |r.1| <= |flat| && r.1 == flat[..|r.1|]
    ensures r.1 != [] ==> r.1[|r.1| - 1].Step? && r.1[|r.1| - 1].frame.WentLeft?
    decreases |flat|
  {
    if flat == [] then (x, [])
    else
      var last := flat[|flat| - 1];
      if last.Step? && last.frame.WentLeft? then (x, flat)
      else Climb(Wrap(x, last), flat[..|flat| - 1])
  }

  /** What `nextBranch` does from focus `x`: climb, then either move into the
      pending right sibling or report the walk complete. */
  function Advance<V>(x: Term<V>, flat: seq<Item<V>>): Position<V> {
    var (c, f) := Climb(x, flat);
    if f == [] then Finished(c)
    else At(f[|f| - 1].frame.right, f[..|f| - 1] + [Step(WentRight(c))])
  }

  /** Total size of the right siblings still waiting in the path: with the focus,
      what is left of a depth-first walk. */
  function RestSize<V>(flat: seq<Item<V>>): nat
    decreases |flat|
  {
    if flat == [] then 0
    else
      var last := flat[|flat| - 1];
      RestSize(flat[..|flat| - 1]) + (if last.Step? && last.frame.WentLeft? then Size(last.frame.right) else 0)
  }

  lemma {:induction false} ClimbRestSize<V>(x: Term<V>, flat: seq<Item<V>>)
    ensures RestSize(Climb(x, flat).1) == RestSize(flat)
    decreases |flat|
  {
    if flat != [] {
      var last := flat[|flat| - 1];
      if !(last.Step? && last.frame.WentLeft?) {
        ClimbRestSize(Wrap(x, last), flat[..|flat| - 1]);
      }
    }
  }

  /** Moving on to the next branch always consumes part of the walk. */
  lemma AdvanceShrinks<V>(x: Term<V>, flat: seq<Item<V>>)
    ensures Advance(x, flat).At? ==>
      Size(Advance(x, flat).focus) + RestSize(Advance(x, flat).flat) == RestSize(flat)
  {
    ClimbRestSize(x, flat);
    var (c, f) := Climb(x, flat);
    if f != [] {
      var n := |f| - 1;
      var init := f[..n];
      var g := init + [Step(WentRight(c))];
      assert Advance(x, flat) == At(f[n].frame.right, g);
      assert g[..|g| - 1] == init && g[|g| - 1] == Step(WentRight(c));
      assert RestSize(g) == RestSize(init);
      assert RestSize(f) == RestSize(init) + Size(f[n].frame.right);
    }
  }

  lemma RestSizeSnoc<V>(flat: seq<Item<V>>, it: Item<V>)
    ensures RestSize(flat + [it]) ==
      RestSize(flat) + (if it.Step? && it.frame.WentLeft? then Size(it.frame.right) else 0)
  {
    assert (flat + [it])[..|flat|] == flat;
  }

  lemma PlugSnoc<V>(x: Term<V>, flat: seq<Item<V>>, it: Item<V>)
    ensures Plug(x, flat + [it]) == Plug(Wrap(x, it), flat)
  {
    assert (flat + [it])[..|flat|] == flat;
  }

  lemma ClimbSnoc<V>(x: Term<V>, flat: seq<Item<V>>, it: Item<V>)
    requires !(it.Step? && it.frame.WentLeft?)
    ensures Climb(x, flat + [it]) == Climb(Wrap(x, it), flat)
    ensures Advance(x, flat + [it]) == Advance(Wrap(x, it), flat)
  {
    assert (flat + [it])[..|flat|] == flat;
  }

  lemma StepsSnoc<V>(path: seq<Frame<V>>, fr: Frame<V>)
    ensures Steps(path + [fr]) == Steps(path) + [Step(fr)]
  {
  }

  lemma StepsInit<V>(path: seq<Frame<V>>)
    requires path != []
    ensures Steps(path[..|path| - 1]) + [Step(path[|path| - 1])] == Steps(path)
  {
  }

  lemma {:induction false} ClimbPlug<V>(x: Term<V>, flat: seq<Item<V>>)
    ensures Plug(Climb(x, flat).0, Climb(x, flat).1) == Plug(x, flat)
    decreases |flat|
  {
    if flat != [] {
      var last := flat[|flat| - 1];
      if !(last.Step? && last.frame.WentLeft?) {
        ClimbPlug(Wrap(x, last), flat[..|flat| - 1]);
      }
    }
  }

  /** Whatever `nextBranch` does, the term that the path and contexts describe
      does not change (the identity law of the walk). */
  lemma AdvancePlug<V>(x: Term<V>, flat: seq<Item<V>>)
    ensures Advance(x, flat).Finished? ==> Advance(x, flat).root == Plug(x, flat)
    ensures Advance(x, flat).At? ==> Plug(Advance(x, flat).focus, Advance(x, flat).flat) == Plug(x, flat)
  {
    ClimbPlug(x, flat);
    var (c, f) := Climb(x, flat);
    if f != [] {
      var n := |f| - 1;
      PlugSnoc(f[n].frame.right, f[..n], Step(WentRight(c)));
      PlugSnoc(c, f[..n], f[n]);
      assert f[..n] + [f[n]] == f;
    }
  }

  lemma {:induction false} CtxFlatEmptyPaths<V>(contexts: seq<Context<V>>)
    ensures Heads(CtxFlat(contexts)) == ContextHeads(contexts)
    decreases |contexts|
  {
    if contexts != [] {
      var n := |contexts| - 1;
      var c := contexts[n];
      CtxFlatEmptyPaths(contexts[..n]);
      HeadsSteps(CtxFlat(contexts[..n]), c.path);
      var pre := CtxFlat(contexts[..n]) + Steps(c.path);
      assert (pre + [Scope(c.head)])[..|pre|] == pre;
    }
  }

  lemma {:induction false} HeadsSteps<V>(flat: seq<Item<V>>, path: seq<Frame<V>>)
    ensures Heads(flat + Steps(path)) == Heads(flat)
    decreases |path|
  {
    if path != [] {
      var n := |path| - 1;
      StepsInit(path);
      HeadsSteps(flat, path[..n]);
      var pre := flat + Steps(path[..n]);
      var whole := pre + [Step(path[n])];
      assert flat + Steps(path) == whole;
      assert whole[..|whole| - 1] == pre;
      assert Heads(whole) == Heads(pre);
    } else {
      assert flat + Steps(path) == flat;
    }
  }

  /** `Traverser` and `DepthFirst`: a focus, the path of application frames
      above it inside the current scope, and the stack of scope contexts. */
  class DepthFirst<V> {
    var cur: Term<V>
    var stack: seq<Frame<V>>
    var contexts: seq<Context<V>>

    constructor (expr: Term<V>)
      ensures cur == expr && stack == [] && contexts == []
      ensures Root() == expr
    {
      cur := expr;
      stack := [];
      contexts := [];
    }

    /** Contexts and path from the root down to the focus. */
    function Flat(): seq<Item<V>>
      reads this
    {
      CtxFlat(contexts) + Steps(stack)
    }

    /** The `expression` getter: the whole term the traverser is walking. */
    function Root(): (r: Term<V>)
      reads this
      ensures stack == [] && contexts == [] ==> r == cur
      ensures contexts == [] && stack != [] ==> r.App?
      ensures contexts != [] && contexts[0].path == [] ==> r.Lam? && r.head == contexts[0].head
      ensures contexts != [] && contexts[0].path != [] ==> r.App?
    {
      RootShape(cur, contexts, stack);
      Plug(cur, Flat())
    }

    /** The heads of the lambdas entered so far, outermost first. */
    function Bindings(): (hs: seq<Letter>)
      reads this
      ensures hs == Heads(Flat())
      ensures |hs| == |contexts|
    {
      CtxFlatEmptyPaths(contexts);
      HeadsSteps(CtxFlat(contexts), stack);
      ContextHeads(contexts)
    }

    /** `rightSibling`: the argument of the application whose function is the focus. */
    function RightSibling(): (r: Option<Term<V>>)
      reads this
      ensures r.Some? <==> stack != [] && stack[|stack| - 1].WentLeft?
      ensures r.Some? ==> Root() == Plug(App(cur, r.value), Flat()[..|Flat()| - 1])
    {
      if stack != [] && stack[|stack| - 1].WentLeft? then
        FlatPop(contexts, stack);
        PlugSnoc(cur, Flat()[..|Flat()| - 1], Flat()[|Flat()| - 1]);
        Some(stack[|stack| - 1].right)
      else None
    }

    /** What `done` and the new state say after a call of `nextBranch`. */
    ghost predicate Reached(p: Position<V>, done: bool)
      reads this
    {
      match p
      case Finished(r) => done && cur == r && stack == [] && contexts == []
      case At(c, f) => !done && cur == c && Flat() == f && stack != []
    }

    /** The `current` setter: replaces the focus, so the whole term now holds `e`
        in the innermost frame's branch, or as the innermost lambda's body. */
    method SetCurrent(e: Term<V>)
      modifies this
      ensures cur == e && stack == old(stack) && contexts == old(contexts)
      ensures Root() == Plug(e, old(Flat()))
    {
      cur := e;
    }

    method Left() returns (moved: bool)
      modifies this
      ensures moved == old(cur).App?
      ensures moved ==> cur == old(cur).a && stack == old(stack) + [WentLeft(old(cur).b)]
      ensures !moved ==> cur == old(cur) && stack == old(stack)
      ensures contexts == old(contexts)
      ensures Root() == old(Root())
    {
      if cur.App? {
        stack := stack + [WentLeft(cur.b)];
        SetCurrent(cur.a);
        FlatPush(contexts, old(stack), WentLeft(old(cur).b));
        PlugSnoc(cur, old(Flat()), Step(WentLeft(old(cur).b)));
        moved := true;
      } else {
        moved := false;
      }
    }

    method Right() returns (moved: bool)
      modifies this
      ensures moved == old(cur).App?
      ensures moved ==> cur == old(cur).b && stack == old(stack) + [WentRight(old(cur).a)]
      ensures !moved ==> cur == old(cur) && stack == old(stack)
      ensures contexts == old(contexts)
      ensures Root() == old(Root())
    {
      if cur.App? {
        stack := stack + [WentRight(cur.a)];
        SetCurrent(cur.b);
        FlatPush(contexts, old(stack), WentRight(old(cur).a));
        PlugSnoc(cur, old(Flat()), Step(WentRight(old(cur).a)));
        moved := true;
      } else {
        moved := false;
      }
    }

    method Up() returns (moved: bool)
      modifies this
      ensures moved == (old(stack) != [])
      ensures moved ==> cur == Wrap(old(cur), Step(old(stack)[|old(stack)| - 1]))
      ensures moved ==> stack == old(stack)[..|old(stack)| - 1]
      ensures !moved ==> cur == old(cur) && stack == old(stack)
      ensures contexts == old(contexts)
      ensures Root() == old(Root())
    {
      if stack != [] {
        var above := stack[|stack| - 1];
        stack := stack[..|stack| - 1];
        SetCurrent(Wrap(cur, Step(above)));
        FlatPop(contexts, old(stack));
        PlugSnoc(old(cur), Flat(), Step(above));
        moved := true;
      } else {
        moved := false;
      }
    }

    method EnterScope()
      modifies this
      ensures old(cur).Lam? ==> cur == old(cur).body && stack == []
      ensures old(cur).Lam? ==> contexts == old(contexts) + [Context(old(cur).head, old(stack))]
      ensures old(cur).Lam? ==> Flat() == old(Flat()) + [Scope(old(cur).head)]
      ensures !old(cur).Lam? ==> cur == old(cur) && stack == old(stack) && contexts == old(contexts)
      ensures Root() == old(Root())
    {
      if cur.Lam? {
        contexts := contexts + [Context(cur.head, stack)];
        cur := cur.body;
        stack := [];
        assert contexts[..|contexts| - 1] == old(contexts);
        PlugSnoc(cur, old(Flat()), Scope(old(cur).head));
      }
    }

    /** `exitScope`: drops the innermost context; only when the path is empty does
        it restore the saved focus (the lambda around the current focus) and path. */
    method ExitScope()
      modifies this
      ensures old(contexts) == [] ==> cur == old(cur) && stack == old(stack) && contexts == []
      ensures old(contexts) != [] ==> contexts == old(contexts)[..|old(contexts)| - 1]
      ensures old(contexts) != [] && old(stack) == [] ==>
        var outer := old(contexts)[|old(contexts)| - 1];
        cur == Lam(outer.head, old(cur)) && stack == outer.path
      ensures old(contexts) != [] && old(stack) != [] ==> cur == old(cur) && stack == old(stack)
      ensures old(stack) == [] ==> Root() == old(Root())
      ensures old(stack) == [] && old(contexts) != [] ==>
        old(Flat()) == Flat() + [Scope(old(contexts)[|old(contexts)| - 1].head)]
    {
      if contexts != [] {
        var outer := contexts[|contexts| - 1];
        contexts := contexts[..|contexts| - 1];
        if stack == [] {
          SetCurrent(Lam(outer.head, cur));
          stack := outer.path;
          assert old(Flat()) == Flat() + [Scope(outer.head)];
          PlugSnoc(old(cur), Flat(), Scope(outer.head));
        }
      }
    }

    /** `forward`: one step of the depth-first walk.  On an application it enters
        the left child; otherwise it is `nextBranch`.  True when the walk is complete. */
    method Forward() returns (done: bool)
      modifies this
      decreases |contexts|, 3
      ensures old(cur).App? ==> !done && cur == old(cur).a && contexts == old(contexts)
      ensures old(cur).App? ==> stack == old(stack) + [WentLeft(old(cur).b)]
      ensures !old(cur).App? ==> Reached(Advance(old(cur), old(Flat())), done)
      ensures done <==> stack == [] && contexts == []
      ensures |contexts| <= |old(contexts)| && contexts == old(contexts)[..|contexts|]
      ensures Root() == old(Root())
    {
      if cur.App? {
        var _ := Left();
        done := false;
      } else {
        done := NextBranch();
      }
    }

    /** `nextBranch`: climbs while the focus is a right child, then moves into the
        right sibling of the first left child; with no such frame it exits scopes. */
    method NextBranch() returns (done: bool)
      modifies this
      decreases |contexts|, 2
      ensures Reached(Advance(old(cur), old(Flat())), done)
      ensures done <==> stack == [] && contexts == []
      ensures |contexts| <= |old(contexts)| && contexts == old(contexts)[..|contexts|]
      ensures Root() == old(Root())
    {
      ghost var goal := Advance(cur, Flat());
      ClimbRightChildren();
      if stack != [] {
        TakeLeftFrame(contexts, stack, cur);
        var _ := Up();
        var _ := Right();
        done := false;
        assert contexts == old(contexts)[..|old(contexts)|];
      } else {
        done := ExitScopes();
      }
    }

    /** The climbing loop of `nextBranch`: moves up while the focus is a right
        child, which leaves the next position of the walk as it was. */
    method ClimbRightChildren()
      modifies this
      ensures stack == [] || stack[|stack| - 1].WentLeft?
      ensures Advance(cur, Flat()) == old(Advance(cur, Flat()))
      ensures contexts == old(contexts) && Root() == old(Root())
    {
      while stack != [] && stack[|stack| - 1].WentRight?
        invariant Advance(cur, Flat()) == old(Advance(cur, Flat()))
        invariant contexts == old(contexts)
        invariant Root() == old(Root())
        decreases |stack|
      {
        ClimbRightFrame(contexts, stack, cur);
        var _ := Up();
      }
    }

    /** `exitScopes`: while the path is empty and a scope is open, exit it and go
        forward.  True when both the path and the contexts are empty. */
    method ExitScopes() returns (done: bool)
      modifies this
      decreases |contexts|, 1
      ensures old(stack) != [] ==> !done && cur == old(cur) && stack == old(stack) && contexts == old(contexts)
      ensures old(stack) == [] ==> Reached(Advance(old(cur), old(Flat())), done)
      ensures done <==> stack == [] && contexts == []
      ensures |contexts| <= |old(contexts)| && contexts == old(contexts)[..|contexts|]
      ensures Root() == old(Root())
    {
      ghost var goal := Advance(cur, Flat());
      ghost var stepped := false;
      while stack == [] && contexts != []
        invariant !stepped ==> cur == old(cur) && stack == old(stack) && contexts == old(contexts)
        invariant stepped ==> old(stack) == [] && Reached(goal, stack == [] && contexts == [])
        invariant |contexts| <= |old(contexts)| && contexts == old(contexts)[..|contexts|]
        invariant Root() == old(Root())
        decreases !stepped
      {
        // A reached position has a non-empty path or no contexts, so the walk
        // has not moved yet.
        assert !stepped;
        ghost var exited := contexts;
        var left := LeaveScope();
        assert left == (stack == [] && contexts == []);
        PrefixOfPrefix(old(contexts), exited, contexts);
        stepped := true;
      }
      done := stack == [] && contexts == [];
    }

    /** One turn of the `exitScopes` loop: exit the innermost scope, then go forward. */
    method LeaveScope() returns (done: bool)
      requires stack == [] && contexts != []
      modifies this
      decreases |contexts|, 0
      ensures Reached(Advance(old(cur), old(Flat())), done)
      ensures |contexts| < |old(contexts)| && contexts == old(contexts)[..|contexts|]
      ensures Root() == old(Root())
    {
      ghost var x, f := cur, Flat();
      var h := contexts[|contexts| - 1].head;
      ExitScope();
      ClimbSnoc(x, Flat(), Scope(h));
      assert f == Flat() + [Scope(h)] && cur == Wrap(x, Scope(h));
      ghost var exited := contexts;
      done := Forward();
      PrefixOfPrefix(old(contexts), exited, contexts);
    }
  }

  lemma PrefixOfPrefix<T>(a: seq<T>, b: seq<T>, c: seq<T>)
    requires |b| <= |a| && b == a[..|b|]
    requires |c| <= |b| && c == b[..|c|]
    ensures |c| <= |a| && c == a[..|c|]
  {
  }

  /** Climbing out of a right child does not change where `nextBranch` goes next. */
  lemma ClimbRightFrame<V>(contexts: seq<Context<V>>, stack: seq<Frame<V>>, x: Term<V>)
    requires stack != [] && stack[|stack| - 1].WentRight?
    ensures Advance(Wrap(x, Step(stack[|stack| - 1])), CtxFlat(contexts) + Steps(stack[..|stack| - 1])) ==
            Advance(x, CtxFlat(contexts) + Steps(stack))
  {
    FlatPop(contexts, stack);
    ClimbSnoc(x, CtxFlat(contexts) + Steps(stack[..|stack| - 1]), Step(stack[|stack| - 1]));
  }

  /** Out of a left child, `nextBranch` moves into its right sibling. */
  lemma TakeLeftFrame<V>(contexts: seq<Context<V>>, stack: seq<Frame<V>>, x: Term<V>)
    requires stack != [] && stack[|stack| - 1].WentLeft?
    ensures Advance(x, CtxFlat(contexts) + Steps(stack)) ==
            At(stack[|stack| - 1].right, CtxFlat(contexts) + Steps(stack[..|stack| - 1] + [WentRight(x)]))
  {
    FlatPop(contexts, stack);
    FlatPush(contexts, stack[..|stack| - 1], WentRight(x));
  }

  lemma FlatPush<V>(contexts: seq<Context<V>>, stack: seq<Frame<V>>, fr: Frame<V>)
    ensures CtxFlat(contexts) + Steps(stack + [fr]) == CtxFlat(contexts) + Steps(stack) + [Step(fr)]
  {
    StepsSnoc(stack, fr);
  }

  lemma FlatPop<V>(contexts: seq<Context<V>>, stack: seq<Frame<V>>)
    requires stack != []
    ensures CtxFlat(contexts) + Steps(stack) ==
      CtxFlat(contexts) + Steps(stack[..|stack| - 1]) + [Step(stack[|stack| - 1])]
  {
    StepsInit(stack);
  }

  /** The outermost node of a plugged term is the first item's node. */
  lemma {:induction false} PlugFront<V>(x: Term<V>, flat: seq<Item<V>>)
    requires flat != []
    ensures Plug(x, flat) == Wrap(Plug(x, flat[1..]), flat[0])
    decreases |flat|
  {
    if |flat| > 1 {
      var n := |flat| - 1;
      PlugFront(Wrap(x, flat[n]), flat[..n]);
      assert flat[..n][1..] == flat[1..][..n - 1];
    }
  }

  lemma {:induction false} CtxFlatFront<V>(contexts: seq<Context<V>>)
    requires contexts != []
    ensures CtxFlat(contexts) ==
      Steps(contexts[0].path) + [Scope(contexts[0].head)] + CtxFlat(contexts[1..])
    decreases |contexts|
  {
    var n := |contexts| - 1;
    if n > 0 {
      CtxFlatFront(contexts[..n]);
      assert contexts[..n][1..] == contexts[1..][..n - 1];
    }
  }

  lemma RootShape<V>(cur: Term<V>, contexts: seq<Context<V>>, stack: seq<Frame<V>>)
    ensures var r := Plug(cur, CtxFlat(contexts) + Steps(stack));
      && (stack == [] && contexts == [] ==> r == cur)
      && (contexts == [] && stack != [] ==> r.App?)
      && (contexts != [] && contexts[0].path == [] ==> r.Lam? && r.head == contexts[0].head)
      && (contexts != [] && contexts[0].path != [] ==> r.App?)
  {
    var flat := CtxFlat(contexts) + Steps(stack);
    if contexts != [] {
      CtxFlatFront(contexts);
      PlugFront(cur, flat);
      if contexts[0].path == [] {
        assert flat[0] == Scope(contexts[0].head);
      } else {
        assert flat[0] == Step(contexts[0].path[0]);
      }
    } else if stack != [] {
      PlugFront(cur, flat);
      assert flat[0] == Step(stack[0]);
    }
  }
}
