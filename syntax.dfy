/** The concrete syntax around the term model: Church numerals
    (`numberExpression`), the printer (`print`) and the two folds that the
    parser applies to what it has read (curried heads and application lists). */
module Syntax {
  import opened Terms

  // ---------------------------------------------------------------------------
  // Church numerals

  /** `s` applied `k` times to `z`. */
  function Applications(k: nat): Term<Letter> {
    if k == 0 then Var('z') else App(Var('s'), Applications(k - 1))
  }

  /** Counts the applications of `s` down to `z`: None for any other shape. */
  function CountApplications(t: Term<Letter>): Option<nat> {
    match t
    case Var(x) => if x == 'z' then Some(0) else None
    case Lam(_, _) => None
    case App(f, b) =>
      if !(f.Var? && f.v == 's') then None
      else
        match CountApplications(b)
        case None => None
        case Some(k) => Some(k + 1)
  }

  /** Reads a numeral `\s.\z.s(s(...z))` back as the number it stands for. */
  function Numeral(t: Term<Letter>): Option<nat> {
    if t.Lam? && t.head == 's' && t.body.Lam? && t.body.head == 'z' then CountApplications(t.body.body)
    else None
  }

  lemma {:induction false} CountApplicationsOf(k: nat)
    ensures CountApplications(Applications(k)) == Some(k)
  {
    if k > 0 {
      CountApplicationsOf(k - 1);
    }
  }

  /** `numberExpression`: the Church numeral for `n`, which reads back as `n`. */
  method NumberExpression(n: nat) returns (r: Term<Letter>)
    ensures r == Lam('s', Lam('z', Applications(n)))
    ensures Numeral(r) == Some(n)
  {
    var expr: Term<Letter> := Var('z');
    for i := 0 to n
      invariant expr == Applications(i)
    {
      expr := App(Var('s'), expr);
    }
    r := Lam('s', Lam('z', expr));
    CountApplicationsOf(n);
  }

  // ---------------------------------------------------------------------------
  // Printing

  /** `print`: a lambda as `\h.` and its body; an application as its two sides,
      each in parentheses unless it is a variable.  `show` is `String` on a leaf. */
  function Print<V>(t: Term<V>, show: V -> string): string {
    match t
    case Var(x) => show(x)
    case Lam(h, body) => ['\\', h, '.'] + Print(body, show)
    case App(a, b) =>
      var pa, pb := Print(a, show), Print(b, show);
      (if a.Var? then pa else "(" + pa + ")") + (if b.Var? then pb else "(" + pb + ")")
  }

  /** `String` on a name. */
  function ShowName(x: Letter): string {
    [x]
  }

  /** How `print` shows one side of an application. */
  function Operand(t: Term<Letter>): string {
    if t.Var? then Print(t, ShowName) else "(" + Print(t, ShowName) + ")"
  }

  predicate IsLetter(c: char) {
    'a' <= c <= 'z'
  }

  /** Reads back one term of the printed form, up to the end of the text or a
      closing parenthesis: a lambda, or one operand optionally followed by a second. */
  function ReadTerm(s: string): (r: Option<(Term<Letter>, string)>)
    ensures r.Some? ==> |r.value.1| < |s|
    decreases |s|, 1
  {
    if |s| >= 3 && s[0] == '\\' && IsLetter(s[1]) && s[2] == '.' then
      match ReadTerm(s[3..])
      case None => None
      case Some((body, rest)) => Some((Lam(s[1] as Letter, body), rest))
    else
      match ReadOperand(s)
      case None => None
      case Some((a, rest)) =>
        if rest != [] && (IsLetter(rest[0]) || rest[0] == '(') then
          match ReadOperand(rest)
          case None => None
          case Some((b, rest')) => Some((App(a, b), rest'))
        else Some((a, rest))
  }

  /** Reads back one operand: a letter, or a term in parentheses. */
  function ReadOperand(s: string): (r: Option<(Term<Letter>, string)>)
    ensures r.Some? ==> |r.value.1| < |s|
    decreases |s|, 0
  {
    if s == [] then None
    else if IsLetter(s[0]) then Some((Var(s[0] as Letter), s[1..]))
    else if s[0] == '(' then
      match ReadTerm(s[1..])
      case None => None
      case Some((t, rest)) => if rest != [] && rest[0] == ')' then Some((t, rest[1..])) else None
    else None
  }

  lemma OperandStart(t: Term<Letter>)
    ensures |Operand(t)| >= 1 && (IsLetter(Operand(t)[0]) || Operand(t)[0] == '(')
  {
    if t.Var? {
      assert Operand(t) == [t.v];
    }
  }

  /** An operand is read back whatever follows it. */
  lemma {:induction false} ReadOperandPrinted(t: Term<Letter>, rest: string)
    ensures ReadOperand(Operand(t) + rest) == Some((t, rest))
    decreases t, 1
  {
    if t.Var? {
      ReadOperandVar(t.v, rest);
    } else {
      ReadTermPrinted(t, ")" + rest);
      ReadParenthesised(Print(t, ShowName), t, rest);
      OperandParenthesised(t, rest);
    }
  }

  lemma ReadOperandVar(x: Letter, rest: string)
    ensures ReadOperand(Operand(Var(x)) + rest) == Some((Var(x), rest))
  {
    var s := Operand(Var(x)) + rest;
    assert s == [x] + rest;
    assert s[0] == x && s[1..] == rest;
  }

  /** A text that reads back as `t` before a closing parenthesis reads back as
      the operand `t` when put in parentheses. */
  lemma ReadParenthesised(p: string, t: Term<Letter>, rest: string)
    requires ReadTerm(p + (")" + rest)) == Some((t, ")" + rest))
    ensures ReadOperand("(" + (p + (")" + rest))) == Some((t, rest))
  {
    var s := "(" + (p + (")" + rest));
    assert s[0] == '(' && s[1..] == p + (")" + rest);
    assert (")" + rest)[1..] == rest && (")" + rest)[0] == ')';
  }

  lemma OperandParenthesised(t: Term<Letter>, rest: string)
    requires !t.Var?
    ensures Operand(t) + rest == "(" + (Print(t, ShowName) + (")" + rest))
  {
  }

  lemma ReadTermVar(x: Letter, rest: string)
    requires rest == [] || rest[0] == ')'
    ensures ReadTerm(Print(Var(x), ShowName) + rest) == Some((Var(x), rest))
  {
    var s := Print(Var(x), ShowName) + rest;
    assert s == [x] + rest;
    assert s[0] == x && s[1..] == rest;
    assert ReadOperand(s) == Some((Var(x), rest));
  }

  /** A text that reads back as `body` reads back as a lambda behind `\h.`. */
  lemma ReadLamText(h: Letter, p: string, body: Term<Letter>, rest: string)
    requires ReadTerm(p + rest) == Some((body, rest))
    ensures ReadTerm(['\\', h, '.'] + (p + rest)) == Some((Lam(h, body), rest))
  {
    var s := ['\\', h, '.'] + (p + rest);
    assert |s| >= 3 && s[0] == '\\' && s[1] == h && s[2] == '.';
    assert s[3..] == p + rest;
  }

  lemma ReadTermLam(h: Letter, body: Term<Letter>, rest: string)
    requires ReadTerm(Print(body, ShowName) + rest) == Some((body, rest))
    ensures ReadTerm(Print(Lam(h, body), ShowName) + rest) == Some((Lam(h, body), rest))
  {
    ReadLamText(h, Print(body, ShowName), body, rest);
    PrintLamRest(h, body, rest);
  }

  lemma PrintLamRest(h: Letter, body: Term<Letter>, rest: string)
    ensures Print(Lam(h, body), ShowName) + rest == ['\\', h, '.'] + (Print(body, ShowName) + rest)
  {
  }

  lemma PrintApp(a: Term<Letter>, b: Term<Letter>)
    ensures Print(App(a, b), ShowName) == Operand(a) + Operand(b)
  {
  }

  /** A text that starts with an operand followed by a second one reads as an application. */
  lemma ReadTermTwoOperands(s: string, a: Term<Letter>, rest1: string, b: Term<Letter>, rest: string)
    requires s != [] && (IsLetter(s[0]) || s[0] == '(')
    requires ReadOperand(s) == Some((a, rest1))
    requires rest1 != [] && (IsLetter(rest1[0]) || rest1[0] == '(')
    requires ReadOperand(rest1) == Some((b, rest))
    ensures ReadTerm(s) == Some((App(a, b), rest))
  {
    assert s[0] != '\\';
  }

  lemma PrintAppRest(a: Term<Letter>, b: Term<Letter>, rest: string)
    ensures Print(App(a, b), ShowName) + rest == Operand(a) + (Operand(b) + rest)
  {
    PrintApp(a, b);
    AppendAssoc(Operand(a), Operand(b), rest);
  }

  lemma AppendAssoc<T>(a: seq<T>, b: seq<T>, c: seq<T>)
    ensures (a + b) + c == a + (b + c)
  {
  }

  /** A printed operand starts the text it is put in front of. */
  lemma OperandFirst(t: Term<Letter>, rest: string)
    ensures Operand(t) + rest != []
    ensures IsLetter((Operand(t) + rest)[0]) || (Operand(t) + rest)[0] == '('
  {
    OperandStart(t);
    assert (Operand(t) + rest)[0] == Operand(t)[0];
  }

  lemma ReadTermApp(a: Term<Letter>, b: Term<Letter>, rest: string)
    requires ReadOperand(Operand(a) + (Operand(b) + rest)) == Some((a, Operand(b) + rest))
    requires ReadOperand(Operand(b) + rest) == Some((b, rest))
    ensures ReadTerm(Print(App(a, b), ShowName) + rest) == Some((App(a, b), rest))
  {
    var rest1 := Operand(b) + rest;
    var s := Operand(a) + rest1;
    PrintAppRest(a, b, rest);
    OperandFirst(a, rest1);
    OperandFirst(b, rest);
    ReadTermTwoOperands(s, a, rest1, b, rest);
  }

  /** `print` loses nothing on named terms: the printed text reads back as the
      same term, up to the end of the text or a closing parenthesis. */
  lemma {:induction false} ReadTermPrinted(t: Term<Letter>, rest: string)
    requires rest == [] || rest[0] == ')'
    ensures ReadTerm(Print(t, ShowName) + rest) == Some((t, rest))
    decreases t, 0
  {
    match t
    case Var(x) =>
      ReadTermVar(x, rest);
    case Lam(h, body) =>
      ReadTermPrinted(body, rest);
      ReadTermLam(h, body, rest);
    case App(a, b) =>
      ReadOperandPrinted(a, Operand(b) + rest);
      ReadOperandPrinted(b, rest);
      ReadTermApp(a, b, rest);
  }

  /** Two named terms that print the same are the same term. */
  lemma PrintInjective(s: Term<Letter>, t: Term<Letter>)
    requires Print(s, ShowName) == Print(t, ShowName)
    ensures s == t
  {
    ReadTermPrinted(s, []);
    ReadTermPrinted(t, []);
    assert Print(s, ShowName) + [] == Print(t, ShowName) + [];
  }

  // ---------------------------------------------------------------------------
  // The parser's folds

  /** The lambda action: `names.reduceRight`, wrapping the body in one lambda per
      head, the first head outermost. */
  function CurryHeads(names: seq<Letter>, body: Term<Letter>): Term<Letter>
    decreases |names|
  {
    if names == [] then body
    else CurryHeads(names[..|names| - 1], Lam(names[|names| - 1], body))
  }

  /** Takes `k` lambdas off the front of a term: their heads and what is inside. */
  function PeelHeads(t: Term<Letter>, k: nat): Option<(seq<Letter>, Term<Letter>)> {
    if k == 0 then Some(([], t))
    else if !t.Lam? then None
    else
      match PeelHeads(t.body, k - 1)
      case None => None
      case Some((hs, inner)) => Some(([t.head] + hs, inner))
  }

  /** The curried heads come back, in order, as the outer lambdas of the result. */
  lemma {:induction false} PeelCurried(names: seq<Letter>, body: Term<Letter>)
    ensures PeelHeads(CurryHeads(names, body), |names|) == Some((names, body))
    decreases |names|
  {
    if names != [] {
      var n := |names| - 1;
      PeelCurried(names[..n], Lam(names[n], body));
      PeelAppend(CurryHeads(names[..n], Lam(names[n], body)), n, names[..n], Lam(names[n], body));
      assert names[..n] + [names[n]] == names;
    }
  }

  lemma {:induction false} PeelAppend(t: Term<Letter>, k: nat, hs: seq<Letter>, inner: Term<Letter>)
    requires PeelHeads(t, k) == Some((hs, inner)) && inner.Lam?
    ensures PeelHeads(t, k + 1) == Some((hs + [inner.head], inner.body))
    decreases k
  {
    if k > 0 {
      var (hs', inner') := PeelHeads(t.body, k - 1).value;
      PeelAppend(t.body, k - 1, hs', inner');
      assert [t.head] + (hs' + [inner.head]) == ([t.head] + hs') + [inner.head];
    } else {
      assert [t.head] + [] == [] + [t.head];
    }
  }

  /** The application action: `atoms.reduce` without a start value, applying the
      first atom to the others one at a time (left associative). */
  function ApplyAll(atoms: seq<Term<Letter>>): Term<Letter>
    requires |atoms| >= 1
    decreases |atoms|
  {
    if |atoms| == 1 then atoms[0]
    else App(ApplyAll(atoms[..|atoms| - 1]), atoms[|atoms| - 1])
  }

  /** The head of an application chain and its arguments, left to right. */
  function Spine(t: Term<Letter>): (r: seq<Term<Letter>>)
    ensures |r| >= 1 && !r[0].App?
  {
    match t
    case App(a, b) => Spine(a) + [b]
    case _ => [t]
  }

  /** The left fold undoes the spine of any term. */
  lemma {:induction false} ApplyAllSpine(t: Term<Letter>)
    ensures ApplyAll(Spine(t)) == t
  {
    if t.App? {
      ApplyAllSpine(t.a);
      var sp := Spine(t.a) + [t.b];
      assert sp[..|sp| - 1] == Spine(t.a);
    }
  }

  /** The spine gives back the atoms when the first is not itself an application. */
  lemma {:induction false} SpineApplyAll(atoms: seq<Term<Letter>>)
    requires |atoms| >= 1 && !atoms[0].App?
    ensures Spine(ApplyAll(atoms)) == atoms
    decreases |atoms|
  {
    if |atoms| > 1 {
      var n := |atoms| - 1;
      SpineApplyAll(atoms[..n]);
      assert atoms[..n] + [atoms[n]] == atoms;
    }
  }

  /** `\xy.xy` is `\x.(\y.xy)`. */
  lemma ParseUncurries()
    ensures var e: Term<Letter> := Lam('x', Lam('y', App(Var('x'), Var('y'))));
      CurryHeads(['x', 'y'], ApplyAll([Var('x'), Var('y')])) == e
  {
    assert ['x', 'y'][..1] == ['x'];
  }

  /** `\x.xz\y.xy` prints as `\x.(xz)(\y.xy)`: application binds to the left and a
      lambda extends as far right as it can. */
  lemma ParsePrintAssociativity()
    ensures Print(CurryHeads(['x'], ApplyAll([Var('x'), Var('z'), CurryHeads(['y'], ApplyAll([Var('x'), Var('y')]))])),
                  ShowName) == "\\x.(xz)(\\y.xy)"
  {
    FoldsOfAssociativity();
    PrintOfAssociativity();
  }

  lemma FoldsOfAssociativity()
    ensures var inner: Term<Letter> := Lam('y', App(Var('x'), Var('y')));
      CurryHeads(['x'], ApplyAll([Var('x'), Var('z'), CurryHeads(['y'], ApplyAll([Var('x'), Var('y')]))])) ==
      Lam('x', App(App(Var('x'), Var('z')), inner))
  {
    var inner: Term<Letter> := Lam('y', App(Var('x'), Var('y')));
    var xy: Term<Letter> := App(Var('x'), Var('y'));
    assert ApplyAll([Var('x'), Var('y')]) == xy;
    assert CurryHeads(['y'], xy) == inner;
    var atoms: seq<Term<Letter>> := [Var('x'), Var('z'), inner];
    var xz: seq<Term<Letter>> := [Var('x'), Var('z')];
    assert atoms[..2] == xz;
    assert ApplyAll(atoms) == App(App(Var('x'), Var('z')), inner);
  }

  lemma PrintOfAssociativity()
    ensures var inner: Term<Letter> := Lam('y', App(Var('x'), Var('y')));
      var e: Term<Letter> := Lam('x', App(App(Var('x'), Var('z')), inner));
      Print<Letter>(e, ShowName) == "\\x.(xz)(\\y.xy)"
  {
    var inner: Term<Letter> := Lam('y', App(Var('x'), Var('y')));
    var xz: Term<Letter> := App(Var('x'), Var('z'));
    PrintOfApplication();
    assert Print(App(xz, inner), ShowName) == "(xz)(\\y.xy)";
  }

  lemma PrintOfApplication()
    ensures var inner: Term<Letter> := Lam('y', App(Var('x'), Var('y')));
      var xz: Term<Letter> := App(Var('x'), Var('z'));
      Print(App(xz, inner), ShowName) == "(xz)(\\y.xy)"
  {
    var inner: Term<Letter> := Lam('y', App(Var('x'), Var('y')));
    var xz: Term<Letter> := App(Var('x'), Var('z'));
    PrintOfParts();
    assert Print(App(xz, inner), ShowName) == "(" + "xz" + ")" + ("(" + "\\y.xy" + ")");
  }

  lemma PrintOfParts()
    ensures var xz: Term<Letter> := App(Var('x'), Var('z')); Print(xz, ShowName) == "xz"
    ensures var inner: Term<Letter> := Lam('y', App(Var('x'), Var('y'))); Print(inner, ShowName) == "\\y.xy"
  {
    var xy: Term<Letter> := App(Var('x'), Var('y'));
    assert Print(xy, ShowName) == "xy";
  }
}
