/** The term model of lambda.ts: a variable, an abstraction (`Lambda`) or an
    application (`Application`).  The variable encoding is a type parameter:
    a letter in named form, a natural number in de Bruijn form. */
module Terms {

  datatype Option<T> = None | Some(value: T)

  /** The 26 lower-case letters of `ALPHABET`: names and lambda heads. */
  type Letter = c: char | 'a' <= c <= 'z' witness 'a'

  /** `ALPHABET.indexOf(c)` for a letter. */
  function Pos(c: Letter): (k: nat)
    ensures k < 26 && LetterAt(k) == c
  {
    (c as int) - ('a' as int)
  }

  /** `ALPHABET[k]` for an index inside the alphabet. */
  function LetterAt(k: nat): (c: Letter)
    requires k < 26
    ensures c as int == 'a' as int + k
  {
    ('a' as int + k) as char
  }

  datatype Term<V> =
    | Var(v: V)
    | Lam(head: Letter, body: Term<V>)
    | App(a: Term<V>, b: Term<V>)

  /** Number of nodes; the measure that the depth-first walks consume. */
  function Size<V>(t: Term<V>): (n: nat)
    ensures n >= 1
  {
    match t
    case Var(_) => 1
    case Lam(_, body) => 1 + Size(body)
    case App(a, b) => 1 + Size(a) + Size(b)
  }

  /** `expression<A | B>`: the working copy inside `mapVariables` holds leaves that
      are still of the input type (Before) beside leaves already mapped (After). */
  datatype Either<A, B> = Before(before: A) | After(after: B)

  /** Every leaf still carries an input value. */
  predicate AllBefore<A, B>(t: Term<Either<A, B>>) {
    match t
    case Var(x) => x.Before?
    case Lam(_, body) => AllBefore(body)
    case App(a, b) => AllBefore(a) && AllBefore(b)
  }

  /** Every leaf carries a mapped value. */
  predicate AllAfter<A, B>(t: Term<Either<A, B>>) {
    match t
    case Var(x) => x.After?
    case Lam(_, body) => AllAfter(body)
    case App(a, b) => AllAfter(a) && AllAfter(b)
  }

  function InjectBefore<A, B>(t: Term<A>): (r: Term<Either<A, B>>)
    ensures AllBefore(r)
  {
    match t
    case Var(x) => Var(Before(x))
    case Lam(h, body) => Lam(h, InjectBefore(body))
    case App(a, b) => App(InjectBefore(a), InjectBefore(b))
  }

  function InjectAfter<A, B>(t: Term<B>): (r: Term<Either<A, B>>)
    ensures AllAfter(r)
  {
    match t
    case Var(x) => Var(After(x))
    case Lam(h, body) => Lam(h, InjectAfter(body))
    case App(a, b) => App(InjectAfter(a), InjectAfter(b))
  }

  /** The final cast `t.current as expression<B>` of `mapVariables`. */
  function ProjectAfter<A, B>(t: Term<Either<A, B>>): (r: Term<B>)
    requires AllAfter(t)
    ensures InjectAfter(r) == t
  {
    match t
    case Var(x) => Var(x.after)
    case Lam(h, body) => Lam(h, ProjectAfter(body))
    case App(a, b) => App(ProjectAfter(a), ProjectAfter(b))
  }

  lemma {:induction false} ProjectInjectAfter<A, B>(t: Term<B>)
    ensures ProjectAfter(InjectAfter<A, B>(t)) == t
  {
    match t
    case Var(_) =>
    case Lam(_, body) => ProjectInjectAfter<A, B>(body);
    case App(a, b) => ProjectInjectAfter<A, B>(a); ProjectInjectAfter<A, B>(b);
  }
}
