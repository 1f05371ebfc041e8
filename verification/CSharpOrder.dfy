/** BDK/tools/csharp/Program.cs: the expression translator pins C# evaluation order.

    Both languages share one store of locals, one trace of calls and the meaning of the
    operators. C# evaluates from left to right; C++ may evaluate the operands of an operator
    and the arguments of a call in any order. */
module CSharpOrder {
  import opened Arithmetic

  datatype Call = Call(f: nat, args: seq<int>)

  datatype State = State(locals: map<nat, int>, trace: seq<Call>)

  /** What both languages agree on: operators, and what a call returns after the calls before it. */
  datatype World = World(binary: (nat, int, int) -> int, unary: (nat, int) -> int, call: (Call, seq<Call>) -> int)

  function Get(locals: map<nat, int>, x: nat): int {
    if x in locals then locals[x] else 0
  }

  function Set(s: State, x: nat, v: int): State {
    s.(locals := s.locals[x := v])
  }

  // ------------------------------------------------------------ C#

  datatype Expr =
    | Literal(v: int)
    | Local(x: nat)
    | Parenthesized(e: Expr)
    | Unary(op: nat, e: Expr)
    | Prefix(x: nat, step: int)       // ++x and --x
    | Postfix(x: nat, step: int)      // x++ and x--
    | Assign(x: nat, e: Expr)
    | Compound(op: nat, x: nat, e: Expr)
    | Binary(op: nat, left: Expr, right: Expr)
    | And(left: Expr, right: Expr)
    | Or(left: Expr, right: Expr)
    | Conditional(test: Expr, yes: Expr, no: Expr)
    | Invoke(f: nat, args: seq<Expr>)

  datatype Value = Value(v: int, s: State)

  /** C#: left to right, each operand in full before the next. */
  function Eval(w: World, e: Expr, s: State): Value
    decreases e
  {
    match e
    case Literal(v) => Value(v, s)
    case Local(x) => Value(Get(s.locals, x), s)
    case Parenthesized(a) => Eval(w, a, s)
    case Unary(op, a) => var r := Eval(w, a, s); Value(w.unary(op, r.v), r.s)
    case Prefix(x, step) => Value(Get(s.locals, x) + step, Set(s, x, Get(s.locals, x) + step))
    case Postfix(x, step) => Value(Get(s.locals, x), Set(s, x, Get(s.locals, x) + step))
    case Assign(x, a) => var r := Eval(w, a, s); Value(r.v, Set(r.s, x, r.v))
    case Compound(op, x, a) =>
      // The target is read before the right side is evaluated.
      var before := Get(s.locals, x);
      var r := Eval(w, a, s);
      var v := w.binary(op, before, r.v);
      Value(v, Set(r.s, x, v))
    case Binary(op, a, b) =>
      var r := Eval(w, a, s);
      var q := Eval(w, b, r.s);
      Value(w.binary(op, r.v, q.v), q.s)
    case And(a, b) => var r := Eval(w, a, s); if r.v == 0 then Value(0, r.s) else Truth(Eval(w, b, r.s))
    case Or(a, b) => var r := Eval(w, a, s); if r.v != 0 then Value(1, r.s) else Truth(Eval(w, b, r.s))
    case Conditional(c, a, b) => var r := Eval(w, c, s); if r.v != 0 then Eval(w, a, r.s) else Eval(w, b, r.s)
    case Invoke(f, args) =>
      var r := EvalArgs(w, e, 0, s);
      var call := Call(f, r.0);
      Value(w.call(call, r.1.trace), r.1.(trace := r.1.trace + [call]))
  }

  function Truth(r: Value): Value {
    Value(if r.v == 0 then 0 else 1, r.s)
  }

  /** Arguments `i` and up, from left to right. */
  function EvalArgs(w: World, e: Expr, i: nat, s: State): (r: (seq<int>, State))
    requires e.Invoke? && i <= |e.args|
    ensures |r.0| == |e.args| - i
    decreases e, |e.args| - i
  {
    if i == |e.args| then ([], s)
    else
      var a := Eval(w, e.args[i], s);
      var rest := EvalArgs(w, e, i + 1, a.s);
      ([a.v] + rest.0, rest.1)
  }

  // ------------------------------------------------------------ C++

  /** Names the translator makes up. No source token starts with their common prefix. */
  datatype Temp = Left | Right | Arg(i: nat)

  datatype Cpp =
    | CLiteral(v: int)
    | CLocal(x: nat)
    | CTemp(t: Temp)
    | CUnary(op: nat, e: Cpp)
    | CPrefix(x: nat, step: int)
    | CPostfix(x: nat, step: int)
    | CAssign(x: nat, e: Cpp)
    | CCompound(op: nat, x: nat, e: Cpp)
    | CBinary(op: nat, left: Cpp, right: Cpp)
    | CAnd(left: Cpp, right: Cpp)
    | COr(left: Cpp, right: Cpp)
    | CConditional(test: Cpp, yes: Cpp, no: Cpp)
    | CInvoke(f: nat, args: seq<Cpp>)
    | CLambda(names: seq<Temp>, inits: seq<Cpp>, body: Cpp)  // ([&]() { auto n = init; ... return body; }())

  /** Locals are captured by reference; temporaries are scoped. */
  datatype CState = CState(s: State, temps: map<Temp, int>)

  predicate IsOrder(order: seq<nat>, n: nat) {
    && |order| == n
    && (forall i :: 0 <= i < n ==> order[i] < n)
    && (forall i, j :: 0 <= i < j < n ==> order[i] != order[j])
  }

  /** C++: `e` may evaluate from `c` to `v`, leaving `d`. */
  ghost predicate Runs(w: World, e: Cpp, c: CState, v: int, d: CState)
    decreases e
  {
    match e
    case CLiteral(n) => v == n && d == c
    case CLocal(x) => v == Get(c.s.locals, x) && d == c
    case CTemp(t) => t in c.temps && v == c.temps[t] && d == c
    case CUnary(op, a) => exists u :: Runs(w, a, c, u, d) && v == w.unary(op, u)
    case CPrefix(x, step) => v == Get(c.s.locals, x) + step && d == c.(s := Set(c.s, x, v))
    case CPostfix(x, step) => v == Get(c.s.locals, x) && d == c.(s := Set(c.s, x, v + step))
    case CAssign(x, a) => exists m :: Runs(w, a, c, v, m) && d == m.(s := Set(m.s, x, v))
    case CCompound(op, x, a) =>
      // The right side is sequenced before the left.
      exists u, m :: Runs(w, a, c, u, m) && v == w.binary(op, Get(m.s.locals, x), u) && d == m.(s := Set(m.s, x, v))
    case CBinary(op, a, b) =>
      exists x, y, m ::
        v == w.binary(op, x, y) &&
        ((Runs(w, a, c, x, m) && Runs(w, b, m, y, d)) || (Runs(w, b, c, y, m) && Runs(w, a, m, x, d)))
    case CAnd(a, b) =>
      exists u, m :: Runs(w, a, c, u, m) &&
        if u == 0 then v == 0 && d == m else exists y :: Runs(w, b, m, y, d) && v == if y == 0 then 0 else 1
    case COr(a, b) =>
      exists u, m :: Runs(w, a, c, u, m) &&
        if u != 0 then v == 1 && d == m else exists y :: Runs(w, b, m, y, d) && v == if y == 0 then 0 else 1
    case CConditional(t, a, b) =>
      exists u, m :: Runs(w, t, c, u, m) && if u != 0 then Runs(w, a, m, v, d) else Runs(w, b, m, v, d)
    case CInvoke(f, args) =>
      exists order, vals, m :: IsOrder(order, |args|) && |vals| == |args| && RunArgs(w, e, order, c, vals, m) &&
        v == w.call(Call(f, vals), m.s.trace) && d == m.(s := m.s.(trace := m.s.trace + [Call(f, vals)]))
    case CLambda(names, inits, body) =>
      |names| == |inits| &&
      exists m, r :: RunInits(w, e, 0, c, m) && Runs(w, body, m, v, r) && d == r.(temps := c.temps)
  }

  /** The arguments of a call, in the given order. */
  ghost predicate RunArgs(w: World, e: Cpp, order: seq<nat>, c: CState, vals: seq<int>, d: CState)
    requires e.CInvoke? && |vals| == |e.args|
    decreases e, |order|
  {
    if order == [] then d == c
    else
      order[0] < |e.args| && exists m :: Runs(w, e.args[order[0]], c, vals[order[0]], m) && RunArgs(w, e, order[1..], m, vals, d)
  }

  /** The declarations of a lambda, one statement after the other. */
  ghost predicate RunInits(w: World, e: Cpp, i: nat, c: CState, d: CState)
    requires e.CLambda? && |e.names| == |e.inits| && i <= |e.inits|
    decreases e, |e.inits| - i
  {
    if i == |e.inits| then d == c
    else
      exists v, m :: Runs(w, e.inits[i], c, v, m) && RunInits(w, e, i + 1, m.(temps := m.temps[e.names[i] := v]), d)
  }

  // ------------------------------------------------------------ the translation

  function Args(n: nat): (r: seq<Cpp>)
    ensures |r| == n && forall i :: 0 <= i < n ==> r[i] == CTemp(Arg(i))
  {
    seq(n, i requires 0 <= i < n => CTemp(Arg(i)))
  }

  function ArgNames(n: nat): (r: seq<Temp>)
    ensures |r| == n && forall i :: 0 <= i < n ==> r[i] == Arg(i)
  {
    seq(n, i requires 0 <= i < n => Arg(i))
  }

  /** Expr, Binary and Call. */
  function Translate(e: Expr): Cpp
    decreases e
  {
    match e
    case Literal(v) => CLiteral(v)
    case Local(x) => CLocal(x)
    case Parenthesized(a) => Translate(a)
    case Unary(op, a) => CUnary(op, Translate(a))
    case Prefix(x, step) => CPrefix(x, step)
    case Postfix(x, step) => CPostfix(x, step)
    case Assign(x, a) => CAssign(x, Translate(a))
    case Compound(op, x, a) => CCompound(op, x, Translate(a))
    case Binary(op, a, b) => CLambda([Left, Right], [Translate(a), Translate(b)], CBinary(op, CTemp(Left), CTemp(Right)))
    case And(a, b) => CAnd(Translate(a), Translate(b))
    case Or(a, b) => COr(Translate(a), Translate(b))
    case Conditional(c, a, b) => CConditional(Translate(c), Translate(a), Translate(b))
    case Invoke(f, args) => CLambda(ArgNames(|args|), TranslateAll(e, |args|), CInvoke(f, Args(|args|)))
  }

  function TranslateAll(e: Expr, n: nat): (r: seq<Cpp>)
    requires e.Invoke? && n <= |e.args|
    ensures |r| == n && forall i :: 0 <= i < n ==> r[i] == Translate(e.args[i])
    decreases e, n
  {
    if n == 0 then [] else TranslateAll(e, n - 1) + [Translate(e.args[n - 1])]
  }

  // ------------------------------------------------------------ which locals an expression changes

  function Writes(e: Expr): set<nat>
    decreases e
  {
    match e
    case Literal(_) => {}
    case Local(_) => {}
    case Parenthesized(a) => Writes(a)
    case Unary(_, a) => Writes(a)
    case Prefix(x, _) => {x}
    case Postfix(x, _) => {x}
    case Assign(x, a) => {x} + Writes(a)
    case Compound(_, x, a) => {x} + Writes(a)
    case Binary(_, a, b) => Writes(a) + Writes(b)
    case And(a, b) => Writes(a) + Writes(b)
    case Or(a, b) => Writes(a) + Writes(b)
    case Conditional(c, a, b) => Writes(c) + Writes(a) + Writes(b)
    case Invoke(_, args) => WritesAll(e, |args|)
  }

  function WritesAll(e: Expr, n: nat): set<nat>
    requires e.Invoke? && n <= |e.args|
    decreases e, n
  {
    if n == 0 then {} else WritesAll(e, n - 1) + Writes(e.args[n - 1])
  }

  /** No compound assignment changes its own target on its right side. */
  predicate Stable(e: Expr)
    decreases e
  {
    match e
    case Literal(_) => true
    case Local(_) => true
    case Parenthesized(a) => Stable(a)
    case Unary(_, a) => Stable(a)
    case Prefix(_, _) => true
    case Postfix(_, _) => true
    case Assign(_, a) => Stable(a)
    case Compound(_, x, a) => Stable(a) && x !in Writes(a)
    case Binary(_, a, b) => Stable(a) && Stable(b)
    case And(a, b) => Stable(a) && Stable(b)
    case Or(a, b) => Stable(a) && Stable(b)
    case Conditional(c, a, b) => Stable(c) && Stable(a) && Stable(b)
    case Invoke(_, args) => forall i :: 0 <= i < |args| ==> Stable(args[i])
  }

  lemma {:induction false} Untouched(w: World, e: Expr, s: State, x: nat)
    requires x !in Writes(e)
    ensures Get(Eval(w, e, s).s.locals, x) == Get(s.locals, x)
    decreases e
  {
    match e
    case Literal(_) =>
    case Local(_) =>
    case Parenthesized(a) => Untouched(w, a, s, x);
    case Unary(_, a) => Untouched(w, a, s, x);
    case Prefix(_, _) =>
    case Postfix(_, _) =>
    case Assign(_, a) => Untouched(w, a, s, x);
    case Compound(_, _, a) => Untouched(w, a, s, x);
    case Binary(_, a, b) => Untouched(w, a, s, x); Untouched(w, b, Eval(w, a, s).s, x);
    case And(a, b) => Untouched(w, a, s, x); Untouched(w, b, Eval(w, a, s).s, x);
    case Or(a, b) => Untouched(w, a, s, x); Untouched(w, b, Eval(w, a, s).s, x);
    case Conditional(c, a, b) =>
      Untouched(w, c, s, x);
      Untouched(w, a, Eval(w, c, s).s, x);
      Untouched(w, b, Eval(w, c, s).s, x);
    case Invoke(_, args) =>
      forall i | 0 <= i < |args| ensures x !in Writes(args[i]) {
        WritesOne(e, |args|, i);
      }
      UntouchedArgs(w, e, 0, s, x);
  }

  lemma {:induction false} WritesOne(e: Expr, n: nat, i: nat)
    requires e.Invoke? && i < n <= |e.args|
    ensures Writes(e.args[i]) <= WritesAll(e, n)
    decreases n
  {
    if i < n - 1 {
      WritesOne(e, n - 1, i);
    }
  }

  lemma {:induction false} UntouchedArgs(w: World, e: Expr, i: nat, s: State, x: nat)
    requires e.Invoke? && i <= |e.args| && forall j :: 0 <= j < |e.args| ==> x !in Writes(e.args[j])
    ensures Get(EvalArgs(w, e, i, s).1.locals, x) == Get(s.locals, x)
    decreases e, |e.args| - i
  {
    if i < |e.args| {
      Untouched(w, e.args[i], s, x);
      UntouchedArgs(w, e, i + 1, Eval(w, e.args[i], s).s, x);
    }
  }

  // ------------------------------------------------------------ the theorem

  /** `x` has one outcome from `c`, whatever order is taken. */
  ghost predicate Yields(w: World, x: Cpp, c: CState, v: int, d: CState) {
    forall u, z :: Runs(w, x, c, u, z) <==> u == v && z == d
  }

  /** Declarations `i` and up of a lambda have one outcome. */
  ghost predicate Ends(w: World, l: Cpp, i: nat, c: CState, m: CState)
    requires l.CLambda? && |l.names| == |l.inits| && i <= |l.inits|
  {
    forall d :: RunInits(w, l, i, c, d) <==> d == m
  }

  /** The C++ state in which the translation of `e` ends. */
  ghost function Next(w: World, e: Expr, c: CState): CState {
    c.(s := Eval(w, e, c.s).s)
  }

  /** The translation of `e` does, in every order C++ allows, what C# does, and can do it. */
  ghost predicate Agrees(w: World, e: Expr, c: CState) {
    Yields(w, Translate(e), c, Eval(w, e, c.s).v, Next(w, e, c))
  }

  /** Evaluation order is preserved: same value, same stores and same calls, and no other outcome. */
  lemma {:induction false} Preserves(w: World, e: Expr, c: CState)
    requires Stable(e)
    ensures Agrees(w, e, c)
    decreases e
  {
    match e
    case Literal(_) =>
    case Local(_) =>
    case Parenthesized(a) => Preserves(w, a, c);
    case Unary(_, _) => PreservesUnary(w, e, c);
    case Prefix(_, _) =>
    case Postfix(_, _) =>
    case Assign(_, _) => PreservesAssign(w, e, c);
    case Compound(_, _, _) => PreservesCompound(w, e, c);
    case Binary(_, _, _) => PreservesBinary(w, e, c);
    case And(_, _) => PreservesAnd(w, e, c);
    case Or(_, _) => PreservesOr(w, e, c);
    case Conditional(_, _, _) => PreservesConditional(w, e, c);
    case Invoke(_, _) => PreservesInvoke(w, e, c);
  }

  lemma {:induction false} PreservesUnary(w: World, e: Expr, c: CState)
    requires e.Unary? && Stable(e)
    ensures Agrees(w, e, c)
    decreases e, 0
  {
    Preserves(w, e.e, c);
    assert Runs(w, Translate(e.e), c, Eval(w, e.e, c.s).v, Next(w, e.e, c));
  }

  lemma {:induction false} PreservesAssign(w: World, e: Expr, c: CState)
    requires e.Assign? && Stable(e)
    ensures Agrees(w, e, c)
    decreases e, 0
  {
    Preserves(w, e.e, c);
    assert Runs(w, Translate(e.e), c, Eval(w, e.e, c.s).v, Next(w, e.e, c));
  }

  /** C++ reads the target of a compound assignment after the right side. */
  lemma CompoundYields(w: World, op: nat, x: nat, a: Cpp, c: CState, u: int, m: CState)
    requires Yields(w, a, c, u, m)
    ensures var v := w.binary(op, Get(m.s.locals, x), u); Yields(w, CCompound(op, x, a), c, v, m.(s := Set(m.s, x, v)))
  {
    assert Runs(w, a, c, u, m);
  }

  lemma {:induction false} PreservesCompound(w: World, e: Expr, c: CState)
    requires e.Compound? && Stable(e)
    ensures Agrees(w, e, c)
    decreases e, 0
  {
    hide Runs, Yields;
    Preserves(w, e.e, c);
    Untouched(w, e.e, c.s, e.x);
    CompoundYields(w, e.op, e.x, Translate(e.e), c, Eval(w, e.e, c.s).v, Next(w, e.e, c));
  }

  lemma {:induction false} PreservesAnd(w: World, e: Expr, c: CState)
    requires e.And? && Stable(e)
    ensures Agrees(w, e, c)
    decreases e, 0
  {
    Preserves(w, e.left, c);
    var m := Next(w, e.left, c);
    Preserves(w, e.right, m);
    AndYields(w, Translate(e.left), Translate(e.right), c, Eval(w, e.left, c.s).v, m, Eval(w, e.right, m.s).v, Next(w, e.right, m));
  }

  lemma AndYields(w: World, a: Cpp, b: Cpp, c: CState, x: int, m: CState, y: int, d: CState)
    requires Yields(w, a, c, x, m) && Yields(w, b, m, y, d)
    ensures Yields(w, CAnd(a, b), c, if x == 0 || y == 0 then 0 else 1, if x == 0 then m else d)
  {
    assert Runs(w, a, c, x, m) && Runs(w, b, m, y, d);
  }

  lemma {:induction false} PreservesOr(w: World, e: Expr, c: CState)
    requires e.Or? && Stable(e)
    ensures Agrees(w, e, c)
    decreases e, 0
  {
    Preserves(w, e.left, c);
    var m := Next(w, e.left, c);
    Preserves(w, e.right, m);
    OrYields(w, Translate(e.left), Translate(e.right), c, Eval(w, e.left, c.s).v, m, Eval(w, e.right, m.s).v, Next(w, e.right, m));
  }

  lemma OrYields(w: World, a: Cpp, b: Cpp, c: CState, x: int, m: CState, y: int, d: CState)
    requires Yields(w, a, c, x, m) && Yields(w, b, m, y, d)
    ensures Yields(w, COr(a, b), c, if x == 0 && y == 0 then 0 else 1, if x != 0 then m else d)
  {
    assert Runs(w, a, c, x, m) && Runs(w, b, m, y, d);
  }

  lemma {:induction false} PreservesConditional(w: World, e: Expr, c: CState)
    requires e.Conditional? && Stable(e)
    ensures Agrees(w, e, c)
    decreases e, 0
  {
    Preserves(w, e.test, c);
    var m := Next(w, e.test, c);
    Preserves(w, e.yes, m);
    Preserves(w, e.no, m);
    assert Runs(w, Translate(e.test), c, Eval(w, e.test, c.s).v, m);
  }

  /** A lambda runs its declarations and then its body; its temporaries end with it. */
  lemma LambdaYields(w: World, l: Cpp, c: CState, m: CState, v: int, r: CState)
    requires l.CLambda? && |l.names| == |l.inits| && Ends(w, l, 0, c, m) && Yields(w, l.body, m, v, r)
    ensures Yields(w, l, c, v, r.(temps := c.temps))
  {
    assert RunInits(w, l, 0, c, m) && Runs(w, l.body, m, v, r);
  }

  lemma InitEnd(w: World, l: Cpp, c: CState)
    requires l.CLambda? && |l.names| == |l.inits|
    ensures Ends(w, l, |l.inits|, c, c)
  {
  }

  /** One declaration, then the others. */
  lemma InitStep(w: World, l: Cpp, i: nat, c: CState, v: int, c1: CState, m: CState)
    requires l.CLambda? && |l.names| == |l.inits| && i < |l.inits|
    requires Yields(w, l.inits[i], c, v, c1)
    requires Ends(w, l, i + 1, c1.(temps := c1.temps[l.names[i] := v]), m)
    ensures Ends(w, l, i, c, m)
  {
    var c2 := c1.(temps := c1.temps[l.names[i] := v]);
    assert Runs(w, l.inits[i], c, v, c1);
    forall d ensures RunInits(w, l, i, c, d) <==> d == m {
      assert RunInits(w, l, i + 1, c2, d) <==> d == m;
    }
  }

  lemma {:induction false} PreservesBinary(w: World, e: Expr, c: CState)
    requires e.Binary? && Stable(e)
    ensures Agrees(w, e, c)
    decreases e, 0
  {
    hide Runs, Yields, Ends, RunInits;
    var l := Translate(e);
    var c1 := Next(w, e.left, c);
    var x := Eval(w, e.left, c.s).v;
    var c2 := c1.(temps := c1.temps[Left := x]);
    var y := Eval(w, e.right, c2.s).v;
    var c3 := Next(w, e.right, c2);
    var m := c3.(temps := c3.temps[Right := y]);
    Preserves(w, e.left, c);
    Preserves(w, e.right, c2);
    InitEnd(w, l, m);
    InitStep(w, l, 1, c2, y, c3, m);
    InitStep(w, l, 0, c, x, c1, m);
    BinaryYields(w, l.body, m, x, y);
    LambdaYields(w, l, c, m, w.binary(e.op, x, y), m);
  }

  /** Both operands are temporaries: either order gives the same. */
  lemma BinaryYields(w: World, b: Cpp, m: CState, x: int, y: int)
    requires b.CBinary? && b.left == CTemp(Left) && b.right == CTemp(Right)
    requires Left in m.temps && Right in m.temps && m.temps[Left] == x && m.temps[Right] == y
    ensures Yields(w, b, m, w.binary(b.op, x, y), m)
  {
    assert Yields(w, b.left, m, x, m) && Yields(w, b.right, m, y, m);
    assert Runs(w, b.left, m, x, m) && Runs(w, b.right, m, y, m);
  }

  /** Temporaries with the values of the arguments before `i`. */
  ghost predicate Bound(c: CState, vals: seq<int>, i: nat) {
    i <= |vals| && forall j: nat :: j < i ==> Arg(j) in c.temps && c.temps[Arg(j)] == vals[j]
  }

  lemma BoundMore(c: CState, s: State, vals: seq<int>, i: nat, v: int)
    requires Bound(c, vals, i) && |vals| == i
    ensures Bound(c.(s := s, temps := c.temps[Arg(i) := v]), vals + [v], i + 1)
  {
  }

  /** Declarations `i` and up bind the values C# computes for arguments `i` and up. */
  lemma {:induction false} ArgInits(w: World, e: Expr, i: nat, c: CState, done: seq<int>) returns (m: CState)
    requires e.Invoke? && i <= |e.args| && Stable(e) && |done| == i && Bound(c, done, i)
    ensures Ends(w, Translate(e), i, c, m)
    ensures m.s == EvalArgs(w, e, i, c.s).1 && Bound(m, done + EvalArgs(w, e, i, c.s).0, |e.args|)
    decreases e, |e.args| - i
  {
    hide Runs, Yields, Ends, RunInits, Bound;
    var l := Translate(e);
    if i == |e.args| {
      m := c;
      InitEnd(w, l, c);
      assert done + [] == done;
    } else {
      Preserves(w, e.args[i], c);
      var c1 := Next(w, e.args[i], c);
      var v := Eval(w, e.args[i], c.s).v;
      var c2 := c1.(temps := c1.temps[Arg(i) := v]);
      BoundMore(c, c1.s, done, i, v);
      m := ArgInits(w, e, i + 1, c2, done + [v]);
      assert done + [v] + EvalArgs(w, e, i + 1, c2.s).0 == done + EvalArgs(w, e, i, c.s).0;
      InitStep(w, l, i, c, v, c1, m);
    }
  }

  /** `given` and `vals` agree on the arguments in `order`. */
  predicate AgreeOn(order: seq<nat>, given: seq<int>, vals: seq<int>) {
    |given| == |vals| && forall i :: 0 <= i < |order| ==> order[i] < |vals| && given[order[i]] == vals[order[i]]
  }

  /** Arguments that are temporaries: every order gives the same. */
  lemma {:induction false} TempArgs(w: World, call: Cpp, m: CState, vals: seq<int>, order: seq<nat>, given: seq<int>, d: CState)
    requires call.CInvoke? && call.args == Args(|vals|) && Bound(m, vals, |vals|) && |given| == |vals|
    requires forall i :: 0 <= i < |order| ==> order[i] < |vals|
    ensures RunArgs(w, call, order, m, given, d) <==> d == m && AgreeOn(order, given, vals)
    decreases |order|
  {
    if order != [] {
      var k, rest := order[0], order[1..];
      assert forall u, z :: Runs(w, call.args[k], m, u, z) <==> u == vals[k] && z == m;
      TempArgs(w, call, m, vals, rest, given, d);
      assert AgreeOn(order, given, vals) <==> given[k] == vals[k] && AgreeOn(rest, given, vals) by {
        if given[k] == vals[k] && AgreeOn(rest, given, vals) {
          forall i | 0 <= i < |order| ensures given[order[i]] == vals[order[i]] {
            assert i > 0 ==> order[i] == rest[i - 1];
          }
        }
      }
    }
  }

  lemma CallYields(w: World, call: Cpp, m: CState, vals: seq<int>)
    requires call.CInvoke? && call.args == Args(|vals|) && Bound(m, vals, |vals|)
    ensures Yields(w, call, m, w.call(Call(call.f, vals), m.s.trace), m.(s := m.s.(trace := m.s.trace + [Call(call.f, vals)])))
  {
    forall order: seq<nat>, given: seq<int>, d | IsOrder(order, |vals|) && |given| == |vals| && RunArgs(w, call, order, m, given, d)
      ensures given == vals && d == m
    {
      TempArgs(w, call, m, vals, order, given, d);
      forall k | 0 <= k < |vals| ensures given[k] == vals[k] {
        OrderHits(order, |vals|, k);
      }
    }
    var straight := seq(|vals|, i requires 0 <= i < |vals| => i);
    assert IsOrder(straight, |vals|);
    TempArgs(w, call, m, vals, straight, vals, m);
    assert RunArgs(w, call, straight, m, vals, m);
  }

  /** An order of n arguments names each of them. */
  lemma OrderHits(order: seq<nat>, n: nat, k: nat)
    requires IsOrder(order, n) && k < n
    ensures exists i :: 0 <= i < n && order[i] == k
  {
    if forall i :: 0 <= i < n ==> order[i] != k {
      // Renaming n - 1 to k would leave n distinct numbers below n - 1.
      var renamed := seq(n, i requires 0 <= i < n => if order[i] == n - 1 then k else order[i]);
      DistinctBelow(renamed, n - 1);
    }
  }

  lemma {:induction false} PreservesInvoke(w: World, e: Expr, c: CState)
    requires e.Invoke? && Stable(e)
    ensures Agrees(w, e, c)
    decreases e, |e.args| + 1
  {
    hide Runs, Yields, Ends, RunInits;
    var l := Translate(e);
    var m := ArgInits(w, e, 0, c, []);
    var vals := EvalArgs(w, e, 0, c.s).0;
    assert [] + vals == vals;
    CallYields(w, l.body, m, vals);
    var r := m.(s := m.s.(trace := m.s.trace + [Call(e.f, vals)]));
    LambdaYields(w, l, c, m, w.call(Call(e.f, vals), m.s.trace), r);
  }

  lemma YieldsOnce(w: World, x: Cpp, c: CState, v: int, d: CState, u: int, z: CState)
    requires Yields(w, x, c, v, d)
    ensures Yields(w, x, c, u, z) <==> u == v && z == d
  {
    assert Runs(w, x, c, v, d);
  }

  /** C# reads the target of a compound assignment before the right side runs, C++ after: they
      agree exactly when both readings combine to the same. */
  lemma CompoundExactly(w: World, op: nat, x: nat, a: Expr, c: CState)
    requires Stable(a)
    ensures var r := Eval(w, a, c.s);
      Agrees(w, Compound(op, x, a), c) <==> w.binary(op, Get(c.s.locals, x), r.v) == w.binary(op, Get(r.s.locals, x), r.v)
  {
    hide Runs, Yields;
    Preserves(w, a, c);
    var e, r, m := Compound(op, x, a), Eval(w, a, c.s), Next(w, a, c);
    CompoundYields(w, op, x, Translate(a), c, r.v, m);
    var v := w.binary(op, Get(r.s.locals, x), r.v);
    YieldsOnce(w, Translate(e), c, v, m.(s := Set(m.s, x, v)), Eval(w, e, c.s).v, Next(w, e, c));
  }

  /** Different targets give different results, as for addition or exclusive or. */
  ghost predicate TellsApart(w: World, op: nat) {
    forall u, v, r :: w.binary(op, u, r) == w.binary(op, v, r) ==> u == v
  }

  /** Compound assignment keeps its meaning when the right side leaves the target's value
      unchanged, and for an operator that tells targets apart only then. */
  lemma CompoundUnchanged(w: World, op: nat, x: nat, a: Expr, c: CState)
    requires Stable(a)
    ensures var same := Get(Eval(w, a, c.s).s.locals, x) == Get(c.s.locals, x);
      && (same ==> Agrees(w, Compound(op, x, a), c))
      && (TellsApart(w, op) ==> (Agrees(w, Compound(op, x, a), c) <==> same))
  {
    hide Agrees;
    CompoundExactly(w, op, x, a, c);
  }

  /** x += x++, with x at 5: C# gives 10, C++ gives 11. */
  lemma CompoundDiffers(w: World)
    requires w.binary(0, 5, 5) == 10 && w.binary(0, 6, 5) == 11
    ensures !Agrees(w, Compound(0, 0, Postfix(0, 1)), CState(State(map[0 := 5], []), map[]))
  {
    hide Agrees;
    CompoundExactly(w, 0, 0, Postfix(0, 1), CState(State(map[0 := 5], []), map[]));
  }
}
