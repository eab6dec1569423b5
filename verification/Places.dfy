/**
 The places of a syntax tree: what stands directly inside each kind of node, field by field, and
 the paths that lead from the file to an expression. The listing of ids and the wiping of ids
 are tied to it.
 */
module Places {
  import opened Wrappers
  import opened Ast

  /** Whatever can hold expressions. */
  datatype Node = OfExpr(e: Expr) | OfStmt(s: Stmt) | OfDecl(d: Decl) | OfFile(ds: seq<Decl>)

  // ---- What is inside what ----

  /** The nodes directly inside a node: one for each field that holds an expression, a statement or a declaration. */
  function Children(n: Node): seq<Node> {
    match n
    case OfExpr(e) => InExpr(e.node)
    case OfStmt(s) => InStmt(s.node)
    case OfDecl(d) => InDecl(d.node)
    case OfFile(ds) => Decls(ds)
  }

  function InExpr(k: ExprKind): seq<Node> {
    match k
    case Literal(_) => []
    case ArrayLiteral(es) => Exprs(es)
    case MapLiteral(entries) => Entries(entries)
    case Ident(_) => []
    case Binary(_, lhs, rhs) => [OfExpr(lhs), OfExpr(rhs)]
    case Unary(_, operand) => [OfExpr(operand)]
    case Call(callee, args) => [OfExpr(callee)] + Exprs(args)
    case MethodCall(obj, _, args) => [OfExpr(obj)] + Exprs(args)
    case Index(obj, index) => [OfExpr(obj), OfExpr(index)]
    case FieldAccess(obj, _) => [OfExpr(obj)]
    case This => []
    case SuperCall(_, args) => Exprs(args)
    case New(_, _, args) => Exprs(args)
    case StructLiteral(_, fields) => Inits(fields)
    case Block(stmts) => Stmts(stmts)
    case If(cond, onTrue, onFalse) => [OfExpr(cond), OfExpr(onTrue)] + OptExpr(onFalse)
    case While(cond, body) => [OfExpr(cond), OfExpr(body)]
    case For(_, iter, body) => [OfExpr(iter), OfExpr(body)]
    case Loop(body) => [OfExpr(body)]
    case Match(expr, cases) => [OfExpr(expr)] + Cases(cases)
    case Return(result) => OptExpr(result)
    case Break => []
    case Continue => []
    case Throw(expr) => [OfExpr(expr)]
    case Try(body, catches, last) => [OfExpr(body)] + (Catches(catches) + OptExpr(last))
    case Assign(target, source) => [OfExpr(target), OfExpr(source)]
    case CompoundAssign(_, target, source) => [OfExpr(target), OfExpr(source)]
    case Lambda(_, _, body) => [OfExpr(body)]
    case Spawn(expr) => [OfExpr(expr)]
    case Await(expr) => [OfExpr(expr)]
    case Channel => []
    case Send(target, source) => [OfExpr(target), OfExpr(source)]
    case Recv(expr) => [OfExpr(expr)]
    case Cast(expr, _) => [OfExpr(expr)]
    case Is(expr, _) => [OfExpr(expr)]
    case Range(lo, hi, _) => [OfExpr(lo), OfExpr(hi)]
    case Tuple(es) => Exprs(es)
    case TupleIndex(tuple, _) => [OfExpr(tuple)]
    case EnumValue(_, _, _, args) => Exprs(args)
  }

  function InStmt(k: StmtKind): seq<Node> {
    match k
    case Expr(expr) => [OfExpr(expr)]
    case Let(_, _, value) => OptExpr(value)
    case Var(_, _, value, _) => OptExpr(value)
    case Assignment(target, source) => [OfExpr(target), OfExpr(source)]
    case If(cond, onTrue, onFalse) => [OfExpr(cond), OfStmt(onTrue)] + OptStmt(onFalse)
    case While(cond, body) => [OfExpr(cond), OfStmt(body)]
    case For(_, iter, body) => [OfExpr(iter), OfStmt(body)]
    case ForC(init, test, update, body) => OptStmt(init) + (OptExpr(test) + (OptExpr(update) + [OfStmt(body)]))
    case Loop(body) => [OfStmt(body)]
    case Return(value) => OptExpr(value)
    case Break => []
    case Continue => []
    case Throw(expr) => [OfExpr(expr)]
    case Try(body, catches, last) => [OfStmt(body)] + (Catches(catches) + OptStmt(last))
    case Defer(body) => [OfStmt(body)]
    case Block(stmts) => Stmts(stmts)
    case Select(arms, otherwise) => Arms(arms) + OptStmt(otherwise)
    case Empty => []
  }

  function InDecl(k: DeclKind): seq<Node> {
    match k
    case Function(decl) => [OfStmt(decl.body)]
    case Class(_, _, _, methods) => Methods(methods)
    case Interface(_, functions) => Functions(functions)
    case Enum(_, _) => []
    case Trait(_, functions) => Functions(functions)
    case Import(_) => []
    case Module(_) => []
    case Namespace(_, decls) => Decls(decls)
    case Immutable(_, _) => []
  }

  function OptExpr(e: Option<Expr>): seq<Node> { if e.None? then [] else [OfExpr(e.value)] }

  function OptStmt(s: Option<Stmt>): seq<Node> { if s.None? then [] else [OfStmt(s.value)] }

  function Exprs(xs: seq<Expr>): (r: seq<Node>)
    ensures |r| == |xs|
  {
    seq(|xs|, i requires 0 <= i < |xs| => OfExpr(xs[i]))
  }

  function Stmts(xs: seq<Stmt>): (r: seq<Node>)
    ensures |r| == |xs|
  {
    seq(|xs|, i requires 0 <= i < |xs| => OfStmt(xs[i]))
  }

  function Decls(xs: seq<Decl>): (r: seq<Node>)
    ensures |r| == |xs|
  {
    seq(|xs|, i requires 0 <= i < |xs| => OfDecl(xs[i]))
  }

  function Entries(xs: seq<MapEntry>): (r: seq<Node>)
    ensures |r| == 2 * |xs|
  {
    seq(2 * |xs|, i requires 0 <= i < 2 * |xs| => if i % 2 == 0 then OfExpr(xs[i / 2].key) else OfExpr(xs[i / 2].value))
  }

  function Inits(xs: seq<FieldInit>): (r: seq<Node>)
    ensures |r| == |xs|
  {
    seq(|xs|, i requires 0 <= i < |xs| => OfExpr(xs[i].value))
  }

  function Cases(xs: seq<MatchCase>): seq<Node> {
    if xs == [] then []
    else Cases(xs[..|xs| - 1]) + (OptExpr(xs[|xs| - 1].guard) + [OfExpr(xs[|xs| - 1].body)])
  }

  function Catches(xs: seq<CatchClause>): (r: seq<Node>)
    ensures |r| == |xs|
  {
    seq(|xs|, i requires 0 <= i < |xs| => OfStmt(xs[i].body))
  }

  function Arms(xs: seq<SelectArm>): (r: seq<Node>)
    ensures |r| == 2 * |xs|
  {
    seq(2 * |xs|, i requires 0 <= i < 2 * |xs| => if i % 2 == 0 then OfExpr(xs[i / 2].channel) else OfStmt(xs[i / 2].body))
  }

  function Functions(xs: seq<Function>): (r: seq<Node>)
    ensures |r| == |xs|
  {
    seq(|xs|, i requires 0 <= i < |xs| => OfStmt(xs[i].body))
  }

  function Methods(xs: seq<Method>): (r: seq<Node>)
    ensures |r| == |xs|
  {
    seq(|xs|, i requires 0 <= i < |xs| => OfStmt(xs[i].body))
  }

  /** The node at the end of a path of positions among the children. */
  function Under(n: Node, path: seq<nat>): Option<Node>
    decreases |path|
  {
    if path == [] then Some(n)
    else if path[0] < |Children(n)| then Under(Children(n)[path[0]], path[1..])
    else None
  }

  /** A path that leads to an expression. */
  predicate IsPlace(n: Node, path: seq<nat>) { Under(n, path).Some? && Under(n, path).value.OfExpr? }

  /** The id of the expression there. */
  function IdAt(n: Node, path: seq<nat>): nat
    requires IsPlace(n, path)
  {
    Under(n, path).value.e.id
  }

  // ---- The listing of ids ----

  /** The ids listed for a node. */
  function Listed(n: Node): seq<nat> {
    match n
    case OfExpr(e) => Ids(e)
    case OfStmt(s) => StmtIds(s)
    case OfDecl(d) => DeclIds(d)
    case OfFile(ds) => FileIds(ds)
  }

  function Own(n: Node): seq<nat> { if n.OfExpr? then [n.e.id] else [] }

  function Concat(f: Node -> seq<nat>, ns: seq<Node>): seq<nat> {
    if ns == [] then [] else Concat(f, ns[..|ns| - 1]) + f(ns[|ns| - 1])
  }

  function ListedAll(ns: seq<Node>): seq<nat> { Concat(Listed, ns) }

  lemma {:induction false} ConcatAppend(f: Node -> seq<nat>, a: seq<Node>, b: seq<Node>)
    ensures Concat(f, a + b) == Concat(f, a) + Concat(f, b)
    decreases |b|
  {
    if b == [] {
      assert a + b == a;
    } else {
      var n := |b| - 1;
      assert (a + b)[..|a + b| - 1] == a + b[..n];
      ConcatAppend(f, a, b[..n]);
    }
  }

  lemma {:induction false} ConcatOne(f: Node -> seq<nat>, n: Node)
    ensures Concat(f, [n]) == f(n)
  {
    assert [n][..0] == [];
    assert Concat(f, []) + f(n) == f(n);
  }

  lemma {:induction false} ListedAppend(a: seq<Node>, b: seq<Node>)
    ensures ListedAll(a + b) == ListedAll(a) + ListedAll(b)
  {
    ConcatAppend(Listed, a, b);
  }

  lemma {:induction false} ListedOne(n: Node)
    ensures ListedAll([n]) == Listed(n)
  {
    ConcatOne(Listed, n);
  }

  lemma {:induction false} ListedTwo(m: Node, n: Node)
    ensures ListedAll([m, n]) == Listed(m) + Listed(n)
  {
    assert [m, n] == [m] + [n];
    ListedAppend([m], [n]);
    ListedOne(m);
    ListedOne(n);
  }

  lemma {:induction false} OptListed(e: Option<Expr>)
    ensures ListedAll(OptExpr(e)) == OptIds(e)
  {
    if e.Some? { ListedOne(OfExpr(e.value)); }
  }

  lemma {:induction false} OptStmtListed(s: Option<Stmt>)
    ensures ListedAll(OptStmt(s)) == OptStmtIds(s)
  {
    if s.Some? { ListedOne(OfStmt(s.value)); }
  }

  lemma {:induction false} ExprsListed(xs: seq<Expr>)
    ensures ListedAll(Exprs(xs)) == ListIds(xs)
    decreases |xs|
  {
    if xs != [] {
      var n := |xs| - 1;
      var x := xs[n];
      ExprsListed(xs[..n]);
      assert Exprs(xs) == Exprs(xs[..n]) + [OfExpr(x)];
      ListedAppend(Exprs(xs[..n]), [OfExpr(x)]);
      ListedOne(OfExpr(x));
    }
  }

  lemma {:induction false} StmtsListed(xs: seq<Stmt>)
    ensures ListedAll(Stmts(xs)) == BlockIds(xs)
    decreases |xs|
  {
    if xs != [] {
      var n := |xs| - 1;
      var x := xs[n];
      StmtsListed(xs[..n]);
      assert Stmts(xs) == Stmts(xs[..n]) + [OfStmt(x)];
      ListedAppend(Stmts(xs[..n]), [OfStmt(x)]);
      ListedOne(OfStmt(x));
    }
  }

  lemma {:induction false} DeclsListed(xs: seq<Decl>)
    ensures ListedAll(Decls(xs)) == FileIds(xs)
    decreases |xs|
  {
    if xs != [] {
      var n := |xs| - 1;
      var x := xs[n];
      DeclsListed(xs[..n]);
      assert Decls(xs) == Decls(xs[..n]) + [OfDecl(x)];
      ListedAppend(Decls(xs[..n]), [OfDecl(x)]);
      ListedOne(OfDecl(x));
    }
  }

  lemma {:induction false} EntriesListed(xs: seq<MapEntry>)
    ensures ListedAll(Entries(xs)) == EntriesIds(xs)
    decreases |xs|
  {
    if xs != [] {
      var n := |xs| - 1;
      var x := xs[n];
      EntriesListed(xs[..n]);
      assert Entries(xs) == Entries(xs[..n]) + [OfExpr(x.key), OfExpr(x.value)];
      ListedAppend(Entries(xs[..n]), [OfExpr(x.key), OfExpr(x.value)]);
      ListedTwo(OfExpr(x.key), OfExpr(x.value));
    }
  }

  lemma {:induction false} InitsListed(xs: seq<FieldInit>)
    ensures ListedAll(Inits(xs)) == InitsIds(xs)
    decreases |xs|
  {
    if xs != [] {
      var n := |xs| - 1;
      var x := xs[n];
      InitsListed(xs[..n]);
      assert Inits(xs) == Inits(xs[..n]) + [OfExpr(x.value)];
      ListedAppend(Inits(xs[..n]), [OfExpr(x.value)]);
      ListedOne(OfExpr(x.value));
    }
  }

  lemma {:induction false} CasesListed(xs: seq<MatchCase>)
    ensures ListedAll(Cases(xs)) == CasesIds(xs)
    decreases |xs|
  {
    if xs != [] {
      var n := |xs| - 1;
      var x := xs[n];
      CasesListed(xs[..n]);
      ListedAppend(Cases(xs[..n]), OptExpr(x.guard) + [OfExpr(x.body)]);
      ListedAppend(OptExpr(x.guard), [OfExpr(x.body)]);
      OptListed(x.guard);
      ListedOne(OfExpr(x.body));
    }
  }

  lemma {:induction false} CatchesListed(xs: seq<CatchClause>)
    ensures ListedAll(Catches(xs)) == CatchesIds(xs)
    decreases |xs|
  {
    if xs != [] {
      var n := |xs| - 1;
      var x := xs[n];
      CatchesListed(xs[..n]);
      assert Catches(xs) == Catches(xs[..n]) + [OfStmt(x.body)];
      ListedAppend(Catches(xs[..n]), [OfStmt(x.body)]);
      ListedOne(OfStmt(x.body));
    }
  }

  lemma {:induction false} ArmsListed(xs: seq<SelectArm>)
    ensures ListedAll(Arms(xs)) == ArmsIds(xs)
    decreases |xs|
  {
    if xs != [] {
      var n := |xs| - 1;
      var x := xs[n];
      ArmsListed(xs[..n]);
      assert Arms(xs) == Arms(xs[..n]) + [OfExpr(x.channel), OfStmt(x.body)];
      ListedAppend(Arms(xs[..n]), [OfExpr(x.channel), OfStmt(x.body)]);
      ListedTwo(OfExpr(x.channel), OfStmt(x.body));
    }
  }

  lemma {:induction false} FunctionsListed(xs: seq<Function>)
    ensures ListedAll(Functions(xs)) == FunctionsIds(xs)
    decreases |xs|
  {
    if xs != [] {
      var n := |xs| - 1;
      var x := xs[n];
      FunctionsListed(xs[..n]);
      assert Functions(xs) == Functions(xs[..n]) + [OfStmt(x.body)];
      ListedAppend(Functions(xs[..n]), [OfStmt(x.body)]);
      ListedOne(OfStmt(x.body));
    }
  }

  lemma {:induction false} MethodsListed(xs: seq<Method>)
    ensures ListedAll(Methods(xs)) == MethodsIds(xs)
    decreases |xs|
  {
    if xs != [] {
      var n := |xs| - 1;
      var x := xs[n];
      MethodsListed(xs[..n]);
      assert Methods(xs) == Methods(xs[..n]) + [OfStmt(x.body)];
      ListedAppend(Methods(xs[..n]), [OfStmt(x.body)]);
      ListedOne(OfStmt(x.body));
    }
  }

  lemma {:induction false} ListsListed(k: ExprKind)
    requires k.ArrayLiteral? || k.Tuple? || k.MapLiteral? || k.StructLiteral?
    ensures ListedAll(InExpr(k)) == KindIds(k)
  {
    match k
    case ArrayLiteral(es) => ExprsListed(es);
    case Tuple(es) => ExprsListed(es);
    case MapLiteral(entries) => EntriesListed(entries);
    case StructLiteral(_, fields) => InitsListed(fields);
  }

  lemma {:induction false} ArgumentsListed(k: ExprKind)
    requires k.SuperCall? || k.New? || k.EnumValue?
    ensures ListedAll(InExpr(k)) == KindIds(k)
  {
    match k
    case SuperCall(_, args) => ExprsListed(args);
    case New(_, _, args) => ExprsListed(args);
    case EnumValue(_, _, _, args) => ExprsListed(args);
  }

  lemma {:induction false} ContentsListed(k: ExprKind)
    requires k.Block? || k.Return?
    ensures ListedAll(InExpr(k)) == KindIds(k)
  {
    match k
    case Block(stmts) => StmtsListed(stmts);
    case Return(result) => OptListed(result);
  }

  lemma {:induction false} CallsListed(k: ExprKind)
    requires k.Call? || k.MethodCall?
    ensures ListedAll(InExpr(k)) == KindIds(k)
  {
    match k
    case Call(callee, args) => HeadListed(callee, Exprs(args)); ExprsListed(args);
    case MethodCall(obj, _, args) => HeadListed(obj, Exprs(args)); ExprsListed(args);
  }

  lemma {:induction false} MatchListed(k: ExprKind)
    requires k.Match?
    ensures ListedAll(InExpr(k)) == KindIds(k)
  {
    match k
    case Match(expr, cases) => HeadListed(expr, Cases(cases)); CasesListed(cases);
  }

  lemma {:induction false} PairsListed(k: ExprKind)
    requires k.Binary? || k.Index? || k.Range? || k.Send?
    ensures ListedAll(InExpr(k)) == KindIds(k)
  {
    match k
    case Binary(_, lhs, rhs) => ListedTwo(OfExpr(lhs), OfExpr(rhs));
    case Index(obj, index) => ListedTwo(OfExpr(obj), OfExpr(index));
    case Range(lo, hi, _) => ListedTwo(OfExpr(lo), OfExpr(hi));
    case Send(target, source) => ListedTwo(OfExpr(target), OfExpr(source));
  }

  lemma {:induction false} HeadsListed(k: ExprKind)
    requires k.While? || k.For? || k.Assign? || k.CompoundAssign?
    ensures ListedAll(InExpr(k)) == KindIds(k)
  {
    match k
    case While(cond, body) => ListedTwo(OfExpr(cond), OfExpr(body));
    case For(_, iter, body) => ListedTwo(OfExpr(iter), OfExpr(body));
    case Assign(target, source) => ListedTwo(OfExpr(target), OfExpr(source));
    case CompoundAssign(_, target, source) => ListedTwo(OfExpr(target), OfExpr(source));
  }

  lemma {:induction false} OperandsListed(k: ExprKind)
    requires k.Unary? || k.FieldAccess? || k.TupleIndex? || k.Cast? || k.Is?
    ensures ListedAll(InExpr(k)) == KindIds(k)
  {
    match k
    case Unary(_, operand) => ListedOne(OfExpr(operand));
    case FieldAccess(obj, _) => ListedOne(OfExpr(obj));
    case TupleIndex(tuple, _) => ListedOne(OfExpr(tuple));
    case Cast(expr, _) => ListedOne(OfExpr(expr));
    case Is(expr, _) => ListedOne(OfExpr(expr));
  }

  lemma {:induction false} BodiesListed(k: ExprKind)
    requires k.Loop? || k.Throw? || k.Lambda?
    ensures ListedAll(InExpr(k)) == KindIds(k)
  {
    match k
    case Loop(body) => ListedOne(OfExpr(body));
    case Throw(expr) => ListedOne(OfExpr(expr));
    case Lambda(_, _, body) => ListedOne(OfExpr(body));
  }

  lemma {:induction false} TasksListed(k: ExprKind)
    requires k.Spawn? || k.Await? || k.Recv?
    ensures ListedAll(InExpr(k)) == KindIds(k)
  {
    match k
    case Spawn(expr) => ListedOne(OfExpr(expr));
    case Await(expr) => ListedOne(OfExpr(expr));
    case Recv(expr) => ListedOne(OfExpr(expr));
  }

  lemma {:induction false} IfListed(k: ExprKind)
    requires k.If?
    ensures ListedAll(InExpr(k)) == KindIds(k)
  {
    match k
    case If(cond, onTrue, onFalse) =>
      ListedAppend([OfExpr(cond), OfExpr(onTrue)], OptExpr(onFalse));
      ListedTwo(OfExpr(cond), OfExpr(onTrue));
      OptListed(onFalse);
  }

  lemma {:induction false} TryListed(k: ExprKind)
    requires k.Try?
    ensures ListedAll(InExpr(k)) == KindIds(k)
  {
    match k
    case Try(body, catches, last) =>
      HeadListed(body, Catches(catches) + OptExpr(last));
      ListedAppend(Catches(catches), OptExpr(last));
      CatchesListed(catches);
      OptListed(last);
  }

  /** Nothing inside an expression is forgotten in its listing, and nothing else is listed. */
  lemma {:induction false} InExprListed(k: ExprKind)
    ensures ListedAll(InExpr(k)) == KindIds(k)
  {
    match k
    case ArrayLiteral(_) => ListsListed(k);
    case MapLiteral(_) => ListsListed(k);
    case Binary(_, _, _) => PairsListed(k);
    case Unary(_, _) => OperandsListed(k);
    case Call(_, _) => CallsListed(k);
    case MethodCall(_, _, _) => CallsListed(k);
    case Index(_, _) => PairsListed(k);
    case FieldAccess(_, _) => OperandsListed(k);
    case SuperCall(_, _) => ArgumentsListed(k);
    case New(_, _, _) => ArgumentsListed(k);
    case StructLiteral(_, _) => ListsListed(k);
    case Block(_) => ContentsListed(k);
    case If(_, _, _) => IfListed(k);
    case While(_, _) => HeadsListed(k);
    case For(_, _, _) => HeadsListed(k);
    case Loop(_) => BodiesListed(k);
    case Match(_, _) => MatchListed(k);
    case Return(_) => ContentsListed(k);
    case Throw(_) => BodiesListed(k);
    case Try(_, _, _) => TryListed(k);
    case Assign(_, _) => HeadsListed(k);
    case CompoundAssign(_, _, _) => HeadsListed(k);
    case Lambda(_, _, _) => BodiesListed(k);
    case Spawn(_) => TasksListed(k);
    case Await(_) => TasksListed(k);
    case Send(_, _) => PairsListed(k);
    case Recv(_) => TasksListed(k);
    case Cast(_, _) => OperandsListed(k);
    case Is(_, _) => OperandsListed(k);
    case Range(_, _, _) => PairsListed(k);
    case Tuple(_) => ListsListed(k);
    case TupleIndex(_, _) => OperandsListed(k);
    case EnumValue(_, _, _, _) => ArgumentsListed(k);
    case _ =>
  }

  lemma {:induction false} HeadListed(e: Expr, ns: seq<Node>)
    ensures ListedAll([OfExpr(e)] + ns) == Ids(e) + ListedAll(ns)
  {
    ListedAppend([OfExpr(e)], ns);
    ListedOne(OfExpr(e));
  }

  lemma {:induction false} HeadStmtListed(s: Stmt, ns: seq<Node>)
    ensures ListedAll([OfStmt(s)] + ns) == StmtIds(s) + ListedAll(ns)
  {
    ListedAppend([OfStmt(s)], ns);
    ListedOne(OfStmt(s));
  }

  lemma {:induction false} SimpleStmtsListed(k: StmtKind)
    requires k.Expr? || k.Let? || k.Var? || k.Assignment? || k.Return? || k.Throw?
    ensures ListedAll(InStmt(k)) == StmtKindIds(k)
  {
    match k
    case Expr(expr) => ListedOne(OfExpr(expr));
    case Let(_, _, value) => OptListed(value);
    case Var(_, _, value, _) => OptListed(value);
    case Assignment(target, source) => ListedTwo(OfExpr(target), OfExpr(source));
    case Return(value) => OptListed(value);
    case Throw(expr) => ListedOne(OfExpr(expr));
  }

  lemma {:induction false} HeadedStmtsListed(k: StmtKind)
    requires k.While? || k.For?
    ensures ListedAll(InStmt(k)) == StmtKindIds(k)
  {
    match k
    case While(cond, body) => ListedTwo(OfExpr(cond), OfStmt(body));
    case For(_, iter, body) => ListedTwo(OfExpr(iter), OfStmt(body));
  }

  lemma {:induction false} SelectListed(k: StmtKind)
    requires k.Select?
    ensures ListedAll(InStmt(k)) == StmtKindIds(k)
  {
    match k
    case Select(arms, otherwise) =>
      ListedAppend(Arms(arms), OptStmt(otherwise));
      ArmsListed(arms);
      OptStmtListed(otherwise);
  }

  lemma {:induction false} NestedStmtsListed(k: StmtKind)
    requires k.Loop? || k.Defer? || k.Block?
    ensures ListedAll(InStmt(k)) == StmtKindIds(k)
  {
    match k
    case Loop(body) => ListedOne(OfStmt(body));
    case Defer(body) => ListedOne(OfStmt(body));
    case Block(stmts) => StmtsListed(stmts);
  }

  lemma {:induction false} IfStmtListed(k: StmtKind)
    requires k.If?
    ensures ListedAll(InStmt(k)) == StmtKindIds(k)
  {
    match k
    case If(cond, onTrue, onFalse) =>
      ListedAppend([OfExpr(cond), OfStmt(onTrue)], OptStmt(onFalse));
      ListedTwo(OfExpr(cond), OfStmt(onTrue));
      OptStmtListed(onFalse);
  }

  lemma {:induction false} ForCListed(k: StmtKind)
    requires k.ForC?
    ensures ListedAll(InStmt(k)) == StmtKindIds(k)
  {
    match k
    case ForC(init, test, update, body) =>
      ListedAppend(OptStmt(init), OptExpr(test) + (OptExpr(update) + [OfStmt(body)]));
      ListedAppend(OptExpr(test), OptExpr(update) + [OfStmt(body)]);
      ListedAppend(OptExpr(update), [OfStmt(body)]);
      OptStmtListed(init);
      OptListed(test);
      OptListed(update);
      ListedOne(OfStmt(body));
  }

  lemma {:induction false} TryStmtListed(k: StmtKind)
    requires k.Try?
    ensures ListedAll(InStmt(k)) == StmtKindIds(k)
  {
    match k
    case Try(body, catches, last) =>
      HeadStmtListed(body, Catches(catches) + OptStmt(last));
      ListedAppend(Catches(catches), OptStmt(last));
      CatchesListed(catches);
      OptStmtListed(last);
  }

  lemma {:induction false} InStmtListed(k: StmtKind)
    ensures ListedAll(InStmt(k)) == StmtKindIds(k)
  {
    match k
    case Expr(_) => SimpleStmtsListed(k);
    case Let(_, _, _) => SimpleStmtsListed(k);
    case Var(_, _, _, _) => SimpleStmtsListed(k);
    case Assignment(_, _) => SimpleStmtsListed(k);
    case If(_, _, _) => IfStmtListed(k);
    case While(_, _) => HeadedStmtsListed(k);
    case For(_, _, _) => HeadedStmtsListed(k);
    case ForC(_, _, _, _) => ForCListed(k);
    case Loop(_) => NestedStmtsListed(k);
    case Return(_) => SimpleStmtsListed(k);
    case Throw(_) => SimpleStmtsListed(k);
    case Try(_, _, _) => TryStmtListed(k);
    case Defer(_) => NestedStmtsListed(k);
    case Block(_) => NestedStmtsListed(k);
    case Select(_, _) => SelectListed(k);
    case _ =>
  }

  lemma {:induction false} InDeclListed(k: DeclKind)
    ensures ListedAll(InDecl(k)) == DeclKindIds(k)
  {
    match k
    case Function(decl) => ListedOne(OfStmt(decl.body));
    case Class(_, _, _, methods) => MethodsListed(methods);
    case Interface(_, functions) => FunctionsListed(functions);
    case Trait(_, functions) => FunctionsListed(functions);
    case Namespace(_, decls) => DeclsListed(decls);
    case _ =>
  }

  /** A node is listed as its own id, if it is an expression, and then what is inside it, in order. */
  lemma {:induction false} ListedUnfold(n: Node)
    ensures Listed(n) == Own(n) + ListedAll(Children(n))
  {
    match n
    case OfExpr(e) => InExprListed(e.node);
    case OfStmt(s) => InStmtListed(s.node);
    case OfDecl(d) => InDeclListed(d.node);
    case OfFile(ds) => DeclsListed(ds);
  }

  // ---- Places and positions in the listing ----

  /** Where in the listing the ids of the node at a path begin. */
  function Offset(f: Node -> seq<nat>, n: Node, path: seq<nat>): nat
    requires Under(n, path).Some?
    decreases |path|
  {
    if path == [] then 0
    else |Own(n)| + |Concat(f, Children(n)[..path[0]])| + Offset(f, Children(n)[path[0]], path[1..])
  }

  /** A listing of each node before what is inside it. */
  ghost predicate Preorder(f: Node -> seq<nat>) { forall n :: Unfolds(f, n) }

  ghost predicate Unfolds(f: Node -> seq<nat>, n: Node) { f(n) == Own(n) + Concat(f, Children(n)) }

  lemma {:induction false} ListedPreorder()
    ensures Preorder(Listed)
  {
    forall n ensures Unfolds(Listed, n) {
      ListedUnfold(n);
    }
  }

  /** `b` stands in `a` at position `o`. */
  ghost predicate Sits(a: seq<nat>, o: nat, b: seq<nat>) {
    o + |b| <= |a| && forall k :: 0 <= k < |b| ==> a[o + k] == b[k]
  }

  lemma {:induction false} SitsIn(a: seq<nat>, o: nat, b: seq<nat>, p: nat, c: seq<nat>)
    requires Sits(a, o, b) && Sits(b, p, c)
    ensures Sits(a, o + p, c)
  {
    forall k | 0 <= k < |c| ensures a[o + p + k] == c[k] {
      assert b[p + k] == c[k] && a[o + (p + k)] == b[p + k];
    }
  }

  lemma {:induction false} SitsBetween(x: seq<nat>, y: seq<nat>, z: seq<nat>)
    ensures Sits(x + (y + z), |x|, y)
  {
  }

  lemma {:induction false} ChildListed(f: Node -> seq<nat>, ns: seq<Node>, i: nat)
    requires i < |ns|
    ensures Sits(Concat(f, ns), |Concat(f, ns[..i])|, f(ns[i]))
    ensures |Concat(f, ns[..i])| + |f(ns[i])| == |Concat(f, ns[..i + 1])|
  {
    var x, y, z := ns[..i], [ns[i]], ns[i + 1..];
    assert ns == x + (y + z) && ns[..i + 1] == x + y;
    ConcatAppend(f, x, y + z);
    ConcatAppend(f, y, z);
    ConcatAppend(f, x, y);
    ConcatOne(f, ns[i]);
    SitsBetween(Concat(f, x), Concat(f, y), Concat(f, z));
  }

  /** The first step of a path: the child it leads to, and where that is listed. */
  lemma {:induction false} FirstStep(f: Node -> seq<nat>, n: Node, path: seq<nat>) returns (child: Node, a: nat)
    requires Preorder(f) && path != [] && Under(n, path).Some?
    ensures Under(n, path) == Under(child, path[1..]) && Offset(f, n, path) == a + Offset(f, child, path[1..])
    ensures Sits(f(n), a, f(child))
  {
    child := Children(n)[path[0]];
    a := |Own(n)| + |Concat(f, Children(n)[..path[0]])|;
    ChildSits(f, n, path[0]);
  }

  lemma {:induction false} ChildSits(f: Node -> seq<nat>, n: Node, i: nat)
    requires Preorder(f) && i < |Children(n)|
    ensures Sits(f(n), |Own(n)| + |Concat(f, Children(n)[..i])|, f(Children(n)[i]))
  {
    ChildListed(f, Children(n), i);
    var below := Concat(f, Children(n));
    assert Unfolds(f, n);
    assert Sits(Own(n) + below, |Own(n)|, below);
    SitsIn(f(n), |Own(n)|, below, |Concat(f, Children(n)[..i])|, f(Children(n)[i]));
  }

  /** The expression at a place has the id listed at its offset. */
  lemma {:induction false} PlaceListed(f: Node -> seq<nat>, n: Node, path: seq<nat>)
    requires Preorder(f) && IsPlace(n, path)
    ensures Offset(f, n, path) < |f(n)| && f(n)[Offset(f, n, path)] == IdAt(n, path)
    decreases |path|
  {
    if path == [] {
      assert Unfolds(f, n);
    } else {
      var child, a := FirstStep(f, n, path);
      PlaceListed(f, child, path[1..]);
      assert f(n)[a + Offset(f, child, path[1..])] == f(child)[Offset(f, child, path[1..])];
    }
  }

  lemma {:induction false} ConcatPrefix(f: Node -> seq<nat>, ns: seq<Node>, i: nat, j: nat)
    requires i <= j <= |ns|
    ensures |Concat(f, ns[..i])| <= |Concat(f, ns[..j])|
  {
    assert ns[..j] == ns[..i] + ns[i..j];
    ConcatAppend(f, ns[..i], ns[i..j]);
  }

  /** A path that begins with an earlier child is at an earlier offset. */
  lemma {:induction false} EarlierChild(f: Node -> seq<nat>, n: Node, p: seq<nat>, q: seq<nat>)
    requires Preorder(f) && IsPlace(n, p) && IsPlace(n, q) && p != [] && q != [] && p[0] < q[0]
    ensures Offset(f, n, p) < Offset(f, n, q)
  {
    var ns := Children(n);
    PlaceListed(f, ns[p[0]], p[1..]);
    ChildListed(f, ns, p[0]);
    ConcatPrefix(f, ns, p[0] + 1, q[0]);
  }

  /** Different places are at different offsets. */
  lemma {:induction false} PlacesApart(f: Node -> seq<nat>, n: Node, p: seq<nat>, q: seq<nat>)
    requires Preorder(f) && IsPlace(n, p) && IsPlace(n, q) && p != q
    ensures Offset(f, n, p) != Offset(f, n, q)
    decreases |p|
  {
    if p == [] || q == [] {
      assert |Own(n)| == 1;
    } else if p[0] < q[0] {
      EarlierChild(f, n, p, q);
    } else if q[0] < p[0] {
      EarlierChild(f, n, q, p);
    } else {
      assert p == [p[0]] + p[1..] && q == [q[0]] + q[1..];
      PlacesApart(f, Children(n)[p[0]], p[1..], q[1..]);
    }
  }

  // ---- Trees end ----

  /** What is inside is smaller. */
  ghost predicate ExprBelow(k: ExprKind, c: Node) {
    match c
    case OfExpr(x) => (k decreases to x)
    case OfStmt(x) => (k decreases to x)
    case _ => false
  }

  ghost predicate StmtBelow(k: StmtKind, c: Node) {
    match c
    case OfExpr(x) => (k decreases to x)
    case OfStmt(x) => (k decreases to x)
    case _ => false
  }

  ghost predicate DeclBelow(k: DeclKind, c: Node) {
    match c
    case OfStmt(x) => (k decreases to x)
    case OfDecl(x) => (k decreases to x)
    case _ => false
  }

  lemma {:induction false} ExprsBelow(xs: seq<Expr>, i: nat)
    requires i < |Exprs(xs)|
    ensures Exprs(xs)[i].OfExpr? && (xs decreases to Exprs(xs)[i].e)
    decreases |xs|
  {
    var n := |xs| - 1;
    assert xs[n] in xs;
    if i < |Exprs(xs[..n])| {
      ExprsBelow(xs[..n], i);
    }
  }

  lemma {:induction false} StmtsBelow(xs: seq<Stmt>, i: nat)
    requires i < |Stmts(xs)|
    ensures Stmts(xs)[i].OfStmt? && (xs decreases to Stmts(xs)[i].s)
    decreases |xs|
  {
    var n := |xs| - 1;
    assert xs[n] in xs;
    if i < |Stmts(xs[..n])| {
      StmtsBelow(xs[..n], i);
    }
  }

  lemma {:induction false} DeclsBelow(xs: seq<Decl>, i: nat)
    requires i < |Decls(xs)|
    ensures Decls(xs)[i].OfDecl? && (xs decreases to Decls(xs)[i].d)
    decreases |xs|
  {
    var n := |xs| - 1;
    assert xs[n] in xs;
    if i < |Decls(xs[..n])| {
      DeclsBelow(xs[..n], i);
    }
  }

  lemma {:induction false} InitsBelow(xs: seq<FieldInit>, i: nat)
    requires i < |Inits(xs)|
    ensures Inits(xs)[i].OfExpr? && (xs decreases to Inits(xs)[i].e)
    decreases |xs|
  {
    var n := |xs| - 1;
    assert xs[n] in xs;
    if i < |Inits(xs[..n])| {
      InitsBelow(xs[..n], i);
    }
  }

  lemma {:induction false} CatchesBelow(xs: seq<CatchClause>, i: nat)
    requires i < |Catches(xs)|
    ensures Catches(xs)[i].OfStmt? && (xs decreases to Catches(xs)[i].s)
    decreases |xs|
  {
    var n := |xs| - 1;
    assert xs[n] in xs;
    if i < |Catches(xs[..n])| {
      CatchesBelow(xs[..n], i);
    }
  }

  lemma {:induction false} FunctionsBelow(xs: seq<Function>, i: nat)
    requires i < |Functions(xs)|
    ensures Functions(xs)[i].OfStmt? && (xs decreases to Functions(xs)[i].s)
  {
    assert xs[i] in xs;
  }

  lemma {:induction false} MethodsBelow(xs: seq<Method>, i: nat)
    requires i < |Methods(xs)|
    ensures Methods(xs)[i].OfStmt? && (xs decreases to Methods(xs)[i].s)
  {
    assert xs[i] in xs;
  }

  lemma {:induction false} EntriesBelow(xs: seq<MapEntry>, i: nat)
    requires i < |Entries(xs)|
    ensures Entries(xs)[i].OfExpr? && (xs decreases to Entries(xs)[i].e)
  {
    var m := xs[i / 2];
    assert m == MapEntry(m.key, m.value) && (m decreases to m.key) && (m decreases to m.value);
    assert m in xs && (xs decreases to m);
  }

  lemma {:induction false} CasesBelow(xs: seq<MatchCase>, i: nat)
    requires i < |Cases(xs)|
    ensures match Cases(xs)[i] case OfExpr(x) => (xs decreases to x) case OfStmt(x) => (xs decreases to x) case _ => false
    decreases |xs|
  {
    var n := |xs| - 1;
    assert xs[n] in xs;
    if i < |Cases(xs[..n])| {
      CasesBelow(xs[..n], i);
    }
  }

  lemma {:induction false} ArmsBelow(xs: seq<SelectArm>, i: nat)
    requires i < |Arms(xs)|
    ensures match Arms(xs)[i] case OfExpr(x) => (xs decreases to x) case OfStmt(x) => (xs decreases to x) case _ => false
  {
    var a := xs[i / 2];
    assert a == SelectArm(a.channel, a.variable, a.body) && (a decreases to a.channel) && (a decreases to a.body);
    assert a in xs && (xs decreases to a);
  }

  lemma {:induction false} ListsBelow(k: ExprKind, i: nat)
    requires k.ArrayLiteral? || k.MapLiteral? || k.SuperCall? || k.New? || k.StructLiteral? || k.Block? || k.Tuple? || k.EnumValue?
    requires i < |InExpr(k)|
    ensures ExprBelow(k, InExpr(k)[i])
  {
    match k
    case ArrayLiteral(es) => ExprsBelow(es, i);
    case MapLiteral(entries) => EntriesBelow(entries, i);
    case SuperCall(_, args) => ExprsBelow(args, i);
    case New(_, _, args) => ExprsBelow(args, i);
    case StructLiteral(_, fields) => InitsBelow(fields, i);
    case Block(stmts) => StmtsBelow(stmts, i);
    case Tuple(es) => ExprsBelow(es, i);
    case EnumValue(_, _, _, args) => ExprsBelow(args, i);
  }

  lemma {:induction false} HeadedBelow(k: ExprKind, i: nat)
    requires k.Call? || k.MethodCall? || k.Match?
    requires i < |InExpr(k)|
    ensures ExprBelow(k, InExpr(k)[i])
  {
    match k
    case Call(_, args) => if i > 0 { ExprsBelow(args, i - 1); }
    case MethodCall(_, _, args) => if i > 0 { ExprsBelow(args, i - 1); }
    case Match(_, cases) => if i > 0 { CasesBelow(cases, i - 1); }
  }

  lemma {:induction false} TryBelow(k: ExprKind, i: nat)
    requires k.Try? && i < |InExpr(k)|
    ensures ExprBelow(k, InExpr(k)[i])
  {
    if 0 < i <= |Catches(k.catches)| {
      CatchesBelow(k.catches, i - 1);
    }
  }

  lemma {:induction false} InExprBelow(k: ExprKind, i: nat)
    requires i < |InExpr(k)|
    ensures ExprBelow(k, InExpr(k)[i])
  {
    if k.ArrayLiteral? || k.MapLiteral? || k.SuperCall? || k.New? || k.StructLiteral? || k.Block? || k.Tuple? || k.EnumValue? {
      ListsBelow(k, i);
    } else if k.Call? || k.MethodCall? || k.Match? {
      HeadedBelow(k, i);
    } else if k.Try? {
      TryBelow(k, i);
    }
  }

  lemma {:induction false} TryStmtBelow(k: StmtKind, i: nat)
    requires k.Try? && i < |InStmt(k)|
    ensures StmtBelow(k, InStmt(k)[i])
  {
    if 0 < i <= |Catches(k.catches)| {
      CatchesBelow(k.catches, i - 1);
    }
  }

  lemma {:induction false} ListStmtsBelow(k: StmtKind, i: nat)
    requires (k.Block? || k.Select?) && i < |InStmt(k)|
    ensures StmtBelow(k, InStmt(k)[i])
  {
    match k
    case Block(stmts) => StmtsBelow(stmts, i);
    case Select(arms, _) => if i < |Arms(arms)| { ArmsBelow(arms, i); }
  }

  lemma {:induction false} BranchesBelow(k: StmtKind, i: nat)
    requires (k.If? || k.ForC?) && i < |InStmt(k)|
    ensures StmtBelow(k, InStmt(k)[i])
  {
  }

  lemma {:induction false} InStmtBelow(k: StmtKind, i: nat)
    requires i < |InStmt(k)|
    ensures StmtBelow(k, InStmt(k)[i])
  {
    if k.Try? {
      TryStmtBelow(k, i);
    } else if k.Block? || k.Select? {
      ListStmtsBelow(k, i);
    } else if k.If? || k.ForC? {
      BranchesBelow(k, i);
    }
  }

  lemma {:induction false} InDeclBelow(k: DeclKind, i: nat)
    requires i < |InDecl(k)|
    ensures DeclBelow(k, InDecl(k)[i])
  {
    match k
    case Class(_, _, _, methods) => MethodsBelow(methods, i);
    case Interface(_, functions) => FunctionsBelow(functions, i);
    case Trait(_, functions) => FunctionsBelow(functions, i);
    case Namespace(_, decls) => DeclsBelow(decls, i);
    case _ =>
  }

  /** No path from the node is longer than `h`. */
  ghost predicate Tall(n: Node, h: nat)
    decreases h
  {
    h > 0 && forall i :: 0 <= i < |Children(n)| ==> Tall(Children(n)[i], h - 1)
  }

  lemma {:induction false} Taller(n: Node, h: nat, h': nat)
    requires Tall(n, h) && h <= h'
    ensures Tall(n, h')
    decreases h
  {
    forall i | 0 <= i < |Children(n)| ensures Tall(Children(n)[i], h' - 1) {
      Taller(Children(n)[i], h - 1, h' - 1);
    }
  }

  /** The first `i` children end within `h`. */
  ghost predicate TallUpTo(ns: seq<Node>, i: nat, h: nat) { forall j :: 0 <= j < i && j < |ns| ==> Tall(ns[j], h) }

  lemma {:induction false} TallNext(ns: seq<Node>, i: nat, h: nat, h': nat) returns (g: nat)
    requires i < |ns| && TallUpTo(ns, i, h) && Tall(ns[i], h')
    ensures TallUpTo(ns, i + 1, g)
  {
    g := if h < h' then h' else h;
    forall j | 0 <= j < i + 1 ensures Tall(ns[j], g) {
      Taller(ns[j], if j < i then h else h', g);
    }
  }

  lemma {:induction false} ExprEnds(e: Expr) returns (h: nat)
    ensures Tall(OfExpr(e), h)
    decreases e
  {
    var ns := Children(OfExpr(e));
    var top: nat := 0;
    for i := 0 to |ns|
      invariant TallUpTo(ns, i, top)
    {
      InExprBelow(e.node, i);
      var g;
      match ns[i] {
        case OfExpr(x) => g := ExprEnds(x);
        case OfStmt(x) => g := StmtEnds(x);
      }
      top := TallNext(ns, i, top, g);
    }
    h := top + 1;
  }

  lemma {:induction false} StmtEnds(s: Stmt) returns (h: nat)
    ensures Tall(OfStmt(s), h)
    decreases s
  {
    var ns := Children(OfStmt(s));
    var top: nat := 0;
    for i := 0 to |ns|
      invariant TallUpTo(ns, i, top)
    {
      InStmtBelow(s.node, i);
      var g;
      match ns[i] {
        case OfExpr(x) => g := ExprEnds(x);
        case OfStmt(x) => g := StmtEnds(x);
      }
      top := TallNext(ns, i, top, g);
    }
    h := top + 1;
  }

  lemma {:induction false} DeclEnds(d: Decl) returns (h: nat)
    ensures Tall(OfDecl(d), h)
    decreases d
  {
    var ns := Children(OfDecl(d));
    var top: nat := 0;
    for i := 0 to |ns|
      invariant TallUpTo(ns, i, top)
    {
      InDeclBelow(d.node, i);
      var g;
      match ns[i] {
        case OfStmt(x) => g := StmtEnds(x);
        case OfDecl(x) => g := DeclEnds(x);
      }
      top := TallNext(ns, i, top, g);
    }
    h := top + 1;
  }

  lemma {:induction false} FileEnds(ds: seq<Decl>) returns (h: nat)
    ensures Tall(OfFile(ds), h)
    decreases ds
  {
    var ns := Children(OfFile(ds));
    var top: nat := 0;
    for i := 0 to |ns|
      invariant TallUpTo(ns, i, top)
    {
      DeclsBelow(ds, i);
      var g;
      match ns[i] {
        case OfDecl(x) => g := DeclEnds(x);
      }
      top := TallNext(ns, i, top, g);
    }
    h := top + 1;
  }

  /** Every tree has a longest path. */
  lemma {:induction false} NodeEnds(n: Node) returns (h: nat)
    ensures Tall(n, h)
  {
    match n
    case OfExpr(e) => h := ExprEnds(e);
    case OfStmt(s) => h := StmtEnds(s);
    case OfDecl(d) => h := DeclEnds(d);
    case OfFile(ds) => h := FileEnds(ds);
  }

  // ---- Every id listed is that of a place ----

  /** Which child a position in the listing of all falls into. */
  lemma {:induction false} Locate(f: Node -> seq<nat>, ns: seq<Node>, o: nat) returns (i: nat)
    requires o < |Concat(f, ns)|
    ensures i < |ns| && |Concat(f, ns[..i])| <= o < |Concat(f, ns[..i])| + |f(ns[i])|
    decreases |ns|
  {
    var n := |ns| - 1;
    if o < |Concat(f, ns[..n])| {
      i := Locate(f, ns[..n], o);
      assert ns[..n][..i] == ns[..i];
    } else {
      i := n;
    }
  }

  /** At every position of the listing there is a place. */
  lemma {:induction false} PlaceFound(f: Node -> seq<nat>, n: Node, h: nat, o: nat) returns (path: seq<nat>)
    requires Preorder(f) && Tall(n, h) && o < |f(n)|
    ensures IsPlace(n, path) && Offset(f, n, path) == o
    decreases h
  {
    assert Unfolds(f, n);
    if o < |Own(n)| {
      path := [];
    } else {
      var i := Locate(f, Children(n), o - |Own(n)|);
      var rest := PlaceFound(f, Children(n)[i], h - 1, o - |Own(n)| - |Concat(f, Children(n)[..i])|);
      path := [i] + rest;
      assert path[1..] == rest;
    }
  }

  // ---- A file that is numbered ----

  /**
   The expressions of a file, at whatever places, have the ids from 1 up to `next`: each has one,
   no two have the same, and none is left over.
   */
  ghost predicate NumberedTo(ds: seq<Decl>, next: nat) {
    && (forall p :: IsPlace(OfFile(ds), p) ==> 1 <= IdAt(OfFile(ds), p) < next)
    && (forall p, q :: IsPlace(OfFile(ds), p) && IsPlace(OfFile(ds), q) && p != q ==> IdAt(OfFile(ds), p) != IdAt(OfFile(ds), q))
    && (forall id :: 1 <= id < next ==> Placed(OfFile(ds), id))
  }

  ghost predicate Placed(n: Node, id: nat) { exists p :: IsPlace(n, p) && IdAt(n, p) == id }

  /** A listing of the ids in a row says that of the places. */
  lemma {:induction false} ListedInRow(ds: seq<Decl>, next: nat)
    requires |FileIds(ds)| + 1 == next && forall i :: 0 <= i < |FileIds(ds)| ==> FileIds(ds)[i] == i + 1
    ensures NumberedTo(ds, next)
  {
    var n := OfFile(ds);
    ListedPreorder();
    forall p | IsPlace(n, p) ensures IdAt(n, p) == Offset(Listed, n, p) + 1 < next {
      PlaceListed(Listed, n, p);
    }
    forall p, q | IsPlace(n, p) && IsPlace(n, q) && p != q ensures IdAt(n, p) != IdAt(n, q) {
      PlacesApart(Listed, n, p, q);
    }
    var h := NodeEnds(n);
    forall id | 1 <= id < next ensures Placed(n, id) {
      var p := PlaceFound(Listed, n, h, id - 1);
      assert IsPlace(n, p) && IdAt(n, p) == id;
    }
  }
}
