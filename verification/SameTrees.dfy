/**
 Wiping the ids of a tree and listing them lose nothing between them: a tree is what it is
 without its ids, together with the ids in order.
 */
module SameTrees {
  import opened Wrappers
  import opened Ast
  import opened Places

  // ---- Wiping, place by place ----

  /** A node with the ids of the expressions inside it wiped. */
  function Wiped(n: Node): Node {
    match n
    case OfExpr(e) => OfExpr(Bare(e))
    case OfStmt(s) => OfStmt(BareStmt(s))
    case OfDecl(d) => OfDecl(BareDecl(d))
    case OfFile(ds) => OfFile(BareFile(ds))
  }

  function Each(f: Node -> Node, ns: seq<Node>): (r: seq<Node>)
    ensures |r| == |ns|
  {
    seq(|ns|, i requires 0 <= i < |ns| => f(ns[i]))
  }

  function WipedAll(ns: seq<Node>): seq<Node> { Each(Wiped, ns) }

  lemma {:induction false} EachAppend(f: Node -> Node, a: seq<Node>, b: seq<Node>)
    ensures Each(f, a + b) == Each(f, a) + Each(f, b)
  {
  }

  lemma {:induction false} EachOne(f: Node -> Node, n: Node)
    ensures Each(f, [n]) == [f(n)]
  {
  }

  lemma {:induction false} EachTwo(f: Node -> Node, m: Node, n: Node)
    ensures Each(f, [m, n]) == [f(m), f(n)]
  {
  }

  lemma {:induction false} EachNone(f: Node -> Node)
    ensures Each(f, []) == []
  {
  }

  lemma {:induction false} OptWiped(e: Option<Expr>)
    ensures OptExpr(BareOpt(e)) == WipedAll(OptExpr(e))
  {
    EachNone(Wiped);
    if e.Some? { EachOne(Wiped, OfExpr(e.value)); }
  }

  lemma {:induction false} OptStmtWiped(s: Option<Stmt>)
    ensures OptStmt(BareOptStmt(s)) == WipedAll(OptStmt(s))
  {
    EachNone(Wiped);
    if s.Some? { EachOne(Wiped, OfStmt(s.value)); }
  }

  lemma {:induction false} ExprsWiped(xs: seq<Expr>)
    ensures Exprs(BareList(xs)) == WipedAll(Exprs(xs))
    decreases |xs|
  {
    EachNone(Wiped);
    if xs != [] {
      var n := |xs| - 1;
      var x := xs[n];
      ExprsWiped(xs[..n]);
      assert BareList(xs)[..|BareList(xs)| - 1] == BareList(xs[..n]);
      assert Exprs(xs) == Exprs(xs[..n]) + [OfExpr(x)];
      EachAppend(Wiped, Exprs(xs[..n]), [OfExpr(x)]);
      EachOne(Wiped, OfExpr(x));
    }
  }

  lemma {:induction false} StmtsWiped(xs: seq<Stmt>)
    ensures Stmts(BareBlock(xs)) == WipedAll(Stmts(xs))
    decreases |xs|
  {
    EachNone(Wiped);
    if xs != [] {
      var n := |xs| - 1;
      var x := xs[n];
      StmtsWiped(xs[..n]);
      assert BareBlock(xs)[..|BareBlock(xs)| - 1] == BareBlock(xs[..n]);
      assert Stmts(xs) == Stmts(xs[..n]) + [OfStmt(x)];
      EachAppend(Wiped, Stmts(xs[..n]), [OfStmt(x)]);
      EachOne(Wiped, OfStmt(x));
    }
  }

  lemma {:induction false} DeclsWiped(xs: seq<Decl>)
    ensures Decls(BareFile(xs)) == WipedAll(Decls(xs))
    decreases |xs|
  {
    EachNone(Wiped);
    if xs != [] {
      var n := |xs| - 1;
      var x := xs[n];
      DeclsWiped(xs[..n]);
      assert BareFile(xs)[..|BareFile(xs)| - 1] == BareFile(xs[..n]);
      assert Decls(xs) == Decls(xs[..n]) + [OfDecl(x)];
      EachAppend(Wiped, Decls(xs[..n]), [OfDecl(x)]);
      EachOne(Wiped, OfDecl(x));
    }
  }

  lemma {:induction false} EntriesWiped(xs: seq<MapEntry>)
    ensures Entries(BareEntries(xs)) == WipedAll(Entries(xs))
    decreases |xs|
  {
    EachNone(Wiped);
    if xs != [] {
      var n := |xs| - 1;
      var x := xs[n];
      EntriesWiped(xs[..n]);
      assert BareEntries(xs)[..|BareEntries(xs)| - 1] == BareEntries(xs[..n]);
      assert Entries(xs) == Entries(xs[..n]) + [OfExpr(x.key), OfExpr(x.value)];
      EachAppend(Wiped, Entries(xs[..n]), [OfExpr(x.key), OfExpr(x.value)]);
      EachTwo(Wiped, OfExpr(x.key), OfExpr(x.value));
    }
  }

  lemma {:induction false} InitsWiped(xs: seq<FieldInit>)
    ensures Inits(BareInits(xs)) == WipedAll(Inits(xs))
    decreases |xs|
  {
    EachNone(Wiped);
    if xs != [] {
      var n := |xs| - 1;
      var x := xs[n];
      InitsWiped(xs[..n]);
      assert BareInits(xs)[..|BareInits(xs)| - 1] == BareInits(xs[..n]);
      assert Inits(xs) == Inits(xs[..n]) + [OfExpr(x.value)];
      EachAppend(Wiped, Inits(xs[..n]), [OfExpr(x.value)]);
      EachOne(Wiped, OfExpr(x.value));
    }
  }

  lemma {:induction false} CasesWiped(xs: seq<MatchCase>)
    ensures Cases(BareCases(xs)) == WipedAll(Cases(xs))
    decreases |xs|
  {
    EachNone(Wiped);
    if xs != [] {
      var n := |xs| - 1;
      var x := xs[n];
      CasesWiped(xs[..n]);
      assert BareCases(xs)[..|BareCases(xs)| - 1] == BareCases(xs[..n]);
      EachAppend(Wiped, Cases(xs[..n]), OptExpr(x.guard) + [OfExpr(x.body)]);
      EachAppend(Wiped, OptExpr(x.guard), [OfExpr(x.body)]);
      OptWiped(x.guard);
      EachOne(Wiped, OfExpr(x.body));
    }
  }

  lemma {:induction false} CatchesWiped(xs: seq<CatchClause>)
    ensures Catches(BareCatches(xs)) == WipedAll(Catches(xs))
    decreases |xs|
  {
    EachNone(Wiped);
    if xs != [] {
      var n := |xs| - 1;
      var x := xs[n];
      CatchesWiped(xs[..n]);
      assert BareCatches(xs)[..|BareCatches(xs)| - 1] == BareCatches(xs[..n]);
      assert Catches(xs) == Catches(xs[..n]) + [OfStmt(x.body)];
      EachAppend(Wiped, Catches(xs[..n]), [OfStmt(x.body)]);
      EachOne(Wiped, OfStmt(x.body));
    }
  }

  lemma {:induction false} ArmsWiped(xs: seq<SelectArm>)
    ensures Arms(BareArms(xs)) == WipedAll(Arms(xs))
    decreases |xs|
  {
    EachNone(Wiped);
    if xs != [] {
      var n := |xs| - 1;
      var x := xs[n];
      ArmsWiped(xs[..n]);
      assert BareArms(xs)[..|BareArms(xs)| - 1] == BareArms(xs[..n]);
      assert Arms(xs) == Arms(xs[..n]) + [OfExpr(x.channel), OfStmt(x.body)];
      EachAppend(Wiped, Arms(xs[..n]), [OfExpr(x.channel), OfStmt(x.body)]);
      EachTwo(Wiped, OfExpr(x.channel), OfStmt(x.body));
    }
  }

  lemma {:induction false} FunctionsWiped(xs: seq<Function>)
    ensures Functions(BareFunctions(xs)) == WipedAll(Functions(xs))
    decreases |xs|
  {
    EachNone(Wiped);
    if xs != [] {
      var n := |xs| - 1;
      var x := xs[n];
      FunctionsWiped(xs[..n]);
      assert BareFunctions(xs)[..|BareFunctions(xs)| - 1] == BareFunctions(xs[..n]);
      assert Functions(xs) == Functions(xs[..n]) + [OfStmt(x.body)];
      EachAppend(Wiped, Functions(xs[..n]), [OfStmt(x.body)]);
      EachOne(Wiped, OfStmt(x.body));
    }
  }

  lemma {:induction false} MethodsWiped(xs: seq<Method>)
    ensures Methods(BareMethods(xs)) == WipedAll(Methods(xs))
    decreases |xs|
  {
    EachNone(Wiped);
    if xs != [] {
      var n := |xs| - 1;
      var x := xs[n];
      MethodsWiped(xs[..n]);
      assert BareMethods(xs)[..|BareMethods(xs)| - 1] == BareMethods(xs[..n]);
      assert Methods(xs) == Methods(xs[..n]) + [OfStmt(x.body)];
      EachAppend(Wiped, Methods(xs[..n]), [OfStmt(x.body)]);
      EachOne(Wiped, OfStmt(x.body));
    }
  }

  lemma {:induction false} HeadWiped(n: Node, ns: seq<Node>)
    ensures WipedAll([n] + ns) == [Wiped(n)] + WipedAll(ns)
  {
    EachAppend(Wiped, [n], ns);
    EachOne(Wiped, n);
  }

  lemma {:induction false} ElementsWiped(k: ExprKind)
    requires k.ArrayLiteral? || k.Tuple?
    ensures InExpr(BareKind(k)) == WipedAll(InExpr(k))
  {
    match k
    case ArrayLiteral(es) => ExprsWiped(es);
    case Tuple(es) => ExprsWiped(es);
  }

  lemma {:induction false} FieldsWiped(k: ExprKind)
    requires k.MapLiteral? || k.StructLiteral?
    ensures InExpr(BareKind(k)) == WipedAll(InExpr(k))
  {
    match k
    case MapLiteral(entries) => EntriesWiped(entries);
    case StructLiteral(_, fields) => InitsWiped(fields);
  }

  lemma {:induction false} ArgumentsWiped(k: ExprKind)
    requires k.SuperCall?
    ensures InExpr(BareKind(k)) == WipedAll(InExpr(k))
  {
    match k
    case SuperCall(_, args) => ExprsWiped(args);
  }

  lemma {:induction false} EnumValueWiped(k: ExprKind)
    requires k.EnumValue?
    ensures InExpr(BareKind(k)) == WipedAll(InExpr(k))
  {
    match k
    case EnumValue(_, _, _, args) => ExprsWiped(args);
  }

  lemma {:induction false} NewWiped(k: ExprKind)
    requires k.New?
    ensures InExpr(BareKind(k)) == WipedAll(InExpr(k))
  {
    match k
    case New(_, _, args) => ExprsWiped(args);
  }

  lemma {:induction false} ContentsWiped(k: ExprKind)
    requires k.Block? || k.Return?
    ensures InExpr(BareKind(k)) == WipedAll(InExpr(k))
  {
    match k
    case Block(stmts) => StmtsWiped(stmts);
    case Return(result) => OptWiped(result);
  }

  lemma {:induction false} CallsWiped(k: ExprKind)
    requires k.Call? || k.MethodCall?
    ensures InExpr(BareKind(k)) == WipedAll(InExpr(k))
  {
    match k
    case Call(callee, args) => HeadWiped(OfExpr(callee), Exprs(args)); ExprsWiped(args);
    case MethodCall(obj, _, args) => HeadWiped(OfExpr(obj), Exprs(args)); ExprsWiped(args);
  }

  lemma {:induction false} MatchWiped(k: ExprKind)
    requires k.Match?
    ensures InExpr(BareKind(k)) == WipedAll(InExpr(k))
  {
    match k
    case Match(expr, cases) => HeadWiped(OfExpr(expr), Cases(cases)); CasesWiped(cases);
  }

  lemma {:induction false} PairsWiped(k: ExprKind)
    requires k.Binary? || k.Index? || k.Range? || k.Send?
    ensures InExpr(BareKind(k)) == WipedAll(InExpr(k))
  {
    match k
    case Binary(_, lhs, rhs) => EachTwo(Wiped, OfExpr(lhs), OfExpr(rhs));
    case Index(obj, index) => EachTwo(Wiped, OfExpr(obj), OfExpr(index));
    case Range(lo, hi, _) => EachTwo(Wiped, OfExpr(lo), OfExpr(hi));
    case Send(target, source) => EachTwo(Wiped, OfExpr(target), OfExpr(source));
  }

  lemma {:induction false} HeadsWiped(k: ExprKind)
    requires k.While? || k.For? || k.Assign? || k.CompoundAssign?
    ensures InExpr(BareKind(k)) == WipedAll(InExpr(k))
  {
    match k
    case While(cond, body) => EachTwo(Wiped, OfExpr(cond), OfExpr(body));
    case For(_, iter, body) => EachTwo(Wiped, OfExpr(iter), OfExpr(body));
    case Assign(target, source) => EachTwo(Wiped, OfExpr(target), OfExpr(source));
    case CompoundAssign(_, target, source) => EachTwo(Wiped, OfExpr(target), OfExpr(source));
  }

  lemma {:induction false} OperandsWiped(k: ExprKind)
    requires k.Unary? || k.FieldAccess? || k.TupleIndex? || k.Cast? || k.Is?
    ensures InExpr(BareKind(k)) == WipedAll(InExpr(k))
  {
    match k
    case Unary(_, operand) => EachOne(Wiped, OfExpr(operand));
    case FieldAccess(obj, _) => EachOne(Wiped, OfExpr(obj));
    case TupleIndex(tuple, _) => EachOne(Wiped, OfExpr(tuple));
    case Cast(expr, _) => EachOne(Wiped, OfExpr(expr));
    case Is(expr, _) => EachOne(Wiped, OfExpr(expr));
  }

  lemma {:induction false} BodiesWiped(k: ExprKind)
    requires k.Loop? || k.Throw?
    ensures InExpr(BareKind(k)) == WipedAll(InExpr(k))
  {
    match k
    case Loop(body) => EachOne(Wiped, OfExpr(body));
    case Throw(expr) => EachOne(Wiped, OfExpr(expr));
  }

  lemma {:induction false} LambdaWiped(k: ExprKind)
    requires k.Lambda?
    ensures InExpr(BareKind(k)) == WipedAll(InExpr(k))
  {
    match k
    case Lambda(_, _, body) => EachOne(Wiped, OfExpr(body));
  }

  lemma {:induction false} TasksWiped(k: ExprKind)
    requires k.Spawn? || k.Await? || k.Recv?
    ensures InExpr(BareKind(k)) == WipedAll(InExpr(k))
  {
    match k
    case Spawn(expr) => EachOne(Wiped, OfExpr(expr));
    case Await(expr) => EachOne(Wiped, OfExpr(expr));
    case Recv(expr) => EachOne(Wiped, OfExpr(expr));
  }

  lemma {:induction false} IfWiped(k: ExprKind)
    requires k.If?
    ensures InExpr(BareKind(k)) == WipedAll(InExpr(k))
  {
    match k
    case If(cond, onTrue, onFalse) => 
      EachAppend(Wiped, [OfExpr(cond), OfExpr(onTrue)], OptExpr(onFalse));
      EachTwo(Wiped, OfExpr(cond), OfExpr(onTrue));
      OptWiped(onFalse);
  }

  lemma {:induction false} TryWiped(k: ExprKind)
    requires k.Try?
    ensures InExpr(BareKind(k)) == WipedAll(InExpr(k))
  {
    match k
    case Try(body, catches, last) => 
      HeadWiped(OfExpr(body), Catches(catches) + OptExpr(last));
      EachAppend(Wiped, Catches(catches), OptExpr(last));
      CatchesWiped(catches);
      OptWiped(last);
  }

  lemma {:induction false} InExprWiped(k: ExprKind)
    ensures InExpr(BareKind(k)) == WipedAll(InExpr(k))
  {
    EachNone(Wiped);
    match k
    case ArrayLiteral(_) => ElementsWiped(k);
    case MapLiteral(_) => FieldsWiped(k);
    case Binary(_, _, _) => PairsWiped(k);
    case Unary(_, _) => OperandsWiped(k);
    case Call(_, _) => CallsWiped(k);
    case MethodCall(_, _, _) => CallsWiped(k);
    case Index(_, _) => PairsWiped(k);
    case FieldAccess(_, _) => OperandsWiped(k);
    case SuperCall(_, _) => ArgumentsWiped(k);
    case New(_, _, _) => NewWiped(k);
    case StructLiteral(_, _) => FieldsWiped(k);
    case Block(_) => ContentsWiped(k);
    case If(_, _, _) => IfWiped(k);
    case While(_, _) => HeadsWiped(k);
    case For(_, _, _) => HeadsWiped(k);
    case Loop(_) => BodiesWiped(k);
    case Match(_, _) => MatchWiped(k);
    case Return(_) => ContentsWiped(k);
    case Throw(_) => BodiesWiped(k);
    case Try(_, _, _) => TryWiped(k);
    case Assign(_, _) => HeadsWiped(k);
    case CompoundAssign(_, _, _) => HeadsWiped(k);
    case Lambda(_, _, _) => LambdaWiped(k);
    case Spawn(_) => TasksWiped(k);
    case Await(_) => TasksWiped(k);
    case Send(_, _) => PairsWiped(k);
    case Recv(_) => TasksWiped(k);
    case Cast(_, _) => OperandsWiped(k);
    case Is(_, _) => OperandsWiped(k);
    case Range(_, _, _) => PairsWiped(k);
    case Tuple(_) => ElementsWiped(k);
    case TupleIndex(_, _) => OperandsWiped(k);
    case EnumValue(_, _, _, _) => EnumValueWiped(k);
    case _ =>
  }

  lemma {:induction false} SimpleStmtsWiped(k: StmtKind)
    requires k.Expr? || k.Let? || k.Var? || k.Assignment? || k.Return? || k.Throw?
    ensures InStmt(BareStmtKind(k)) == WipedAll(InStmt(k))
  {
    match k
    case Expr(expr) => EachOne(Wiped, OfExpr(expr));
    case Let(_, _, value) => OptWiped(value);
    case Var(_, _, value, _) => OptWiped(value);
    case Assignment(target, source) => EachTwo(Wiped, OfExpr(target), OfExpr(source));
    case Return(value) => OptWiped(value);
    case Throw(expr) => EachOne(Wiped, OfExpr(expr));
  }

  lemma {:induction false} HeadedStmtsWiped(k: StmtKind)
    requires k.While? || k.For?
    ensures InStmt(BareStmtKind(k)) == WipedAll(InStmt(k))
  {
    match k
    case While(cond, body) => EachTwo(Wiped, OfExpr(cond), OfStmt(body));
    case For(_, iter, body) => EachTwo(Wiped, OfExpr(iter), OfStmt(body));
  }

  lemma {:induction false} NestedStmtsWiped(k: StmtKind)
    requires k.Loop? || k.Defer? || k.Block?
    ensures InStmt(BareStmtKind(k)) == WipedAll(InStmt(k))
  {
    match k
    case Loop(body) => EachOne(Wiped, OfStmt(body));
    case Defer(body) => EachOne(Wiped, OfStmt(body));
    case Block(stmts) => StmtsWiped(stmts);
  }

  lemma {:induction false} SelectWiped(k: StmtKind)
    requires k.Select?
    ensures InStmt(BareStmtKind(k)) == WipedAll(InStmt(k))
  {
    match k
    case Select(arms, otherwise) => 
      EachAppend(Wiped, Arms(arms), OptStmt(otherwise));
      ArmsWiped(arms);
      OptStmtWiped(otherwise);
  }

  lemma {:induction false} IfStmtWiped(k: StmtKind)
    requires k.If?
    ensures InStmt(BareStmtKind(k)) == WipedAll(InStmt(k))
  {
    match k
    case If(cond, onTrue, onFalse) => 
      EachAppend(Wiped, [OfExpr(cond), OfStmt(onTrue)], OptStmt(onFalse));
      EachTwo(Wiped, OfExpr(cond), OfStmt(onTrue));
      OptStmtWiped(onFalse);
  }

  lemma {:induction false} ForCWiped(k: StmtKind)
    requires k.ForC?
    ensures InStmt(BareStmtKind(k)) == WipedAll(InStmt(k))
  {
    match k
    case ForC(init, test, update, body) => 
      EachAppend(Wiped, OptStmt(init), OptExpr(test) + (OptExpr(update) + [OfStmt(body)]));
      EachAppend(Wiped, OptExpr(test), OptExpr(update) + [OfStmt(body)]);
      EachAppend(Wiped, OptExpr(update), [OfStmt(body)]);
      OptStmtWiped(init);
      OptWiped(test);
      OptWiped(update);
      EachOne(Wiped, OfStmt(body));
  }

  lemma {:induction false} TryStmtWiped(k: StmtKind)
    requires k.Try?
    ensures InStmt(BareStmtKind(k)) == WipedAll(InStmt(k))
  {
    match k
    case Try(body, catches, last) => 
      HeadWiped(OfStmt(body), Catches(catches) + OptStmt(last));
      EachAppend(Wiped, Catches(catches), OptStmt(last));
      CatchesWiped(catches);
      OptStmtWiped(last);
  }

  lemma {:induction false} InStmtWiped(k: StmtKind)
    ensures InStmt(BareStmtKind(k)) == WipedAll(InStmt(k))
  {
    EachNone(Wiped);
    match k
    case Expr(_) => SimpleStmtsWiped(k);
    case Let(_, _, _) => SimpleStmtsWiped(k);
    case Var(_, _, _, _) => SimpleStmtsWiped(k);
    case Assignment(_, _) => SimpleStmtsWiped(k);
    case If(_, _, _) => IfStmtWiped(k);
    case While(_, _) => HeadedStmtsWiped(k);
    case For(_, _, _) => HeadedStmtsWiped(k);
    case ForC(_, _, _, _) => ForCWiped(k);
    case Loop(_) => NestedStmtsWiped(k);
    case Return(_) => SimpleStmtsWiped(k);
    case Throw(_) => SimpleStmtsWiped(k);
    case Try(_, _, _) => TryStmtWiped(k);
    case Defer(_) => NestedStmtsWiped(k);
    case Block(_) => NestedStmtsWiped(k);
    case Select(_, _) => SelectWiped(k);
    case _ =>
  }

  lemma {:induction false} InDeclWiped(k: DeclKind)
    ensures InDecl(BareDeclKind(k)) == WipedAll(InDecl(k))
  {
    EachNone(Wiped);
    match k
    case Function(decl) => EachOne(Wiped, OfStmt(decl.body));
    case Class(_, _, _, methods) => MethodsWiped(methods);
    case Interface(_, functions) => FunctionsWiped(functions);
    case Trait(_, functions) => FunctionsWiped(functions);
    case Namespace(_, decls) => DeclsWiped(decls);
    case _ =>
  }

  /** Wiping a node wipes what is inside it, and leaves it where it is. */
  lemma {:induction false} ChildrenWiped(n: Node)
    ensures Children(Wiped(n)) == WipedAll(Children(n))
  {
    match n
    case OfExpr(e) => InExprWiped(e.node);
    case OfStmt(s) => InStmtWiped(s.node);
    case OfDecl(d) => InDeclWiped(d.node);
    case OfFile(ds) => DeclsWiped(ds);
  }

  // ---- Making up a node again ----

  lemma {:induction false} HeadSame(m: Node, n: Node, a: seq<Node>, b: seq<Node>)
    requires [m] + a == [n] + b
    ensures m == n && a == b
  {
    assert ([m] + a)[0] == m && ([n] + b)[0] == n;
    assert ([m] + a)[1..] == a && ([n] + b)[1..] == b;
  }

  lemma {:induction false} PartsSame(a: seq<Node>, b: seq<Node>, c: seq<Node>, d: seq<Node>)
    requires a + b == c + d && (|a| == |c| || |b| == |d|)
    ensures a == c && b == d
  {
    assert |a| == |c|;
    assert (a + b)[..|a|] == a && (c + d)[..|c|] == c;
    assert (a + b)[|a|..] == b && (c + d)[|c|..] == d;
  }

  lemma {:induction false} OptSame(e: Option<Expr>, f: Option<Expr>)
    requires OptExpr(e) == OptExpr(f)
    ensures e == f
  {
    if e.Some? { assert OptExpr(e)[0] == OfExpr(e.value); }
  }

  lemma {:induction false} OptStmtSame(e: Option<Stmt>, f: Option<Stmt>)
    requires OptStmt(e) == OptStmt(f)
    ensures e == f
  {
    if e.Some? { assert OptStmt(e)[0] == OfStmt(e.value); }
  }

  lemma {:induction false} ExprsSame(xs: seq<Expr>, ys: seq<Expr>)
    requires Exprs(xs) == Exprs(ys)
    ensures xs == ys
  {
    assert |xs| == |Exprs(xs)| == |ys|;
    forall i | 0 <= i < |xs| ensures xs[i] == ys[i] {
      assert Exprs(xs)[i] == Exprs(ys)[i];
    }
  }

  lemma {:induction false} StmtsSame(xs: seq<Stmt>, ys: seq<Stmt>)
    requires Stmts(xs) == Stmts(ys)
    ensures xs == ys
  {
    assert |xs| == |Stmts(xs)| == |ys|;
    forall i | 0 <= i < |xs| ensures xs[i] == ys[i] {
      assert Stmts(xs)[i] == Stmts(ys)[i];
    }
  }

  lemma {:induction false} DeclsSame(xs: seq<Decl>, ys: seq<Decl>)
    requires Decls(xs) == Decls(ys)
    ensures xs == ys
  {
    assert |xs| == |Decls(xs)| == |ys|;
    forall i | 0 <= i < |xs| ensures xs[i] == ys[i] {
      assert Decls(xs)[i] == Decls(ys)[i];
    }
  }

  lemma {:induction false} EntriesSame(xs: seq<MapEntry>, ys: seq<MapEntry>)
    requires Entries(xs) == Entries(ys)
    ensures xs == ys
  {
    assert |xs| == |ys|;
    forall i | 0 <= i < |xs| ensures xs[i] == ys[i] {
      assert Entries(xs)[2 * i] == Entries(ys)[2 * i] && Entries(xs)[2 * i + 1] == Entries(ys)[2 * i + 1];
    }
  }

  lemma {:induction false} ArmsSame(xs: seq<SelectArm>, ys: seq<SelectArm>)
    requires Arms(xs) == Arms(ys) && BareArms(xs) == BareArms(ys)
    ensures xs == ys
  {
    BareArmsAt(xs);
    BareArmsAt(ys);
    assert |xs| == |ys|;
    forall i | 0 <= i < |xs| ensures xs[i] == ys[i] {
      assert Arms(xs)[2 * i] == Arms(ys)[2 * i] && Arms(xs)[2 * i + 1] == Arms(ys)[2 * i + 1];
      assert BareArm(xs[i]) == BareArm(ys[i]);
    }
  }

  lemma {:induction false} BareInitsAt(xs: seq<FieldInit>)
    ensures |BareInits(xs)| == |xs| && forall i :: 0 <= i < |xs| ==> BareInits(xs)[i] == BareInit(xs[i])
    decreases |xs|
  {
    if xs != [] {
      BareInitsAt(xs[..|xs| - 1]);
    }
  }

  lemma {:induction false} InitsSame(xs: seq<FieldInit>, ys: seq<FieldInit>)
    requires Inits(xs) == Inits(ys) && BareInits(xs) == BareInits(ys)
    ensures xs == ys
  {
    BareInitsAt(xs);
    BareInitsAt(ys);
    assert |xs| == |ys|;
    forall i | 0 <= i < |xs| ensures xs[i] == ys[i] {
      assert Inits(xs)[i] == Inits(ys)[i] && BareInit(xs[i]) == BareInit(ys[i]);
    }
  }

  lemma {:induction false} BareCatchesAt(xs: seq<CatchClause>)
    ensures |BareCatches(xs)| == |xs| && forall i :: 0 <= i < |xs| ==> BareCatches(xs)[i] == BareCatch(xs[i])
    decreases |xs|
  {
    if xs != [] {
      BareCatchesAt(xs[..|xs| - 1]);
    }
  }

  lemma {:induction false} CatchesSame(xs: seq<CatchClause>, ys: seq<CatchClause>)
    requires Catches(xs) == Catches(ys) && BareCatches(xs) == BareCatches(ys)
    ensures xs == ys
  {
    BareCatchesAt(xs);
    BareCatchesAt(ys);
    assert |xs| == |ys|;
    forall i | 0 <= i < |xs| ensures xs[i] == ys[i] {
      assert Catches(xs)[i] == Catches(ys)[i] && BareCatch(xs[i]) == BareCatch(ys[i]);
    }
  }

  lemma {:induction false} BareFunctionsAt(xs: seq<Function>)
    ensures |BareFunctions(xs)| == |xs| && forall i :: 0 <= i < |xs| ==> BareFunctions(xs)[i] == BareFunction(xs[i])
    decreases |xs|
  {
    if xs != [] {
      BareFunctionsAt(xs[..|xs| - 1]);
    }
  }

  lemma {:induction false} FunctionsSame(xs: seq<Function>, ys: seq<Function>)
    requires Functions(xs) == Functions(ys) && BareFunctions(xs) == BareFunctions(ys)
    ensures xs == ys
  {
    BareFunctionsAt(xs);
    BareFunctionsAt(ys);
    assert |xs| == |ys|;
    forall i | 0 <= i < |xs| ensures xs[i] == ys[i] {
      assert Functions(xs)[i] == Functions(ys)[i] && BareFunction(xs[i]) == BareFunction(ys[i]);
    }
  }

  lemma {:induction false} BareMethodsAt(xs: seq<Method>)
    ensures |BareMethods(xs)| == |xs| && forall i :: 0 <= i < |xs| ==> BareMethods(xs)[i] == BareMethod(xs[i])
    decreases |xs|
  {
    if xs != [] {
      BareMethodsAt(xs[..|xs| - 1]);
    }
  }

  lemma {:induction false} MethodsSame(xs: seq<Method>, ys: seq<Method>)
    requires Methods(xs) == Methods(ys) && BareMethods(xs) == BareMethods(ys)
    ensures xs == ys
  {
    BareMethodsAt(xs);
    BareMethodsAt(ys);
    assert |xs| == |ys|;
    forall i | 0 <= i < |xs| ensures xs[i] == ys[i] {
      assert Methods(xs)[i] == Methods(ys)[i] && BareMethod(xs[i]) == BareMethod(ys[i]);
    }
  }

  lemma {:induction false} BareCasesAt(xs: seq<MatchCase>)
    ensures |BareCases(xs)| == |xs| && forall i :: 0 <= i < |xs| ==> BareCases(xs)[i] == BareCase(xs[i])
    decreases |xs|
  {
    if xs != [] {
      BareCasesAt(xs[..|xs| - 1]);
    }
  }

  lemma {:induction false} CasesSame(xs: seq<MatchCase>, ys: seq<MatchCase>)
    requires Cases(xs) == Cases(ys) && BareCases(xs) == BareCases(ys)
    ensures xs == ys
  {
    BareCasesAt(xs);
    BareCasesAt(ys);
    forall i | 0 <= i < |xs| ensures BareCase(xs[i]) == BareCase(ys[i]) {
      assert BareCases(xs)[i] == BareCases(ys)[i];
    }
    CaseByCase(xs, ys);
  }

  lemma {:induction false} CaseByCase(xs: seq<MatchCase>, ys: seq<MatchCase>)
    requires Cases(xs) == Cases(ys) && |xs| == |ys| && forall i :: 0 <= i < |xs| ==> BareCase(xs[i]) == BareCase(ys[i])
    ensures xs == ys
    decreases |xs|
  {
    if xs != [] {
      var n := |xs| - 1;
      LastCases(xs, ys, xs[..n], ys[..n]);
      CaseByCase(xs[..n], ys[..n]);
      assert xs == xs[..n] + [xs[n]] && ys == ys[..n] + [ys[n]];
    }
  }

  lemma {:induction false} LastCases(xs: seq<MatchCase>, ys: seq<MatchCase>, xs': seq<MatchCase>, ys': seq<MatchCase>)
    requires xs != [] && |xs| == |ys| && xs' == xs[..|xs| - 1] && ys' == ys[..|ys| - 1]
    requires Cases(xs) == Cases(ys) && BareCase(xs[|xs| - 1]) == BareCase(ys[|ys| - 1])
    ensures Cases(xs') == Cases(ys') && xs[|xs| - 1] == ys[|ys| - 1]
  {
    LastCaseSame(Cases(xs'), xs[|xs| - 1], Cases(ys'), ys[|ys| - 1]);
  }

  lemma {:induction false} BareArmsAt(xs: seq<SelectArm>)
    ensures |BareArms(xs)| == |xs| && forall i :: 0 <= i < |xs| ==> BareArms(xs)[i] == BareArm(xs[i])
    decreases |xs|
  {
    if xs != [] {
      BareArmsAt(xs[..|xs| - 1]);
    }
  }

  lemma {:induction false} LastCaseSame(a: seq<Node>, x: MatchCase, b: seq<Node>, y: MatchCase)
    requires BareCase(x) == BareCase(y)
    requires a + (OptExpr(x.guard) + [OfExpr(x.body)]) == b + (OptExpr(y.guard) + [OfExpr(y.body)])
    ensures a == b && x == y
  {
    PartsSame(a, OptExpr(x.guard) + [OfExpr(x.body)], b, OptExpr(y.guard) + [OfExpr(y.body)]);
    PartsSame(OptExpr(x.guard), [OfExpr(x.body)], OptExpr(y.guard), [OfExpr(y.body)]);
    OptSame(x.guard, y.guard);
    OneSame(OfExpr(x.body), OfExpr(y.body));
  }

  lemma {:induction false} TwoSame(a: Node, b: Node, c: Node, d: Node)
    requires [a, b] == [c, d]
    ensures a == c && b == d
  {
    assert [a, b][0] == a && [a, b][1] == b && [c, d][0] == c && [c, d][1] == d;
  }

  lemma {:induction false} OneSame(a: Node, b: Node)
    requires [a] == [b]
    ensures a == b
  {
    assert [a][0] == a && [b][0] == b;
  }

  /** Which kind it is. */
  function KindOf(k: ExprKind): nat {
    match k
    case Literal(_) => 0
    case ArrayLiteral(_) => 1
    case MapLiteral(_) => 2
    case Ident(_) => 3
    case Binary(_, _, _) => 4
    case Unary(_, _) => 5
    case Call(_, _) => 6
    case MethodCall(_, _, _) => 7
    case Index(_, _) => 8
    case FieldAccess(_, _) => 9
    case This => 10
    case SuperCall(_, _) => 11
    case New(_, _, _) => 12
    case StructLiteral(_, _) => 13
    case Block(_) => 14
    case If(_, _, _) => 15
    case While(_, _) => 16
    case For(_, _, _) => 17
    case Loop(_) => 18
    case Match(_, _) => 19
    case Return(_) => 20
    case Break => 21
    case Continue => 22
    case Throw(_) => 23
    case Try(_, _, _) => 24
    case Assign(_, _) => 25
    case CompoundAssign(_, _, _) => 26
    case Lambda(_, _, _) => 27
    case Spawn(_) => 28
    case Await(_) => 29
    case Channel => 30
    case Send(_, _) => 31
    case Recv(_) => 32
    case Cast(_, _) => 33
    case Is(_, _) => 34
    case Range(_, _, _) => 35
    case Tuple(_) => 36
    case TupleIndex(_, _) => 37
    case EnumValue(_, _, _, _) => 38
  }

  lemma {:induction false} EarlyKindKept(k: ExprKind)
    requires KindOf(k) < 20
    ensures KindOf(BareKind(k)) == KindOf(k)
  {
  }

  lemma {:induction false} LateKindKept(k: ExprKind)
    requires KindOf(k) >= 20
    ensures KindOf(BareKind(k)) == KindOf(k)
  {
  }

  lemma {:induction false} KindOfSame(k: ExprKind, l: ExprKind)
    requires BareKind(k) == BareKind(l)
    ensures KindOf(k) == KindOf(l)
  {
    if KindOf(k) < 20 { EarlyKindKept(k); } else { LateKindKept(k); }
    if KindOf(l) < 20 { EarlyKindKept(l); } else { LateKindKept(l); }
  }

  /** Which kind it is. */
  function StmtKindOf(k: StmtKind): nat {
    match k
    case Expr(_) => 0
    case Let(_, _, _) => 1
    case Var(_, _, _, _) => 2
    case Assignment(_, _) => 3
    case If(_, _, _) => 4
    case While(_, _) => 5
    case For(_, _, _) => 6
    case ForC(_, _, _, _) => 7
    case Loop(_) => 8
    case Return(_) => 9
    case Break => 10
    case Continue => 11
    case Throw(_) => 12
    case Try(_, _, _) => 13
    case Defer(_) => 14
    case Block(_) => 15
    case Select(_, _) => 16
    case Empty => 17
  }

  lemma {:induction false} StmtKindKept(k: StmtKind)
    ensures StmtKindOf(BareStmtKind(k)) == StmtKindOf(k)
  {
  }

  lemma {:induction false} SameArrays(k: ExprKind, l: ExprKind)
    requires k.ArrayLiteral? && l.ArrayLiteral?
    requires BareKind(k) == BareKind(l) && InExpr(k) == InExpr(l)
    ensures k == l
  {
    match k
    case ArrayLiteral(es) => ExprsSame(es, l.es);
  }

  lemma {:induction false} SameTuples(k: ExprKind, l: ExprKind)
    requires (k.Tuple? && l.Tuple?) || (k.TupleIndex? && l.TupleIndex?)
    requires BareKind(k) == BareKind(l) && InExpr(k) == InExpr(l)
    ensures k == l
  {
    match k
    case Tuple(es) => ExprsSame(es, l.es);
    case TupleIndex(tuple, _) => OneSame(OfExpr(tuple), OfExpr(l.tuple));
  }

  lemma {:induction false} SameMaps(k: ExprKind, l: ExprKind)
    requires k.MapLiteral? && l.MapLiteral?
    requires BareKind(k) == BareKind(l) && InExpr(k) == InExpr(l)
    ensures k == l
  {
    match k
    case MapLiteral(entries) => EntriesSame(entries, l.entries);
  }

  lemma {:induction false} SameStructs(k: ExprKind, l: ExprKind)
    requires k.StructLiteral? && l.StructLiteral?
    requires BareKind(k) == BareKind(l) && InExpr(k) == InExpr(l)
    ensures k == l
  {
    match k
    case StructLiteral(_, fields) => InitsSame(fields, l.fields);
  }

  lemma {:induction false} SameSuperCalls(k: ExprKind, l: ExprKind)
    requires k.SuperCall? && l.SuperCall?
    requires BareKind(k) == BareKind(l) && InExpr(k) == InExpr(l)
    ensures k == l
  {
    match k
    case SuperCall(_, args) => ExprsSame(args, l.args);
  }

  lemma {:induction false} SameNews(k: ExprKind, l: ExprKind)
    requires k.New? && l.New?
    requires BareKind(k) == BareKind(l) && InExpr(k) == InExpr(l)
    ensures k == l
  {
    match k
    case New(_, _, args) => ExprsSame(args, l.args);
  }

  lemma {:induction false} SameEnumValues(k: ExprKind, l: ExprKind)
    requires k.EnumValue? && l.EnumValue?
    requires BareKind(k) == BareKind(l) && InExpr(k) == InExpr(l)
    ensures k == l
  {
    match k
    case EnumValue(_, _, _, args) => ExprsSame(args, l.args);
  }

  lemma {:induction false} SameContents(k: ExprKind, l: ExprKind)
    requires (k.Block? && l.Block?) || (k.Return? && l.Return?)
    requires BareKind(k) == BareKind(l) && InExpr(k) == InExpr(l)
    ensures k == l
  {
    match k
    case Block(stmts) => StmtsSame(stmts, l.stmts);
    case Return(result) => OptSame(result, l.result);
  }

  lemma {:induction false} SameCalls(k: ExprKind, l: ExprKind)
    requires (k.Call? && l.Call?) || (k.MethodCall? && l.MethodCall?)
    requires BareKind(k) == BareKind(l) && InExpr(k) == InExpr(l)
    ensures k == l
  {
    match k
    case Call(callee, args) => HeadSame(OfExpr(callee), OfExpr(l.callee), Exprs(args), Exprs(l.args)); ExprsSame(args, l.args);
    case MethodCall(obj, _, args) => HeadSame(OfExpr(obj), OfExpr(l.obj), Exprs(args), Exprs(l.args)); ExprsSame(args, l.args);
  }

  lemma {:induction false} SameMatch(k: ExprKind, l: ExprKind)
    requires k.Match? && l.Match?
    requires BareKind(k) == BareKind(l) && InExpr(k) == InExpr(l)
    ensures k == l
  {
    match k
    case Match(expr, cases) => HeadSame(OfExpr(expr), OfExpr(l.expr), Cases(cases), Cases(l.cases)); CasesSame(cases, l.cases);
  }

  lemma {:induction false} SamePairs(k: ExprKind, l: ExprKind)
    requires (k.Binary? && l.Binary?) || (k.Index? && l.Index?)
    requires BareKind(k) == BareKind(l) && InExpr(k) == InExpr(l)
    ensures k == l
  {
    match k
    case Binary(_, lhs, rhs) => TwoSame(OfExpr(lhs), OfExpr(rhs), OfExpr(l.lhs), OfExpr(l.rhs));
    case Index(obj, index) => TwoSame(OfExpr(obj), OfExpr(index), OfExpr(l.obj), OfExpr(l.index));
  }

  lemma {:induction false} SameRanges(k: ExprKind, l: ExprKind)
    requires (k.Range? && l.Range?) || (k.Send? && l.Send?)
    requires BareKind(k) == BareKind(l) && InExpr(k) == InExpr(l)
    ensures k == l
  {
    match k
    case Range(lo, hi, _) => TwoSame(OfExpr(lo), OfExpr(hi), OfExpr(l.lo), OfExpr(l.hi));
    case Send(target, source) => TwoSame(OfExpr(target), OfExpr(source), OfExpr(l.target), OfExpr(l.source));
  }

  lemma {:induction false} SameHeads(k: ExprKind, l: ExprKind)
    requires (k.While? && l.While?) || (k.For? && l.For?)
    requires BareKind(k) == BareKind(l) && InExpr(k) == InExpr(l)
    ensures k == l
  {
    match k
    case While(cond, body) => TwoSame(OfExpr(cond), OfExpr(body), OfExpr(l.cond), OfExpr(l.body));
    case For(_, iter, body) => TwoSame(OfExpr(iter), OfExpr(body), OfExpr(l.iter), OfExpr(l.body));
  }

  lemma {:induction false} SameAssigns(k: ExprKind, l: ExprKind)
    requires (k.Assign? && l.Assign?) || (k.CompoundAssign? && l.CompoundAssign?)
    requires BareKind(k) == BareKind(l) && InExpr(k) == InExpr(l)
    ensures k == l
  {
    match k
    case Assign(target, source) => TwoSame(OfExpr(target), OfExpr(source), OfExpr(l.target), OfExpr(l.source));
    case CompoundAssign(_, target, source) => TwoSame(OfExpr(target), OfExpr(source), OfExpr(l.target), OfExpr(l.source));
  }

  lemma {:induction false} SameOperands(k: ExprKind, l: ExprKind)
    requires (k.Unary? && l.Unary?) || (k.FieldAccess? && l.FieldAccess?)
    requires BareKind(k) == BareKind(l) && InExpr(k) == InExpr(l)
    ensures k == l
  {
    match k
    case Unary(_, operand) => OneSame(OfExpr(operand), OfExpr(l.operand));
    case FieldAccess(obj, _) => OneSame(OfExpr(obj), OfExpr(l.obj));
  }

  lemma {:induction false} SameTyped(k: ExprKind, l: ExprKind)
    requires (k.Cast? && l.Cast?) || (k.Is? && l.Is?)
    requires BareKind(k) == BareKind(l) && InExpr(k) == InExpr(l)
    ensures k == l
  {
    match k
    case Cast(expr, _) => OneSame(OfExpr(expr), OfExpr(l.expr));
    case Is(expr, _) => OneSame(OfExpr(expr), OfExpr(l.expr));
  }

  lemma {:induction false} SameLoops(k: ExprKind, l: ExprKind)
    requires k.Loop? && l.Loop?
    requires BareKind(k) == BareKind(l) && InExpr(k) == InExpr(l)
    ensures k == l
  {
    match k
    case Loop(body) => OneSame(OfExpr(body), OfExpr(l.body));
  }

  lemma {:induction false} SameThrows(k: ExprKind, l: ExprKind)
    requires k.Throw? && l.Throw?
    requires BareKind(k) == BareKind(l) && InExpr(k) == InExpr(l)
    ensures k == l
  {
    match k
    case Throw(expr) => OneSame(OfExpr(expr), OfExpr(l.expr));
  }

  lemma {:induction false} SameLambdas(k: ExprKind, l: ExprKind)
    requires k.Lambda? && l.Lambda?
    requires BareKind(k) == BareKind(l) && InExpr(k) == InExpr(l)
    ensures k == l
  {
    match k
    case Lambda(_, _, body) => OneSame(OfExpr(body), OfExpr(l.body));
  }

  lemma {:induction false} SameTasks(k: ExprKind, l: ExprKind)
    requires (k.Spawn? && l.Spawn?) || (k.Await? && l.Await?)
    requires BareKind(k) == BareKind(l) && InExpr(k) == InExpr(l)
    ensures k == l
  {
    match k
    case Spawn(expr) => OneSame(OfExpr(expr), OfExpr(l.expr));
    case Await(expr) => OneSame(OfExpr(expr), OfExpr(l.expr));
  }

  lemma {:induction false} SameRecvs(k: ExprKind, l: ExprKind)
    requires k.Recv? && l.Recv?
    requires BareKind(k) == BareKind(l) && InExpr(k) == InExpr(l)
    ensures k == l
  {
    match k
    case Recv(expr) => OneSame(OfExpr(expr), OfExpr(l.expr));
  }

  lemma {:induction false} SameIf(k: ExprKind, l: ExprKind)
    requires k.If? && l.If?
    requires BareKind(k) == BareKind(l) && InExpr(k) == InExpr(l)
    ensures k == l
  {
    match k
    case If(cond, onTrue, onFalse) => 
      PartsSame([OfExpr(cond), OfExpr(onTrue)], OptExpr(onFalse), [OfExpr(l.cond), OfExpr(l.onTrue)], OptExpr(l.onFalse));
      TwoSame(OfExpr(cond), OfExpr(onTrue), OfExpr(l.cond), OfExpr(l.onTrue));
      OptSame(onFalse, l.onFalse);
  }

  lemma {:induction false} SameTry(k: ExprKind, l: ExprKind)
    requires k.Try? && l.Try?
    requires BareKind(k) == BareKind(l) && InExpr(k) == InExpr(l)
    ensures k == l
  {
    match k
    case Try(body, catches, last) => 
      HeadSame(OfExpr(body), OfExpr(l.body), Catches(catches) + OptExpr(last), Catches(l.catches) + OptExpr(l.last));
      BareCatchesAt(catches);
      BareCatchesAt(l.catches);
      PartsSame(Catches(catches), OptExpr(last), Catches(l.catches), OptExpr(l.last));
      CatchesSame(catches, l.catches);
      OptSame(last, l.last);
  }

  lemma {:induction false} FirstRebuilt(k: ExprKind, l: ExprKind)
    requires KindOf(k) == KindOf(l) && KindOf(k) < 7
    requires BareKind(k) == BareKind(l) && InExpr(k) == InExpr(l)
    ensures k == l
  {
    match k
    case ArrayLiteral(_) => SameArrays(k, l);
    case MapLiteral(_) => SameMaps(k, l);
    case Binary(_, _, _) => SamePairs(k, l);
    case Unary(_, _) => SameOperands(k, l);
    case Call(_, _) => SameCalls(k, l);
    case _ =>
  }

  lemma {:induction false} SecondRebuilt(k: ExprKind, l: ExprKind)
    requires KindOf(k) == KindOf(l) && 7 <= KindOf(k) < 13
    requires BareKind(k) == BareKind(l) && InExpr(k) == InExpr(l)
    ensures k == l
  {
    match k
    case MethodCall(_, _, _) => SameCalls(k, l);
    case Index(_, _) => SamePairs(k, l);
    case FieldAccess(_, _) => SameOperands(k, l);
    case SuperCall(_, _) => SameSuperCalls(k, l);
    case New(_, _, _) => SameNews(k, l);
    case _ =>
  }

  lemma {:induction false} ThirdRebuilt(k: ExprKind, l: ExprKind)
    requires KindOf(k) == KindOf(l) && 13 <= KindOf(k) < 20
    requires BareKind(k) == BareKind(l) && InExpr(k) == InExpr(l)
    ensures k == l
  {
    match k
    case StructLiteral(_, _) => SameStructs(k, l);
    case Block(_) => SameContents(k, l);
    case If(_, _, _) => SameIf(k, l);
    case While(_, _) => SameHeads(k, l);
    case For(_, _, _) => SameHeads(k, l);
    case Loop(_) => SameLoops(k, l);
    case Match(_, _) => SameMatch(k, l);
    case _ =>
  }

  lemma {:induction false} FourthRebuilt(k: ExprKind, l: ExprKind)
    requires KindOf(k) == KindOf(l) && 20 <= KindOf(k) < 26
    requires BareKind(k) == BareKind(l) && InExpr(k) == InExpr(l)
    ensures k == l
  {
    match k
    case Return(_) => SameContents(k, l);
    case Throw(_) => SameThrows(k, l);
    case Try(_, _, _) => SameTry(k, l);
    case Assign(_, _) => SameAssigns(k, l);
    case _ =>
  }

  lemma {:induction false} FifthRebuilt(k: ExprKind, l: ExprKind)
    requires KindOf(k) == KindOf(l) && 26 <= KindOf(k) < 33
    requires BareKind(k) == BareKind(l) && InExpr(k) == InExpr(l)
    ensures k == l
  {
    match k
    case CompoundAssign(_, _, _) => SameAssigns(k, l);
    case Lambda(_, _, _) => SameLambdas(k, l);
    case Spawn(_) => SameTasks(k, l);
    case Await(_) => SameTasks(k, l);
    case Send(_, _) => SameRanges(k, l);
    case Recv(_) => SameRecvs(k, l);
    case _ =>
  }

  lemma {:induction false} SixthRebuilt(k: ExprKind, l: ExprKind)
    requires KindOf(k) == KindOf(l) && 33 <= KindOf(k)
    requires BareKind(k) == BareKind(l) && InExpr(k) == InExpr(l)
    ensures k == l
  {
    match k
    case Cast(_, _) => SameTyped(k, l);
    case Is(_, _) => SameTyped(k, l);
    case Range(_, _, _) => SameRanges(k, l);
    case Tuple(_) => SameTuples(k, l);
    case TupleIndex(_, _) => SameTuples(k, l);
    case EnumValue(_, _, _, _) => SameEnumValues(k, l);
    case _ =>
  }

  lemma {:induction false} ExprRebuilt(k: ExprKind, l: ExprKind)
    requires BareKind(k) == BareKind(l) && InExpr(k) == InExpr(l)
    ensures k == l
  {
    KindOfSame(k, l);
    if KindOf(k) < 7 {
      FirstRebuilt(k, l);
    } else if KindOf(k) < 13 {
      SecondRebuilt(k, l);
    } else if KindOf(k) < 20 {
      ThirdRebuilt(k, l);
    } else if KindOf(k) < 26 {
      FourthRebuilt(k, l);
    } else if KindOf(k) < 33 {
      FifthRebuilt(k, l);
    } else {
      SixthRebuilt(k, l);
    }
  }

  lemma {:induction false} SameSimpleStmts(k: StmtKind, l: StmtKind)
    requires (k.Expr? && l.Expr?) || (k.Let? && l.Let?) || (k.Var? && l.Var?) || (k.Assignment? && l.Assignment?)
             || (k.Return? && l.Return?) || (k.Throw? && l.Throw?)
    requires BareStmtKind(k) == BareStmtKind(l) && InStmt(k) == InStmt(l)
    ensures k == l
  {
    match k
    case Expr(expr) => OneSame(OfExpr(expr), OfExpr(l.expr));
    case Let(_, _, value) => OptSame(value, l.value);
    case Var(_, _, value, _) => OptSame(value, l.value);
    case Assignment(target, source) => TwoSame(OfExpr(target), OfExpr(source), OfExpr(l.target), OfExpr(l.source));
    case Return(value) => OptSame(value, l.value);
    case Throw(expr) => OneSame(OfExpr(expr), OfExpr(l.expr));
  }

  lemma {:induction false} SameHeadedStmts(k: StmtKind, l: StmtKind)
    requires (k.While? && l.While?) || (k.For? && l.For?)
    requires BareStmtKind(k) == BareStmtKind(l) && InStmt(k) == InStmt(l)
    ensures k == l
  {
    match k
    case While(cond, body) => TwoSame(OfExpr(cond), OfStmt(body), OfExpr(l.cond), OfStmt(l.body));
    case For(_, iter, body) => TwoSame(OfExpr(iter), OfStmt(body), OfExpr(l.iter), OfStmt(l.body));
  }

  lemma {:induction false} SameNestedStmts(k: StmtKind, l: StmtKind)
    requires (k.Loop? && l.Loop?) || (k.Defer? && l.Defer?) || (k.Block? && l.Block?)
    requires BareStmtKind(k) == BareStmtKind(l) && InStmt(k) == InStmt(l)
    ensures k == l
  {
    match k
    case Loop(body) => OneSame(OfStmt(body), OfStmt(l.body));
    case Defer(body) => OneSame(OfStmt(body), OfStmt(l.body));
    case Block(stmts) => StmtsSame(stmts, l.stmts);
  }

  lemma {:induction false} SameSelect(k: StmtKind, l: StmtKind)
    requires k.Select? && l.Select?
    requires BareStmtKind(k) == BareStmtKind(l) && InStmt(k) == InStmt(l)
    ensures k == l
  {
    match k
    case Select(arms, otherwise) => 
      PartsSame(Arms(arms), OptStmt(otherwise), Arms(l.arms), OptStmt(l.otherwise));
      ArmsSame(arms, l.arms);
      OptStmtSame(otherwise, l.otherwise);
  }

  lemma {:induction false} SameIfStmt(k: StmtKind, l: StmtKind)
    requires k.If? && l.If?
    requires BareStmtKind(k) == BareStmtKind(l) && InStmt(k) == InStmt(l)
    ensures k == l
  {
    match k
    case If(cond, onTrue, onFalse) => 
      PartsSame([OfExpr(cond), OfStmt(onTrue)], OptStmt(onFalse), [OfExpr(l.cond), OfStmt(l.onTrue)], OptStmt(l.onFalse));
      TwoSame(OfExpr(cond), OfStmt(onTrue), OfExpr(l.cond), OfStmt(l.onTrue));
      OptStmtSame(onFalse, l.onFalse);
  }

  lemma {:induction false} SameForC(k: StmtKind, l: StmtKind)
    requires k.ForC? && l.ForC?
    requires BareStmtKind(k) == BareStmtKind(l) && InStmt(k) == InStmt(l)
    ensures k == l
  {
    match k
    case ForC(init, test, update, body) => 
      PartsSame(OptStmt(init), OptExpr(test) + (OptExpr(update) + [OfStmt(body)]),
                OptStmt(l.init), OptExpr(l.test) + (OptExpr(l.update) + [OfStmt(l.body)]));
      PartsSame(OptExpr(test), OptExpr(update) + [OfStmt(body)], OptExpr(l.test), OptExpr(l.update) + [OfStmt(l.body)]);
      PartsSame(OptExpr(update), [OfStmt(body)], OptExpr(l.update), [OfStmt(l.body)]);
      OptStmtSame(init, l.init);
      OptSame(test, l.test);
      OptSame(update, l.update);
      OneSame(OfStmt(body), OfStmt(l.body));
  }

  lemma {:induction false} SameTryStmt(k: StmtKind, l: StmtKind)
    requires k.Try? && l.Try?
    requires BareStmtKind(k) == BareStmtKind(l) && InStmt(k) == InStmt(l)
    ensures k == l
  {
    match k
    case Try(body, catches, last) => 
      HeadSame(OfStmt(body), OfStmt(l.body), Catches(catches) + OptStmt(last), Catches(l.catches) + OptStmt(l.last));
      BareCatchesAt(catches);
      BareCatchesAt(l.catches);
      PartsSame(Catches(catches), OptStmt(last), Catches(l.catches), OptStmt(l.last));
      CatchesSame(catches, l.catches);
      OptStmtSame(last, l.last);
  }

  lemma {:induction false} StmtRebuilt(k: StmtKind, l: StmtKind)
    requires BareStmtKind(k) == BareStmtKind(l) && InStmt(k) == InStmt(l)
    ensures k == l
  {
    StmtKindKept(k);
    StmtKindKept(l);
    match k
    case Expr(_) => SameSimpleStmts(k, l);
    case Let(_, _, _) => SameSimpleStmts(k, l);
    case Var(_, _, _, _) => SameSimpleStmts(k, l);
    case Assignment(_, _) => SameSimpleStmts(k, l);
    case If(_, _, _) => SameIfStmt(k, l);
    case While(_, _) => SameHeadedStmts(k, l);
    case For(_, _, _) => SameHeadedStmts(k, l);
    case ForC(_, _, _, _) => SameForC(k, l);
    case Loop(_) => SameNestedStmts(k, l);
    case Return(_) => SameSimpleStmts(k, l);
    case Throw(_) => SameSimpleStmts(k, l);
    case Try(_, _, _) => SameTryStmt(k, l);
    case Defer(_) => SameNestedStmts(k, l);
    case Block(_) => SameNestedStmts(k, l);
    case Select(_, _) => SameSelect(k, l);
    case _ =>
  }

  lemma {:induction false} DeclRebuilt(k: DeclKind, l: DeclKind)
    requires BareDeclKind(k) == BareDeclKind(l) && InDecl(k) == InDecl(l)
    ensures k == l
  {
    match k
    case Function(decl) => OneSame(OfStmt(decl.body), OfStmt(l.decl.body));
    case Class(_, _, _, methods) => MethodsSame(methods, l.methods);
    case Interface(_, functions) => FunctionsSame(functions, l.functions);
    case Trait(_, functions) => FunctionsSame(functions, l.functions);
    case Namespace(_, decls) => DeclsSame(decls, l.decls);
    case _ =>
  }

  /** A node is what it is without ids, its own id, and what is inside it. */
  lemma {:induction false} Rebuilt(m: Node, n: Node)
    requires Wiped(m) == Wiped(n) && Own(m) == Own(n) && Children(m) == Children(n)
    ensures m == n
  {
    match m
    case OfExpr(e) =>
      assert Own(m)[0] == e.id && Own(n)[0] == n.e.id;
      ExprRebuilt(e.node, n.e.node);
    case OfStmt(s) => StmtRebuilt(s.node, n.s.node);
    case OfDecl(d) => DeclRebuilt(d.node, n.d.node);
    case OfFile(ds) => DeclsSame(ds, n.ds);
  }

  // ---- Whole trees ----

  /** Listings of the same lengths are the same exactly piece by piece. */
  lemma {:induction false} PiecesSame(f: Node -> seq<nat>, ms: seq<Node>, ns: seq<Node>)
    requires |ms| == |ns| && forall i :: 0 <= i < |ms| ==> |f(ms[i])| == |f(ns[i])|
    ensures |Concat(f, ms)| == |Concat(f, ns)|
    ensures Concat(f, ms) == Concat(f, ns) ==> forall i :: 0 <= i < |ms| ==> f(ms[i]) == f(ns[i])
    decreases |ms|
  {
    if ms != [] {
      var n := |ms| - 1;
      var a, b, c, d := Concat(f, ms[..n]), f(ms[n]), Concat(f, ns[..n]), f(ns[n]);
      PiecesSame(f, ms[..n], ns[..n]);
      assert Concat(f, ms) == a + b && Concat(f, ns) == c + d;
      if a + b == c + d {
        assert (a + b)[..|a|] == a && (c + d)[..|c|] == c;
        assert (a + b)[|a|..] == b && (c + d)[|c|..] == d;
        forall i | 0 <= i < |ms| ensures f(ms[i]) == f(ns[i]) {
          if i < n { assert ms[..n][i] == ms[i] && ns[..n][i] == ns[i]; }
        }
      }
    }
  }

  lemma {:induction false} WipedPairs(m: Node, n: Node)
    requires Wiped(m) == Wiped(n)
    ensures |Children(m)| == |Children(n)|
    ensures forall i :: 0 <= i < |Children(m)| ==> Wiped(Children(m)[i]) == Wiped(Children(n)[i])
  {
    ChildrenWiped(m);
    ChildrenWiped(n);
    var a, b := WipedAll(Children(m)), WipedAll(Children(n));
    assert a == b;
    forall i | 0 <= i < |Children(m)| ensures Wiped(Children(m)[i]) == Wiped(Children(n)[i]) {
      assert a[i] == b[i];
    }
  }

  /** Nodes that are the same without ids list as many, and if they list the same they are the same. */
  lemma {:induction false} SameNode(f: Node -> seq<nat>, m: Node, n: Node, h: nat)
    requires Preorder(f) && Wiped(m) == Wiped(n) && Tall(m, h)
    ensures |f(m)| == |f(n)| && (f(m) == f(n) ==> m == n)
    decreases h
  {
    WipedPairs(m, n);
    var ms, ns := Children(m), Children(n);
    forall i | 0 <= i < |ms| ensures |f(ms[i])| == |f(ns[i])| && (f(ms[i]) == f(ns[i]) ==> ms[i] == ns[i]) {
      SameNode(f, ms[i], ns[i], h - 1);
    }
    SameParts(f, m, n, ms, ns);
    if f(m) == f(n) {
      assert ms == ns;
      Rebuilt(m, n);
    }
  }

  /** The listing of a node taken apart. */
  lemma {:induction false} SameParts(f: Node -> seq<nat>, m: Node, n: Node, ms: seq<Node>, ns: seq<Node>)
    requires Preorder(f) && Wiped(m) == Wiped(n) && ms == Children(m) && ns == Children(n) && |ms| == |ns|
    requires forall i :: 0 <= i < |ms| ==> |f(ms[i])| == |f(ns[i])|
    ensures |f(m)| == |f(n)|
    ensures f(m) == f(n) ==> Own(m) == Own(n) && forall i :: 0 <= i < |ms| ==> f(ms[i]) == f(ns[i])
  {
    PiecesSame(f, ms, ns);
    assert Unfolds(f, m) && Unfolds(f, n);
    var a, b, c, d := Own(m), Concat(f, ms), Own(n), Concat(f, ns);
    assert |a| == |c|;
    if f(m) == f(n) {
      assert (a + b)[..|a|] == a && (c + d)[..|c|] == c;
      assert (a + b)[|a|..] == b && (c + d)[|c|..] == d;
    }
  }

  /** Files that are the same without ids and list the same ids are the same. */
  lemma {:induction false} SameFile(xs: seq<Decl>, ys: seq<Decl>)
    ensures BareFile(xs) == BareFile(ys) && FileIds(xs) == FileIds(ys) <==> xs == ys
  {
    if BareFile(xs) == BareFile(ys) {
      var h := NodeEnds(OfFile(xs));
      ListedPreorder();
      SameNode(Listed, OfFile(xs), OfFile(ys), h);
    }
  }
}
