/**
 The pass that gives every expression of a syntax tree its own id.
 */
module NodeIds {
  import opened Wrappers
  import opened Ast
  import opened Places

  // ---- Numbers in a row ----

  function Interval(lo: nat, hi: nat): (r: seq<nat>)
    ensures lo <= hi ==> |r| == hi - lo
    decreases hi - lo
  {
    if lo >= hi then [] else Interval(lo, hi - 1) + [hi - 1]
  }

  lemma {:induction false} IntervalJoin(lo: nat, mid: nat, hi: nat)
    requires lo <= mid <= hi
    ensures Interval(lo, mid) + Interval(mid, hi) == Interval(lo, hi)
    decreases hi - mid
  {
    if mid == hi {
      assert Interval(lo, mid) + [] == Interval(lo, mid);
    } else {
      IntervalJoin(lo, mid, hi - 1);
      assert Interval(lo, mid) + (Interval(mid, hi - 1) + [hi - 1]) == Interval(lo, mid) + Interval(mid, hi - 1) + [hi - 1];
    }
  }

  lemma {:induction false} IntervalAt(lo: nat, hi: nat, i: nat)
    requires lo <= hi && i < hi - lo
    ensures Interval(lo, hi)[i] == lo + i
    decreases hi - lo
  {
    if i < hi - 1 - lo {
      IntervalAt(lo, hi - 1, i);
    }
  }

  /** The ids that are handed out while the counter goes from `lo` to `hi`. */
  ghost predicate Numbered(ids: seq<nat>, count: nat, lo: nat, hi: nat) { hi == lo + count && ids == Interval(lo, hi) }

  lemma {:induction false} Then(x: seq<nat>, y: seq<nat>, cx: nat, cy: nat, lo: nat, mid: nat, hi: nat)
    requires Numbered(x, cx, lo, mid) && Numbered(y, cy, mid, hi)
    ensures Numbered(x + y, cx + cy, lo, hi)
  {
    IntervalJoin(lo, mid, hi);
  }

  // ---- The pass ----

  class Numberer {
    var next: nat

    constructor ()
      ensures next == 1
    {
      next := 1;
    }

    /** An expression takes the next id before anything inside it does. */
    method NumberExpr(e: Expr) returns (r: Expr)
      modifies this
      ensures Numbered(Ids(r), |Ids(e)|, old(next), next) && Bare(r) == Bare(e)
      decreases e
    {
      var id := next;
      next := next + 1;
      assert Interval(id, id) == [];
      var node := NumberKind(e.node);
      Then([id], KindIds(node), 1, |KindIds(e.node)|, id, id + 1, next);
      r := Expr.Expr(id, node);
    }

    /** The arms over the kinds of expressions. */
    method NumberKind(k: ExprKind) returns (r: ExprKind)
      modifies this
      ensures Numbered(KindIds(r), |KindIds(k)|, old(next), next) && BareKind(r) == BareKind(k)
      decreases k, 1
    {
      match k
      case Literal(_) => r := k;
      case ArrayLiteral(_) => r := NumberElements(k);
      case MapLiteral(_) => r := NumberEntriesOf(k);
      case Ident(_) => r := k;
      case Binary(_, _, _) => r := NumberOperands(k);
      case Unary(_, _) => r := NumberOperand(k);
      case Call(_, _) => r := NumberCalls(k);
      case MethodCall(_, _, _) => r := NumberCalls(k);
      case Index(_, _) => r := NumberOperands(k);
      case FieldAccess(_, _) => r := NumberOperand(k);
      case This => r := k;
      case SuperCall(_, _) => r := NumberArguments(k);
      case New(_, _, _) => r := NumberArguments(k);
      case StructLiteral(_, _) => r := NumberEntriesOf(k);
      case Block(_) => r := NumberBlock(k);
      case If(_, _, _) => r := NumberIf(k);
      case While(_, _) => r := NumberLoops(k);
      case For(_, _, _) => r := NumberLoops(k);
      case Loop(_) => r := NumberLoop(k);
      case Match(_, _) => r := NumberMatch(k);
      case Return(_) => r := NumberBlock(k);
      case Break => r := k;
      case Continue => r := k;
      case Throw(_) => r := NumberLoop(k);
      case Try(_, _, _) => r := NumberTry(k);
      case Assign(_, _) => r := NumberAssign(k);
      case CompoundAssign(_, _, _) => r := NumberAssign(k);
      case Lambda(_, _, _) => r := NumberLambda(k);
      case Spawn(_) => r := NumberTask(k);
      case Await(_) => r := NumberTask(k);
      case Channel => r := k;
      case Send(_, _) => r := NumberSend(k);
      case Recv(_) => r := NumberTask(k);
      case Cast(_, _) => r := NumberTyped(k);
      case Is(_, _) => r := NumberTyped(k);
      case Range(_, _, _) => r := NumberRange(k);
      case Tuple(_) => r := NumberElements(k);
      case TupleIndex(_, _) => r := NumberOperand(k);
      case EnumValue(_, _, _, _) => r := NumberArguments(k);
    }

    /** Elements. */
    method NumberElements(k: ExprKind) returns (r: ExprKind)
      requires k.ArrayLiteral? || k.Tuple?
      modifies this
      ensures Numbered(KindIds(r), |KindIds(k)|, old(next), next) && BareKind(r) == BareKind(k)
      decreases k, 0
    {
      match k
      case ArrayLiteral(es) =>
        var x := NumberExprs(es);
        r := ExprKind.ArrayLiteral(x);
      case Tuple(es) =>
        var x := NumberExprs(es);
        r := ExprKind.Tuple(x);
    }

    /** Arguments. */
    method NumberArguments(k: ExprKind) returns (r: ExprKind)
      requires k.SuperCall? || k.New? || k.EnumValue?
      modifies this
      ensures Numbered(KindIds(r), |KindIds(k)|, old(next), next) && BareKind(r) == BareKind(k)
      decreases k, 0
    {
      match k
      case SuperCall(methodName, args) =>
        var x := NumberExprs(args);
        r := ExprKind.SuperCall(methodName, x);
      case New(className, typeArgs, args) =>
        var x := NumberExprs(args);
        r := ExprKind.New(className, typeArgs, x);
      case EnumValue(enumName, variant, typeArgs, args) =>
        var x := NumberExprs(args);
        r := ExprKind.EnumValue(enumName, variant, typeArgs, x);
    }

    /** Entries of a map, fields of a struct. */
    method NumberEntriesOf(k: ExprKind) returns (r: ExprKind)
      requires k.MapLiteral? || k.StructLiteral?
      modifies this
      ensures Numbered(KindIds(r), |KindIds(k)|, old(next), next) && BareKind(r) == BareKind(k)
      decreases k, 0
    {
      match k
      case MapLiteral(entries) =>
        var x := NumberEntries(entries);
        r := ExprKind.MapLiteral(x);
      case StructLiteral(name, fields) =>
        var x := NumberInits(fields);
        r := ExprKind.StructLiteral(name, x);
    }

    /** Statements, or an optional value. */
    method NumberBlock(k: ExprKind) returns (r: ExprKind)
      requires k.Block? || k.Return?
      modifies this
      ensures Numbered(KindIds(r), |KindIds(k)|, old(next), next) && BareKind(r) == BareKind(k)
      decreases k, 0
    {
      match k
      case Block(stmts) =>
        var x := NumberStmts(stmts);
        r := ExprKind.Block(x);
      case Return(result) =>
        var x := NumberOpt(result);
        r := ExprKind.Return(x);
    }

    /** Two operands. */
    method NumberOperands(k: ExprKind) returns (r: ExprKind)
      requires k.Binary? || k.Index?
      modifies this
      ensures Numbered(KindIds(r), |KindIds(k)|, old(next), next) && BareKind(r) == BareKind(k)
      decreases k, 0
    {
      match k
      case Binary(op, lhs, rhs) =>
        var x := NumberExpr(lhs);
        ghost var mid := next;
        var y := NumberExpr(rhs);
        Then(Ids(x), Ids(y), |Ids(lhs)|, |Ids(rhs)|, old(next), mid, next);
        r := ExprKind.Binary(op, x, y);
      case Index(obj, index) =>
        var x := NumberExpr(obj);
        ghost var mid := next;
        var y := NumberExpr(index);
        Then(Ids(x), Ids(y), |Ids(obj)|, |Ids(index)|, old(next), mid, next);
        r := ExprKind.Index(x, y);
    }

    /** Two ends. */
    method NumberRange(k: ExprKind) returns (r: ExprKind)
      requires k.Range?
      modifies this
      ensures Numbered(KindIds(r), |KindIds(k)|, old(next), next) && BareKind(r) == BareKind(k)
      decreases k, 0
    {
      var x := NumberExpr(k.lo);
      ghost var mid := next;
      var y := NumberExpr(k.hi);
      Then(Ids(x), Ids(y), |Ids(k.lo)|, |Ids(k.hi)|, old(next), mid, next);
      r := ExprKind.Range(x, y, k.inclusive);
    }

    /** Channel and value. */
    method NumberSend(k: ExprKind) returns (r: ExprKind)
      requires k.Send?
      modifies this
      ensures Numbered(KindIds(r), |KindIds(k)|, old(next), next) && BareKind(r) == BareKind(k)
      decreases k, 0
    {
      var x := NumberExpr(k.target);
      ghost var mid := next;
      var y := NumberExpr(k.source);
      Then(Ids(x), Ids(y), |Ids(k.target)|, |Ids(k.source)|, old(next), mid, next);
      r := ExprKind.Send(x, y);
    }

    /** Head and body. */
    method NumberLoops(k: ExprKind) returns (r: ExprKind)
      requires k.While? || k.For?
      modifies this
      ensures Numbered(KindIds(r), |KindIds(k)|, old(next), next) && BareKind(r) == BareKind(k)
      decreases k, 0
    {
      match k
      case While(cond, body) =>
        var x := NumberExpr(cond);
        ghost var mid := next;
        var y := NumberExpr(body);
        Then(Ids(x), Ids(y), |Ids(cond)|, |Ids(body)|, old(next), mid, next);
        r := ExprKind.While(x, y);
      case For(variable, iter, body) =>
        var x := NumberExpr(iter);
        ghost var mid := next;
        var y := NumberExpr(body);
        Then(Ids(x), Ids(y), |Ids(iter)|, |Ids(body)|, old(next), mid, next);
        r := ExprKind.For(variable, x, y);
    }

    /** Target and value. */
    method NumberAssign(k: ExprKind) returns (r: ExprKind)
      requires k.Assign? || k.CompoundAssign?
      modifies this
      ensures Numbered(KindIds(r), |KindIds(k)|, old(next), next) && BareKind(r) == BareKind(k)
      decreases k, 0
    {
      match k
      case Assign(target, source) =>
        var x := NumberExpr(target);
        ghost var mid := next;
        var y := NumberExpr(source);
        Then(Ids(x), Ids(y), |Ids(target)|, |Ids(source)|, old(next), mid, next);
        r := ExprKind.Assign(x, y);
      case CompoundAssign(op, target, source) =>
        var x := NumberExpr(target);
        ghost var mid := next;
        var y := NumberExpr(source);
        Then(Ids(x), Ids(y), |Ids(target)|, |Ids(source)|, old(next), mid, next);
        r := ExprKind.CompoundAssign(op, x, y);
    }

    /** Callee and arguments. */
    method NumberCalls(k: ExprKind) returns (r: ExprKind)
      requires k.Call? || k.MethodCall?
      modifies this
      ensures Numbered(KindIds(r), |KindIds(k)|, old(next), next) && BareKind(r) == BareKind(k)
      decreases k, 0
    {
      match k
      case Call(callee, args) =>
        var x := NumberExpr(callee);
        ghost var mid := next;
        var y := NumberExprs(args);
        Then(Ids(x), ListIds(y), |Ids(callee)|, |ListIds(args)|, old(next), mid, next);
        r := ExprKind.Call(x, y);
      case MethodCall(obj, methodName, args) =>
        var x := NumberExpr(obj);
        ghost var mid := next;
        var y := NumberExprs(args);
        Then(Ids(x), ListIds(y), |Ids(obj)|, |ListIds(args)|, old(next), mid, next);
        r := ExprKind.MethodCall(x, methodName, y);
    }

    /** What is matched, and the cases. */
    method NumberMatch(k: ExprKind) returns (r: ExprKind)
      requires k.Match?
      modifies this
      ensures Numbered(KindIds(r), |KindIds(k)|, old(next), next) && BareKind(r) == BareKind(k)
      decreases k, 0
    {
      var x := NumberExpr(k.expr);
      ghost var mid := next;
      var y := NumberCases(k.cases);
      Then(Ids(x), CasesIds(y), |Ids(k.expr)|, |CasesIds(k.cases)|, old(next), mid, next);
      r := ExprKind.Match(x, y);
    }

    /** One operand. */
    method NumberOperand(k: ExprKind) returns (r: ExprKind)
      requires k.Unary? || k.FieldAccess? || k.TupleIndex?
      modifies this
      ensures Numbered(KindIds(r), |KindIds(k)|, old(next), next) && BareKind(r) == BareKind(k)
      decreases k, 0
    {
      match k
      case Unary(op, operand) =>
        var x := NumberExpr(operand);
        r := ExprKind.Unary(op, x);
      case FieldAccess(obj, field) =>
        var x := NumberExpr(obj);
        r := ExprKind.FieldAccess(x, field);
      case TupleIndex(tuple, position) =>
        var x := NumberExpr(tuple);
        r := ExprKind.TupleIndex(x, position);
    }

    /** One expression beside a type. */
    method NumberTyped(k: ExprKind) returns (r: ExprKind)
      requires k.Cast? || k.Is?
      modifies this
      ensures Numbered(KindIds(r), |KindIds(k)|, old(next), next) && BareKind(r) == BareKind(k)
      decreases k, 0
    {
      match k
      case Cast(expr, ty) =>
        var x := NumberExpr(expr);
        r := ExprKind.Cast(x, ty);
      case Is(expr, ty) =>
        var x := NumberExpr(expr);
        r := ExprKind.Is(x, ty);
    }

    /** The body. */
    method NumberLambda(k: ExprKind) returns (r: ExprKind)
      requires k.Lambda?
      modifies this
      ensures Numbered(KindIds(r), |KindIds(k)|, old(next), next) && BareKind(r) == BareKind(k)
      decreases k, 0
    {
      var x := NumberExpr(k.body);
      r := ExprKind.Lambda(k.params, k.retType, x);
    }

    /** One expression. */
    method NumberTask(k: ExprKind) returns (r: ExprKind)
      requires k.Spawn? || k.Await? || k.Recv?
      modifies this
      ensures Numbered(KindIds(r), |KindIds(k)|, old(next), next) && BareKind(r) == BareKind(k)
      decreases k, 0
    {
      match k
      case Spawn(expr) =>
        var x := NumberExpr(expr);
        r := ExprKind.Spawn(x);
      case Await(expr) =>
        var x := NumberExpr(expr);
        r := ExprKind.Await(x);
      case Recv(expr) =>
        var x := NumberExpr(expr);
        r := ExprKind.Recv(x);
    }

    /** One expression. */
    method NumberLoop(k: ExprKind) returns (r: ExprKind)
      requires k.Loop? || k.Throw?
      modifies this
      ensures Numbered(KindIds(r), |KindIds(k)|, old(next), next) && BareKind(r) == BareKind(k)
      decreases k, 0
    {
      match k
      case Loop(body) =>
        var x := NumberExpr(body);
        r := ExprKind.Loop(x);
      case Throw(expr) =>
        var x := NumberExpr(expr);
        r := ExprKind.Throw(x);
    }

    /** Condition, branch and optional branch. */
    method NumberIf(k: ExprKind) returns (r: ExprKind)
      requires k.If?
      modifies this
      ensures Numbered(KindIds(r), |KindIds(k)|, old(next), next) && BareKind(r) == BareKind(k)
      decreases k, 0
    {
      var x := NumberExpr(k.cond);
      ghost var m1 := next;
      var y := NumberExpr(k.onTrue);
      ghost var m2 := next;
      var z := NumberOpt(k.onFalse);
      Then(Ids(y), OptIds(z), |Ids(k.onTrue)|,
           |OptIds(k.onFalse)|, m1, m2, next);
      Then(Ids(x), Ids(y) + OptIds(z), |Ids(k.cond)|,
           |Ids(k.onTrue)| + |OptIds(k.onFalse)|, old(next), m1, next);
      r := ExprKind.If(x, y, z);
    }

    /** Body, handlers and optional last part. */
    method NumberTry(k: ExprKind) returns (r: ExprKind)
      requires k.Try?
      modifies this
      ensures Numbered(KindIds(r), |KindIds(k)|, old(next), next) && BareKind(r) == BareKind(k)
      decreases k, 0
    {
      var x := NumberExpr(k.body);
      ghost var m1 := next;
      var y := NumberCatches(k.catches);
      ghost var m2 := next;
      var z := NumberOpt(k.last);
      Then(CatchesIds(y), OptIds(z), |CatchesIds(k.catches)|,
           |OptIds(k.last)|, m1, m2, next);
      Then(Ids(x), CatchesIds(y) + OptIds(z), |Ids(k.body)|,
           |CatchesIds(k.catches)| + |OptIds(k.last)|, old(next), m1, next);
      r := ExprKind.Try(x, y, z);
    }

    method NumberOpt(x: Option<Expr>) returns (r: Option<Expr>)
      modifies this
      ensures Numbered(OptIds(r), |OptIds(x)|, old(next), next) && BareOpt(r) == BareOpt(x)
      decreases x
    {
      r := None;
      if x.Some? {
        var y := NumberExpr(x.value);
        r := Some(y);
      }
    }

    method NumberExprs(xs: seq<Expr>) returns (r: seq<Expr>)
      modifies this
      ensures Numbered(ListIds(r), |ListIds(xs)|, old(next), next) && BareList(r) == BareList(xs)
      decreases xs
    {
      r := [];
      for i := 0 to |xs|
        invariant Numbered(ListIds(r), |ListIds(xs[..i])|, old(next), next) && BareList(r) == BareList(xs[..i])
      {
        ghost var mid := next;
        var x := NumberExpr(xs[i]);
        Then(ListIds(r), Ids(x), |ListIds(xs[..i])|, |Ids(xs[i])|, old(next), mid, next);
        assert xs[..i + 1][..i] == xs[..i];
        assert (r + [x])[..|r|] == r;
        r := r + [x];
      }
      assert xs[..|xs|] == xs;
    }

    method NumberEntry(k: MapEntry) returns (r: MapEntry)
      modifies this
      ensures Numbered(EntryIds(r), |EntryIds(k)|, old(next), next) && BareEntry(r) == BareEntry(k)
      decreases k
    {
      var x := NumberExpr(k.key);
      ghost var mid := next;
      var y := NumberExpr(k.value);
      Then(Ids(x), Ids(y), |Ids(k.key)|, |Ids(k.value)|, old(next), mid, next);
      r := MapEntry(x, y);
    }

    method NumberEntries(xs: seq<MapEntry>) returns (r: seq<MapEntry>)
      modifies this
      ensures Numbered(EntriesIds(r), |EntriesIds(xs)|, old(next), next) && BareEntries(r) == BareEntries(xs)
      decreases xs
    {
      r := [];
      for i := 0 to |xs|
        invariant Numbered(EntriesIds(r), |EntriesIds(xs[..i])|, old(next), next) && BareEntries(r) == BareEntries(xs[..i])
      {
        ghost var mid := next;
        var x := NumberEntry(xs[i]);
        Then(EntriesIds(r), EntryIds(x), |EntriesIds(xs[..i])|, |EntryIds(xs[i])|, old(next), mid, next);
        assert xs[..i + 1][..i] == xs[..i];
        assert (r + [x])[..|r|] == r;
        r := r + [x];
      }
      assert xs[..|xs|] == xs;
    }

    method NumberInit(k: FieldInit) returns (r: FieldInit)
      modifies this
      ensures Numbered(InitIds(r), |InitIds(k)|, old(next), next) && BareInit(r) == BareInit(k)
      decreases k
    {
      var x := NumberExpr(k.value);
      r := FieldInit(k.name, x);
    }

    method NumberInits(xs: seq<FieldInit>) returns (r: seq<FieldInit>)
      modifies this
      ensures Numbered(InitsIds(r), |InitsIds(xs)|, old(next), next) && BareInits(r) == BareInits(xs)
      decreases xs
    {
      r := [];
      for i := 0 to |xs|
        invariant Numbered(InitsIds(r), |InitsIds(xs[..i])|, old(next), next) && BareInits(r) == BareInits(xs[..i])
      {
        ghost var mid := next;
        var x := NumberInit(xs[i]);
        Then(InitsIds(r), InitIds(x), |InitsIds(xs[..i])|, |InitIds(xs[i])|, old(next), mid, next);
        assert xs[..i + 1][..i] == xs[..i];
        assert (r + [x])[..|r|] == r;
        r := r + [x];
      }
      assert xs[..|xs|] == xs;
    }

    method NumberCase(k: MatchCase) returns (r: MatchCase)
      modifies this
      ensures Numbered(CaseIds(r), |CaseIds(k)|, old(next), next) && BareCase(r) == BareCase(k)
      decreases k
    {
      var x := NumberOpt(k.guard);
      ghost var mid := next;
      var y := NumberExpr(k.body);
      Then(OptIds(x), Ids(y), |OptIds(k.guard)|, |Ids(k.body)|, old(next), mid, next);
      r := MatchCase(k.pattern, x, y);
    }

    method NumberCases(xs: seq<MatchCase>) returns (r: seq<MatchCase>)
      modifies this
      ensures Numbered(CasesIds(r), |CasesIds(xs)|, old(next), next) && BareCases(r) == BareCases(xs)
      decreases xs
    {
      r := [];
      for i := 0 to |xs|
        invariant Numbered(CasesIds(r), |CasesIds(xs[..i])|, old(next), next) && BareCases(r) == BareCases(xs[..i])
      {
        ghost var mid := next;
        var x := NumberCase(xs[i]);
        Then(CasesIds(r), CaseIds(x), |CasesIds(xs[..i])|, |CaseIds(xs[i])|, old(next), mid, next);
        assert xs[..i + 1][..i] == xs[..i];
        assert (r + [x])[..|r|] == r;
        r := r + [x];
      }
      assert xs[..|xs|] == xs;
    }

    method NumberCatch(k: CatchClause) returns (r: CatchClause)
      modifies this
      ensures Numbered(CatchIds(r), |CatchIds(k)|, old(next), next) && BareCatch(r) == BareCatch(k)
      decreases k
    {
      var x := NumberStmt(k.body);
      r := CatchClause(k.param, k.ty, x);
    }

    method NumberCatches(xs: seq<CatchClause>) returns (r: seq<CatchClause>)
      modifies this
      ensures Numbered(CatchesIds(r), |CatchesIds(xs)|, old(next), next) && BareCatches(r) == BareCatches(xs)
      decreases xs
    {
      r := [];
      for i := 0 to |xs|
        invariant Numbered(CatchesIds(r), |CatchesIds(xs[..i])|, old(next), next) && BareCatches(r) == BareCatches(xs[..i])
      {
        ghost var mid := next;
        var x := NumberCatch(xs[i]);
        Then(CatchesIds(r), CatchIds(x), |CatchesIds(xs[..i])|, |CatchIds(xs[i])|, old(next), mid, next);
        assert xs[..i + 1][..i] == xs[..i];
        assert (r + [x])[..|r|] == r;
        r := r + [x];
      }
      assert xs[..|xs|] == xs;
    }

    method NumberStmt(s: Stmt) returns (r: Stmt)
      modifies this
      ensures Numbered(StmtIds(r), |StmtIds(s)|, old(next), next) && BareStmt(r) == BareStmt(s)
      decreases s
    {
      var node := NumberStmtKind(s.node);
      r := Stmt(s.id, node);
    }

    /** The arms over the kinds of statements. */
    method NumberStmtKind(k: StmtKind) returns (r: StmtKind)
      modifies this
      ensures Numbered(StmtKindIds(r), |StmtKindIds(k)|, old(next), next) && BareStmtKind(r) == BareStmtKind(k)
      decreases k, 1
    {
      match k
      case Expr(_) => r := NumberSimple(k);
      case Let(_, _, _) => r := NumberSimple(k);
      case Var(_, _, _, _) => r := NumberSimple(k);
      case Assignment(_, _) => r := NumberSimple(k);
      case If(_, _, _) => r := NumberIfStmt(k);
      case While(_, _) => r := NumberHeaded(k);
      case For(_, _, _) => r := NumberHeaded(k);
      case ForC(_, _, _, _) => r := NumberForC(k);
      case Loop(_) => r := NumberNested(k);
      case Return(_) => r := NumberSimple(k);
      case Break => r := k;
      case Continue => r := k;
      case Throw(_) => r := NumberSimple(k);
      case Try(_, _, _) => r := NumberTryStmt(k);
      case Defer(_) => r := NumberNested(k);
      case Block(_) => r := NumberNested(k);
      case Select(_, _) => r := NumberSelect(k);
      case Empty => r := k;
    }

    /** Statements made of expressions. */
    method NumberSimple(k: StmtKind) returns (r: StmtKind)
      requires k.Expr? || k.Throw? || k.Let? || k.Var? || k.Return? || k.Assignment?
      modifies this
      ensures Numbered(StmtKindIds(r), |StmtKindIds(k)|, old(next), next) && BareStmtKind(r) == BareStmtKind(k)
      decreases k, 0
    {
      match k
      case Expr(expr) =>
        var x := NumberExpr(expr);
        r := StmtKind.Expr(x);
      case Throw(expr) =>
        var x := NumberExpr(expr);
        r := StmtKind.Throw(x);
      case Let(name, ty, value) =>
        var x := NumberOpt(value);
        r := StmtKind.Let(name, ty, x);
      case Var(name, ty, value, mutable) =>
        var x := NumberOpt(value);
        r := StmtKind.Var(name, ty, x, mutable);
      case Return(value) =>
        var x := NumberOpt(value);
        r := StmtKind.Return(x);
      case Assignment(target, source) =>
        var x := NumberExpr(target);
        ghost var mid := next;
        var y := NumberExpr(source);
        Then(Ids(x), Ids(y), |Ids(target)|, |Ids(source)|, old(next), mid, next);
        r := StmtKind.Assignment(x, y);
    }

    /** Head and body. */
    method NumberHeaded(k: StmtKind) returns (r: StmtKind)
      requires k.While? || k.For?
      modifies this
      ensures Numbered(StmtKindIds(r), |StmtKindIds(k)|, old(next), next) && BareStmtKind(r) == BareStmtKind(k)
      decreases k, 0
    {
      match k
      case While(cond, body) =>
        var x := NumberExpr(cond);
        ghost var mid := next;
        var y := NumberStmt(body);
        Then(Ids(x), StmtIds(y), |Ids(cond)|, |StmtIds(body)|, old(next), mid, next);
        r := StmtKind.While(x, y);
      case For(variable, iter, body) =>
        var x := NumberExpr(iter);
        ghost var mid := next;
        var y := NumberStmt(body);
        Then(Ids(x), StmtIds(y), |Ids(iter)|, |StmtIds(body)|, old(next), mid, next);
        r := StmtKind.For(variable, x, y);
    }

    /** Statements that hold statements. */
    method NumberNested(k: StmtKind) returns (r: StmtKind)
      requires k.Loop? || k.Defer? || k.Block?
      modifies this
      ensures Numbered(StmtKindIds(r), |StmtKindIds(k)|, old(next), next) && BareStmtKind(r) == BareStmtKind(k)
      decreases k, 0
    {
      match k
      case Loop(body) =>
        var x := NumberStmt(body);
        r := StmtKind.Loop(x);
      case Defer(body) =>
        var x := NumberStmt(body);
        r := StmtKind.Defer(x);
      case Block(stmts) =>
        var x := NumberStmts(stmts);
        r := StmtKind.Block(x);
    }

    /** Arms and optional default. */
    method NumberSelect(k: StmtKind) returns (r: StmtKind)
      requires k.Select?
      modifies this
      ensures Numbered(StmtKindIds(r), |StmtKindIds(k)|, old(next), next) && BareStmtKind(r) == BareStmtKind(k)
      decreases k, 0
    {
      var x := NumberArms(k.arms);
      ghost var mid := next;
      var y := NumberOptStmt(k.otherwise);
      Then(ArmsIds(x), OptStmtIds(y), |ArmsIds(k.arms)|, |OptStmtIds(k.otherwise)|, old(next), mid, next);
      r := StmtKind.Select(x, y);
    }

    /** Condition, branch and optional branch. */
    method NumberIfStmt(k: StmtKind) returns (r: StmtKind)
      requires k.If?
      modifies this
      ensures Numbered(StmtKindIds(r), |StmtKindIds(k)|, old(next), next) && BareStmtKind(r) == BareStmtKind(k)
      decreases k, 0
    {
      var x := NumberExpr(k.cond);
      ghost var m1 := next;
      var y := NumberStmt(k.onTrue);
      ghost var m2 := next;
      var z := NumberOptStmt(k.onFalse);
      Then(StmtIds(y), OptStmtIds(z), |StmtIds(k.onTrue)|,
           |OptStmtIds(k.onFalse)|, m1, m2, next);
      Then(Ids(x), StmtIds(y) + OptStmtIds(z), |Ids(k.cond)|,
           |StmtIds(k.onTrue)| + |OptStmtIds(k.onFalse)|, old(next), m1, next);
      r := StmtKind.If(x, y, z);
    }

    /** Start, condition, step and body. */
    method NumberForC(k: StmtKind) returns (r: StmtKind)
      requires k.ForC?
      modifies this
      ensures Numbered(StmtKindIds(r), |StmtKindIds(k)|, old(next), next) && BareStmtKind(r) == BareStmtKind(k)
      decreases k, 0
    {
      var x := NumberOptStmt(k.init);
      ghost var m1 := next;
      var y := NumberOpt(k.test);
      ghost var m2 := next;
      var z := NumberOpt(k.update);
      ghost var m3 := next;
      var w := NumberStmt(k.body);
      Then(OptIds(z), StmtIds(w), |OptIds(k.update)|,
           |StmtIds(k.body)|, m2, m3, next);
      Then(OptIds(y), OptIds(z) + StmtIds(w), |OptIds(k.test)|,
           |OptIds(k.update)| + |StmtIds(k.body)|, m1, m2, next);
      Then(OptStmtIds(x), OptIds(y) + (OptIds(z) + StmtIds(w)), |OptStmtIds(k.init)|,
           |OptIds(k.test)| + (|OptIds(k.update)| + |StmtIds(k.body)|), old(next), m1, next);
      r := StmtKind.ForC(x, y, z, w);
    }

    /** Body, handlers and optional last part. */
    method NumberTryStmt(k: StmtKind) returns (r: StmtKind)
      requires k.Try?
      modifies this
      ensures Numbered(StmtKindIds(r), |StmtKindIds(k)|, old(next), next) && BareStmtKind(r) == BareStmtKind(k)
      decreases k, 0
    {
      var x := NumberStmt(k.body);
      ghost var m1 := next;
      var y := NumberCatches(k.catches);
      ghost var m2 := next;
      var z := NumberOptStmt(k.last);
      Then(CatchesIds(y), OptStmtIds(z), |CatchesIds(k.catches)|,
           |OptStmtIds(k.last)|, m1, m2, next);
      Then(StmtIds(x), CatchesIds(y) + OptStmtIds(z), |StmtIds(k.body)|,
           |CatchesIds(k.catches)| + |OptStmtIds(k.last)|, old(next), m1, next);
      r := StmtKind.Try(x, y, z);
    }

    method NumberOptStmt(x: Option<Stmt>) returns (r: Option<Stmt>)
      modifies this
      ensures Numbered(OptStmtIds(r), |OptStmtIds(x)|, old(next), next) && BareOptStmt(r) == BareOptStmt(x)
      decreases x
    {
      r := None;
      if x.Some? {
        var y := NumberStmt(x.value);
        r := Some(y);
      }
    }

    method NumberStmts(xs: seq<Stmt>) returns (r: seq<Stmt>)
      modifies this
      ensures Numbered(BlockIds(r), |BlockIds(xs)|, old(next), next) && BareBlock(r) == BareBlock(xs)
      decreases xs
    {
      r := [];
      for i := 0 to |xs|
        invariant Numbered(BlockIds(r), |BlockIds(xs[..i])|, old(next), next) && BareBlock(r) == BareBlock(xs[..i])
      {
        ghost var mid := next;
        var x := NumberStmt(xs[i]);
        Then(BlockIds(r), StmtIds(x), |BlockIds(xs[..i])|, |StmtIds(xs[i])|, old(next), mid, next);
        assert xs[..i + 1][..i] == xs[..i];
        assert (r + [x])[..|r|] == r;
        r := r + [x];
      }
      assert xs[..|xs|] == xs;
    }

    method NumberArm(k: SelectArm) returns (r: SelectArm)
      modifies this
      ensures Numbered(ArmIds(r), |ArmIds(k)|, old(next), next) && BareArm(r) == BareArm(k)
      decreases k
    {
      var x := NumberExpr(k.channel);
      ghost var mid := next;
      var y := NumberStmt(k.body);
      Then(Ids(x), StmtIds(y), |Ids(k.channel)|, |StmtIds(k.body)|, old(next), mid, next);
      r := SelectArm(x, k.variable, y);
    }

    method NumberArms(xs: seq<SelectArm>) returns (r: seq<SelectArm>)
      modifies this
      ensures Numbered(ArmsIds(r), |ArmsIds(xs)|, old(next), next) && BareArms(r) == BareArms(xs)
      decreases xs
    {
      r := [];
      for i := 0 to |xs|
        invariant Numbered(ArmsIds(r), |ArmsIds(xs[..i])|, old(next), next) && BareArms(r) == BareArms(xs[..i])
      {
        ghost var mid := next;
        var x := NumberArm(xs[i]);
        Then(ArmsIds(r), ArmIds(x), |ArmsIds(xs[..i])|, |ArmIds(xs[i])|, old(next), mid, next);
        assert xs[..i + 1][..i] == xs[..i];
        assert (r + [x])[..|r|] == r;
        r := r + [x];
      }
      assert xs[..|xs|] == xs;
    }

    method NumberFunction(k: Function) returns (r: Function)
      modifies this
      ensures Numbered(FunctionIds(r), |FunctionIds(k)|, old(next), next) && BareFunction(r) == BareFunction(k)
      decreases k
    {
      var body := NumberStmt(k.body);
      r := k.(body := body);
    }

    method NumberFunctions(xs: seq<Function>) returns (r: seq<Function>)
      modifies this
      ensures Numbered(FunctionsIds(r), |FunctionsIds(xs)|, old(next), next) && BareFunctions(r) == BareFunctions(xs)
      decreases xs
    {
      r := [];
      for i := 0 to |xs|
        invariant Numbered(FunctionsIds(r), |FunctionsIds(xs[..i])|, old(next), next) && BareFunctions(r) == BareFunctions(xs[..i])
      {
        ghost var mid := next;
        var x := NumberFunction(xs[i]);
        Then(FunctionsIds(r), FunctionIds(x), |FunctionsIds(xs[..i])|, |FunctionIds(xs[i])|, old(next), mid, next);
        assert xs[..i + 1][..i] == xs[..i];
        assert (r + [x])[..|r|] == r;
        r := r + [x];
      }
      assert xs[..|xs|] == xs;
    }

    method NumberMethod(k: Method) returns (r: Method)
      modifies this
      ensures Numbered(MethodIds(r), |MethodIds(k)|, old(next), next) && BareMethod(r) == BareMethod(k)
      decreases k
    {
      var body := NumberStmt(k.body);
      r := k.(body := body);
    }

    method NumberMethods(xs: seq<Method>) returns (r: seq<Method>)
      modifies this
      ensures Numbered(MethodsIds(r), |MethodsIds(xs)|, old(next), next) && BareMethods(r) == BareMethods(xs)
      decreases xs
    {
      r := [];
      for i := 0 to |xs|
        invariant Numbered(MethodsIds(r), |MethodsIds(xs[..i])|, old(next), next) && BareMethods(r) == BareMethods(xs[..i])
      {
        ghost var mid := next;
        var x := NumberMethod(xs[i]);
        Then(MethodsIds(r), MethodIds(x), |MethodsIds(xs[..i])|, |MethodIds(xs[i])|, old(next), mid, next);
        assert xs[..i + 1][..i] == xs[..i];
        assert (r + [x])[..|r|] == r;
        r := r + [x];
      }
      assert xs[..|xs|] == xs;
    }

    method NumberDecl(d: Decl) returns (r: Decl)
      modifies this
      ensures Numbered(DeclIds(r), |DeclIds(d)|, old(next), next) && BareDecl(r) == BareDecl(d)
      decreases d
    {
      var node := NumberDeclKind(d.node);
      r := Decl(d.id, node);
    }

    /** The arms over the kinds of declarations; those that hold no function are passed over. */
    method NumberDeclKind(k: DeclKind) returns (r: DeclKind)
      modifies this
      ensures Numbered(DeclKindIds(r), |DeclKindIds(k)|, old(next), next) && BareDeclKind(r) == BareDeclKind(k)
      decreases k, 1
    {
      match k
      case Function(_) => r := NumberMembers(k);
      case Class(_, _, _, _) => r := NumberMembers(k);
      case Interface(_, _) => r := NumberMembers(k);
      case Enum(_, _) => r := k;
      case Trait(_, _) => r := NumberMembers(k);
      case Import(_) => r := k;
      case Module(_) => r := k;
      case Namespace(_, _) => r := NumberMembers(k);
      case Immutable(_, _) => r := k;
    }

    /** Declarations that hold functions. */
    method NumberMembers(k: DeclKind) returns (r: DeclKind)
      requires k.Function? || k.Class? || k.Interface? || k.Trait? || k.Namespace?
      modifies this
      ensures Numbered(DeclKindIds(r), |DeclKindIds(k)|, old(next), next) && BareDeclKind(r) == BareDeclKind(k)
      decreases k, 0
    {
      match k
      case Function(decl) =>
        var x := NumberFunction(decl);
        r := DeclKind.Function(x);
      case Class(name, typeParams, fields, methods) =>
        var x := NumberMethods(methods);
        r := DeclKind.Class(name, typeParams, fields, x);
      case Interface(name, functions) =>
        var x := NumberFunctions(functions);
        r := DeclKind.Interface(name, x);
      case Trait(name, functions) =>
        var x := NumberFunctions(functions);
        r := DeclKind.Trait(name, x);
      case Namespace(path, decls) =>
        var x := NumberDecls(decls);
        r := DeclKind.Namespace(path, x);
    }

    method NumberDecls(xs: seq<Decl>) returns (r: seq<Decl>)
      modifies this
      ensures Numbered(FileIds(r), |FileIds(xs)|, old(next), next) && BareFile(r) == BareFile(xs)
      decreases xs
    {
      r := [];
      for i := 0 to |xs|
        invariant Numbered(FileIds(r), |FileIds(xs[..i])|, old(next), next) && BareFile(r) == BareFile(xs[..i])
      {
        ghost var mid := next;
        var x := NumberDecl(xs[i]);
        Then(FileIds(r), DeclIds(x), |FileIds(xs[..i])|, |DeclIds(xs[i])|, old(next), mid, next);
        assert xs[..i + 1][..i] == xs[..i];
        assert (r + [x])[..|r|] == r;
        r := r + [x];
      }
      assert xs[..|xs|] == xs;
    }
  }

  /**
   `assign_node_ids`: the same tree, its expressions numbered from one in the order of its fields.
   Wherever in it an expression stands, it has an id of its own, and there is one for each id.
   */
  method AssignNodeIds(ds: seq<Decl>) returns (r: seq<Decl>, next: nat)
    ensures FileIds(r) == Interval(1, next) && BareFile(r) == BareFile(ds)
    ensures next == 1 + |FileIds(ds)| && NumberedTo(r, next)
  {
    var n := new Numberer();
    r := n.NumberDecls(ds);
    next := n.next;
    forall i | 0 <= i < |FileIds(r)| ensures FileIds(r)[i] == i + 1 {
      IntervalAt(1, next, i);
    }
    ListedInRow(r, next);
  }

  /** Numbers in a row are all different, and none is the zero that means no number. */
  lemma {:induction false} EachIdOnce(ids: seq<nat>, next: nat)
    requires next >= 1 && ids == Interval(1, next)
    ensures |ids| == next - 1
    ensures forall n :: n in ids <==> 1 <= n < next
    ensures forall i, j :: 0 <= i < j < |ids| ==> ids[i] != ids[j]
  {
    forall i | 0 <= i < |ids| ensures ids[i] == 1 + i {
      IntervalAt(1, next, i);
    }
    forall n | 1 <= n < next ensures n in ids {
      assert ids[n - 1] == n;
    }
  }
}
