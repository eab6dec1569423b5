/**
 The syntax tree of `ast.rs`: every kind of expression, statement and declaration, with every
 field that holds an expression or a statement. Types, patterns, literals, operators and
 annotations hold neither and are names here; spans and documentation are left out.
 */
module Ast {
  import opened Wrappers

  type Name = string
  type Type = string

  datatype Param = Param(name: Name, ty: Type)

  /** Any node carries an id; the numbering is of expressions only. */
  datatype Expr = Expr(id: nat, node: ExprKind)
  datatype Stmt = Stmt(id: nat, node: StmtKind)
  datatype Decl = Decl(id: nat, node: DeclKind)

  datatype ExprKind =
    | Literal(text: Name)
    | ArrayLiteral(es: seq<Expr>)
    | MapLiteral(entries: seq<MapEntry>)
    | Ident(name: Name)
    | Binary(op: Name, lhs: Expr, rhs: Expr)
    | Unary(op: Name, operand: Expr)
    | Call(callee: Expr, args: seq<Expr>)
    | MethodCall(obj: Expr, methodName: Name, args: seq<Expr>)
    | Index(obj: Expr, index: Expr)
    | FieldAccess(obj: Expr, field: Name)
    | This
    | SuperCall(methodName: Name, args: seq<Expr>)
    | New(className: Name, typeArgs: seq<Name>, args: seq<Expr>)
    | StructLiteral(name: Name, fields: seq<FieldInit>)
    | Block(stmts: seq<Stmt>)
    | If(cond: Expr, onTrue: Expr, onFalse: Option<Expr>)
    | While(cond: Expr, body: Expr)
    | For(variable: Name, iter: Expr, body: Expr)
    | Loop(body: Expr)
    | Match(expr: Expr, cases: seq<MatchCase>)
    | Return(result: Option<Expr>)
    | Break
    | Continue
    | Throw(expr: Expr)
    | Try(body: Expr, catches: seq<CatchClause>, last: Option<Expr>)
    | Assign(target: Expr, source: Expr)
    | CompoundAssign(op: Name, target: Expr, source: Expr)
    | Lambda(params: seq<Param>, retType: Option<Type>, body: Expr)
    | Spawn(expr: Expr)
    | Await(expr: Expr)
    | Channel
    | Send(target: Expr, source: Expr)
    | Recv(expr: Expr)
    | Cast(expr: Expr, ty: Type)
    | Is(expr: Expr, ty: Type)
    | Range(lo: Expr, hi: Expr, inclusive: bool)
    | Tuple(es: seq<Expr>)
    | TupleIndex(tuple: Expr, position: nat)
    | EnumValue(enumName: Name, variant: Name, typeArgs: seq<Name>, args: seq<Expr>)

  datatype MapEntry = MapEntry(key: Expr, value: Expr)
  datatype FieldInit = FieldInit(name: Name, value: Expr)
  datatype MatchCase = MatchCase(pattern: Name, guard: Option<Expr>, body: Expr)
  datatype CatchClause = CatchClause(param: Name, ty: Type, body: Stmt)

  datatype StmtKind =
    | Expr(expr: Expr)
    | Let(name: Name, ty: Option<Type>, value: Option<Expr>)
    | Var(name: Name, ty: Option<Type>, value: Option<Expr>, mutable: bool)
    | Assignment(target: Expr, source: Expr)
    | If(cond: Expr, onTrue: Stmt, onFalse: Option<Stmt>)
    | While(cond: Expr, body: Stmt)
    | For(variable: Name, iter: Expr, body: Stmt)
    | ForC(init: Option<Stmt>, test: Option<Expr>, update: Option<Expr>, body: Stmt)
    | Loop(body: Stmt)
    | Return(value: Option<Expr>)
    | Break
    | Continue
    | Throw(expr: Expr)
    | Try(body: Stmt, catches: seq<CatchClause>, last: Option<Stmt>)
    | Defer(body: Stmt)
    | Block(stmts: seq<Stmt>)
    | Select(arms: seq<SelectArm>, otherwise: Option<Stmt>)
    | Empty

  datatype SelectArm = SelectArm(channel: Expr, variable: Name, body: Stmt)

  datatype Function = Function(name: Name, typeParams: seq<Name>, params: seq<Param>, retType: Type, body: Stmt)
  datatype Method = Method(name: Name, typeParams: seq<Name>, params: seq<Param>, retType: Type, body: Stmt, isStatic: bool)

  datatype DeclKind =
    | Function(decl: Function)
    | Class(name: Name, typeParams: seq<Name>, fields: seq<Param>, methods: seq<Method>)
    | Interface(name: Name, functions: seq<Function>)
    | Enum(name: Name, variants: seq<Name>)
    | Trait(name: Name, functions: seq<Function>)
    | Import(path: seq<Name>)
    | Module(name: Name)
    | Namespace(path: seq<Name>, decls: seq<Decl>)
    | Immutable(name: Name, params: seq<Param>)

  // ---- The ids of all expressions, in the order of the fields ----

  function Ids(e: Expr): seq<nat> { [e.id] + KindIds(e.node) }

  function KindIds(k: ExprKind): seq<nat> {
    match k
    case Literal(_) => []
    case ArrayLiteral(es) => ListIds(es)
    case MapLiteral(entries) => EntriesIds(entries)
    case Ident(_) => []
    case Binary(_, lhs, rhs) => Ids(lhs) + Ids(rhs)
    case Unary(_, operand) => Ids(operand)
    case Call(callee, args) => Ids(callee) + ListIds(args)
    case MethodCall(obj, _, args) => Ids(obj) + ListIds(args)
    case Index(obj, index) => Ids(obj) + Ids(index)
    case FieldAccess(obj, _) => Ids(obj)
    case This => []
    case SuperCall(_, args) => ListIds(args)
    case New(_, _, args) => ListIds(args)
    case StructLiteral(_, fields) => InitsIds(fields)
    case Block(stmts) => BlockIds(stmts)
    case If(cond, onTrue, onFalse) => Ids(cond) + (Ids(onTrue) + OptIds(onFalse))
    case While(cond, body) => Ids(cond) + Ids(body)
    case For(_, iter, body) => Ids(iter) + Ids(body)
    case Loop(body) => Ids(body)
    case Match(expr, cases) => Ids(expr) + CasesIds(cases)
    case Return(result) => OptIds(result)
    case Break => []
    case Continue => []
    case Throw(expr) => Ids(expr)
    case Try(body, catches, last) => Ids(body) + (CatchesIds(catches) + OptIds(last))
    case Assign(target, source) => Ids(target) + Ids(source)
    case CompoundAssign(_, target, source) => Ids(target) + Ids(source)
    case Lambda(_, _, body) => Ids(body)
    case Spawn(expr) => Ids(expr)
    case Await(expr) => Ids(expr)
    case Channel => []
    case Send(target, source) => Ids(target) + Ids(source)
    case Recv(expr) => Ids(expr)
    case Cast(expr, _) => Ids(expr)
    case Is(expr, _) => Ids(expr)
    case Range(lo, hi, _) => Ids(lo) + Ids(hi)
    case Tuple(es) => ListIds(es)
    case TupleIndex(tuple, _) => Ids(tuple)
    case EnumValue(_, _, _, args) => ListIds(args)
  }

  function OptIds(e: Option<Expr>): seq<nat> { if e.None? then [] else Ids(e.value) }

  function EntryIds(e: MapEntry): seq<nat> { Ids(e.key) + Ids(e.value) }

  function InitIds(f: FieldInit): seq<nat> { Ids(f.value) }

  function CaseIds(c: MatchCase): seq<nat> { OptIds(c.guard) + Ids(c.body) }

  function CatchIds(c: CatchClause): seq<nat> { StmtIds(c.body) }

  function StmtIds(s: Stmt): seq<nat> { StmtKindIds(s.node) }

  function StmtKindIds(k: StmtKind): seq<nat> {
    match k
    case Expr(expr) => Ids(expr)
    case Let(_, _, value) => OptIds(value)
    case Var(_, _, value, _) => OptIds(value)
    case Assignment(target, source) => Ids(target) + Ids(source)
    case If(cond, onTrue, onFalse) => Ids(cond) + (StmtIds(onTrue) + OptStmtIds(onFalse))
    case While(cond, body) => Ids(cond) + StmtIds(body)
    case For(_, iter, body) => Ids(iter) + StmtIds(body)
    case ForC(init, test, update, body) => OptStmtIds(init) + (OptIds(test) + (OptIds(update) + StmtIds(body)))
    case Loop(body) => StmtIds(body)
    case Return(value) => OptIds(value)
    case Break => []
    case Continue => []
    case Throw(expr) => Ids(expr)
    case Try(body, catches, last) => StmtIds(body) + (CatchesIds(catches) + OptStmtIds(last))
    case Defer(body) => StmtIds(body)
    case Block(stmts) => BlockIds(stmts)
    case Select(arms, otherwise) => ArmsIds(arms) + OptStmtIds(otherwise)
    case Empty => []
  }

  function OptStmtIds(s: Option<Stmt>): seq<nat> { if s.None? then [] else StmtIds(s.value) }

  function ArmIds(a: SelectArm): seq<nat> { Ids(a.channel) + StmtIds(a.body) }

  function FunctionIds(f: Function): seq<nat> { StmtIds(f.body) }

  function MethodIds(m: Method): seq<nat> { StmtIds(m.body) }

  function DeclIds(d: Decl): seq<nat> { DeclKindIds(d.node) }

  function DeclKindIds(k: DeclKind): seq<nat> {
    match k
    case Function(decl) => FunctionIds(decl)
    case Class(_, _, _, methods) => MethodsIds(methods)
    case Interface(_, functions) => FunctionsIds(functions)
    case Enum(_, _) => []
    case Trait(_, functions) => FunctionsIds(functions)
    case Import(_) => []
    case Module(_) => []
    case Namespace(_, decls) => FileIds(decls)
    case Immutable(_, _) => []
  }

  // ---- The same tree with the ids of its expressions wiped ----

  function Bare(e: Expr): Expr { Expr.Expr(0, BareKind(e.node)) }

  function BareKind(k: ExprKind): ExprKind {
    match k
    case Literal(_) => k
    case ArrayLiteral(es) => ExprKind.ArrayLiteral(BareList(es))
    case MapLiteral(entries) => ExprKind.MapLiteral(BareEntries(entries))
    case Ident(_) => k
    case Binary(op, lhs, rhs) => ExprKind.Binary(op, Bare(lhs), Bare(rhs))
    case Unary(op, operand) => ExprKind.Unary(op, Bare(operand))
    case Call(callee, args) => ExprKind.Call(Bare(callee), BareList(args))
    case MethodCall(obj, methodName, args) => ExprKind.MethodCall(Bare(obj), methodName, BareList(args))
    case Index(obj, index) => ExprKind.Index(Bare(obj), Bare(index))
    case FieldAccess(obj, field) => ExprKind.FieldAccess(Bare(obj), field)
    case This => k
    case SuperCall(methodName, args) => ExprKind.SuperCall(methodName, BareList(args))
    case New(className, typeArgs, args) => ExprKind.New(className, typeArgs, BareList(args))
    case StructLiteral(name, fields) => ExprKind.StructLiteral(name, BareInits(fields))
    case Block(stmts) => ExprKind.Block(BareBlock(stmts))
    case If(cond, onTrue, onFalse) => ExprKind.If(Bare(cond), Bare(onTrue), BareOpt(onFalse))
    case While(cond, body) => ExprKind.While(Bare(cond), Bare(body))
    case For(variable, iter, body) => ExprKind.For(variable, Bare(iter), Bare(body))
    case Loop(body) => ExprKind.Loop(Bare(body))
    case Match(expr, cases) => ExprKind.Match(Bare(expr), BareCases(cases))
    case Return(result) => ExprKind.Return(BareOpt(result))
    case Break => k
    case Continue => k
    case Throw(expr) => ExprKind.Throw(Bare(expr))
    case Try(body, catches, last) => ExprKind.Try(Bare(body), BareCatches(catches), BareOpt(last))
    case Assign(target, source) => ExprKind.Assign(Bare(target), Bare(source))
    case CompoundAssign(op, target, source) => ExprKind.CompoundAssign(op, Bare(target), Bare(source))
    case Lambda(params, retType, body) => ExprKind.Lambda(params, retType, Bare(body))
    case Spawn(expr) => ExprKind.Spawn(Bare(expr))
    case Await(expr) => ExprKind.Await(Bare(expr))
    case Channel => k
    case Send(target, source) => ExprKind.Send(Bare(target), Bare(source))
    case Recv(expr) => ExprKind.Recv(Bare(expr))
    case Cast(expr, ty) => ExprKind.Cast(Bare(expr), ty)
    case Is(expr, ty) => ExprKind.Is(Bare(expr), ty)
    case Range(lo, hi, inclusive) => ExprKind.Range(Bare(lo), Bare(hi), inclusive)
    case Tuple(es) => ExprKind.Tuple(BareList(es))
    case TupleIndex(tuple, position) => ExprKind.TupleIndex(Bare(tuple), position)
    case EnumValue(enumName, variant, typeArgs, args) => ExprKind.EnumValue(enumName, variant, typeArgs, BareList(args))
  }

  function BareOpt(e: Option<Expr>): Option<Expr> { if e.None? then None else Some(Bare(e.value)) }

  function BareEntry(e: MapEntry): MapEntry { MapEntry(Bare(e.key), Bare(e.value)) }

  function BareInit(f: FieldInit): FieldInit { FieldInit(f.name, Bare(f.value)) }

  function BareCase(c: MatchCase): MatchCase { MatchCase(c.pattern, BareOpt(c.guard), Bare(c.body)) }

  function BareCatch(c: CatchClause): CatchClause { CatchClause(c.param, c.ty, BareStmt(c.body)) }

  function BareStmt(s: Stmt): Stmt { Stmt(s.id, BareStmtKind(s.node)) }

  function BareStmtKind(k: StmtKind): StmtKind {
    match k
    case Expr(expr) => StmtKind.Expr(Bare(expr))
    case Let(name, ty, value) => StmtKind.Let(name, ty, BareOpt(value))
    case Var(name, ty, value, mutable) => StmtKind.Var(name, ty, BareOpt(value), mutable)
    case Assignment(target, source) => StmtKind.Assignment(Bare(target), Bare(source))
    case If(cond, onTrue, onFalse) => StmtKind.If(Bare(cond), BareStmt(onTrue), BareOptStmt(onFalse))
    case While(cond, body) => StmtKind.While(Bare(cond), BareStmt(body))
    case For(variable, iter, body) => StmtKind.For(variable, Bare(iter), BareStmt(body))
    case ForC(init, test, update, body) => StmtKind.ForC(BareOptStmt(init), BareOpt(test), BareOpt(update), BareStmt(body))
    case Loop(body) => StmtKind.Loop(BareStmt(body))
    case Return(value) => StmtKind.Return(BareOpt(value))
    case Break => k
    case Continue => k
    case Throw(expr) => StmtKind.Throw(Bare(expr))
    case Try(body, catches, last) => StmtKind.Try(BareStmt(body), BareCatches(catches), BareOptStmt(last))
    case Defer(body) => StmtKind.Defer(BareStmt(body))
    case Block(stmts) => StmtKind.Block(BareBlock(stmts))
    case Select(arms, otherwise) => StmtKind.Select(BareArms(arms), BareOptStmt(otherwise))
    case Empty => k
  }

  function BareOptStmt(s: Option<Stmt>): Option<Stmt> { if s.None? then None else Some(BareStmt(s.value)) }

  function BareArm(a: SelectArm): SelectArm { SelectArm(Bare(a.channel), a.variable, BareStmt(a.body)) }

  function BareFunction(f: Function): Function { f.(body := BareStmt(f.body)) }

  function BareMethod(m: Method): Method { m.(body := BareStmt(m.body)) }

  function BareDecl(d: Decl): Decl { Decl(d.id, BareDeclKind(d.node)) }

  function BareDeclKind(k: DeclKind): DeclKind {
    match k
    case Function(decl) => DeclKind.Function(BareFunction(decl))
    case Class(name, typeParams, fields, methods) => DeclKind.Class(name, typeParams, fields, BareMethods(methods))
    case Interface(name, functions) => DeclKind.Interface(name, BareFunctions(functions))
    case Enum(_, _) => k
    case Trait(name, functions) => DeclKind.Trait(name, BareFunctions(functions))
    case Import(_) => k
    case Module(_) => k
    case Namespace(path, decls) => DeclKind.Namespace(path, BareFile(decls))
    case Immutable(_, _) => k
  }

  // ---- Lists of each ----

  function ListIds(xs: seq<Expr>): seq<nat> {
    if xs == [] then [] else ListIds(xs[..|xs| - 1]) + Ids(xs[|xs| - 1])
  }

  function BareList(xs: seq<Expr>): seq<Expr> {
    if xs == [] then [] else BareList(xs[..|xs| - 1]) + [Bare(xs[|xs| - 1])]
  }

  function EntriesIds(xs: seq<MapEntry>): seq<nat> {
    if xs == [] then [] else EntriesIds(xs[..|xs| - 1]) + EntryIds(xs[|xs| - 1])
  }

  function BareEntries(xs: seq<MapEntry>): seq<MapEntry> {
    if xs == [] then [] else BareEntries(xs[..|xs| - 1]) + [BareEntry(xs[|xs| - 1])]
  }

  function InitsIds(xs: seq<FieldInit>): seq<nat> {
    if xs == [] then [] else InitsIds(xs[..|xs| - 1]) + InitIds(xs[|xs| - 1])
  }

  function BareInits(xs: seq<FieldInit>): seq<FieldInit> {
    if xs == [] then [] else BareInits(xs[..|xs| - 1]) + [BareInit(xs[|xs| - 1])]
  }

  function CasesIds(xs: seq<MatchCase>): seq<nat> {
    if xs == [] then [] else CasesIds(xs[..|xs| - 1]) + CaseIds(xs[|xs| - 1])
  }

  function BareCases(xs: seq<MatchCase>): seq<MatchCase> {
    if xs == [] then [] else BareCases(xs[..|xs| - 1]) + [BareCase(xs[|xs| - 1])]
  }

  function CatchesIds(xs: seq<CatchClause>): seq<nat> {
    if xs == [] then [] else CatchesIds(xs[..|xs| - 1]) + CatchIds(xs[|xs| - 1])
  }

  function BareCatches(xs: seq<CatchClause>): seq<CatchClause> {
    if xs == [] then [] else BareCatches(xs[..|xs| - 1]) + [BareCatch(xs[|xs| - 1])]
  }

  function BlockIds(xs: seq<Stmt>): seq<nat> {
    if xs == [] then [] else BlockIds(xs[..|xs| - 1]) + StmtIds(xs[|xs| - 1])
  }

  function BareBlock(xs: seq<Stmt>): seq<Stmt> {
    if xs == [] then [] else BareBlock(xs[..|xs| - 1]) + [BareStmt(xs[|xs| - 1])]
  }

  function ArmsIds(xs: seq<SelectArm>): seq<nat> {
    if xs == [] then [] else ArmsIds(xs[..|xs| - 1]) + ArmIds(xs[|xs| - 1])
  }

  function BareArms(xs: seq<SelectArm>): seq<SelectArm> {
    if xs == [] then [] else BareArms(xs[..|xs| - 1]) + [BareArm(xs[|xs| - 1])]
  }

  function FunctionsIds(xs: seq<Function>): seq<nat> {
    if xs == [] then [] else FunctionsIds(xs[..|xs| - 1]) + FunctionIds(xs[|xs| - 1])
  }

  function BareFunctions(xs: seq<Function>): seq<Function> {
    if xs == [] then [] else BareFunctions(xs[..|xs| - 1]) + [BareFunction(xs[|xs| - 1])]
  }

  function MethodsIds(xs: seq<Method>): seq<nat> {
    if xs == [] then [] else MethodsIds(xs[..|xs| - 1]) + MethodIds(xs[|xs| - 1])
  }

  function BareMethods(xs: seq<Method>): seq<Method> {
    if xs == [] then [] else BareMethods(xs[..|xs| - 1]) + [BareMethod(xs[|xs| - 1])]
  }

  function FileIds(xs: seq<Decl>): seq<nat> {
    if xs == [] then [] else FileIds(xs[..|xs| - 1]) + DeclIds(xs[|xs| - 1])
  }

  function BareFile(xs: seq<Decl>): seq<Decl> {
    if xs == [] then [] else BareFile(xs[..|xs| - 1]) + [BareDecl(xs[|xs| - 1])]
  }
}
