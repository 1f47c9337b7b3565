/** Which import specifiers a parsed file yields: ES imports by trace type, and `require` declarations. */
module ImportFinder {
  import opened Wrappers

  datatype ImportTraceType = All | Types | Values

  datatype ImportType = Type | Value

  datatype Span = Span(start: nat, end: nat)

  datatype ImportResult = ImportResult(specifier: string, span: Span, statementSpan: Span, importType: ImportType)

  /** One request of a module, as the parser's module record lists it. */
  datatype Request = Request(isType: bool, span: Span, statementSpan: Span)

  datatype RequestedModule = RequestedModule(specifier: string, requests: seq<Request>)

  datatype Expression =
    | StringLiteral(value: string)
    | Identifier(name: string, span: Span)
    | Call(callee: Expression, arguments: seq<Expression>)
    | OtherExpression

  datatype Declarator = Declarator(init: Option<Expression>)

  datatype LoopKind = For | ForIn | ForOf | While | DoWhile

  datatype Statement =
    | VariableDeclaration(declarations: seq<Declarator>, span: Span)
    | Block(body: seq<Statement>)
    | If(consequent: Statement, alternate: Option<Statement>)
    | Try(block: Body, handler: Option<Body>, finalizer: Option<Body>)
    | Loop(kind: LoopKind, loopBody: Statement)
    | Switch(cases: seq<Body>)
    | Labeled(labeled: Statement)
    | OtherStatement

  /** The statements of a catch clause, a finally block, or one case of a switch. */
  datatype Body = Body(statements: seq<Statement>)

  // ---------- Specification ----------

  predicate Wanted(traceType: ImportTraceType, isType: bool) {
    match traceType
    case All => true
    case Types => isType
    case Values => !isType
  }

  function RequestResult(specifier: string, r: Request): ImportResult {
    ImportResult(specifier, r.span, r.statementSpan, if r.isType then Type else Value)
  }

  /** The results for one module's requests that the trace type wants, in order. */
  function FromRequests(specifier: string, requests: seq<Request>, traceType: ImportTraceType): seq<ImportResult> {
    if requests == [] then []
    else
      (if Wanted(traceType, requests[0].isType) then [RequestResult(specifier, requests[0])] else [])
      + FromRequests(specifier, requests[1..], traceType)
  }

  function FromModules(modules: seq<RequestedModule>, traceType: ImportTraceType): seq<ImportResult> {
    if modules == [] then []
    else FromRequests(modules[0].specifier, modules[0].requests, traceType) + FromModules(modules[1..], traceType)
  }

  /** A declarator `x = require("...")`. */
  predicate IsRequire(d: Declarator) {
    && d.init.Some?
    && d.init.value.Call?
    && d.init.value.callee.Identifier?
    && d.init.value.callee.name == "require"
    && d.init.value.arguments != []
    && d.init.value.arguments[0].StringLiteral?
  }

  function RequireResult(d: Declarator, statementSpan: Span): ImportResult
    requires IsRequire(d)
  {
    ImportResult(d.init.value.arguments[0].value, d.init.value.callee.span, statementSpan, Value)
  }

  function FromDeclarators(ds: seq<Declarator>, statementSpan: Span): seq<ImportResult> {
    if ds == [] then []
    else
      (if IsRequire(ds[0]) then [RequireResult(ds[0], statementSpan)] else [])
      + FromDeclarators(ds[1..], statementSpan)
  }

  function FromStatement(s: Statement): seq<ImportResult>
    decreases s, 0
  {
    match s
    case VariableDeclaration(ds, span) => FromDeclarators(ds, span)
    case Block(body) => FromStatements(body)
    case If(consequent, alternate) =>
      FromStatement(consequent) + if alternate.Some? then FromStatement(alternate.value) else []
    case Try(block, handler, finalizer) =>
      FromBody(block)
      + (if handler.Some? then FromBody(handler.value) else [])
      + (if finalizer.Some? then FromBody(finalizer.value) else [])
    case Loop(_, body) => FromStatement(body)
    case Switch(cases) => FromCases(cases)
    case Labeled(body) => FromStatement(body)
    case OtherStatement => []
  }

  function FromStatements(ss: seq<Statement>): seq<ImportResult>
    decreases ss, 1
  {
    if ss == [] then [] else FromStatement(ss[0]) + FromStatements(ss[1..])
  }

  function FromBody(b: Body): seq<ImportResult>
    decreases b, 2
  {
    FromStatements(b.statements)
  }

  function FromCases(cases: seq<Body>): seq<ImportResult>
    decreases cases, 3
  {
    if cases == [] then [] else FromBody(cases[0]) + FromCases(cases[1..])
  }

  function Found(modules: seq<RequestedModule>, statements: seq<Statement>, traceType: ImportTraceType)
    : seq<ImportResult>
  {
    FromModules(modules, traceType) + FromStatements(statements)
  }

  // ---------- The two functions of the finder, pushing into one result vector ----------

  class ResultVec {
    var items: seq<ImportResult>

    constructor ()
      ensures items == []
    {
      items := [];
    }

    method Push(r: ImportResult)
      modifies this
      ensures items == old(items) + [r]
    {
      items := items + [r];
    }
  }

  method FindImports(modules: seq<RequestedModule>, statements: seq<Statement>, traceType: ImportTraceType)
    returns (found: seq<ImportResult>)
    ensures found == Found(modules, statements, traceType)
  {
    hide FromStatements, FromRequests;
    var results := new ResultVec();
    for i := 0 to |modules|
      invariant results.items + FromModules(modules[i..], traceType) == FromModules(modules, traceType)
    {
      assert modules[i..][1..] == modules[i + 1..];
      ghost var before := results.items;
      FindRequested(modules[i], traceType, results);
      assert before + FromModules(modules[i..], traceType) == results.items + FromModules(modules[i + 1..], traceType);
    }
    assert modules[|modules|..] == [];
    FindRequireCalls(statements, results);
    found := results.items;
  }

  method FindRequested(m: RequestedModule, traceType: ImportTraceType, results: ResultVec)
    modifies results
    ensures results.items == old(results.items) + FromRequests(m.specifier, m.requests, traceType)
  {
    for j := 0 to |m.requests|
      invariant results.items + FromRequests(m.specifier, m.requests[j..], traceType)
             == old(results.items) + FromRequests(m.specifier, m.requests, traceType)
    {
      var r := m.requests[j];
      assert m.requests[j..][1..] == m.requests[j + 1..];
      var importType := if r.isType then Type else Value;
      var shouldInclude := match traceType
        case All => true
        case Types => r.isType
        case Values => !r.isType;
      ghost var was := results.items;
      if shouldInclude {
        results.Push(ImportResult(m.specifier, r.span, r.statementSpan, importType));
      }
      assert results.items == was + if Wanted(traceType, r.isType) then [RequestResult(m.specifier, r)] else [];
    }
    assert m.requests[|m.requests|..] == [];
  }

  method FindRequireCalls(statements: seq<Statement>, results: ResultVec)
    modifies results
    ensures results.items == old(results.items) + FromStatements(statements)
    decreases statements, 1
  {
    for i := 0 to |statements|
      invariant results.items + FromStatements(statements[i..]) == old(results.items) + FromStatements(statements)
    {
      ghost var was := results.items;
      assert statements[i..][1..] == statements[i + 1..];
      FindInStatement(statements[i], results);
      assert was + (FromStatement(statements[i]) + FromStatements(statements[i + 1..]))
          == results.items + FromStatements(statements[i + 1..]);
    }
    assert statements[|statements|..] == [];
  }

  method FindInStatement(s: Statement, results: ResultVec)
    modifies results
    ensures results.items == old(results.items) + FromStatement(s)
    decreases s, 1
  {
    match s {
      case VariableDeclaration(_, _) => FindInDeclaration(s, results);
      case Block(body) => FindRequireCalls(body, results);
      case If(consequent, alternate) =>
        FindInStatement(consequent, results);
        if alternate.Some? {
          FindInStatement(alternate.value, results);
        }
      case Try(_, _, _) => FindInTry(s, results);
      case Loop(_, body) => FindInStatement(body, results);
      case Switch(cases) => FindInCases(cases, results);
      case Labeled(body) => FindInStatement(body, results);
      case OtherStatement =>
    }
  }

  method FindInTry(s: Statement, results: ResultVec)
    requires s.Try?
    modifies results
    ensures results.items == old(results.items) + FromStatement(s)
    decreases s, 0
  {
    hide FromStatements;
    ghost var was, block := results.items, FromBody(s.block);
    FindRequireCalls(s.block.statements, results);
    ghost var handler := if s.handler.Some? then FromBody(s.handler.value) else [];
    if s.handler.Some? {
      FindRequireCalls(s.handler.value.statements, results);
    }
    assert results.items == was + (block + handler);
    ghost var finalizer := if s.finalizer.Some? then FromBody(s.finalizer.value) else [];
    if s.finalizer.Some? {
      FindRequireCalls(s.finalizer.value.statements, results);
    }
    AppendAssociates(was, block + handler, finalizer);
  }

  method FindInCases(cases: seq<Body>, results: ResultVec)
    modifies results
    ensures results.items == old(results.items) + FromCases(cases)
    decreases cases, 3
  {
    for i := 0 to |cases|
      invariant results.items + FromCases(cases[i..]) == old(results.items) + FromCases(cases)
    {
      ghost var was := results.items;
      assert cases[i..][1..] == cases[i + 1..];
      FindRequireCalls(cases[i].statements, results);
      AppendAssociates(was, FromBody(cases[i]), FromCases(cases[i + 1..]));
    }
    assert cases[|cases|..] == [];
  }

  method FindInDeclaration(s: Statement, results: ResultVec)
    requires s.VariableDeclaration?
    modifies results
    ensures results.items == old(results.items) + FromDeclarators(s.declarations, s.span)
  {
    var ds := s.declarations;
    for i := 0 to |ds|
      invariant results.items + FromDeclarators(ds[i..], s.span) == old(results.items) + FromDeclarators(ds, s.span)
    {
      assert ds[i..][1..] == ds[i + 1..];
      if ds[i].init.None? { continue; }
      var init := ds[i].init.value;
      if !init.Call? || !init.callee.Identifier? || init.callee.name != "require" { continue; }
      if |init.arguments| == 0 || !init.arguments[0].StringLiteral? { continue; }
      ghost var was := results.items;
      results.Push(ImportResult(init.arguments[0].value, init.callee.span, s.span, Value));
      assert results.items == was + [RequireResult(ds[i], s.span)];
    }
    assert ds[|ds|..] == [];
  }

  // ---------- What is found ----------

  /** The statements the walk enters directly from `s`. */
  function Children(s: Statement): (cs: seq<Statement>) {
    match s
    case Block(body) => body
    case If(consequent, alternate) => [consequent] + if alternate.Some? then [alternate.value] else []
    case Try(block, handler, finalizer) =>
      block.statements
      + (if handler.Some? then handler.value.statements else [])
      + (if finalizer.Some? then finalizer.value.statements else [])
    case Loop(_, body) => [body]
    case Switch(cases) => CaseStatements(cases)
    case Labeled(body) => [body]
    case _ => []
  }

  function CaseStatements(cases: seq<Body>): seq<Statement> {
    if cases == [] then [] else cases[0].statements + CaseStatements(cases[1..])
  }

  /** `inner` is a statement of a block, a branch, a part of a try statement, the body of a loop, a statement of a
      case, or what a label stands before. Functions and expressions are not entered. */
  ghost predicate Encloses(outer: Statement, inner: Statement) {
    match outer
    case VariableDeclaration(_, _) => false
    case Block(body) => inner in body
    case If(consequent, alternate) => inner == consequent || alternate == Some(inner)
    case Try(block, handler, finalizer) =>
      || inner in block.statements
      || exists part :: (handler == Some(part) || finalizer == Some(part)) && inner in part.statements
    case Loop(_, body) => inner == body
    case Switch(cases) => exists part :: part in cases && inner in part.statements
    case Labeled(body) => inner == body
    case OtherStatement => false
  }

  lemma {:induction false} CaseStatementsHas(cases: seq<Body>, inner: Statement)
    ensures inner in CaseStatements(cases) <==> exists part :: part in cases && inner in part.statements
  {
    if cases != [] {
      CaseStatementsHas(cases[1..], inner);
      assert forall part :: part in cases <==> part == cases[0] || part in cases[1..];
    }
  }

  lemma ChildrenAreEnclosed(outer: Statement, inner: Statement)
    ensures inner in Children(outer) <==> Encloses(outer, inner)
  {
    if outer.Switch? {
      CaseStatementsHas(outer.cases, inner);
    }
  }

  /** Each statement of the path encloses the next, and the last one is `inner`. */
  ghost predicate LeadsTo(path: seq<Statement>, inner: Statement) {
    && path != [] && path[|path| - 1] == inner
    && forall i, j :: 0 <= i && j == i + 1 && j < |path| ==> Encloses(path[i], path[j])
  }

  /** `r` reports a require declarator of a variable declaration nested somewhere inside `outer`. */
  ghost predicate Declares(outer: Statement, r: ImportResult) {
    exists path, d :: NestedDeclares(outer, path, d, r)
  }

  ghost predicate NestedDeclares(outer: Statement, path: seq<Statement>, d: Declarator, r: ImportResult) {
    && path != [] && path[0] == outer
    && var s := path[|path| - 1];
    && LeadsTo(path, s)
    && s.VariableDeclaration? && d in s.declarations && Requires(d, s.span, r)
  }

  /** The declarator has the form `x = require("specifier", ...)`, and `r` reports it as a value import at the
      span of `require`. */
  ghost predicate Requires(d: Declarator, statementSpan: Span, r: ImportResult) {
    && r == ImportResult(r.specifier, r.span, statementSpan, Value)
    && exists more :: d == Declarator(Some(Call(Identifier("require", r.span), [StringLiteral(r.specifier)] + more)))
  }

  lemma RequiresMeans(d: Declarator, statementSpan: Span, r: ImportResult)
    ensures Requires(d, statementSpan, r) <==> IsRequire(d) && r == RequireResult(d, statementSpan)
  {
    if IsRequire(d) {
      var call := d.init.value;
      assert call.arguments == [StringLiteral(call.arguments[0].value)] + call.arguments[1..];
    }
  }

  lemma {:induction false} FromDeclaratorsHas(ds: seq<Declarator>, span: Span, r: ImportResult)
    ensures r in FromDeclarators(ds, span) <==> exists d :: d in ds && Requires(d, span, r)
  {
    hide Requires, IsRequire;
    if ds != [] {
      FromDeclaratorsHas(ds[1..], span, r);
      RequiresMeans(ds[0], span, r);
      assert forall d :: d in ds <==> d == ds[0] || d in ds[1..];
    }
  }

  lemma {:induction false} FromStatementsHas(ss: seq<Statement>, r: ImportResult)
    ensures r in FromStatements(ss) <==> exists s :: s in ss && r in FromStatement(s)
  {
    if ss != [] {
      FromStatementsHas(ss[1..], r);
      if s :| s in ss && r in FromStatement(s) {
        assert s == ss[0] || s in ss[1..];
      }
      if s :| s in ss[1..] && r in FromStatement(s) {
        assert s in ss;
      }
      assert r in FromStatement(ss[0]) ==> ss[0] in ss;
    }
  }

  lemma {:induction false} FromCasesAreFlat(cases: seq<Body>)
    ensures FromCases(cases) == FromStatements(CaseStatements(cases))
  {
    if cases != [] {
      FromCasesAreFlat(cases[1..]);
      FromStatementsAppend(cases[0].statements, CaseStatements(cases[1..]));
    }
  }

  lemma {:induction false} FromStatementsAppend(ss: seq<Statement>, tt: seq<Statement>)
    ensures FromStatements(ss + tt) == FromStatements(ss) + FromStatements(tt)
  {
    if ss == [] {
      assert ss + tt == tt;
    } else {
      FromStatementsAppend(ss[1..], tt);
      assert (ss + tt)[1..] == ss[1..] + tt;
      assert FromStatement(ss[0]) + (FromStatements(ss[1..]) + FromStatements(tt))
          == (FromStatement(ss[0]) + FromStatements(ss[1..])) + FromStatements(tt);
    }
  }

  lemma FromSingle(s: Statement)
    ensures FromStatements([s]) == FromStatement(s)
  {
    assert FromStatements([s]) == FromStatement(s) + FromStatements([s][1..]);
  }

  /** Entering a statement means entering its children, in order. */
  lemma ChildrenAreWalked(s: Statement)
    requires !s.VariableDeclaration?
    ensures FromStatement(s) == FromStatements(Children(s))
  {
    match s {
      case Try(block, handler, finalizer) =>
        var h := if handler.Some? then handler.value.statements else [];
        var f := if finalizer.Some? then finalizer.value.statements else [];
        FromStatementsAppend(block.statements + h, f);
        FromStatementsAppend(block.statements, h);
      case Switch(cases) => FromCasesAreFlat(cases);
      case If(consequent, alternate) =>
        FromSingle(consequent);
        if alternate.Some? {
          FromSingle(alternate.value);
          FromStatementsAppend([consequent], [alternate.value]);
        }
      case Loop(_, body) => FromSingle(body);
      case Labeled(body) => FromSingle(body);
      case _ =>
    }
  }

  /** The children in source order. With `ChildrenAreWalked` this fixes the order of all results. */
  lemma ChildrenInOrder(a: Statement, b: Statement, x: Body, y: Body, z: Body, cases: seq<Body>)
    ensures Children(If(a, None)) == [a] && Children(If(a, Some(b))) == [a, b]
    ensures Children(Try(x, Some(y), Some(z))) == x.statements + y.statements + z.statements
    ensures Children(Try(x, Some(y), None)) == x.statements + y.statements
    ensures Children(Try(x, None, Some(z))) == x.statements + z.statements
    ensures Children(Block(x.statements)) == x.statements
    ensures Children(Switch([x] + cases)) == x.statements + Children(Switch(cases))
  {
    assert ([x] + cases)[1..] == cases;
  }

  /** The declarators of a declaration are handled one by one and in order, each for at most one result. */
  lemma {:induction false} DeclaratorsInOrder(a: seq<Declarator>, b: seq<Declarator>, span: Span)
    ensures FromDeclarators(a + b, span) == FromDeclarators(a, span) + FromDeclarators(b, span)
  {
    hide IsRequire;
    if a == [] {
      assert a + b == b;
    } else {
      DeclaratorsInOrder(a[1..], b, span);
      assert (a + b)[1..] == a[1..] + b;
      AppendAssociates(if IsRequire(a[0]) then [RequireResult(a[0], span)] else [],
                       FromDeclarators(a[1..], span), FromDeclarators(b, span));
    }
  }

  lemma OneDeclaratorMeans(d: Declarator, span: Span, r: ImportResult)
    ensures FromDeclarators([d], span) == [r] <==> Requires(d, span, r)
    ensures FromDeclarators([d], span) != [] ==> |FromDeclarators([d], span)| == 1
  {
    RequiresMeans(d, span, r);
    assert [d][1..] == [];
    assert FromDeclarators([d], span) == if IsRequire(d) then [RequireResult(d, span)] else [];
    assert IsRequire(d) ==> FromDeclarators([d], span)[0] == RequireResult(d, span);
  }

  lemma {:induction false} CaseStatementIsSmaller(whole: Statement, cases: seq<Body>, c: Statement)
    requires forall part :: part in cases ==> part < whole
    requires c in CaseStatements(cases)
    ensures c < whole
  {
    assert cases[0] in cases;
    if c in cases[0].statements {
      var i :| 0 <= i < |cases[0].statements| && cases[0].statements[i] == c;
      assert cases[0].statements[i] < cases[0];
    } else {
      forall part | part in cases[1..] ensures part < whole {
        assert part in cases;
      }
      CaseStatementIsSmaller(whole, cases[1..], c);
    }
  }

  lemma ChildIsSmaller(s: Statement, c: Statement)
    requires c in Children(s)
    ensures c < s
  {
    if s.Switch? {
      CaseStatementIsSmaller(s, s.cases, c);
    }
  }

  lemma DeclaredFromChild(s: Statement, c: Statement, r: ImportResult)
    requires c in Children(s) && Declares(c, r)
    ensures Declares(s, r)
  {
    var path, d :| NestedDeclares(c, path, d, r);
    var longer := [s] + path;
    forall i, j | 0 <= i && j == i + 1 && j < |longer|
      ensures Encloses(longer[i], longer[j])
    {
      if i > 0 {
        assert Encloses(path[i - 1], path[j - 1]);
      } else {
        ChildrenAreEnclosed(s, c);
      }
    }
    assert NestedDeclares(s, longer, d, r);
  }

  lemma {:induction false} FoundIsDeclared(s: Statement, r: ImportResult)
    requires r in FromStatement(s)
    ensures Declares(s, r)
    decreases s
  {
    if s.VariableDeclaration? {
      FromDeclaratorsHas(s.declarations, s.span, r);
      var d :| d in s.declarations && Requires(d, s.span, r);
      assert NestedDeclares(s, [s], d, r);
    } else {
      ChildrenAreWalked(s);
      FromStatementsHas(Children(s), r);
      var c :| c in Children(s) && r in FromStatement(c);
      ChildIsSmaller(s, c);
      FoundIsDeclared(c, r);
      DeclaredFromChild(s, c, r);
    }
  }

  lemma {:induction false} DeclaredIsFound(s: Statement, path: seq<Statement>, d: Declarator, r: ImportResult)
    requires NestedDeclares(s, path, d, r)
    ensures r in FromStatement(s)
    decreases |path|
  {
    if |path| == 1 {
      FromDeclaratorsHas(s.declarations, s.span, r);
    } else {
      assert Encloses(path[0], path[1]);
      ChildrenAreEnclosed(path[0], path[1]);
      assert forall i, j :: 0 <= i && j == i + 1 && j < |path[1..]| ==>
        path[1..][i] == path[i + 1] && path[1..][j] == path[j + 1];
      DeclaredIsFound(path[1], path[1..], d, r);
      ChildrenAreWalked(s);
      FromStatementsHas(Children(s), r);
    }
  }

  /** The walk over statements reports exactly the require declarators of nested variable declarations. */
  lemma RequiresAreNestedDeclarations(s: Statement, r: ImportResult)
    ensures r in FromStatement(s) <==> Declares(s, r)
  {
    if r in FromStatement(s) {
      FoundIsDeclared(s, r);
    }
    if Declares(s, r) {
      var path, d :| NestedDeclares(s, path, d, r);
      DeclaredIsFound(s, path, d, r);
    }
  }

  lemma {:induction false} RequestsSplit(specifier: string, rs: seq<Request>)
    ensures multiset(FromRequests(specifier, rs, All))
         == multiset(FromRequests(specifier, rs, Types)) + multiset(FromRequests(specifier, rs, Values))
  {
    if rs != [] {
      RequestsSplit(specifier, rs[1..]);
    }
  }

  lemma {:induction false} ModulesSplit(modules: seq<RequestedModule>)
    ensures multiset(FromModules(modules, All))
         == multiset(FromModules(modules, Types)) + multiset(FromModules(modules, Values))
  {
    if modules != [] {
      RequestsSplit(modules[0].specifier, modules[0].requests);
      ModulesSplit(modules[1..]);
    }
  }

  /** `r` reports request `q` of the module called `specifier`. */
  ghost predicate Reports(r: ImportResult, specifier: string, q: Request) {
    r == ImportResult(specifier, q.span, q.statementSpan, if q.isType then Type else Value)
  }

  ghost predicate SomeRequest(modules: seq<RequestedModule>, r: ImportResult) {
    exists m, q :: m in modules && q in m.requests && Reports(r, m.specifier, q)
  }

  lemma {:induction false} RequestsAreFound(
    specifier: string, rs: seq<Request>, traceType: ImportTraceType, r: ImportResult)
    ensures r in FromRequests(specifier, rs, traceType) <==>
              && (exists q :: q in rs && Reports(r, specifier, q))
              && (r.importType == Type ==> traceType != Values) && (r.importType == Value ==> traceType != Types)
  {
    if rs != [] {
      RequestsAreFound(specifier, rs[1..], traceType, r);
      assert r in FromRequests(specifier, rs, traceType) <==>
          || (Wanted(traceType, rs[0].isType) && r == RequestResult(specifier, rs[0]))
          || r in FromRequests(specifier, rs[1..], traceType);
      assert r == RequestResult(specifier, rs[0]) <==> Reports(r, specifier, rs[0]);
      assert forall q :: q in rs <==> q == rs[0] || q in rs[1..];
    }
  }

  /** The imports found are those the module record requests, type imports unless only values are traced and
      value imports unless only types are. */
  lemma {:induction false} ModuleImportsAreFound(
    modules: seq<RequestedModule>, traceType: ImportTraceType, r: ImportResult)
    ensures r in FromModules(modules, traceType) <==>
              && SomeRequest(modules, r)
              && (r.importType == Type ==> traceType != Values) && (r.importType == Value ==> traceType != Types)
  {
    if modules != [] {
      var first := modules[0];
      ModuleImportsAreFound(modules[1..], traceType, r);
      RequestsAreFound(first.specifier, first.requests, traceType, r);
      assert forall m :: m in modules <==> m == first || m in modules[1..];
      if q :| q in first.requests && Reports(r, first.specifier, q) {
        assert first in modules;
      }
    }
  }

  lemma {:induction false} RequestsKeepOrder(specifier: string, rs: seq<Request>)
    ensures var found := FromRequests(specifier, rs, All);
            |found| == |rs| && forall i :: 0 <= i < |rs| ==> Reports(found[i], specifier, rs[i])
  {
    if rs != [] {
      RequestsKeepOrder(specifier, rs[1..]);
    }
  }

  function Requested(m: RequestedModule): seq<(string, Request)> {
    seq(|m.requests|, i requires 0 <= i < |m.requests| => (m.specifier, m.requests[i]))
  }

  function AllRequested(modules: seq<RequestedModule>): seq<(string, Request)> {
    if modules == [] then [] else Requested(modules[0]) + AllRequested(modules[1..])
  }

  /** Tracing all imports finds every request once, module by module and in order. */
  lemma {:induction false} AllRequestsInOrder(modules: seq<RequestedModule>)
    ensures var found, requested := FromModules(modules, All), AllRequested(modules);
            && |found| == |requested|
            && forall i :: 0 <= i < |found| ==> Reports(found[i], requested[i].0, requested[i].1)
  {
    hide Reports, FromRequests;
    if modules != [] {
      AllRequestsInOrder(modules[1..]);
      RequestsKeepOrder(modules[0].specifier, modules[0].requests);
      var n := |modules[0].requests|;
      var found, requested := FromModules(modules, All), AllRequested(modules);
      assert found[n..] == FromModules(modules[1..], All) && requested[n..] == AllRequested(modules[1..]);
      forall i | 0 <= i < |found|
        ensures Reports(found[i], requested[i].0, requested[i].1)
      {
        if i >= n {
          assert found[i] == found[n..][i - n] && requested[i] == requested[n..][i - n];
        } else {
          assert found[i] == FromRequests(modules[0].specifier, modules[0].requests, All)[i];
          assert requested[i] == Requested(modules[0])[i];
        }
      }
    }
  }

  /** Type imports and value imports together are all imports, but `require` declarations are in both. */
  lemma TraceTypesPartitionImports(modules: seq<RequestedModule>, statements: seq<Statement>)
    ensures multiset(Found(modules, statements, All)) + multiset(FromStatements(statements))
         == multiset(Found(modules, statements, Types)) + multiset(Found(modules, statements, Values))
  {
    ModulesSplit(modules);
  }

  /** Every trace type finds a part of what `All` finds. */
  lemma AllFindsMost(
    modules: seq<RequestedModule>, statements: seq<Statement>, traceType: ImportTraceType, r: ImportResult)
    requires r in Found(modules, statements, traceType)
    ensures r in Found(modules, statements, All)
  {
    ModulesSplit(modules);
    if r in FromModules(modules, traceType) {
      assert r in multiset(FromModules(modules, traceType));
      assert r in multiset(FromModules(modules, All));
    }
  }

  lemma {:induction false} TypeRequestsAreTypes(specifier: string, rs: seq<Request>, r: ImportResult)
    requires r in FromRequests(specifier, rs, Types)
    ensures r.importType == Type
  {
    if !(rs[0].isType && r == RequestResult(specifier, rs[0])) {
      TypeRequestsAreTypes(specifier, rs[1..], r);
    }
  }

  lemma {:induction false} TypeModulesAreTypes(modules: seq<RequestedModule>, r: ImportResult)
    requires r in FromModules(modules, Types)
    ensures r.importType == Type
  {
    if r in FromRequests(modules[0].specifier, modules[0].requests, Types) {
      TypeRequestsAreTypes(modules[0].specifier, modules[0].requests, r);
    } else {
      TypeModulesAreTypes(modules[1..], r);
    }
  }

  lemma RequireIsValue(ss: seq<Statement>, r: ImportResult)
    requires r in FromStatements(ss)
    ensures r.importType == Value
  {
    FromStatementsHas(ss, r);
    var s :| s in ss && r in FromStatement(s);
    RequiresAreNestedDeclarations(s, r);
  }

  /** Tracing types finds only type imports exactly if no statement holds a `require` declaration. */
  lemma TypesFindsOnlyTypesExactlyWithoutRequire(modules: seq<RequestedModule>, statements: seq<Statement>)
    ensures (forall r :: r in Found(modules, statements, Types) ==> r.importType == Type) <==>
              !exists s, r :: s in statements && Declares(s, r)
  {
    forall s, r | s in statements && Declares(s, r)
      ensures r in Found(modules, statements, Types) && r.importType == Value
    {
      RequiresAreNestedDeclarations(s, r);
      FromStatementsHas(statements, r);
      RequireIsValue(statements, r);
    }
    forall r | r in Found(modules, statements, Types) && r.importType != Type
      ensures exists s :: s in statements && Declares(s, r)
    {
      if r in FromModules(modules, Types) {
        TypeModulesAreTypes(modules, r);
        assert false;
      }
      FromStatementsHas(statements, r);
      var s :| s in statements && r in FromStatement(s);
      RequiresAreNestedDeclarations(s, r);
    }
  }
}
