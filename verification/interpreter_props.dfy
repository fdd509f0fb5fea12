/**
  What the evaluator promises: first-match lookup, shadowing bindings,
  in-place assignment, block scoping, statement order, which nodes start
  processes and how often, branch selection, and the expression nodes.
*/
module InterpreterProps {
  import opened Wrappers
  import opened Text
  import opened Types
  import opened Interpreter
  import ConvertProps

  // ---------------------------------------------------------------- the environment

  /**
    A binding is seen by the next lookup of its name, leaves every other
    name's lookup as it was, and keeps all older entries (a reused name is
    shadowed, not removed).
  */
  lemma LookupAfterBind(env: Env, x: string, ty: Type, v: Value, y: string)
    ensures Lookup(Bind(env, x, ty, v), x) == Some(v)
    ensures y != x ==> Lookup(Bind(env, x, ty, v), y) == Lookup(env, y)
    ensures Bind(env, x, ty, v).vars[0] == Var(x, ty, v) && Bind(env, x, ty, v).vars[1..] == env.vars
  {
    var e' := Bind(env, x, ty, v);
    if y != x {
      assert forall i :: 0 <= i < |env.vars| ==> e'.vars[i + 1] == env.vars[i];
      if Lookup(env, y).Some? {
        var i := FirstIndex(env.vars, y).value;
        assert e'.vars[i + 1] == env.vars[i];
      }
    }
  }

  /**
    Assigning a bound name changes the value of its first entry only: the
    list keeps its length, every entry keeps its name and declared type, every
    other entry is untouched, and the next lookup sees the new value.
  */
  lemma ReassignUpdatesFirstMatch(env: Env, x: string, v: Value)
    requires Lookup(env, x).Some?
    ensures var e' := Reassign(env, x, v);
            var k := FirstIndex(env.vars, x).value;
            && |e'.vars| == |env.vars|
            && (forall i :: 0 <= i < |env.vars| ==>
                  e'.vars[i].name == env.vars[i].name && e'.vars[i].ty == env.vars[i].ty)
            && e'.vars[k].value == v
            && (forall i :: 0 <= i < |env.vars| && i != k ==> e'.vars[i] == env.vars[i])
            && Lookup(e', x) == Some(v)
            && (forall y :: y != x ==> Lookup(e', y) == Lookup(env, y))
  {
    var e' := Reassign(env, x, v);
    var k := FirstIndex(env.vars, x).value;
    assert e'.vars == env.vars[k := env.vars[k].(value := v)];
    assert forall j :: 0 <= j < k ==> e'.vars[j].name != x;
    assert e'.vars[k].name == x && e'.vars[k].value == v;
    forall y | y != x
      ensures Lookup(e', y) == Lookup(env, y)
    {
      ReassignKeepsOtherLookup(env, x, v, y);
    }
  }

  lemma ReassignKeepsOtherLookup(env: Env, x: string, v: Value, y: string)
    requires Lookup(env, x).Some? && y != x
    ensures Lookup(Reassign(env, x, v), y) == Lookup(env, y)
  {
    var e' := Reassign(env, x, v);
    var k := FirstIndex(env.vars, x).value;
    assert e'.vars == env.vars[k := env.vars[k].(value := v)];
    assert forall i :: 0 <= i < |env.vars| ==> (e'.vars[i].name == y <==> env.vars[i].name == y);
    if Lookup(env, y).Some? {
      var j := FirstIndex(env.vars, y).value;
      assert e'.vars[j] == env.vars[j];
    }
  }

  // ---------------------------------------------------------------- single steps of `Eval`

  lemma UnfoldInfix(verb: Verb, lhs: Ast, rhs: Ast, env: Env, host: Host)
    ensures Eval(Infix(verb, lhs, rhs), env, host) == EvalInfix(verb, lhs, rhs, env, host)
  {
  }

  lemma UnfoldCommandNode(tokens: seq<Token>, env: Env, host: Host)
    ensures Eval(CommandExpr(tokens), env, host) == EvalCommand(tokens, env, host)
  {
  }

  lemma UnfoldBlock(stmts: seq<Ast>, env: Env, host: Host)
    ensures Eval(Block(stmts), env, host) == EvalBlock(stmts, env, host)
  {
  }

  lemma UnfoldAssign(x: string, e: Ast, env: Env, host: Host)
    ensures Eval(Assign(x, e), env, host) == EvalAssign(x, e, env, host)
  {
  }

  lemma UnfoldBinding(x: string, ty: Type, e: Ast, env: Env, host: Host)
    ensures Eval(Binding(x, ty, e), env, host) == EvalBinding(x, ty, e, env, host)
  {
  }

  lemma UnfoldIf(c: Ast, t: Ast, f: Ast, env: Env, host: Host)
    ensures Eval(IfThenElse(c, t, f), env, host) == EvalIf(c, t, f, env, host)
  {
  }

  lemma UnfoldRecordLiteral(entries: seq<Entry>, env: Env, host: Host)
    ensures Eval(RecordValue(entries), env, host) == EvalRecord(entries, env, host)
  {
  }

  lemma UnfoldQuote(parts: seq<Ast>, env: Env, host: Host)
    ensures var t := EvalText(parts, env, host);
            Eval(QuoteString(parts), env, host) ==
              Traced(if t.result.Ok? then Ok(Outcome(Str(t.result.value), env)) else Err(t.result.error), t.trace)
  {
  }

  // ---------------------------------------------------------------- assignment and binding

  /** Assigning an unbound name is an error, raised before the right-hand side runs. */
  lemma AssignUnboundFails(x: string, e: Ast, env: Env, host: Host)
    requires Lookup(env, x).None?
    ensures Eval(Assign(x, e), env, host) == Traced(Err(UnboundIdentifier(x)), [])
  {
    UnfoldAssign(x, e, env, host);
  }

  /**
    Assigning a bound name evaluates the right-hand side once and stores its
    value in the nearest entry as it is, without converting it to the
    entry's declared type; the statement's value is Unit.
  */
  lemma AssignStoresValue(x: string, e: Ast, env: Env, host: Host)
    requires Lookup(env, x).Some?
    ensures var r := Eval(e, env, host);
            var a := Eval(Assign(x, e), env, host);
            && a.trace == r.trace
            && (r.result.Err? ==> a.result == r.result)
            && (r.result.Ok? ==>
                  && a.result == Ok(Outcome(Unit, Reassign(env, x, r.result.value.value)))
                  && Lookup(a.result.value.env, x) == Some(r.result.value.value))
  {
    UnfoldAssign(x, e, env, host);
    var r := Eval(e, env, host);
    if r.result.Ok? {
      ReassignUpdatesFirstMatch(env, x, r.result.value.value);
    }
  }

  /**
    A binding converts the initialiser's value to the declared type and puts
    the converted value in front of the environment, whether or not the name
    is already bound; the statement's value is Unit and the bound value has
    the declared shape. A value without that conversion is an error.
  */
  lemma BindingConvertsAndShadows(x: string, ty: Type, e: Ast, env: Env, host: Host)
    requires Eval(e, env, host).result.Ok?
    ensures var r := Eval(e, env, host);
            var c := Convert(r.result.value.value, ty, host);
            var b := Eval(Binding(x, ty, e), env, host);
            && b.trace == r.trace + c.trace
            && (c.result.Err? ==> b.result == Err(c.result.error))
            && (c.result == Ok(None) ==> b.result == Err(BindingNotConvertible(x)))
            && (c.result.Ok? && c.result.value.Some? ==>
                  && b.result == Ok(Outcome(Unit, Bind(env, x, ty, c.result.value.value)))
                  && Lookup(b.result.value.env, x) == Some(c.result.value.value)
                  && Conforms(c.result.value.value, ty))
  {
    UnfoldBinding(x, ty, e, env, host);
    var r := Eval(e, env, host);
    var c := Convert(r.result.value.value, ty, host);
    ConvertProps.ConvertConforms(r.result.value.value, ty, host);
    if c.result.Ok? && c.result.value.Some? {
      LookupAfterBind(env, x, ty, c.result.value.value, x);
    }
  }

  // ---------------------------------------------------------------- branches and operators

  /**
    An if-then-else whose condition is not a boolean is an error; otherwise
    exactly the chosen branch is evaluated (the other has no influence on
    the outcome or the trace) and the caller's environment is returned.
  */
  lemma IfEvaluatesChosenBranch(c: Ast, t: Ast, f: Ast, env: Env, host: Host)
    requires Eval(c, env, host).result.Ok?
    ensures var cv := Eval(c, env, host);
            var v := cv.result.value.value;
            var r := Eval(IfThenElse(c, t, f), env, host);
            && (!v.Bool? ==> r == Traced(Err(ConditionNotBool), cv.trace))
            && (v.Bool? ==>
                  var br := Eval(if v.b then t else f, env, host);
                  && r.trace == cv.trace + br.trace
                  && (br.result.Err? ==> r.result == br.result)
                  && (br.result.Ok? ==> r.result == Ok(Outcome(br.result.value.value, env))))
  {
    UnfoldIf(c, t, f, env, host);
  }

  /** The untaken branch is never evaluated: replacing it changes nothing. */
  lemma IfIgnoresOtherBranch(c: Ast, t: Ast, f: Ast, t': Ast, f': Ast, env: Env, host: Host)
    requires Eval(c, env, host).result.Ok?
    ensures var v := Eval(c, env, host).result.value.value;
            && (v == Bool(true) ==> Eval(IfThenElse(c, t, f), env, host) == Eval(IfThenElse(c, t, f'), env, host))
            && (v == Bool(false) ==> Eval(IfThenElse(c, t, f), env, host) == Eval(IfThenElse(c, t', f), env, host))
  {
    IfEvaluatesChosenBranch(c, t, f, env, host);
    IfEvaluatesChosenBranch(c, t, f', env, host);
    IfEvaluatesChosenBranch(c, t', f, env, host);
  }

  /**
    `+` yields the sum of two integers when it fits in an i64 and fails
    otherwise; every other operand pair, and every other operator, fails.
  */
  lemma ApplyOnlyAddsInts(verb: Verb, x: Value, y: Value)
    ensures Apply(verb, x, y).Ok? <==>
              verb == Plus && x.Int? && y.Int? && MinI64 <= x.n as int + y.n as int <= MaxI64
    ensures Apply(verb, x, y).Ok? ==> Apply(verb, x, y).value == Int(x.n as int + y.n as int)
    ensures verb == Plus && !(x.Int? && y.Int?) ==> Apply(verb, x, y) == Err(OperandsNotInts)
  {
  }

  /**
    An infix expression evaluates both operands against the same
    environment, left then right, and returns that environment.
  */
  lemma InfixEvaluatesBothOperands(verb: Verb, lhs: Ast, rhs: Ast, env: Env, host: Host)
    requires Eval(lhs, env, host).result.Ok? && Eval(rhs, env, host).result.Ok?
    ensures var l := Eval(lhs, env, host);
            var r := Eval(rhs, env, host);
            var out := Apply(verb, l.result.value.value, r.result.value.value);
            var e := Eval(Infix(verb, lhs, rhs), env, host);
            && e.trace == l.trace + r.trace
            && (out.Ok? ==> e.result == Ok(Outcome(out.value, env)))
            && (out.Err? ==> e.result == Err(out.error))
  {
    UnfoldInfix(verb, lhs, rhs, env, host);
  }

  // ---------------------------------------------------------------- quoted strings and command tokens

  /** A part whose text needs no environment and no process: a string or integer literal. */
  predicate ConstantPart(a: Ast) {
    a.StringLiteral? || a.Integer?
  }

  predicate ConstantParts(parts: seq<Ast>) {
    forall i :: 0 <= i < |parts| ==> ConstantPart(parts[i])
  }

  /** A constant part's text: the literal itself, or the integer's decimal rendering. */
  function PartText(a: Ast): string
    requires ConstantPart(a)
  {
    if a.StringLiteral? then a.text else RenderInt(a.n)
  }

  /** The texts of constant parts, run together with nothing between them. */
  function ConcatParts(parts: seq<Ast>): string
    requires ConstantParts(parts)
  {
    if |parts| == 0 then "" else PartText(parts[0]) + ConcatParts(parts[1..])
  }

  lemma ConstantPartText(a: Ast, env: Env, host: Host)
    requires ConstantPart(a)
    ensures Eval(a, env, host) == Traced(Ok(Outcome(if a.StringLiteral? then Str(a.text) else Int(a.n), env)), [])
    ensures Convert(Eval(a, env, host).result.value.value, TyStr, host) == Traced(Ok(Some(Str(PartText(a)))), [])
  {
  }

  lemma TextStep(parts: seq<Ast>, env: Env, host: Host)
    requires |parts| > 0 && ConstantPart(parts[0])
    ensures var rest := EvalText(parts[1..], env, host);
            EvalText(parts, env, host) ==
              Traced(if rest.result.Ok? then Ok(PartText(parts[0]) + rest.result.value) else rest.result, rest.trace)
  {
    ConstantPartText(parts[0], env, host);
  }

  /**
    A quoted string of constant parts is their texts concatenated, in
    order, and starts no process.
  */
  lemma {:induction false} QuoteOfConstants(parts: seq<Ast>, env: Env, host: Host)
    requires ConstantParts(parts)
    ensures EvalText(parts, env, host) == Traced(Ok(ConcatParts(parts)), [])
    ensures Eval(QuoteString(parts), env, host) == Traced(Ok(Outcome(Str(ConcatParts(parts)), env)), [])
    decreases |parts|
  {
    if |parts| > 0 {
      TextStep(parts, env, host);
      QuoteOfConstants(parts[1..], env, host);
    }
    UnfoldQuote(parts, env, host);
  }

  predicate ConstantTokens(tokens: seq<Token>) {
    forall i :: 0 <= i < |tokens| ==> ConstantParts(tokens[i].parts)
  }

  /** The argument strings of constant tokens, one per token. */
  function TokenTexts(tokens: seq<Token>): (ws: seq<string>)
    requires ConstantTokens(tokens)
    ensures |ws| == |tokens|
    ensures forall i :: 0 <= i < |tokens| ==> ws[i] == ConcatParts(tokens[i].parts)
  {
    if |tokens| == 0 then []
    else
      assert ConstantTokens(tokens[1..]) by { ConstantTokensTail(tokens); }
      [ConcatParts(tokens[0].parts)] + TokenTexts(tokens[1..])
  }

  lemma ConstantTokensTail(tokens: seq<Token>)
    requires ConstantTokens(tokens) && |tokens| > 0
    ensures ConstantTokens(tokens[1..])
  {
    forall i | 0 <= i < |tokens| - 1
      ensures ConstantParts(tokens[1..][i].parts)
    {
      assert tokens[1..][i] == tokens[i + 1];
    }
  }

  lemma TokensStep(tokens: seq<Token>, env: Env, host: Host, arg: string)
    requires |tokens| > 0 && EvalText(tokens[0].parts, env, host) == Traced(Ok(arg), [])
    ensures var rest := EvalTokens(tokens[1..], env, host);
            EvalTokens(tokens, env, host) ==
              Traced(if rest.result.Ok? then Ok([arg] + rest.result.value) else rest.result, rest.trace)
  {
  }

  lemma {:induction false} TokensOfConstants(tokens: seq<Token>, env: Env, host: Host)
    requires ConstantTokens(tokens)
    ensures EvalTokens(tokens, env, host) == Traced(Ok(TokenTexts(tokens)), [])
    decreases |tokens|
  {
    if |tokens| > 0 {
      QuoteOfConstants(tokens[0].parts, env, host);
      TokensStep(tokens, env, host, ConcatParts(tokens[0].parts));
      TokensOfConstants(tokens[1..], env, host);
    }
  }

  /** The descriptor a command node with nonempty constant tokens builds: the first token names the program. */
  function CmdOf(tokens: seq<Token>): Cmd
    requires ConstantTokens(tokens) && |tokens| > 0
  {
    Cmd(TokenTexts(tokens)[0], TokenTexts(tokens)[1..])
  }

  /**
    Evaluating a command node only builds a descriptor: the program is the
    first token's text and the arguments the others', no process starts, and
    a node without tokens is an error.
  */
  lemma ConstantCommandNode(tokens: seq<Token>, env: Env, host: Host)
    requires ConstantTokens(tokens)
    ensures |tokens| == 0 ==> Eval(CommandExpr(tokens), env, host) == Traced(Err(EmptyCommand), [])
    ensures |tokens| > 0 ==>
              Eval(CommandExpr(tokens), env, host) == Traced(Ok(Outcome(Command(CmdOf(tokens)), env)), [])
  {
    UnfoldCommandNode(tokens, env, host);
    TokensOfConstants(tokens, env, host);
  }

  // ---------------------------------------------------------------- blocks and statements

  /** One statement of a block: run it if its value is a command descriptor, then go on with its outcome. */
  lemma StmtsStep(stmts: seq<Ast>, st: Outcome, host: Host)
    requires |stmts| > 0
    ensures var s := Eval(stmts[0], st.env, host);
            && (s.result.Err? ==> EvalStmts(stmts, st, host) == Traced(Err(s.result.error), s.trace))
            && (s.result.Ok? && s.result.value.value.Command? && !host.launches(s.result.value.value.cmd) ==>
                  EvalStmts(stmts, st, host) == Traced(Err(LaunchFailed(s.result.value.value.cmd)), s.trace))
            && (s.result.Ok? && !(s.result.value.value.Command? && !host.launches(s.result.value.value.cmd)) ==>
                  var rest := EvalStmts(stmts[1..], s.result.value, host);
                  EvalStmts(stmts, st, host) == Traced(rest.result, s.trace + Started(s.result.value.value) + rest.trace))
  {
  }

  /** One statement that succeeded with `o` (and may go on): the run continues from `o`. */
  lemma StmtsOkStep(stmts: seq<Ast>, st: Outcome, host: Host, o: Outcome, tr: seq<Event>)
    requires |stmts| > 0 && Eval(stmts[0], st.env, host) == Traced(Ok(o), tr)
    requires !(o.value.Command? && !host.launches(o.value.cmd))
    ensures var rest := EvalStmts(stmts[1..], o, host);
            EvalStmts(stmts, st, host) == Traced(rest.result, tr + Started(o.value) + rest.trace)
  {
  }

  /**
    Statements run in sequence: running `p + q` runs `p`, then runs `q` from
    where `p` left off, and an abort in `p` skips `q` entirely.
  */
  lemma {:induction false} StmtsAppend(p: seq<Ast>, q: seq<Ast>, st: Outcome, host: Host)
    ensures var a := EvalStmts(p, st, host);
            && (a.result.Err? ==> EvalStmts(p + q, st, host) == a)
            && (a.result.Ok? ==>
                  var b := EvalStmts(q, a.result.value, host);
                  EvalStmts(p + q, st, host) == Traced(b.result, a.trace + b.trace))
    decreases |p|
  {
    if |p| == 0 {
      assert p + q == q;
    } else {
      var s := Eval(p[0], st.env, host);
      assert (p + q)[0] == p[0];
      if s.result.Ok? && !(s.result.value.value.Command? && !host.launches(s.result.value.value.cmd)) {
        var o := s.result.value;
        assert (p + q)[1..] == p[1..] + q;
        StmtsOkStep(p, st, host, o, s.trace);
        StmtsOkStep(p + q, st, host, o, s.trace);
        StmtsAppend(p[1..], q, o, host);
        var a := EvalStmts(p[1..], o, host);
        if a.result.Ok? {
          var b := EvalStmts(q, a.result.value, host);
          assert s.trace + Started(o.value) + (a.trace + b.trace) == s.trace + Started(o.value) + a.trace + b.trace;
        }
      } else {
        StmtsAbortSkipsRest(p, q, st, host);
      }
    }
  }

  /** A first statement that aborts ends the run, whatever follows it. */
  lemma StmtsAbortSkipsRest(p: seq<Ast>, q: seq<Ast>, st: Outcome, host: Host)
    requires |p| > 0
    requires var s := Eval(p[0], st.env, host);
             !(s.result.Ok? && !(s.result.value.value.Command? && !host.launches(s.result.value.value.cmd)))
    ensures EvalStmts(p + q, st, host) == EvalStmts(p, st, host)
  {
    assert (p + q)[0] == p[0];
  }

  /** A block without statements is Unit and starts nothing. */
  lemma EmptyBlockIsUnit(env: Env, host: Host)
    ensures Eval(Block([]), env, host) == Traced(Ok(Outcome(Unit, env)), [])
  {
    UnfoldBlock([], env, host);
  }

  /** A lone statement: its evaluation, then its process when its value is a command descriptor. */
  lemma SingleStatement(e: Ast, st: Outcome, host: Host)
    ensures var s := Eval(e, st.env, host);
            && (s.result.Err? ==> EvalStmts([e], st, host) == Traced(Err(s.result.error), s.trace))
            && (s.result.Ok? && s.result.value.value.Command? && !host.launches(s.result.value.value.cmd) ==>
                  EvalStmts([e], st, host) == Traced(Err(LaunchFailed(s.result.value.value.cmd)), s.trace))
            && (s.result.Ok? && !(s.result.value.value.Command? && !host.launches(s.result.value.value.cmd)) ==>
                  EvalStmts([e], st, host) == Traced(Ok(s.result.value), s.trace + Started(s.result.value.value)))
  {
    var s := Eval(e, st.env, host);
    StmtsStep([e], st, host);
    assert [e][1..] == [];
    if s.result.Ok? {
      assert s.trace + Started(s.result.value.value) + [] == s.trace + Started(s.result.value.value);
    }
  }

  /**
    A block's value is its last statement's value, with that statement's
    process started when the value is a command descriptor; the block hands
    back the caller's environment, whatever its statements bound or assigned.
  */
  lemma BlockValueIsLastStatement(p: seq<Ast>, e: Ast, env: Env, host: Host)
    requires EvalStmts(p, Outcome(Unit, env), host).result.Ok?
    ensures var a := EvalStmts(p, Outcome(Unit, env), host);
            var s := Eval(e, a.result.value.env, host);
            var b := Eval(Block(p + [e]), env, host);
            && (s.result.Err? ==> b == Traced(Err(s.result.error), a.trace + s.trace))
            && (s.result.Ok? && s.result.value.value.Command? && !host.launches(s.result.value.value.cmd) ==>
                  b == Traced(Err(LaunchFailed(s.result.value.value.cmd)), a.trace + s.trace))
            && (s.result.Ok? && !(s.result.value.value.Command? && !host.launches(s.result.value.value.cmd)) ==>
                  b == Traced(Ok(Outcome(s.result.value.value, env)), a.trace + s.trace + Started(s.result.value.value)))
  {
    var a := EvalStmts(p, Outcome(Unit, env), host);
    StmtsSnoc(p, e, Outcome(Unit, env), host, a.result.value, a.trace);
    BlockStep(p + [e], env, host);
  }

  /** A block is its statement run, with the caller's environment put back. */
  lemma BlockStep(stmts: seq<Ast>, env: Env, host: Host)
    ensures var r := EvalStmts(stmts, Outcome(Unit, env), host);
            && (r.result.Err? ==> Eval(Block(stmts), env, host) == Traced(Err(r.result.error), r.trace))
            && (r.result.Ok? ==> Eval(Block(stmts), env, host) == Traced(Ok(Outcome(r.result.value.value, env)), r.trace))
  {
    UnfoldBlock(stmts, env, host);
  }

  /** Running `p` (which ends in `o` after trace `tr`) and then one more statement `e`. */
  lemma StmtsSnoc(p: seq<Ast>, e: Ast, st: Outcome, host: Host, o: Outcome, tr: seq<Event>)
    requires EvalStmts(p, st, host) == Traced(Ok(o), tr)
    ensures var s := Eval(e, o.env, host);
            && (s.result.Err? ==> EvalStmts(p + [e], st, host) == Traced(Err(s.result.error), tr + s.trace))
            && (s.result.Ok? && s.result.value.value.Command? && !host.launches(s.result.value.value.cmd) ==>
                  EvalStmts(p + [e], st, host) == Traced(Err(LaunchFailed(s.result.value.value.cmd)), tr + s.trace))
            && (s.result.Ok? && !(s.result.value.value.Command? && !host.launches(s.result.value.value.cmd)) ==>
                  EvalStmts(p + [e], st, host) ==
                    Traced(Ok(s.result.value), tr + s.trace + Started(s.result.value.value)))
  {
    var s := Eval(e, o.env, host);
    if s.result.Err? {
      SnocAborts(p, e, st, host, o, tr);
    } else if s.result.value.value.Command? && !host.launches(s.result.value.value.cmd) {
      SnocLaunchFails(p, e, st, host, o, tr);
    } else {
      SnocContinues(p, e, st, host, o, tr);
    }
  }

  lemma SnocAborts(p: seq<Ast>, e: Ast, st: Outcome, host: Host, o: Outcome, tr: seq<Event>)
    requires EvalStmts(p, st, host) == Traced(Ok(o), tr)
    requires Eval(e, o.env, host).result.Err?
    ensures EvalStmts(p + [e], st, host) == Traced(Err(Eval(e, o.env, host).result.error), tr + Eval(e, o.env, host).trace)
  {
    StmtsAppendAfterOk(p, [e], st, host, o, tr);
    SingleStatement(e, o, host);
  }

  lemma SnocLaunchFails(p: seq<Ast>, e: Ast, st: Outcome, host: Host, o: Outcome, tr: seq<Event>)
    requires EvalStmts(p, st, host) == Traced(Ok(o), tr)
    requires var s := Eval(e, o.env, host);
             s.result.Ok? && s.result.value.value.Command? && !host.launches(s.result.value.value.cmd)
    ensures var s := Eval(e, o.env, host);
            EvalStmts(p + [e], st, host) == Traced(Err(LaunchFailed(s.result.value.value.cmd)), tr + s.trace)
  {
    StmtsAppendAfterOk(p, [e], st, host, o, tr);
    SingleStatement(e, o, host);
  }

  lemma SnocContinues(p: seq<Ast>, e: Ast, st: Outcome, host: Host, o: Outcome, tr: seq<Event>)
    requires EvalStmts(p, st, host) == Traced(Ok(o), tr)
    requires var s := Eval(e, o.env, host);
             s.result.Ok? && !(s.result.value.value.Command? && !host.launches(s.result.value.value.cmd))
    ensures var s := Eval(e, o.env, host);
            EvalStmts(p + [e], st, host) == Traced(Ok(s.result.value), tr + s.trace + Started(s.result.value.value))
  {
    StmtsAppendAfterOk(p, [e], st, host, o, tr);
    SingleStatement(e, o, host);
    var s := Eval(e, o.env, host);
    assert tr + (s.trace + Started(s.result.value.value)) == tr + s.trace + Started(s.result.value.value);
  }

  /** `StmtsAppend` for a `p` known to end in `o` after trace `tr`. */
  lemma StmtsAppendAfterOk(p: seq<Ast>, q: seq<Ast>, st: Outcome, host: Host, o: Outcome, tr: seq<Event>)
    requires EvalStmts(p, st, host) == Traced(Ok(o), tr)
    ensures var b := EvalStmts(q, o, host);
            EvalStmts(p + q, st, host) == Traced(b.result, tr + b.trace)
  {
    StmtsAppend(p, q, st, host);
  }

  /** Statements that are all constant command nodes. */
  predicate CommandStatements(stmts: seq<Ast>) {
    forall i :: 0 <= i < |stmts| ==>
      stmts[i].CommandExpr? && ConstantTokens(stmts[i].tokens) && |stmts[i].tokens| > 0
  }

  /** What a run of command statements records: one `Spawned` per statement, in order. */
  function Spawns(stmts: seq<Ast>): (tr: seq<Event>)
    requires CommandStatements(stmts)
    ensures |tr| == |stmts|
    ensures forall i :: 0 <= i < |stmts| ==> tr[i] == Spawned(CmdOf(stmts[i].tokens))
  {
    if |stmts| == 0 then []
    else
      assert CommandStatements(stmts[1..]) by { CommandStatementsTail(stmts); }
      [Spawned(CmdOf(stmts[0].tokens))] + Spawns(stmts[1..])
  }

  lemma CommandStatementsTail(stmts: seq<Ast>)
    requires CommandStatements(stmts) && |stmts| > 0
    ensures CommandStatements(stmts[1..])
  {
    forall i | 0 <= i < |stmts| - 1
      ensures stmts[1..][i] == stmts[i + 1]
    {
    }
  }

  /**
    A statement whose value is a command descriptor is started exactly once,
    in statement order; when all launch, the trace is exactly one `Spawned`
    event per statement.
  */
  lemma {:induction false} CommandStatementsSpawnEachOnce(stmts: seq<Ast>, st: Outcome, host: Host)
    requires CommandStatements(stmts)
    requires forall i :: 0 <= i < |stmts| ==> host.launches(CmdOf(stmts[i].tokens))
    ensures EvalStmts(stmts, st, host).result.Ok?
    ensures EvalStmts(stmts, st, host).trace == Spawns(stmts)
    decreases |stmts|
  {
    if |stmts| > 0 {
      var c := CmdOf(stmts[0].tokens);
      CommandStatementStep(stmts, st, host);
      CommandStatementsTail(stmts);
      assert forall i :: 0 <= i < |stmts| - 1 ==> stmts[1..][i] == stmts[i + 1];
      CommandStatementsSpawnEachOnce(stmts[1..], Outcome(Command(c), st.env), host);
    }
  }


  /** A launching command statement records its one `Spawned` event and leaves its descriptor as the value so far. */
  lemma CommandStatementStep(stmts: seq<Ast>, st: Outcome, host: Host)
    requires |stmts| > 0 && stmts[0].CommandExpr? && ConstantTokens(stmts[0].tokens) && |stmts[0].tokens| > 0
    requires host.launches(CmdOf(stmts[0].tokens))
    ensures var c := CmdOf(stmts[0].tokens);
            var rest := EvalStmts(stmts[1..], Outcome(Command(c), st.env), host);
            EvalStmts(stmts, st, host) == Traced(rest.result, [Spawned(c)] + rest.trace)
  {
    var c := CmdOf(stmts[0].tokens);
    ConstantCommandNode(stmts[0].tokens, st.env, host);
    assert stmts[0] == CommandExpr(stmts[0].tokens);
    StmtsOkStep(stmts, st, host, Outcome(Command(c), st.env), []);
    assert [] + Started(Command(c)) == [Spawned(c)];
  }

  /**
    A run that ends in a command descriptor has started that descriptor last:
    the final statement's value is the descriptor, and a statement's
    descriptor is started as soon as it is produced.
  */
  lemma {:induction false} StmtsEndingInCommandStartIt(p: seq<Ast>, st: Outcome, host: Host, o: Outcome, tr: seq<Event>)
    requires EvalStmts(p, st, host) == Traced(Ok(o), tr)
    requires o.value.Command?
    ensures |p| > 0 ==> |tr| > 0 && tr[|tr| - 1] == Spawned(o.value.cmd)
    decreases |p|
  {
    if |p| > 0 {
      var s := Eval(p[0], st.env, host);
      StmtsStep(p, st, host);
      var o1 := s.result.value;
      var rest := EvalStmts(p[1..], o1, host);
      assert tr == s.trace + Started(o1.value) + rest.trace;
      if |p[1..]| == 0 {
        assert o1 == o && rest.trace == [];
      } else {
        StmtsEndingInCommandStartIt(p[1..], o1, host, o, rest.trace);
      }
    }
  }

  /**
    A block hands its last statement's value to its caller, and the caller
    starts any command descriptor it receives: a descriptor that ends an
    inner block is started by the inner block and again by the outer one, so
    the trace ends with two starts of it.
  */
  lemma NestedBlockRunsCommandTwice(p: seq<Ast>, env: Env, host: Host, o: Outcome, tr: seq<Event>)
    requires EvalStmts(p, Outcome(Unit, env), host) == Traced(Ok(o), tr)
    requires o.value.Command? && host.launches(o.value.cmd)
    ensures |tr| > 0 && tr[|tr| - 1] == Spawned(o.value.cmd)
    ensures Eval(Block([Block(p)]), env, host) == Traced(Ok(Outcome(o.value, env)), tr + [Spawned(o.value.cmd)])
  {
    StmtsEndingInCommandStartIt(p, Outcome(Unit, env), host, o, tr);
    BlockStep(p, env, host);
    SingleStatement(Block(p), Outcome(Unit, env), host);
    BlockStep([Block(p)], env, host);
  }

  /**
    A statement whose value is a descriptor that cannot be launched aborts
    the block: the statements before it have run with their processes, and
    nothing after it runs.
  */
  lemma LaunchFailureStopsBlock(p: seq<Ast>, e: Ast, q: seq<Ast>, env: Env, host: Host, o: Outcome, tr: seq<Event>, c: Cmd)
    requires EvalStmts(p, Outcome(Unit, env), host) == Traced(Ok(o), tr)
    requires Eval(e, o.env, host).result.Ok? && Eval(e, o.env, host).result.value.value == Command(c)
    requires !host.launches(c)
    ensures Eval(Block(p + [e] + q), env, host) == Traced(Err(LaunchFailed(c)), tr + Eval(e, o.env, host).trace)
  {
    var st := Outcome(Unit, env);
    StmtsSnoc(p, e, st, host, o, tr);
    StmtsAppend(p + [e], q, st, host);
    BlockStep(p + [e] + q, env, host);
  }

  lemma CommandAsText(c: Cmd, host: Host)
    requires host.launches(c) && host.stdout(c).Some?
    ensures Convert(Command(c), TyStr, host) == Traced(Ok(Some(Str(Trim(host.stdout(c).value)))), [Captured(c)])
  {
    ConvertProps.UnfoldCommand(c, TyStr, host);
    ConvertProps.CaptureSucceeds(c, host);
    ConvertProps.CommandToTextStep(c, host, Trim(host.stdout(c).value));
  }

  lemma BindCommandAsText(x: string, tokens: seq<Token>, env: Env, host: Host)
    requires ConstantTokens(tokens) && |tokens| > 0
    requires host.launches(CmdOf(tokens)) && host.stdout(CmdOf(tokens)).Some?
    ensures Eval(Binding(x, TyStr, CommandExpr(tokens)), env, host) ==
              Traced(Ok(Outcome(Unit, Bind(env, x, TyStr, Str(Trim(host.stdout(CmdOf(tokens)).value))))),
                     [Captured(CmdOf(tokens))])
  {
    ConstantCommandNode(tokens, env, host);
    CommandAsText(CmdOf(tokens), host);
    BindingConvertsAndShadows(x, TyStr, CommandExpr(tokens), env, host);
  }

  /** A lone statement whose value is no command descriptor: the block's run is that statement's evaluation. */
  lemma OneStatement(a: Ast, st: Outcome, host: Host, o: Outcome, tr: seq<Event>)
    requires Eval(a, st.env, host) == Traced(Ok(o), tr) && !o.value.Command?
    ensures EvalStmts([a], st, host) == Traced(Ok(o), tr)
  {
    SingleStatement(a, st, host);
    assert tr + Started(o.value) == tr;
  }

  /**
    A command bound as text runs exactly once, when the binding converts
    it; the binding statement's value is Unit, so the block starts nothing
    more, and a later use of the name reads the captured, trimmed output.
  */
  lemma BoundCommandRunsOnce(x: string, tokens: seq<Token>, env: Env, host: Host)
    requires ConstantTokens(tokens) && |tokens| > 0
    requires host.launches(CmdOf(tokens)) && host.stdout(CmdOf(tokens)).Some?
    ensures Eval(Block([Binding(x, TyStr, CommandExpr(tokens)), Ident(x)]), env, host) ==
              Traced(Ok(Outcome(Str(Trim(host.stdout(CmdOf(tokens)).value)), env)), [Captured(CmdOf(tokens))])
  {
    var c := CmdOf(tokens);
    var text := Trim(host.stdout(c).value);
    var env' := Bind(env, x, TyStr, Str(text));
    BindCommandAsText(x, tokens, env, host);
    LookupAfterBind(env, x, TyStr, Str(text), x);
    TwoStatements(Binding(x, TyStr, CommandExpr(tokens)), Ident(x), env, host,
                  Outcome(Unit, env'), [Captured(c)], Outcome(Str(text), env'), []);
  }

  /** A block of two statements, neither of whose values is a command descriptor. */
  lemma TwoStatements(a: Ast, b: Ast, env: Env, host: Host, o1: Outcome, tr1: seq<Event>, o2: Outcome, tr2: seq<Event>)
    requires Eval(a, env, host) == Traced(Ok(o1), tr1) && !o1.value.Command?
    requires Eval(b, o1.env, host) == Traced(Ok(o2), tr2) && !o2.value.Command?
    ensures Eval(Block([a, b]), env, host) == Traced(Ok(Outcome(o2.value, env)), tr1 + tr2)
  {
    OneStatement(a, Outcome(Unit, env), host, o1, tr1);
    BlockValueIsLastStatement([a], b, env, host);
    assert [a] + [b] == [a, b];
    assert tr1 + tr2 + Started(o2.value) == tr1 + tr2;
  }

  // ---------------------------------------------------------------- record literals

  function EntryKeys(entries: seq<Entry>): set<string> {
    set i | 0 <= i < |entries| :: entries[i].key
  }

  /** The processes the entries start, entry by entry, when each is evaluated in `env`. */
  function EntryTraces(entries: seq<Entry>, env: Env, host: Host): seq<Event> {
    if |entries| == 0 then [] else Eval(entries[0].expr, env, host).trace + EntryTraces(entries[1..], env, host)
  }

  lemma EntriesStep(entries: seq<Entry>, env: Env, acc: map<string, Value>, host: Host)
    requires |entries| > 0
    ensures var r := Eval(entries[0].expr, env, host);
            && (r.result.Err? ==> EvalEntries(entries, env, acc, host) == Traced(Err(r.result.error), r.trace))
            && (r.result.Ok? ==>
                  var rest := EvalEntries(entries[1..], env, acc[entries[0].key := r.result.value.value], host);
                  EvalEntries(entries, env, acc, host) == Traced(rest.result, r.trace + rest.trace))
  {
  }

  lemma EntryKeysOfCons(entries: seq<Entry>)
    requires |entries| > 0
    ensures EntryKeys(entries) == {entries[0].key} + EntryKeys(entries[1..])
  {
    forall k | k in EntryKeys(entries)
      ensures k in {entries[0].key} + EntryKeys(entries[1..])
    {
      var i :| 0 <= i < |entries| && entries[i].key == k;
      if i > 0 {
        assert entries[1..][i - 1] == entries[i];
      }
    }
  }

  /**
    The entries of a record literal are evaluated in order, each in the
    literal's environment: the whole succeeds exactly when every entry
    does, the processes started are then the entries' in entry order, and
    the map holds `acc`'s keys and the entries' keys, with
    the keys no entry names keeping their `acc` values.
  */
  lemma {:induction false} EntriesCollect(entries: seq<Entry>, env: Env, acc: map<string, Value>, host: Host)
    ensures var r := EvalEntries(entries, env, acc, host);
            && (r.result.Ok? <==> forall i :: 0 <= i < |entries| ==> Eval(entries[i].expr, env, host).result.Ok?)
            && (r.result.Ok? ==> r.trace == EntryTraces(entries, env, host))
            && (r.result.Ok? ==> r.result.value.Keys == acc.Keys + EntryKeys(entries))
            && (r.result.Ok? ==> forall k :: k in acc && k !in EntryKeys(entries) ==> r.result.value[k] == acc[k])
    decreases |entries|
  {
    if |entries| > 0 {
      EntriesStep(entries, env, acc, host);
      EntryKeysOfCons(entries);
      var r0 := Eval(entries[0].expr, env, host);
      assert forall i :: 1 <= i < |entries| ==> entries[1..][i - 1] == entries[i];
      if r0.result.Ok? {
        EntriesCollect(entries[1..], env, acc[entries[0].key := r0.result.value.value], host);
      }
    }
  }

  /** Each key holds the value of the last entry that names it. */
  lemma {:induction false} EntriesLastWins(entries: seq<Entry>, env: Env, acc: map<string, Value>, host: Host)
    requires EvalEntries(entries, env, acc, host).result.Ok?
    ensures var m := EvalEntries(entries, env, acc, host).result.value;
            forall i :: 0 <= i < |entries| && (forall j :: i < j < |entries| ==> entries[j].key != entries[i].key) ==>
              && Eval(entries[i].expr, env, host).result.Ok?
              && entries[i].key in m
              && m[entries[i].key] == Eval(entries[i].expr, env, host).result.value.value
    decreases |entries|
  {
    if |entries| > 0 {
      EntriesStep(entries, env, acc, host);
      var r0 := Eval(entries[0].expr, env, host);
      var acc' := acc[entries[0].key := r0.result.value.value];
      var m := EvalEntries(entries, env, acc, host).result.value;
      EntriesCollect(entries[1..], env, acc', host);
      EntriesLastWins(entries[1..], env, acc', host);
      EntryKeysOfCons(entries);
      forall i | 0 <= i < |entries| && (forall j :: i < j < |entries| ==> entries[j].key != entries[i].key)
        ensures Eval(entries[i].expr, env, host).result.Ok?
        ensures entries[i].key in m && m[entries[i].key] == Eval(entries[i].expr, env, host).result.value.value
      {
        if i == 0 {
          assert entries[0].key !in EntryKeys(entries[1..]);
        } else {
          assert entries[1..][i - 1] == entries[i];
          assert forall j :: i - 1 < j < |entries| - 1 ==> entries[1..][j] == entries[j + 1];
        }
      }
    }
  }

  /**
    A record literal is a record whose keys are exactly the literal's keys
    (a repeated key keeps its last value), evaluated in the caller's
    environment, which it returns; the entries' processes start in entry
    order.
  */
  lemma RecordLiteralHasItsKeys(entries: seq<Entry>, env: Env, host: Host)
    ensures var r := Eval(RecordValue(entries), env, host);
            && (r.result.Ok? <==> forall i :: 0 <= i < |entries| ==> Eval(entries[i].expr, env, host).result.Ok?)
            && (r.result.Ok? ==>
                  && r.result.value.env == env
                  && r.trace == EntryTraces(entries, env, host)
                  && r.result.value.value.Record?
                  && r.result.value.value.fields.Keys == EntryKeys(entries)
                  && forall i :: 0 <= i < |entries| && (forall j :: i < j < |entries| ==> entries[j].key != entries[i].key) ==>
                       Eval(entries[i].expr, env, host).result.Ok? &&
                       r.result.value.value.fields[entries[i].key] == Eval(entries[i].expr, env, host).result.value.value)
  {
    UnfoldRecordLiteral(entries, env, host);
    EntriesCollect(entries, env, map[], host);
    if EvalEntries(entries, env, map[], host).result.Ok? {
      EntriesLastWins(entries, env, map[], host);
    }
  }
}
