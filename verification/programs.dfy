/**
  Small Kley programs, evaluated through the general lemmas: concrete
  outcomes of blocks, bindings, conditionals, assignment and quoting.
*/
module Programs {
  import opened Wrappers
  import opened Text
  import opened Types
  import opened Interpreter
  import InterpreterProps
  import ConvertProps

  /** `{ 1 }`: a block of one integer literal. */
  lemma BlockOfOne(n: i64, env: Env, host: Host)
    ensures Eval(Block([Integer(n)]), env, host) == Traced(Ok(Outcome(Int(n), env)), [])
  {
    InterpreterProps.OneStatement(Integer(n), Outcome(Unit, env), host, Outcome(Int(n), env), []);
    InterpreterProps.UnfoldBlock([Integer(n)], env, host);
  }

  /** `if true { 1 } else { 2 }` is 1 and `if false { 1 } else { 2 }` is 2. */
  lemma IfLiteral(b: bool, env: Env, host: Host)
    ensures Eval(IfThenElse(Boolean(b), Block([Integer(1)]), Block([Integer(2)])), env, host) ==
              Traced(Ok(Outcome(Int(if b then 1 else 2), env)), [])
  {
    BlockOfOne(1, env, host);
    BlockOfOne(2, env, host);
    InterpreterProps.IfEvaluatesChosenBranch(Boolean(b), Block([Integer(1)]), Block([Integer(2)]), env, host);
  }

  /** `if 1 { .. } else { .. }` is an error whatever the branches are. */
  lemma IfOnInteger(t: Ast, f: Ast, env: Env, host: Host)
    ensures Eval(IfThenElse(Integer(1), t, f), env, host) == Traced(Err(ConditionNotBool), [])
  {
    InterpreterProps.IfEvaluatesChosenBranch(Integer(1), t, f, env, host);
  }

  /** `{ let x: int = 2 + 3; x }` is 5. */
  lemma LetSum(env: Env, host: Host)
    ensures Eval(Block([Binding("x", TyInt, Infix(Plus, Integer(2), Integer(3))), Ident("x")]), env, host) ==
              Traced(Ok(Outcome(Int(5), env)), [])
  {
    var sum := Infix(Plus, Integer(2), Integer(3));
    InterpreterProps.InfixEvaluatesBothOperands(Plus, Integer(2), Integer(3), env, host);
    assert Eval(sum, env, host) == Traced(Ok(Outcome(Int(5), env)), []);
    ConvertProps.ScalarsConvertToThemselves(Int(5), host);
    InterpreterProps.BindingConvertsAndShadows("x", TyInt, sum, env, host);
    var env' := Bind(env, "x", TyInt, Int(5));
    InterpreterProps.LookupAfterBind(env, "x", TyInt, Int(5), "x");
    InterpreterProps.TwoStatements(Binding("x", TyInt, sum), Ident("x"), env, host,
                                   Outcome(Unit, env'), [], Outcome(Int(5), env'), []);
  }

  /** `x := 1` where nothing is named `x` is an error. */
  lemma AssignUnbound(host: Host)
    ensures EvalProgram(Assign("x", Integer(1)), host) == Traced(Err(UnboundIdentifier("x")), [])
  {
    InterpreterProps.AssignUnboundFails("x", Integer(1), Env([]), host);
  }

  /**
    Shadowing inside a block: `{ let x: int = 2; x }` sees the inner 2, and
    the environment handed back still maps `x` to the outer value.
  */
  lemma ShadowInBlock(env: Env, host: Host)
    requires Lookup(env, "x") == Some(Int(1))
    ensures var r := Eval(Block([Binding("x", TyInt, Integer(2)), Ident("x")]), env, host);
            && r == Traced(Ok(Outcome(Int(2), env)), [])
            && Lookup(r.result.value.env, "x") == Some(Int(1))
  {
    ConvertProps.ScalarsConvertToThemselves(Int(2), host);
    InterpreterProps.BindingConvertsAndShadows("x", TyInt, Integer(2), env, host);
    var env' := Bind(env, "x", TyInt, Int(2));
    InterpreterProps.LookupAfterBind(env, "x", TyInt, Int(2), "x");
    InterpreterProps.TwoStatements(Binding("x", TyInt, Integer(2)), Ident("x"), env, host,
                                   Outcome(Unit, env'), [], Outcome(Int(2), env'), []);
  }

  /** `"n = {7}"` renders the integer into the text. */
  lemma QuoteWithInteger(env: Env, host: Host)
    ensures Eval(QuoteString([StringLiteral("n = "), Integer(7)]), env, host) ==
              Traced(Ok(Outcome(Str("n = 7"), env)), [])
  {
    var parts := [StringLiteral("n = "), Integer(7)];
    InterpreterProps.QuoteOfConstants(parts, env, host);
    assert Digits(7) == "7";
    assert parts[1..] == [Integer(7)] && [Integer(7)][1..] == [];
    assert InterpreterProps.ConcatParts(parts) == "n = " + ("7" + "");
    assert "n = " + ("7" + "") == "n = 7";
  }
}
