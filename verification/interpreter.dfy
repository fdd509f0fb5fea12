/**
  Kley's tree-walking evaluator (`eval_env`) and its environment: an
  ordered list of (name, declared type, value) entries where lookup takes
  the first match, a binding goes in front and an assignment overwrites the
  nearest match. Blocks run every statement whose value is a command
  descriptor and hand the caller's environment back unchanged.
*/
module Interpreter {
  import opened Wrappers
  import opened Text
  import opened Types

  datatype Verb = Plus | Minus | Times | Divide

  /** The syntax tree as `eval_env` matches on it. */
  datatype Ast =
    | Infix(verb: Verb, lhs: Ast, rhs: Ast)
    | Integer(n: i64)
    | Boolean(b: bool)
    | Ident(name: string)
    | TypeLiteral(tname: string)
    | CommandExpr(tokens: seq<Token>)            // backquoted command: one argument per token
    | Block(stmts: seq<Ast>)
    | Assign(target: string, expr: Ast)
    | Binding(ident: string, ty: Type, init: Ast)
    | QuoteString(parts: seq<Ast>)
    | StringLiteral(text: string)
    | UnitLiteral
    | IfThenElse(cond: Ast, tBlock: Ast, fBlock: Ast)
    | RecordValue(entries: seq<Entry>)

  /** One command-line token: the concatenation of its parts' texts. */
  datatype Token = Token(parts: seq<Ast>)

  /**
    One `key: expr` of a record literal. The entry order stands for the
    iteration order of the literal's map, which decides evaluation order.
  */
  datatype Entry = Entry(key: string, expr: Ast)

  datatype Var = Var(name: string, ty: Type, value: Value)

  /** Entry 0 is the most recent binding. */
  datatype Env = Env(vars: seq<Var>)

  datatype Outcome = Outcome(value: Value, env: Env)

  // ---------------------------------------------------------------- the environment

  /** The position of the first entry named `x`, if any. */
  function FirstIndex(vars: seq<Var>, x: string): (r: Option<nat>)
    ensures r.None? <==> forall i :: 0 <= i < |vars| ==> vars[i].name != x
    ensures r.Some? ==>
              && r.value < |vars|
              && vars[r.value].name == x
              && forall j :: 0 <= j < r.value ==> vars[j].name != x
  {
    if |vars| == 0 then None
    else if vars[0].name == x then Some(0)
    else
      assert forall i :: 1 <= i < |vars| ==> vars[i] == vars[1..][i - 1];
      match FirstIndex(vars[1..], x)
      case None => None
      case Some(i) => Some(i + 1)
  }

  /** `envlookup`: the value of the first entry named `x`. */
  function Lookup(env: Env, x: string): (r: Option<Value>)
    ensures r.None? <==> forall i :: 0 <= i < |env.vars| ==> env.vars[i].name != x
    ensures forall i :: 0 <= i < |env.vars| && env.vars[i].name == x &&
                        (forall j :: 0 <= j < i ==> env.vars[j].name != x) ==>
              r == Some(env.vars[i].value)
  {
    match FirstIndex(env.vars, x)
    case None => None
    case Some(i) => Some(env.vars[i].value)
  }

  /** A binding: the new entry goes in front of all older ones. */
  function Bind(env: Env, x: string, ty: Type, v: Value): Env {
    Env([Var(x, ty, v)] + env.vars)
  }

  /** An assignment: the value of the first entry named `x` is replaced; nothing changes when there is none. */
  function Reassign(env: Env, x: string, v: Value): Env {
    match FirstIndex(env.vars, x)
    case None => env
    case Some(i) => Env(env.vars[i := env.vars[i].(value := v)])
  }

  // ---------------------------------------------------------------- evaluation

  /** The operator on two operand values. Only `+` on integers is defined, with i64 overflow an error. */
  function Apply(verb: Verb, x: Value, y: Value): Result<Value> {
    match verb
    case Plus =>
      if x.Int? && y.Int? then
        var sum := x.n as int + y.n as int;
        if MinI64 <= sum <= MaxI64 then Ok(Int(sum)) else Err(Overflow)
      else Err(OperandsNotInts)
    case Minus => Err(Unimplemented("-"))
    case Times => Err(Unimplemented("*"))
    case Divide => Err(Unimplemented("/"))
  }

  /** `eval`: a whole program runs in the empty environment. */
  function EvalProgram(a: Ast, host: Host): Traced<Outcome> {
    Eval(a, Env([]), host)
  }

  /**
    `eval_env`. Every node except a binding or an assignment hands back the
    environment it was given: a block's own bindings never leak.
  */
  function Eval(a: Ast, env: Env, host: Host): (r: Traced<Outcome>)
    ensures r.result.Ok? && !a.Binding? && !a.Assign? ==> r.result.value.env == env
    decreases a, 1
  {
    match a
    case Infix(verb, lhs, rhs) => EvalInfix(verb, lhs, rhs, env, host)
    case Integer(n) => Traced(Ok(Outcome(Int(n), env)), [])
    case Boolean(b) => Traced(Ok(Outcome(Bool(b), env)), [])
    case Ident(x) =>
      (match Lookup(env, x)
        case None => Traced(Err(UnboundIdentifier(x)), [])
        case Some(v) => Traced(Ok(Outcome(v, env)), []))
    case TypeLiteral(_) => Traced(Err(Unimplemented("type literal")), [])
    case CommandExpr(tokens) => EvalCommand(tokens, env, host)
    case Block(stmts) => EvalBlock(stmts, env, host)
    case Assign(x, e) => EvalAssign(x, e, env, host)
    case Binding(x, ty, e) => EvalBinding(x, ty, e, env, host)
    case QuoteString(parts) =>
      var t := EvalText(parts, env, host);
      (match t.result
        case Err(e) => Traced(Err(e), t.trace)
        case Ok(s) => Traced(Ok(Outcome(Str(s), env)), t.trace))
    case StringLiteral(s) => Traced(Ok(Outcome(Str(s), env)), [])
    case UnitLiteral => Traced(Err(Unimplemented("unit literal")), [])
    case IfThenElse(c, t, f) => EvalIf(c, t, f, env, host)
    case RecordValue(entries) => EvalRecord(entries, env, host)
  }

  /** Both operands are evaluated, left first, against the same environment before the operator is looked at. */
  function EvalInfix(verb: Verb, lhs: Ast, rhs: Ast, env: Env, host: Host): Traced<Outcome>
    decreases Infix(verb, lhs, rhs), 0
  {
    var l := Eval(lhs, env, host);
    match l.result
    case Err(e) => Traced(Err(e), l.trace)
    case Ok(lo) =>
      var r := Eval(rhs, env, host);
      match r.result
      case Err(e) => Traced(Err(e), l.trace + r.trace)
      case Ok(ro) =>
        match Apply(verb, lo.value, ro.value)
        case Err(e) => Traced(Err(e), l.trace + r.trace)
        case Ok(v) => Traced(Ok(Outcome(v, env)), l.trace + r.trace)
  }

  /**
    The concatenated texts of `parts`, left to right: each part is evaluated
    and converted to text; a part without a text conversion aborts.
  */
  function EvalText(parts: seq<Ast>, env: Env, host: Host): Traced<string>
    decreases parts, 0
  {
    if |parts| == 0 then Traced(Ok(""), [])
    else
      var p := Eval(parts[0], env, host);
      match p.result
      case Err(e) => Traced(Err(e), p.trace)
      case Ok(o) =>
        var c := Convert(o.value, TyStr, host);
        match c.result
        case Err(e) => Traced(Err(e), p.trace + c.trace)
        case Ok(None) => Traced(Err(PartNotText), p.trace + c.trace)
        case Ok(Some(w)) =>
          if !w.Str? then Traced(Err(PartNotText), p.trace + c.trace)
          else
            var rest := EvalText(parts[1..], env, host);
            match rest.result
            case Err(e) => Traced(Err(e), p.trace + c.trace + rest.trace)
            case Ok(s) => Traced(Ok(w.s + s), p.trace + c.trace + rest.trace)
  }

  /** One argument string per token, in order. */
  function EvalTokens(tokens: seq<Token>, env: Env, host: Host): Traced<seq<string>>
    decreases tokens, 0
  {
    if |tokens| == 0 then Traced(Ok([]), [])
    else
      var t := EvalText(tokens[0].parts, env, host);
      match t.result
      case Err(e) => Traced(Err(e), t.trace)
      case Ok(arg) =>
        var rest := EvalTokens(tokens[1..], env, host);
        match rest.result
        case Err(e) => Traced(Err(e), t.trace + rest.trace)
        case Ok(args) => Traced(Ok([arg] + args), t.trace + rest.trace)
  }

  /** A command node builds a descriptor (program, then arguments); it starts nothing itself. */
  function EvalCommand(tokens: seq<Token>, env: Env, host: Host): Traced<Outcome>
    decreases CommandExpr(tokens), 0
  {
    var args := EvalTokens(tokens, env, host);
    match args.result
    case Err(e) => Traced(Err(e), args.trace)
    case Ok(ws) =>
      if |ws| == 0 then Traced(Err(EmptyCommand), args.trace)
      else Traced(Ok(Outcome(Command(Cmd(ws[0], ws[1..])), env)), args.trace)
  }

  /** A block runs its statements in a copy of the environment and returns the caller's. */
  function EvalBlock(stmts: seq<Ast>, env: Env, host: Host): Traced<Outcome>
    decreases Block(stmts), 0
  {
    var r := EvalStmts(stmts, Outcome(Unit, env), host);
    match r.result
    case Err(e) => Traced(Err(e), r.trace)
    case Ok(o) => Traced(Ok(Outcome(o.value, env)), r.trace)
  }

  /** The process a statement with value `v` starts: one when `v` is a command descriptor, none otherwise. */
  function Started(v: Value): seq<Event> {
    if v.Command? then [Spawned(v.cmd)] else []
  }

  /**
    The statement loop of a block: `st` is the last statement's value (Unit
    before the first) and the block's environment so far. A statement whose
    value is a command descriptor is started and waited for; one that cannot
    be launched aborts.
  */
  function EvalStmts(stmts: seq<Ast>, st: Outcome, host: Host): Traced<Outcome>
    decreases stmts, 0
  {
    if |stmts| == 0 then Traced(Ok(st), [])
    else
      var s := Eval(stmts[0], st.env, host);
      match s.result
      case Err(e) => Traced(Err(e), s.trace)
      case Ok(o) =>
        if o.value.Command? && !host.launches(o.value.cmd) then
          Traced(Err(LaunchFailed(o.value.cmd)), s.trace)
        else
          var rest := EvalStmts(stmts[1..], o, host);
          Traced(rest.result, s.trace + Started(o.value) + rest.trace)
  }

  /** Assignment needs an existing binding (checked before the expression runs) and stores the value as it is. */
  function EvalAssign(x: string, e: Ast, env: Env, host: Host): Traced<Outcome>
    decreases Assign(x, e), 0
  {
    if Lookup(env, x).None? then Traced(Err(UnboundIdentifier(x)), [])
    else
      var r := Eval(e, env, host);
      match r.result
      case Err(err) => Traced(Err(err), r.trace)
      case Ok(o) => Traced(Ok(Outcome(Unit, Reassign(env, x, o.value))), r.trace)
  }

  /** A binding converts the value to the declared type and puts the entry in front. */
  function EvalBinding(x: string, ty: Type, e: Ast, env: Env, host: Host): Traced<Outcome>
    decreases Binding(x, ty, e), 0
  {
    var r := Eval(e, env, host);
    match r.result
    case Err(err) => Traced(Err(err), r.trace)
    case Ok(o) =>
      var c := Convert(o.value, ty, host);
      match c.result
      case Err(err) => Traced(Err(err), r.trace + c.trace)
      case Ok(None) => Traced(Err(BindingNotConvertible(x)), r.trace + c.trace)
      case Ok(Some(v)) => Traced(Ok(Outcome(Unit, Bind(env, x, ty, v))), r.trace + c.trace)
  }

  /** The condition must be a boolean; only the chosen branch is evaluated. */
  function EvalIf(c: Ast, t: Ast, f: Ast, env: Env, host: Host): Traced<Outcome>
    decreases IfThenElse(c, t, f), 0
  {
    var cv := Eval(c, env, host);
    match cv.result
    case Err(e) => Traced(Err(e), cv.trace)
    case Ok(o) =>
      if !o.value.Bool? then Traced(Err(ConditionNotBool), cv.trace)
      else
        var br := if o.value.b then Eval(t, env, host) else Eval(f, env, host);
        match br.result
        case Err(e) => Traced(Err(e), cv.trace + br.trace)
        case Ok(bo) => Traced(Ok(Outcome(bo.value, env)), cv.trace + br.trace)
  }

  function EvalRecord(entries: seq<Entry>, env: Env, host: Host): Traced<Outcome>
    decreases RecordValue(entries), 0
  {
    var r := EvalEntries(entries, env, map[], host);
    match r.result
    case Err(e) => Traced(Err(e), r.trace)
    case Ok(m) => Traced(Ok(Outcome(Record(m), env)), r.trace)
  }

  /** Evaluate each entry's expression in order and insert it into `acc` under its key. */
  function EvalEntries(entries: seq<Entry>, env: Env, acc: map<string, Value>, host: Host)
    : Traced<map<string, Value>>
    decreases entries, 0
  {
    if |entries| == 0 then Traced(Ok(acc), [])
    else
      var r := Eval(entries[0].expr, env, host);
      match r.result
      case Err(e) => Traced(Err(e), r.trace)
      case Ok(o) =>
        var rest := EvalEntries(entries[1..], env, acc[entries[0].key := o.value], host);
        Traced(rest.result, r.trace + rest.trace)
  }
}
