/**
  Quoted strings and command tokens, for any parts: each part is evaluated
  in the node's environment and converted to text, the texts are run
  together in order, and the first part without a text aborts the rest.
  A command node only builds its descriptor from those texts; every event
  in its trace comes from evaluating its parts.
*/
module QuoteProps {
  import opened Wrappers
  import opened Types
  import opened Interpreter
  import InterpreterProps
  import ConvertProps

  // ---------------------------------------------------------------- one part

  /** A part has a text when it evaluates and its text conversion gives a `Str`. */
  predicate IsTextPart(a: Ast, env: Env, host: Host) {
    var p := Eval(a, env, host);
    && p.result.Ok?
    && var c := Convert(p.result.value.value, TyStr, host);
       c.result.Ok? && c.result.value.Some? && c.result.value.value.Str?
  }

  /** The text of a part that has one. */
  function PartString(a: Ast, env: Env, host: Host): string
    requires IsTextPart(a, env, host)
  {
    Convert(Eval(a, env, host).result.value.value, TyStr, host).result.value.value.s
  }

  /** The processes a part's evaluation and text conversion start. */
  function PartTrace(a: Ast, env: Env, host: Host): seq<Event> {
    var p := Eval(a, env, host);
    if p.result.Ok? then p.trace + Convert(p.result.value.value, TyStr, host).trace else p.trace
  }

  /** Why a part has no text: its evaluation failed, its conversion failed, or it converts to no `Str`. */
  function PartFailure(a: Ast, env: Env, host: Host): Error
    requires !IsTextPart(a, env, host)
  {
    var p := Eval(a, env, host);
    if p.result.Err? then p.result.error
    else
      var c := Convert(p.result.value.value, TyStr, host);
      if c.result.Err? then c.result.error else PartNotText
  }

  predicate AllTextParts(parts: seq<Ast>, env: Env, host: Host) {
    forall i :: 0 <= i < |parts| ==> IsTextPart(parts[i], env, host)
  }

  /** The texts of the parts that have one, run together in order. */
  function PartStrings(parts: seq<Ast>, env: Env, host: Host): string {
    if |parts| == 0 then ""
    else (if IsTextPart(parts[0], env, host) then PartString(parts[0], env, host) else "") + PartStrings(parts[1..], env, host)
  }

  /** The processes all the parts start, in order. */
  function PartTraces(parts: seq<Ast>, env: Env, host: Host): seq<Event> {
    if |parts| == 0 then [] else PartTrace(parts[0], env, host) + PartTraces(parts[1..], env, host)
  }

  lemma AllTextPartsCons(parts: seq<Ast>, env: Env, host: Host)
    requires |parts| > 0
    ensures AllTextParts(parts, env, host) <==> IsTextPart(parts[0], env, host) && AllTextParts(parts[1..], env, host)
  {
    assert forall i :: 0 <= i < |parts| - 1 ==> parts[1..][i] == parts[i + 1];
  }

  /** One step of `EvalText`, in terms of what the first part contributes. */
  lemma TextPartStep(parts: seq<Ast>, env: Env, host: Host)
    requires |parts| > 0
    ensures IsTextPart(parts[0], env, host) ==>
              var rest := EvalText(parts[1..], env, host);
              EvalText(parts, env, host) ==
                Traced(if rest.result.Ok? then Ok(PartString(parts[0], env, host) + rest.result.value) else rest.result,
                       PartTrace(parts[0], env, host) + rest.trace)
    ensures !IsTextPart(parts[0], env, host) ==>
              EvalText(parts, env, host) == Traced(Err(PartFailure(parts[0], env, host)), PartTrace(parts[0], env, host))
  {
    var p := Eval(parts[0], env, host);
    if p.result.Ok? {
      var c := Convert(p.result.value.value, TyStr, host);
      var rest := EvalText(parts[1..], env, host);
      assert p.trace + c.trace + rest.trace == (p.trace + c.trace) + rest.trace;
    }
  }

  // ---------------------------------------------------------------- quoted strings

  /**
    A quoted string succeeds exactly when every part has a text; it is then
    those texts concatenated in order, its trace is the parts' processes in
    order, and it hands back the environment it was given.
  */
  lemma {:induction false} EvalTextConcatenates(parts: seq<Ast>, env: Env, host: Host)
    ensures EvalText(parts, env, host).result.Ok? <==> AllTextParts(parts, env, host)
    ensures AllTextParts(parts, env, host) ==>
              EvalText(parts, env, host) == Traced(Ok(PartStrings(parts, env, host)), PartTraces(parts, env, host))
    ensures AllTextParts(parts, env, host) ==>
              Eval(QuoteString(parts), env, host) ==
                Traced(Ok(Outcome(Str(PartStrings(parts, env, host)), env)), PartTraces(parts, env, host))
    ensures Eval(QuoteString(parts), env, host).result.Ok? <==> AllTextParts(parts, env, host)
    decreases |parts|
  {
    if |parts| > 0 {
      AllTextPartsCons(parts, env, host);
      TextPartStep(parts, env, host);
      EvalTextConcatenates(parts[1..], env, host);
    }
    InterpreterProps.UnfoldQuote(parts, env, host);
  }

  /**
    The first part without a text aborts: the parts before it have been
    evaluated and converted with their processes, none after it is, and the
    error is that part's own — its evaluation's, its conversion's, or
    `PartNotText` when it converts to nothing or to something other than a
    `Str`.
  */
  lemma {:induction false} EvalTextAbortsAt(parts: seq<Ast>, k: nat, env: Env, host: Host)
    requires k < |parts|
    requires forall j :: 0 <= j < k ==> IsTextPart(parts[j], env, host)
    requires !IsTextPart(parts[k], env, host)
    ensures EvalText(parts, env, host).trace == PartTraces(parts[..k + 1], env, host)
    ensures var p := Eval(parts[k], env, host);
            && (p.result.Err? ==> EvalText(parts, env, host).result == Err(p.result.error))
            && (p.result.Ok? ==>
                  var c := Convert(p.result.value.value, TyStr, host);
                  && (c.result.Err? ==> EvalText(parts, env, host).result == Err(c.result.error))
                  && (c.result.Ok? ==> EvalText(parts, env, host).result == Err(PartNotText)))
    decreases k
  {
    TextPartStep(parts, env, host);
    if k > 0 {
      assert forall j :: 0 <= j < k - 1 ==> parts[1..][j] == parts[j + 1];
      EvalTextAbortsAt(parts[1..], k - 1, env, host);
      assert parts[..k + 1][1..] == parts[1..][..k];
    }
  }

  // ---------------------------------------------------------------- command tokens

  /** One argument per token: the text of its parts. */
  function Args(tokens: seq<Token>, env: Env, host: Host): (ws: seq<string>)
    ensures |ws| == |tokens|
    ensures forall i :: 0 <= i < |tokens| ==> ws[i] == PartStrings(tokens[i].parts, env, host)
  {
    if |tokens| == 0 then []
    else [PartStrings(tokens[0].parts, env, host)] + Args(tokens[1..], env, host)
  }

  predicate AllTextTokens(tokens: seq<Token>, env: Env, host: Host) {
    forall i :: 0 <= i < |tokens| ==> AllTextParts(tokens[i].parts, env, host)
  }

  /** The processes all the tokens' parts start, in order. */
  function TokenTraces(tokens: seq<Token>, env: Env, host: Host): seq<Event> {
    if |tokens| == 0 then [] else PartTraces(tokens[0].parts, env, host) + TokenTraces(tokens[1..], env, host)
  }

  lemma AllTextTokensCons(tokens: seq<Token>, env: Env, host: Host)
    requires |tokens| > 0
    ensures AllTextTokens(tokens, env, host) <==>
              AllTextParts(tokens[0].parts, env, host) && AllTextTokens(tokens[1..], env, host)
  {
    assert forall i :: 0 <= i < |tokens| - 1 ==> tokens[1..][i] == tokens[i + 1];
  }

  lemma TokenStep(tokens: seq<Token>, env: Env, host: Host, arg: string, tr: seq<Event>)
    requires |tokens| > 0 && EvalText(tokens[0].parts, env, host) == Traced(Ok(arg), tr)
    ensures var rest := EvalTokens(tokens[1..], env, host);
            EvalTokens(tokens, env, host) ==
              Traced(if rest.result.Ok? then Ok([arg] + rest.result.value) else rest.result, tr + rest.trace)
  {
  }

  /**
    Command tokens evaluate exactly when every part of every token has a
    text; the arguments are then the tokens' texts, one per token in order,
    and the trace is the parts' processes in order.
  */
  lemma {:induction false} EvalTokensArgs(tokens: seq<Token>, env: Env, host: Host)
    ensures EvalTokens(tokens, env, host).result.Ok? <==> AllTextTokens(tokens, env, host)
    ensures AllTextTokens(tokens, env, host) ==>
              EvalTokens(tokens, env, host) == Traced(Ok(Args(tokens, env, host)), TokenTraces(tokens, env, host))
    decreases |tokens|
  {
    if |tokens| > 0 {
      AllTextTokensCons(tokens, env, host);
      EvalTextConcatenates(tokens[0].parts, env, host);
      var t := EvalText(tokens[0].parts, env, host);
      if t.result.Ok? {
        TokenStep(tokens, env, host, t.result.value, t.trace);
        EvalTokensArgs(tokens[1..], env, host);
      }
    }
  }

  /**
    Evaluating a command node only builds a descriptor and starts nothing
    itself: its trace is exactly its tokens' evaluation trace; it succeeds
    exactly when there is a token and every part has a text, and the
    descriptor's program is the first token's text and its arguments the
    other tokens' texts; no tokens is an error, and a failing token's error
    is the node's.
  */
  lemma CommandNodeRunsNothing(tokens: seq<Token>, env: Env, host: Host)
    ensures var r := Eval(CommandExpr(tokens), env, host);
            var t := EvalTokens(tokens, env, host);
            && r.trace == t.trace
            && (r.result.Ok? <==> |tokens| > 0 && AllTextTokens(tokens, env, host))
            && (r.result.Ok? ==>
                  && r.result.value == Outcome(Command(Cmd(Args(tokens, env, host)[0], Args(tokens, env, host)[1..])), env)
                  && r.trace == TokenTraces(tokens, env, host))
            && (t.result.Err? ==> r.result == Err(t.result.error))
            && (|tokens| == 0 ==> r == Traced(Err(EmptyCommand), []))
  {
    InterpreterProps.UnfoldCommandNode(tokens, env, host);
    EvalTokensArgs(tokens, env, host);
  }

  // ---------------------------------------------------------------- parts that start nothing

  /** A part that starts no process and whose value, if any, holds no command descriptor. */
  predicate QuietPart(a: Ast, env: Env, host: Host) {
    var p := Eval(a, env, host);
    p.trace == [] && (p.result.Ok? ==> ConvertProps.CommandFree(p.result.value.value))
  }

  lemma QuietPartStartsNothing(a: Ast, env: Env, host: Host)
    requires QuietPart(a, env, host)
    ensures PartTrace(a, env, host) == []
  {
    var p := Eval(a, env, host);
    if p.result.Ok? {
      ConvertProps.CommandFreeConversionRunsNothing(p.result.value.value, TyStr, host);
    }
  }

  lemma {:induction false} QuietTextStartsNothing(parts: seq<Ast>, env: Env, host: Host)
    requires forall j :: 0 <= j < |parts| ==> QuietPart(parts[j], env, host)
    ensures EvalText(parts, env, host).trace == []
    decreases |parts|
  {
    if |parts| > 0 {
      TextPartStep(parts, env, host);
      QuietPartStartsNothing(parts[0], env, host);
      assert forall j :: 0 <= j < |parts| - 1 ==> parts[1..][j] == parts[j + 1];
      QuietTextStartsNothing(parts[1..], env, host);
    }
  }

  lemma {:induction false} QuietTokensStartNothing(tokens: seq<Token>, env: Env, host: Host)
    requires forall i, j :: 0 <= i < |tokens| && 0 <= j < |tokens[i].parts| ==> QuietPart(tokens[i].parts[j], env, host)
    ensures EvalTokens(tokens, env, host).trace == []
    decreases |tokens|
  {
    if |tokens| > 0 {
      QuietTextStartsNothing(tokens[0].parts, env, host);
      var t := EvalText(tokens[0].parts, env, host);
      if t.result.Ok? {
        TokenStep(tokens, env, host, t.result.value, t.trace);
        assert forall i :: 0 <= i < |tokens| - 1 ==> tokens[1..][i] == tokens[i + 1];
        QuietTokensStartNothing(tokens[1..], env, host);
      }
    }
  }

  /**
    A command node whose parts start nothing and hold no descriptor starts
    nothing at all, whether it succeeds or not.
  */
  lemma QuietCommandNode(tokens: seq<Token>, env: Env, host: Host)
    requires forall i, j :: 0 <= i < |tokens| && 0 <= j < |tokens[i].parts| ==> QuietPart(tokens[i].parts[j], env, host)
    ensures Eval(CommandExpr(tokens), env, host).trace == []
  {
    QuietTokensStartNothing(tokens, env, host);
    CommandNodeRunsNothing(tokens, env, host);
  }

  // ---------------------------------------------------------------- literal parts

  /**
    The literal-only texts of `InterpreterProps` are the general ones:
    string and integer literals always have a text, start nothing, and
    their texts and arguments are `PartStrings` and `Args`.
  */
  lemma ConstantPartsAreTextParts(parts: seq<Ast>, env: Env, host: Host)
    requires InterpreterProps.ConstantParts(parts)
    ensures AllTextParts(parts, env, host)
    ensures PartStrings(parts, env, host) == InterpreterProps.ConcatParts(parts)
    ensures PartTraces(parts, env, host) == []
  {
    InterpreterProps.QuoteOfConstants(parts, env, host);
    EvalTextConcatenates(parts, env, host);
  }

  lemma ConstantTokensAreTextTokens(tokens: seq<Token>, env: Env, host: Host)
    requires InterpreterProps.ConstantTokens(tokens)
    ensures AllTextTokens(tokens, env, host)
    ensures Args(tokens, env, host) == InterpreterProps.TokenTexts(tokens)
    ensures TokenTraces(tokens, env, host) == []
  {
    InterpreterProps.TokensOfConstants(tokens, env, host);
    EvalTokensArgs(tokens, env, host);
  }
}
