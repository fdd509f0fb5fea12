/**
  Kley's runtime values, its structural types and `Value::convert`, the
  engine that coerces a value toward a requested type. Converting a
  command descriptor is the one conversion that starts a process: the
  process is described by the `Host` oracles and recorded in a trace.
*/
module Types {
  import opened Wrappers
  import opened Text

  /** The structural targets a conversion can be asked for. */
  datatype Type =
    | TyStr
    | TyInt
    | TyBool
    | TyUnit
    | TyFloat
    | TyList(elem: Type)
    | TyMap(key: Type, val: Type)
    | TyTuple(items: seq<Type>)
    | TyVariant(cases: seq<Field>)
    | TyRecord(fields: seq<Field>)

  /**
    One named field of a record or variant type. A field list is kept in
    the order the source's `HashMap` iterates it, which decides which field
    is converted (and may start a process, or fail) first.
  */
  datatype Field = Field(name: string, ty: Type)

  /** A process descriptor: the program and the arguments given to `Command::new(..).args(..)`. */
  datatype Cmd = Cmd(program: string, args: seq<string>)

  datatype Value =
    | Int(n: i64)
    | Str(s: string)
    | Bool(b: bool)
    | List(items: seq<Value>)
    | Unit
    | Command(cmd: Cmd)
    | Record(fields: map<string, Value>)

  /** One process that was started. */
  datatype Event =
    | Captured(cmd: Cmd)  // run to completion with its standard output captured (`output()`)
    | Spawned(cmd: Cmd)   // run with inherited standard streams and waited for (`spawn().wait()`)

  /** The fatal failures (`unwrap`, `expect`, `panic!`, `todo!`) of the conversion engine and the evaluator. */
  datatype Error =
    | LaunchFailed(cmd: Cmd)
    | OutputNotUtf8(cmd: Cmd)
    | NotAnInteger(text: string)
    | ElementNotConvertible
    | UnboundIdentifier(name: string)
    | BindingNotConvertible(name: string)
    | PartNotText
    | EmptyCommand
    | ConditionNotBool
    | OperandsNotInts
    | Overflow
    | Unimplemented(what: string)

  datatype Result<+T> = Ok(value: T) | Err(error: Error)

  /** A computation that may abort, with the processes it started, in order (also when it aborted). */
  datatype Traced<+T> = Traced(result: Result<T>, trace: seq<Event>)

  /** What the interpreter consults but cannot see. */
  datatype Host = Host(
    launches: Cmd -> bool,               // whether the operating system starts the program
    stdout: Cmd -> Option<string>,       // its captured standard output; None when that is not UTF-8
    debug: map<string, Value> -> string  // Rust's `{:?}` rendering of a record's fields
  )

  // ---------------------------------------------------------------- what a result looks like

  function Names(fs: seq<Field>): set<string> {
    set i | 0 <= i < |fs| :: fs[i].name
  }

  /**
    The type a converted record holds under `k`: inserting the fields in
    order into a `HashMap` keeps the last field named `k`.
  */
  function FieldType(fs: seq<Field>, k: string): Type
    requires k in Names(fs)
  {
    if k in Names(fs[1..]) then FieldType(fs[1..], k) else fs[0].ty
  }

  /** `v` has the shape `ty` asks for; the only values a successful conversion to `ty` yields. */
  predicate Conforms(v: Value, ty: Type) {
    match (v, ty)
    case (Int(_), TyInt) => true
    case (Str(_), TyStr) => true
    case (Bool(_), TyBool) => true
    case (List(xs), TyList(t)) => forall i :: 0 <= i < |xs| ==> Conforms(xs[i], t)
    case (Record(m), TyRecord(fs)) =>
      && m.Keys == Names(fs)
      && forall k :: k in m ==> Conforms(m[k], FieldType(fs, k))
    case _ => false
  }

  // ---------------------------------------------------------------- conversion

  /** Run a command with its output captured, decode it as UTF-8 and trim it. */
  function Capture(c: Cmd, host: Host): Traced<string> {
    if !host.launches(c) then Traced(Err(LaunchFailed(c)), [])
    else match host.stdout(c)
      case None => Traced(Err(OutputNotUtf8(c)), [Captured(c)])
      case Some(out) => Traced(Ok(Trim(out)), [Captured(c)])
  }

  /** Text to integer: trim, then parse; a text that is no integer aborts. */
  function TextToInt(s: string): Result<Option<Value>> {
    match ParseInt(Trim(s))
    case None => Err(NotAnInteger(s))
    case Some(n) => Ok(Some(Int(n)))
  }

  /** Texts as `Str` values, in order. */
  function Strs(ws: seq<string>): (vs: seq<Value>)
    ensures |vs| == |ws|
    ensures forall i :: 0 <= i < |ws| ==> vs[i] == Str(ws[i])
  {
    seq(|ws|, i requires 0 <= i < |ws| => Str(ws[i]))
  }

  /** The whitespace-separated tokens of the trimmed text, each as a `Str`. */
  function WordValues(s: string): seq<Value> {
    Strs(Words(Trim(s)))
  }

  function Texts(vs: seq<Value>): seq<string>
    requires forall i :: 0 <= i < |vs| ==> vs[i].Str?
  {
    seq(|vs|, i requires 0 <= i < |vs| => vs[i].s)
  }

  function AsList(r: Result<seq<Value>>): Result<Option<Value>> {
    match r
    case Err(e) => Err(e)
    case Ok(ys) => Ok(Some(List(ys)))
  }

  /**
    `Value::convert`. `Ok(None)` is the source's `None` (no such conversion),
    `Err` one of its panics.
  */
  function Convert(v: Value, ty: Type, host: Host): Traced<Option<Value>>
    decreases ty, v, 1
  {
    match v
    case Command(c) => ConvertCommand(c, ty, host)
    case Str(s) => ConvertText(s, ty, host)
    case List(xs) => ConvertList(xs, ty, host)
    case Record(m) => ConvertRecord(m, ty, host)
    case Int(n) =>
      if ty.TyStr? then Traced(Ok(Some(Str(RenderInt(n)))), [])
      else if ty.TyInt? then Traced(Ok(Some(v)), [])
      else Traced(Ok(None), [])
    case Bool(_) => Traced(if ty.TyBool? then Ok(Some(v)) else Ok(None), [])
    case Unit => Traced(Ok(None), [])
  }

  /**
    A command descriptor converts to text by running it with its output
    captured; to an integer or a list by converting that text onward.
  */
  function ConvertCommand(c: Cmd, ty: Type, host: Host): Traced<Option<Value>>
    decreases ty, Command(c), 0
  {
    if !(ty.TyStr? || ty.TyInt? || ty.TyList?) then Traced(Ok(None), [])
    else
      var out := Capture(c, host);
      match out.result
      case Err(e) => Traced(Err(e), out.trace)
      case Ok(text) =>
        match ty
        case TyStr => Traced(Ok(Some(Str(text))), out.trace)
        case TyInt => Traced(TextToInt(text), out.trace)
        case TyList(t) =>
          var items := ConvertEach(WordValues(text), t, host);
          Traced(AsList(items.result), out.trace + items.trace)
  }

  /** Text converts to itself, to an integer by parsing, and to a list token by token. */
  function ConvertText(s: string, ty: Type, host: Host): Traced<Option<Value>>
    decreases ty, Str(s), 0
  {
    match ty
    case TyStr => Traced(Ok(Some(Str(s))), [])
    case TyInt => Traced(TextToInt(s), [])
    case TyList(t) =>
      var items := ConvertEach(WordValues(s), t, host);
      Traced(AsList(items.result), items.trace)
    case _ => Traced(Ok(None), [])
  }

  /** A list converts element-wise to a list type, and to text by joining its elements' texts. */
  function ConvertList(xs: seq<Value>, ty: Type, host: Host): Traced<Option<Value>>
    decreases ty, List(xs), 0
  {
    match ty
    case TyList(t) =>
      var items := ConvertEach(xs, t, host);
      Traced(AsList(items.result), items.trace)
    case TyStr =>
      var items := ConvertEach(xs, TyStr, host);
      (match items.result
        case Err(e) => Traced(Err(e), items.trace)
        case Ok(ys) =>
          // the source's `let .. else { todo!() }`; `ConvertConforms` shows it is never taken
          if forall i :: 0 <= i < |ys| ==> ys[i].Str? then Traced(Ok(Some(Str(Join(Texts(ys))))), items.trace)
          else Traced(Err(Unimplemented("element text")), items.trace))
    case _ => Traced(Ok(None), [])
  }

  /** A record converts to a record type field by field, and to text by its debug rendering. */
  function ConvertRecord(m: map<string, Value>, ty: Type, host: Host): Traced<Option<Value>>
    decreases ty, Record(m), 0
  {
    match ty
    case TyRecord(fs) =>
      var out := ConvertFields(m, fs, map[], host);
      (match out.result
        case Err(e) => Traced(Err(e), out.trace)
        case Ok(None) => Traced(Ok(None), out.trace)
        case Ok(Some(fields)) => Traced(Ok(Some(Record(fields))), out.trace))
    case TyStr => Traced(Ok(Some(Str(host.debug(m)))), [])
    case _ => Traced(Ok(None), [])
  }

  /**
    Convert every element, left to right; an element with no conversion
    aborts (`unwrap` on `None`), as does an element whose conversion aborts.
  */
  function ConvertEach(xs: seq<Value>, t: Type, host: Host): Traced<seq<Value>>
    decreases t, xs, 0
  {
    if |xs| == 0 then Traced(Ok([]), [])
    else
      var head := Convert(xs[0], t, host);
      match head.result
      case Err(e) => Traced(Err(e), head.trace)
      case Ok(None) => Traced(Err(ElementNotConvertible), head.trace)
      case Ok(Some(y)) =>
        var rest := ConvertEach(xs[1..], t, host);
        match rest.result
        case Err(e) => Traced(Err(e), head.trace + rest.trace)
        case Ok(ys) => Traced(Ok([y] + ys), head.trace + rest.trace)
  }

  /**
    Convert a record's fields in the target's order, adding each result to
    `acc`; a missing or unconvertible field gives `None` at once.
  */
  function ConvertFields(m: map<string, Value>, fs: seq<Field>, acc: map<string, Value>, host: Host)
    : Traced<Option<map<string, Value>>>
    decreases fs
  {
    if |fs| == 0 then Traced(Ok(Some(acc)), [])
    else if fs[0].name !in m then Traced(Ok(None), [])
    else
      var head := Convert(m[fs[0].name], fs[0].ty, host);
      match head.result
      case Err(e) => Traced(Err(e), head.trace)
      case Ok(None) => Traced(Ok(None), head.trace)
      case Ok(Some(y)) =>
        var rest := ConvertFields(m, fs[1..], acc[fs[0].name := y], host);
        Traced(rest.result, head.trace + rest.trace)
  }
}
