/**
  What `Value::convert` promises: the shape of every value it yields, the
  table of supported pairings, the text/integer/list round trips,
  element-wise list conversion, structural record projection, and that only
  command descriptors start processes.
*/
module ConvertProps {
  import opened Wrappers
  import opened Text
  import opened Types

  /** The conversion yields a value (neither `None` nor a panic). */
  predicate ConvertsTo(v: Value, ty: Type, host: Host) {
    var r := Convert(v, ty, host);
    r.result.Ok? && r.result.value.Some?
  }

  /** No command descriptor anywhere inside `v`. */
  predicate CommandFree(v: Value) {
    match v
    case Command(_) => false
    case List(xs) => forall i :: 0 <= i < |xs| ==> CommandFree(xs[i])
    case Record(m) => forall k :: k in m ==> CommandFree(m[k])
    case _ => true
  }

  // ---------------------------------------------------------------- single steps of `Convert`

  lemma UnfoldText(s: string, ty: Type, host: Host)
    ensures Convert(Str(s), ty, host) == ConvertText(s, ty, host)
  {
  }

  lemma UnfoldList(xs: seq<Value>, ty: Type, host: Host)
    ensures Convert(List(xs), ty, host) == ConvertList(xs, ty, host)
  {
  }

  lemma UnfoldRecord(m: map<string, Value>, ty: Type, host: Host)
    ensures Convert(Record(m), ty, host) == ConvertRecord(m, ty, host)
  {
  }

  lemma UnfoldCommand(c: Cmd, ty: Type, host: Host)
    ensures Convert(Command(c), ty, host) == ConvertCommand(c, ty, host)
  {
  }

  lemma TextToIntStep(s: string, host: Host)
    ensures ConvertText(s, TyInt, host) == Traced(TextToInt(s), [])
  {
  }

  lemma IntToTextStep(n: i64, host: Host)
    ensures Convert(Int(n), TyStr, host) == Traced(Ok(Some(Str(RenderInt(n)))), [])
  {
  }

  lemma TextToListStep(s: string, t: Type, host: Host)
    ensures var items := ConvertEach(WordValues(s), t, host);
            Convert(Str(s), TyList(t), host) == Traced(AsList(items.result), items.trace)
  {
    UnfoldText(s, TyList(t), host);
  }

  /** Element-wise conversion of a non-empty list whose head and tail convert without starting anything. */
  lemma EachStep(xs: seq<Value>, t: Type, host: Host, y: Value, ys: seq<Value>)
    requires |xs| > 0
    requires Convert(xs[0], t, host) == Traced(Ok(Some(y)), [])
    requires ConvertEach(xs[1..], t, host) == Traced(Ok(ys), [])
    ensures ConvertEach(xs, t, host) == Traced(Ok([y] + ys), [])
  {
  }

  lemma EachTraceStep(xs: seq<Value>, t: Type, host: Host)
    requires |xs| > 0
    requires Convert(xs[0], t, host).trace == []
    requires ConvertEach(xs[1..], t, host).trace == []
    ensures ConvertEach(xs, t, host).trace == []
  {
  }

  lemma NamesOfCons(fs: seq<Field>)
    requires |fs| > 0
    ensures Names(fs) == {fs[0].name} + Names(fs[1..])
  {
    forall k | k in Names(fs)
      ensures k == fs[0].name || k in Names(fs[1..])
    {
      var i :| 0 <= i < |fs| && fs[i].name == k;
      if i > 0 {
        assert fs[1..][i - 1] == fs[i];
      }
    }
    forall k | k in Names(fs[1..])
      ensures k in Names(fs)
    {
      var i :| 0 <= i < |fs[1..]| && fs[1..][i].name == k;
      assert fs[i + 1] == fs[1..][i];
    }
  }

  // ---------------------------------------------------------------- the shape of a result

  /**
    Whatever a conversion yields has the shape the target asks for: an
    `Int` for int, a `Str` for str, a `Bool` for bool, a list of conforming
    elements for a list type, and a record with exactly the target's field
    names, each conforming to its field type.
  */
  lemma {:induction false} ConvertConforms(v: Value, ty: Type, host: Host)
    ensures ConvertsTo(v, ty, host) ==> Conforms(Convert(v, ty, host).result.value.value, ty)
    decreases ty, v, 1
  {
    match v
    case Command(c) =>
      UnfoldCommand(c, ty, host);
      var out := Capture(c, host);
      if ty.TyList? && out.result.Ok? {
        EachConforms(WordValues(out.result.value), ty.elem, host);
      }
    case Str(s) =>
      UnfoldText(s, ty, host);
      if ty.TyList? {
        EachConforms(WordValues(s), ty.elem, host);
      }
    case List(xs) =>
      UnfoldList(xs, ty, host);
      if ty.TyList? {
        EachConforms(xs, ty.elem, host);
      }
    case Record(m) =>
      UnfoldRecord(m, ty, host);
      if ty.TyRecord? {
        FieldsConforms(m, ty.fields, map[], host);
      }
    case _ =>
  }

  lemma {:induction false} EachConforms(xs: seq<Value>, t: Type, host: Host)
    ensures var r := ConvertEach(xs, t, host);
            r.result.Ok? ==>
              && |r.result.value| == |xs|
              && forall i :: 0 <= i < |xs| ==> Conforms(r.result.value[i], t)
    decreases t, xs, 0
  {
    if |xs| > 0 {
      ConvertConforms(xs[0], t, host);
      EachConforms(xs[1..], t, host);
    }
  }

  lemma {:induction false} FieldsConforms(m: map<string, Value>, fs: seq<Field>, acc: map<string, Value>, host: Host)
    ensures var r := ConvertFields(m, fs, acc, host);
            r.result.Ok? && r.result.value.Some? ==>
              var out := r.result.value.value;
              && out.Keys == acc.Keys + Names(fs)
              && (forall k :: k in out && k !in Names(fs) ==> out[k] == acc[k])
              && (forall k :: k in Names(fs) ==> Conforms(out[k], FieldType(fs, k)))
    decreases fs
  {
    if |fs| > 0 && fs[0].name in m {
      var f := fs[0];
      var head := Convert(m[f.name], f.ty, host);
      ConvertConforms(m[f.name], f.ty, host);
      if head.result.Ok? && head.result.value.Some? {
        FieldsConforms(m, fs[1..], acc[f.name := head.result.value.value], host);
        NamesOfCons(fs);
      }
    }
  }

  // ---------------------------------------------------------------- the table

  /** Integers, texts and booleans convert to their own type unchanged, starting nothing. */
  lemma ScalarsConvertToThemselves(v: Value, host: Host)
    ensures v.Int? ==> Convert(v, TyInt, host) == Traced(Ok(Some(v)), [])
    ensures v.Str? ==> Convert(v, TyStr, host) == Traced(Ok(Some(v)), [])
    ensures v.Bool? ==> Convert(v, TyBool, host) == Traced(Ok(Some(v)), [])
  {
  }

  /**
    Every pairing outside the conversion table gives `None` and starts
    nothing: no target of kind unit, float, map, tuple or variant is ever
    reached, unit converts to nothing, booleans only to booleans, integers
    only to integers and text, and there is no widening between kinds.
  */
  lemma UnlistedPairingsHaveNoConversion(v: Value, ty: Type, host: Host)
    ensures (ty.TyUnit? || ty.TyFloat? || ty.TyMap? || ty.TyTuple? || ty.TyVariant?) ==>
              Convert(v, ty, host) == Traced(Ok(None), [])
    ensures v.Unit? ==> Convert(v, ty, host) == Traced(Ok(None), [])
    ensures v.Bool? && !ty.TyBool? ==> Convert(v, ty, host) == Traced(Ok(None), [])
    ensures v.Int? && !ty.TyInt? && !ty.TyStr? ==> Convert(v, ty, host) == Traced(Ok(None), [])
    ensures (v.Str? || v.Command?) && (ty.TyBool? || ty.TyRecord?) ==>
              Convert(v, ty, host) == Traced(Ok(None), [])
    ensures v.List? && (ty.TyBool? || ty.TyInt? || ty.TyRecord?) ==>
              Convert(v, ty, host) == Traced(Ok(None), [])
    ensures v.Record? && (ty.TyBool? || ty.TyInt? || ty.TyList?) ==>
              Convert(v, ty, host) == Traced(Ok(None), [])
  {
  }

  // ---------------------------------------------------------------- text and integers

  /** Text to integer trims, then parses a signed integer; an unparseable text aborts rather than giving `None`. */
  lemma TextToIntParsesTrimmed(s: string, host: Host)
    ensures ParseInt(Trim(s)).Some? ==>
              Convert(Str(s), TyInt, host) == Traced(Ok(Some(Int(ParseInt(Trim(s)).value))), [])
    ensures ParseInt(Trim(s)).None? ==>
              Convert(Str(s), TyInt, host) == Traced(Err(NotAnInteger(s)), [])
  {
    UnfoldText(s, TyInt, host);
    TextToIntStep(s, host);
  }

  /** An integer converted to text and back gives the same integer. */
  lemma IntTextRoundTrip(n: i64, host: Host)
    ensures Convert(Int(n), TyStr, host) == Traced(Ok(Some(Str(RenderInt(n)))), [])
    ensures Convert(Str(RenderInt(n)), TyInt, host) == Traced(Ok(Some(Int(n))), [])
  {
    var s := RenderInt(n);
    IntToTextStep(n, host);
    TrimOfTrimmed(s);
    ParseRenderInt(n);
    UnfoldText(s, TyInt, host);
    TextToIntStep(s, host);
  }

  // ---------------------------------------------------------------- lists

  /**
    Element-wise conversion succeeds exactly when every element converts;
    it keeps the length and converts position by position.
  */
  lemma {:induction false} ConvertEachElementwise(xs: seq<Value>, t: Type, host: Host)
    ensures ConvertEach(xs, t, host).result.Ok? <==> forall i :: 0 <= i < |xs| ==> ConvertsTo(xs[i], t, host)
    ensures ConvertEach(xs, t, host).result.Ok? ==>
              && |ConvertEach(xs, t, host).result.value| == |xs|
              && forall i :: 0 <= i < |xs| ==>
                   Convert(xs[i], t, host).result == Ok(Some(ConvertEach(xs, t, host).result.value[i]))
    decreases xs
  {
    if |xs| > 0 {
      ConvertEachElementwise(xs[1..], t, host);
      var r := ConvertEach(xs, t, host);
      if r.result.Ok? {
        var rest := ConvertEach(xs[1..], t, host);
        assert r.result.value == [Convert(xs[0], t, host).result.value.value] + rest.result.value;
        forall i | 0 <= i < |xs|
          ensures Convert(xs[i], t, host).result == Ok(Some(r.result.value[i]))
        {
          if i > 0 {
            assert xs[i] == xs[1..][i - 1];
          }
        }
      }
      if forall i :: 0 <= i < |xs| ==> ConvertsTo(xs[i], t, host) {
        assert ConvertsTo(xs[0], t, host);
        forall i | 0 <= i < |xs| - 1
          ensures ConvertsTo(xs[1..][i], t, host)
        {
          assert xs[1..][i] == xs[i + 1];
        }
      } else {
        var j :| 0 <= j < |xs| && !ConvertsTo(xs[j], t, host);
        if j > 0 {
          assert xs[1..][j - 1] == xs[j];
        }
      }
    }
  }

  /**
    A list converts to a list type position by position, keeping its length;
    one element that does not convert aborts the whole conversion (never `None`).
  */
  lemma ListToListIsElementwise(xs: seq<Value>, t: Type, host: Host)
    ensures var r := Convert(List(xs), TyList(t), host);
            && (r.result.Ok? <==> forall i :: 0 <= i < |xs| ==> ConvertsTo(xs[i], t, host))
            && (r.result.Ok? ==> r.result.value.Some? && r.result.value.value.List?)
            && (r.result.Ok? ==>
                  var ys := r.result.value.value.items;
                  && |ys| == |xs|
                  && forall i :: 0 <= i < |xs| ==> Convert(xs[i], t, host).result == Ok(Some(ys[i])))
  {
    UnfoldList(xs, TyList(t), host);
    ConvertEachElementwise(xs, t, host);
  }

  /**
    Text converts to a list type exactly as the list of its
    whitespace-separated tokens (of the trimmed text, in order) does:
    element by element, aborting on the first token that does not convert.
  */
  lemma TextToListIsTokenwise(s: string, t: Type, host: Host)
    ensures Convert(Str(s), TyList(t), host) == Convert(List(Strs(Words(Trim(s)))), TyList(t), host)
  {
    TextToListViaWordValues(s, t, host);
  }

  lemma TextToListViaWordValues(s: string, t: Type, host: Host)
    ensures Convert(Str(s), TyList(t), host) == Convert(List(WordValues(s)), TyList(t), host)
  {
    TextToListStep(s, t, host);
    UnfoldList(WordValues(s), TyList(t), host);
  }

  /** The texts the elements of `xs` convert to. */
  function ElementTexts(xs: seq<Value>, host: Host): (ts: seq<string>)
    requires forall i :: 0 <= i < |xs| ==> ConvertsTo(xs[i], TyStr, host)
    ensures |ts| == |xs|
    ensures forall i :: 0 <= i < |xs| ==> Convert(xs[i], TyStr, host).result == Ok(Some(Str(ts[i])))
  {
    if |xs| == 0 then []
    else
      ConvertConforms(xs[0], TyStr, host);
      assert forall i :: 0 <= i < |xs| - 1 ==> xs[1..][i] == xs[i + 1];
      [Convert(xs[0], TyStr, host).result.value.value.s] + ElementTexts(xs[1..], host)
  }

  /**
    A list converts to text by joining its elements' texts with exactly one
    space; the empty list gives "". An element without a text conversion aborts.
  */
  lemma ListToTextJoins(xs: seq<Value>, host: Host)
    ensures var r := Convert(List(xs), TyStr, host);
            && (r.result.Ok? <==> forall i :: 0 <= i < |xs| ==> ConvertsTo(xs[i], TyStr, host))
            && (r.result.Ok? ==> r.result.value == Some(Str(Join(ElementTexts(xs, host)))))
    ensures xs == [] ==> Convert(List(xs), TyStr, host) == Traced(Ok(Some(Str(""))), [])
  {
    UnfoldList(xs, TyStr, host);
    ConvertEachElementwise(xs, TyStr, host);
    var items := ConvertEach(xs, TyStr, host);
    if items.result.Ok? {
      var ys := items.result.value;
      var ts := ElementTexts(xs, host);
      assert forall i :: 0 <= i < |ys| ==> ys[i] == Str(ts[i]);
      assert Texts(ys) == ts;
    }
  }

  /** The decimal texts of the integers `xs`. */
  function IntTexts(xs: seq<Value>): (ts: seq<string>)
    requires forall i :: 0 <= i < |xs| ==> xs[i].Int?
    ensures |ts| == |xs|
    ensures forall i :: 0 <= i < |xs| ==> ts[i] == RenderInt(xs[i].n) && IsWord(ts[i])
  {
    seq(|xs|, i requires 0 <= i < |xs| && xs[i].Int? => RenderInt(xs[i].n))
  }

  lemma IntStrsOfCons(xs: seq<Value>)
    requires |xs| > 0 && forall i :: 0 <= i < |xs| ==> xs[i].Int?
    ensures Strs(IntTexts(xs)) == [Str(RenderInt(xs[0].n))] + Strs(IntTexts(xs[1..]))
  {
    var a := Strs(IntTexts(xs));
    var b := [Str(RenderInt(xs[0].n))] + Strs(IntTexts(xs[1..]));
    assert |a| == |b|;
    forall i | 0 <= i < |a|
      ensures a[i] == b[i]
    {
      if i > 0 {
        assert xs[1..][i - 1] == xs[i];
      }
    }
  }

  /** Integers convert element-wise to their decimal texts, starting nothing. */
  lemma {:induction false} IntsToTexts(xs: seq<Value>, host: Host)
    requires forall i :: 0 <= i < |xs| ==> xs[i].Int?
    ensures ConvertEach(xs, TyStr, host) == Traced(Ok(Strs(IntTexts(xs))), [])
  {
    if |xs| > 0 {
      IntsToTexts(xs[1..], host);
      IntToTextStep(xs[0].n, host);
      EachStep(xs, TyStr, host, Str(RenderInt(xs[0].n)), Strs(IntTexts(xs[1..])));
      IntStrsOfCons(xs);
    }
  }

  /** The decimal texts of integers convert element-wise back to the integers. */
  lemma {:induction false} TextsToInts(xs: seq<Value>, host: Host)
    requires forall i :: 0 <= i < |xs| ==> xs[i].Int?
    ensures ConvertEach(Strs(IntTexts(xs)), TyInt, host) == Traced(Ok(xs), [])
  {
    if |xs| > 0 {
      var strs := Strs(IntTexts(xs));
      IntStrsOfCons(xs);
      assert strs[1..] == Strs(IntTexts(xs[1..]));
      TextsToInts(xs[1..], host);
      IntTextRoundTrip(xs[0].n, host);
      EachStep(strs, TyInt, host, xs[0], xs[1..]);
      assert [xs[0]] + xs[1..] == xs;
    }
  }

  /** A list of integers converts to the single-space join of their decimal texts, starting nothing. */
  lemma IntListToText(xs: seq<Value>, host: Host)
    requires forall i :: 0 <= i < |xs| ==> xs[i].Int?
    ensures Convert(List(xs), TyStr, host) == Traced(Ok(Some(Str(Join(IntTexts(xs))))), [])
  {
    var ts := IntTexts(xs);
    IntsToTexts(xs, host);
    assert Texts(Strs(ts)) == ts;
    UnfoldList(xs, TyStr, host);
  }

  lemma TokensOfJoinedInts(xs: seq<Value>)
    requires forall i :: 0 <= i < |xs| ==> xs[i].Int?
    ensures WordValues(Join(IntTexts(xs))) == Strs(IntTexts(xs))
  {
    var ts := IntTexts(xs);
    JoinOfWordsIsTrimmed(ts);
    TrimOfTrimmed(Join(ts));
    WordsOfJoin(ts);
  }

  /** The single-space join of integers' decimal texts converts to the list of those integers. */
  lemma JoinedIntsToList(xs: seq<Value>, host: Host)
    requires forall i :: 0 <= i < |xs| ==> xs[i].Int?
    ensures Convert(Str(Join(IntTexts(xs))), TyList(TyInt), host) == Traced(Ok(Some(List(xs))), [])
  {
    var joined := Join(IntTexts(xs));
    TokensOfJoinedInts(xs);
    TextsToInts(xs, host);
    TextToListStep(joined, TyInt, host);
  }

  /** A list of integers converted to text and back to a list of integers is the same list. */
  lemma IntListTextRoundTrip(xs: seq<Value>, host: Host)
    requires forall i :: 0 <= i < |xs| ==> xs[i].Int?
    ensures var text := Convert(List(xs), TyStr, host);
            && text == Traced(Ok(Some(Str(Join(IntTexts(xs))))), [])
            && Convert(text.result.value.value, TyList(TyInt), host) == Traced(Ok(Some(List(xs))), [])
  {
    IntListToText(xs, host);
    JoinedIntsToList(xs, host);
  }

  // ---------------------------------------------------------------- records

  lemma {:induction false} ConvertFieldsProjects(m: map<string, Value>, fs: seq<Field>, acc: map<string, Value>, host: Host)
    ensures var r := ConvertFields(m, fs, acc, host);
            r.result.Ok? && r.result.value.Some? <==>
              forall i :: 0 <= i < |fs| ==> fs[i].name in m && ConvertsTo(m[fs[i].name], fs[i].ty, host)
    ensures var r := ConvertFields(m, fs, acc, host);
            r.result.Ok? && r.result.value.Some? ==>
              && r.result.value.value.Keys == acc.Keys + Names(fs)
              && forall k :: k in Names(fs) ==>
                && k in r.result.value.value && k in m
                && Convert(m[k], FieldType(fs, k), host).result == Ok(Some(r.result.value.value[k]))
    decreases fs
  {
    FieldsConforms(m, fs, acc, host);
    if |fs| > 0 {
      var f := fs[0];
      assert forall i :: 1 <= i < |fs| ==> fs[i] == fs[1..][i - 1];
      assert forall i :: 0 <= i < |fs| - 1 ==> fs[1..][i] == fs[i + 1];
      if f.name in m && ConvertsTo(m[f.name], f.ty, host) {
        var y := Convert(m[f.name], f.ty, host).result.value.value;
        var acc' := acc[f.name := y];
        ConvertFieldsProjects(m, fs[1..], acc', host);
        FieldsConforms(m, fs[1..], acc', host);
        NamesOfCons(fs);
      }
    }
  }

  /**
    A record converts to a record type exactly when every field the type
    names is present and converts; the result has exactly the type's
    field names (extra fields are dropped), each holding its converted value.
  */
  lemma RecordConversionProjects(m: map<string, Value>, fs: seq<Field>, host: Host)
    ensures var r := Convert(Record(m), TyRecord(fs), host);
            && (ConvertsTo(Record(m), TyRecord(fs), host) <==>
                  forall i :: 0 <= i < |fs| ==> fs[i].name in m && ConvertsTo(m[fs[i].name], fs[i].ty, host))
            && (ConvertsTo(Record(m), TyRecord(fs), host) ==>
                  && r.result.value.value.Record?
                  && r.result.value.value.fields.Keys == Names(fs)
                  && forall k :: k in Names(fs) ==>
                       Convert(m[k], FieldType(fs, k), host).result == Ok(Some(r.result.value.value.fields[k])))
  {
    UnfoldRecord(m, TyRecord(fs), host);
    ConvertFieldsProjects(m, fs, map[], host);
    FieldsConforms(m, fs, map[], host);
  }

  // ---------------------------------------------------------------- commands

  /**
    Converting a command descriptor to text, an integer or a list starts it
    exactly once (nothing when it cannot be launched) and then equals
    converting its trimmed standard output onward; converting it to any
    other type starts nothing.
  */
  lemma CommandConversionRunsOnce(c: Cmd, ty: Type, host: Host)
    ensures ty.TyStr? || ty.TyInt? || ty.TyList? ==>
              var r := Convert(Command(c), ty, host);
              && r.trace == (if host.launches(c) then [Captured(c)] else [])
              && (!host.launches(c) ==> r.result == Err(LaunchFailed(c)))
              && (host.launches(c) && host.stdout(c).None? ==> r.result == Err(OutputNotUtf8(c)))
              && (host.launches(c) && host.stdout(c).Some? ==>
                    r.result == Convert(Str(Trim(host.stdout(c).value)), ty, host).result)
    ensures !(ty.TyStr? || ty.TyInt? || ty.TyList?) ==> Convert(Command(c), ty, host) == Traced(Ok(None), [])
  {
    UnfoldCommand(c, ty, host);
    if (ty.TyStr? || ty.TyInt? || ty.TyList?) && host.launches(c) && host.stdout(c).Some? {
      var text := Trim(host.stdout(c).value);
      CommandThenText(c, ty, host);
      UnfoldText(text, ty, host);
      CommandFreeConversionRunsNothing(Str(text), ty, host);
    }
  }

  /** A command that launches and prints UTF-8 converts as its trimmed output does, after one capture. */
  lemma CommandThenText(c: Cmd, ty: Type, host: Host)
    requires ty.TyStr? || ty.TyInt? || ty.TyList?
    requires host.launches(c) && host.stdout(c).Some?
    ensures var text := ConvertText(Trim(host.stdout(c).value), ty, host);
            ConvertCommand(c, ty, host) == Traced(text.result, [Captured(c)] + text.trace)
  {
    var text := Trim(host.stdout(c).value);
    CaptureSucceeds(c, host);
    match ty
    case TyStr =>
      CommandToTextStep(c, host, text);
    case TyInt =>
      CommandToIntStep(c, host, text);
      TextToIntStep(text, host);
    case TyList(t) =>
      CommandToListStep(c, t, host, text);
      TextToListTextStep(text, t, host);
  }

  lemma CaptureSucceeds(c: Cmd, host: Host)
    requires host.launches(c) && host.stdout(c).Some?
    ensures Capture(c, host) == Traced(Ok(Trim(host.stdout(c).value)), [Captured(c)])
  {
  }

  lemma CommandToTextStep(c: Cmd, host: Host, text: string)
    requires Capture(c, host) == Traced(Ok(text), [Captured(c)])
    ensures ConvertCommand(c, TyStr, host) == Traced(Ok(Some(Str(text))), [Captured(c)])
  {
  }

  lemma CommandToIntStep(c: Cmd, host: Host, text: string)
    requires Capture(c, host) == Traced(Ok(text), [Captured(c)])
    ensures ConvertCommand(c, TyInt, host) == Traced(TextToInt(text), [Captured(c)])
  {
  }

  lemma CommandToListStep(c: Cmd, t: Type, host: Host, text: string)
    requires Capture(c, host) == Traced(Ok(text), [Captured(c)])
    ensures var items := ConvertEach(WordValues(text), t, host);
            ConvertCommand(c, TyList(t), host) == Traced(AsList(items.result), [Captured(c)] + items.trace)
  {
  }

  lemma TextToListTextStep(s: string, t: Type, host: Host)
    ensures var items := ConvertEach(WordValues(s), t, host);
            ConvertText(s, TyList(t), host) == Traced(AsList(items.result), items.trace)
  {
  }

  /** Converting a value that holds no command descriptor starts no process. */
  lemma {:induction false} CommandFreeConversionRunsNothing(v: Value, ty: Type, host: Host)
    requires CommandFree(v)
    ensures Convert(v, ty, host).trace == []
    decreases ty, v, 1
  {
    match v
    case List(xs) =>
      UnfoldList(xs, ty, host);
      if ty.TyList? {
        EachCommandFree(xs, ty.elem, host);
      } else if ty.TyStr? {
        EachCommandFree(xs, TyStr, host);
      }
    case Str(s) =>
      UnfoldText(s, ty, host);
      if ty.TyList? {
        EachCommandFree(WordValues(s), ty.elem, host);
      }
    case Record(m) =>
      UnfoldRecord(m, ty, host);
      if ty.TyRecord? {
        FieldsCommandFree(m, ty.fields, map[], host);
      }
    case _ =>
  }

  lemma {:induction false} EachCommandFree(xs: seq<Value>, t: Type, host: Host)
    requires forall i :: 0 <= i < |xs| ==> CommandFree(xs[i])
    ensures ConvertEach(xs, t, host).trace == []
    decreases t, xs, 0
  {
    if |xs| > 0 {
      CommandFreeConversionRunsNothing(xs[0], t, host);
      assert forall i :: 0 <= i < |xs| - 1 ==> xs[1..][i] == xs[i + 1];
      EachCommandFree(xs[1..], t, host);
      EachTraceStep(xs, t, host);
    }
  }

  lemma {:induction false} FieldsCommandFree(m: map<string, Value>, fs: seq<Field>, acc: map<string, Value>, host: Host)
    requires forall k :: k in m ==> CommandFree(m[k])
    ensures ConvertFields(m, fs, acc, host).trace == []
    decreases fs
  {
    if |fs| > 0 && fs[0].name in m {
      var head := Convert(m[fs[0].name], fs[0].ty, host);
      CommandFreeConversionRunsNothing(m[fs[0].name], fs[0].ty, host);
      if head.result.Ok? && head.result.value.Some? {
        FieldsCommandFree(m, fs[1..], acc[fs[0].name := head.result.value.value], host);
      }
    }
  }
}
