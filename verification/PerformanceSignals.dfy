/**
 The signals a measured child writes, one JSON object a line, and the decoder that reads them
 back. JSON.parse is a parameter; what is asked of it is that it reads what JSON.stringify wrote.
 */
module PerformanceSignals {
  import opened Text
  import opened Sequences
  import opened JsonNumbers
  import opened Json
  import opened JsonRecords
  import opened SignalStream

  datatype Signal =
    | ChildReady
    | RuntimeReady(runtimeInstanceId: Text, workflowCount: Number)
    | RunTerminal(requestId: Text, runId: Text, status: Text)
    | EngineSamples(samples: seq<Number>)
    | Stopped(exitCode: Number)
    | ErrorSignal(message: Text)

  const SIGNAL_PROFILE: Text := Ascii("woml.performance-signal/v1")

  const PROFILE: Text := Ascii("profile")
  const TYPE: Text := Ascii("type")

  /** An integer of at most 2^53 - 1 in magnitude. */
  predicate SafeInteger(n: Number) {
    ValidNumber(n) &&
    (n.Zero? || (|n.digits| <= n.point <= 16 && ReadNat(n.digits + Zeros(n.point - |n.digits|)) <= 9007199254740991))
  }

  /** The number that an integer is read as. */
  function IntegerNumber(k: nat): Number {
    if k == 0 then Zero else Finite(false, StripTrailing(NatText(k)), |NatText(k)|)
  }

  lemma {:induction false} StripKeeps(t: Text)
    ensures var s := StripTrailing(t);
            |s| <= |t| && t == s + Zeros(|t| - |s|) && (s == [] || s[|s| - 1] != ZERO)
  {
    if t != [] && t[|t| - 1] == ZERO {
      StripKeeps(t[..|t| - 1]);
    }
  }

  function Pow10(m: nat): nat { if m == 0 then 1 else 10 * Pow10(m - 1) }

  lemma {:induction false} NatTextLong(k: nat)
    ensures k > 0 ==> k >= Pow10(|NatText(k)| - 1)
  {
    if k >= 10 {
      NatTextLong(k / 10);
    }
  }

  lemma IntegerDigits(k: nat)
    requires k > 0
    ensures var n := IntegerNumber(k);
            ValidNumber(n) && |n.digits| <= n.point && n.digits + Zeros(n.point - |n.digits|) == NatText(k)
  {
    var t := NatText(k);
    StripKeeps(t);
    var s := StripTrailing(t);
    assert t[0] == if s == [] then ZERO else s[0];
    assert forall i | 0 <= i < |s| :: s[i] == t[i];
  }

  lemma SixteenDigits(k: nat)
    ensures k <= 0x1F_FFFF_FFFF_FFFF ==> |NatText(k)| <= 16
  {
    NatTextLong(k);
    if |NatText(k)| > 16 {
      Pow10Grows(16, |NatText(k)| - 1);
      assert Pow10(4) == 10000 && Pow10(8) == 100000000 && Pow10(12) == 1000000000000;
      assert Pow10(16) == 10000000000000000;
    }
  }

  /** The safe integers are those up to 2^53 - 1, and print as their decimal digits. */
  lemma SafeIntegers(k: nat)
    ensures ValidNumber(IntegerNumber(k))
    ensures SafeInteger(IntegerNumber(k)) <==> k <= 0x1F_FFFF_FFFF_FFFF
    ensures k <= 0x1F_FFFF_FFFF_FFFF ==> NumberText(IntegerNumber(k)) == NatText(k)
  {
    if k > 0 {
      IntegerDigits(k);
      SixteenDigits(k);
      ReadNatText(k);
    }
  }

  lemma {:induction false} Pow10Grows(m: nat, n: nat)
    requires m <= n
    ensures Pow10(m) <= Pow10(n)
  {
    if m < n {
      Pow10Grows(m, n - 1);
    }
  }

  predicate Sample(v: Json) {
    v.Num? && ValidNumber(v.n) && (v.n.Zero? || !v.n.negative)
  }

  predicate ValidSignal(s: Signal) {
    match s
    case RuntimeReady(_, count) => SafeInteger(count)
    case EngineSamples(samples) =>
      samples != [] && forall n | n in samples :: ValidNumber(n) && (n.Zero? || n == Finite(false, n.digits, n.point))
    case Stopped(code) => SafeInteger(code)
    case _ => true
  }

  // ----- what the child emits -----

  function SignalRecord(s: Signal): (r: (seq<Text>, seq<Json>))
    ensures |r.0| == |r.1|
  {
    match s
    case ChildReady => ([PROFILE, TYPE], [Str(SIGNAL_PROFILE), Str(Ascii("child_ready"))])
    case RuntimeReady(id, count) =>
      ([PROFILE, TYPE, Ascii("runtimeInstanceId"), Ascii("workflowCount")],
       [Str(SIGNAL_PROFILE), Str(Ascii("runtime_ready")), Str(id), Num(count)])
    case RunTerminal(requestId, runId, status) =>
      ([PROFILE, TYPE, Ascii("requestId"), Ascii("runId"), Ascii("status")],
       [Str(SIGNAL_PROFILE), Str(Ascii("run_terminal")), Str(requestId), Str(runId), Str(status)])
    case EngineSamples(samples) =>
      ([PROFILE, TYPE, Ascii("samples")],
       [Str(SIGNAL_PROFILE), Str(Ascii("engine_samples")), Arr(Map(samples, (n: Number) => Num(n)))])
    case Stopped(code) =>
      ([PROFILE, TYPE, Ascii("exitCode")], [Str(SIGNAL_PROFILE), Str(Ascii("stopped")), Num(code)])
    case ErrorSignal(message) =>
      ([PROFILE, TYPE, Ascii("message")], [Str(SIGNAL_PROFILE), Str(Ascii("error")), Str(message)])
  }

  function SignalJson(s: Signal): Json {
    var (keys, values) := SignalRecord(s);
    Obj(Record(keys, values))
  }

  // ----- the decoder -----

  function NumbersIn(items: seq<Json>): (r: seq<Number>)
    requires forall i | 0 <= i < |items| :: items[i].Num?
    ensures |r| == |items| && forall i | 0 <= i < |items| :: r[i] == items[i].n
  {
    if items == [] then [] else [items[0].n] + NumbersIn(items[1..])
  }

  function DecodeValue(v: Json): Decoded<Signal> {
    if !v.Obj? || Get(v.fields, PROFILE) != Str(SIGNAL_PROFILE) then Ignored
    else
      var kind := Get(v.fields, TYPE);
      var id, count := Get(v.fields, Ascii("runtimeInstanceId")), Get(v.fields, Ascii("workflowCount"));
      var requestId, runId, status := Get(v.fields, Ascii("requestId")), Get(v.fields, Ascii("runId")), Get(v.fields, Ascii("status"));
      var samples, code, message := Get(v.fields, Ascii("samples")), Get(v.fields, Ascii("exitCode")), Get(v.fields, Ascii("message"));
      if kind == Str(Ascii("child_ready")) then Decoded(ChildReady)
      else if kind == Str(Ascii("runtime_ready")) && id.Str? && count.Num? && SafeInteger(count.n) then
        Decoded(RuntimeReady(id.s, count.n))
      else if kind == Str(Ascii("run_terminal")) && requestId.Str? && runId.Str? && status.Str? then
        Decoded(RunTerminal(requestId.s, runId.s, status.s))
      else if kind == Str(Ascii("engine_samples")) && samples.Arr? && |samples.items| > 0
              && (forall i | 0 <= i < |samples.items| :: Sample(samples.items[i])) then
        Decoded(EngineSamples(NumbersIn(samples.items)))
      else if kind == Str(Ascii("stopped")) && code.Num? && SafeInteger(code.n) then Decoded(Stopped(code.n))
      else if kind == Str(Ascii("error")) && message.Str? then Decoded(ErrorSignal(message.s))
      else Invalid
  }

  function DecodeLine(parse: Text -> Read<Json>, line: Text): Decoded<Signal> {
    match parse(line) case Fail => Ignored case Done(v, _) => DecodeValue(v)
  }

  function LineDecoder(parse: Text -> Read<Json>): Text -> Decoded<Signal> {
    line => DecodeLine(parse, line)
  }

  /** What JSON.parse must do: read what JSON.stringify wrote, and refuse blank text. */
  ghost predicate ParsesJson(parse: Text -> Read<Json>) {
    && (forall v | NumbersValid(v) :: parse(Print(v)) == Done(v, []))
    && (forall t | Blank(t) :: parse(t).Fail?)
  }

  /** The reader of this model is one such parser. */
  lemma ParseAllParses()
    ensures ParsesJson(ParseAll)
  {
    forall v | NumbersValid(v) ensures ParseAll(Print(v)) == Done(v, []) {
      RoundTrip(v);
    }
  }

  // ----- a signal survives the wire -----

  lemma RecordGet(keys: seq<Text>, values: seq<Json>, i: nat)
    requires |keys| == |values| && Distinct(keys) && i < |keys|
    ensures Get(Record(keys, values), keys[i]) == values[i]
  {
    GetAt(Record(keys, values), i);
  }

  lemma SignalKeysDistinct(s: Signal)
    ensures Distinct(SignalRecord(s).0)
  {
    var keys := SignalRecord(s).0;
    assert keys[0][0] == 112;
    match s
    case EngineSamples(_) => assert keys[2][0] == 115;
    case ErrorSignal(_) => assert keys[2][0] == 109;
    case _ =>
  }

  lemma FieldsOf(s: Signal)
    ensures var (keys, values) := SignalRecord(s);
            forall i | 0 <= i < |keys| :: Get(SignalJson(s).fields, keys[i]) == values[i]
  {
    SignalKeysDistinct(s);
    var (keys, values) := SignalRecord(s);
    forall i | 0 <= i < |keys| ensures Get(SignalJson(s).fields, keys[i]) == values[i] {
      RecordGet(keys, values, i);
    }
  }

  /** The value has the fields of the signal, and perhaps others. */
  ghost predicate Carries(v: Json, s: Signal) {
    v.Obj? &&
    var (keys, values) := SignalRecord(s);
    forall i | 0 <= i < |keys| :: Get(v.fields, keys[i]) == values[i]
  }

  lemma DecodeTerminal(v: Json, s: Signal)
    requires s.RunTerminal? && Carries(v, s)
    ensures DecodeValue(v) == Decoded(s)
  {
    var f, keys := v.fields, SignalRecord(s).0;
    assert Get(f, keys[0]) == Str(SIGNAL_PROFILE) && Get(f, keys[1]) == Str(Ascii("run_terminal"));
    assert Get(f, keys[2]) == Str(s.requestId) && Get(f, keys[3]) == Str(s.runId) && Get(f, keys[4]) == Str(s.status);
  }

  lemma DecodeReady(v: Json, s: Signal)
    requires (s.ChildReady? || (s.RuntimeReady? && ValidSignal(s))) && Carries(v, s)
    ensures DecodeValue(v) == Decoded(s)
  {
    var f, keys := v.fields, SignalRecord(s).0;
    assert Get(f, keys[0]) == Str(SIGNAL_PROFILE);
    if s.RuntimeReady? {
      assert Get(f, keys[1]) == Str(Ascii("runtime_ready"));
      assert Get(f, keys[2]) == Str(s.runtimeInstanceId) && Get(f, keys[3]) == Num(s.workflowCount);
    } else {
      assert Get(f, keys[1]) == Str(Ascii("child_ready"));
    }
  }

  lemma DecodeSamples(v: Json, s: Signal)
    requires s.EngineSamples? && ValidSignal(s) && Carries(v, s)
    ensures DecodeValue(v) == Decoded(s)
  {
    var f, keys := v.fields, SignalRecord(s).0;
    var items := Map(s.samples, (n: Number) => Num(n));
    assert Get(f, keys[0]) == Str(SIGNAL_PROFILE) && Get(f, keys[1]) == Str(Ascii("engine_samples"));
    assert Get(f, keys[2]) == Arr(items);
    assert NumbersIn(items) == s.samples;
  }

  lemma DecodeEnd(v: Json, s: Signal)
    requires (s.ErrorSignal? || (s.Stopped? && ValidSignal(s))) && Carries(v, s)
    ensures DecodeValue(v) == Decoded(s)
  {
    var f, keys := v.fields, SignalRecord(s).0;
    assert Get(f, keys[0]) == Str(SIGNAL_PROFILE);
    if s.Stopped? {
      assert Get(f, keys[1]) == Str(Ascii("stopped")) && Get(f, keys[2]) == Num(s.exitCode);
    } else {
      assert Get(f, keys[1]) == Str(Ascii("error")) && Get(f, keys[2]) == Str(s.message);
    }
  }

  lemma DecodeCarried(v: Json, s: Signal)
    requires ValidSignal(s) && Carries(v, s)
    ensures DecodeValue(v) == Decoded(s)
  {
    match s
    case RunTerminal(_, _, _) => DecodeTerminal(v, s);
    case EngineSamples(_) => DecodeSamples(v, s);
    case Stopped(_) => DecodeEnd(v, s);
    case ErrorSignal(_) => DecodeEnd(v, s);
    case _ => DecodeReady(v, s);
  }

  lemma DecodedCarries(v: Json, s: Signal)
    requires DecodeValue(v) == Decoded(s)
    ensures ValidSignal(s) && Carries(v, s)
  {
    if s.EngineSamples? {
      var items := Get(v.fields, Ascii("samples")).items;
      assert items == Map(s.samples, (n: Number) => Num(n));
      forall i | 0 <= i < |s.samples| ensures Sample(Num(s.samples[i])) {
        assert Sample(items[i]);
      }
    }
  }

  /** A value decodes to a signal exactly when the signal is valid and the value has its fields. A
      value that is not an object of the signal profile is passed over; any other is a violation. */
  lemma DecodedIff(v: Json, s: Signal)
    ensures DecodeValue(v) == Decoded(s) <==> ValidSignal(s) && Carries(v, s)
    ensures DecodeValue(v).Ignored? <==> !(v.Obj? && Get(v.fields, PROFILE) == Str(SIGNAL_PROFILE))
  {
    if DecodeValue(v) == Decoded(s) {
      DecodedCarries(v, s);
    }
    if ValidSignal(s) && Carries(v, s) {
      DecodeCarried(v, s);
    }
  }

  /** Decoding the value of a signal gives the signal back. */
  lemma DecodeSignal(s: Signal)
    requires ValidSignal(s)
    ensures DecodeValue(SignalJson(s)) == Decoded(s)
  {
    FieldsOf(s);
    DecodeCarried(SignalJson(s), s);
  }

  lemma SignalNumbers(s: Signal)
    requires ValidSignal(s)
    ensures NumbersValid(SignalJson(s))
  {
    var (keys, values) := SignalRecord(s);
    var fields := Record(keys, values);
    forall f | f in fields ensures NumbersValid(f.value) {
      var i :| 0 <= i < |fields| && fields[i] == f;
      ValuesValid(s, i);
    }
  }

  lemma ValuesValid(s: Signal, i: nat)
    requires ValidSignal(s) && i < |SignalRecord(s).1|
    ensures NumbersValid(SignalRecord(s).1[i])
  {
    if s.EngineSamples? {
      var items := Map(s.samples, (n: Number) => Num(n));
      forall x | x in items ensures NumbersValid(x) {
        var j :| 0 <= j < |items| && items[j] == x;
        assert Sample(Num(s.samples[j]));
      }
    }
  }

  // ----- no printed value holds a newline -----

  predicate NoControl(t: Text) { forall i | 0 <= i < |t| :: t[i] >= 32 }

  lemma {:induction false} EscapeNoControl(s: Text)
    ensures NoControl(Escape(s))
    decreases |s|
  {
    if s != [] {
      if |s| > 1 && IsHigh(s[0]) && IsLow(s[1]) {
        EscapeNoControl(s[2..]);
      } else {
        EscapeNoControl(s[1..]);
        assert NoControl(EscapeUnit(s[0]));
      }
    }
  }

  lemma {:induction false} PrintNoControl(v: Json)
    requires NumbersValid(v)
    ensures NoControl(Print(v))
    decreases v, 1
  {
    match v
    case Num(n) =>
      NumberTextShape(n);
    case Str(s) => EscapeNoControl(s);
    case Arr(items) => ItemsNoControl(items);
    case Obj(fields) => FieldsNoControl(fields);
    case _ =>
  }

  lemma {:induction false} ItemsNoControl(items: seq<Json>)
    requires forall x | x in items :: NumbersValid(x)
    ensures NoControl(PrintItems(items))
    decreases items, 0
  {
    if items != [] {
      PrintNoControl(items[0]);
      ItemsNoControl(items[1..]);
    }
  }

  lemma {:induction false} FieldsNoControl(fields: seq<Field>)
    requires forall f | f in fields :: NumbersValid(f.value)
    ensures NoControl(PrintFields(fields))
    decreases fields, 0
  {
    if fields != [] {
      EscapeNoControl(fields[0].key);
      PrintNoControl(fields[0].value);
      assert NoControl(PrintField(fields[0]));
      FieldsNoControl(fields[1..]);
    }
  }

  // ----- the whole pipe -----

  /** What the child writes to its standard output. */
  function Emitted(signals: seq<Signal>): Text
    requires forall i | 0 <= i < |signals| :: ValidSignal(signals[i])
  {
    if signals == [] then []
    else
      var last := |signals| - 1;
      SignalNumbers(signals[last]);
      Emitted(signals[..last]) + Print(SignalJson(signals[last])) + [NEWLINE]
  }

  lemma LineAppended(before: Text, line: Text)
    requires Rest(before) == [] && NEWLINE !in line
    ensures Complete(before + line + [NEWLINE]) == Complete(before) + [line] && Rest(before + line + [NEWLINE]) == []
  {
    var written := line + [NEWLINE];
    Assoc(before, line, [NEWLINE]);
    SplitMore(before, written);
    assert written == written + [] && [] + written == written;
    CompleteHead(line, []);
    RestHasNoNewline([]);
  }

  lemma LineDecodes(signal: Signal, parse: Text -> Read<Json>)
    requires ParsesJson(parse) && ValidSignal(signal)
    ensures NumbersValid(SignalJson(signal))
    ensures NEWLINE !in Print(SignalJson(signal)) && DecodeLine(parse, Print(SignalJson(signal))) == Decoded(signal)
  {
    SignalNumbers(signal);
    PrintNoControl(SignalJson(signal));
    DecodeSignal(signal);
  }

  ghost predicate AllValid(signals: seq<Signal>) {
    forall i | 0 <= i < |signals| :: ValidSignal(signals[i])
  }

  lemma EmittedNext(before: seq<Signal>, signal: Signal)
    requires AllValid(before) && ValidSignal(signal) && NumbersValid(SignalJson(signal))
    ensures AllValid(before + [signal])
    ensures Emitted(before + [signal]) == Emitted(before) + Print(SignalJson(signal)) + [NEWLINE]
  {
    var signals := before + [signal];
    assert signals[..|signals| - 1] == before && signals[|signals| - 1] == signal;
  }

  /** The output so far is whole lines, and they decode to the signals so far. */
  ghost predicate Decodes(signals: seq<Signal>, parse: Text -> Read<Json>)
    requires AllValid(signals)
  {
    && Rest(Emitted(signals)) == []
    && Collect(Complete(Emitted(signals)), LineDecoder(parse)) == Progress(signals, false)
  }

  lemma DecodesNext(before: seq<Signal>, signal: Signal, parse: Text -> Read<Json>)
    requires ParsesJson(parse) && AllValid(before) && ValidSignal(signal) && Decodes(before, parse)
    ensures AllValid(before + [signal]) && Decodes(before + [signal], parse)
  {
    LineDecodes(signal, parse);
    EmittedNext(before, signal);
    var line := Print(SignalJson(signal));
    LineAppended(Emitted(before), line);
    CollectLast(Complete(Emitted(before)), line, LineDecoder(parse));
  }

  lemma {:induction false} EmittedLines(signals: seq<Signal>, parse: Text -> Read<Json>)
    requires ParsesJson(parse) && AllValid(signals)
    ensures Decodes(signals, parse)
  {
    if signals == [] {
      RestHasNoNewline([]);
    } else {
      var before, signal := signals[..|signals| - 1], signals[|signals| - 1];
      EmittedLines(before, parse);
      DecodesNext(before, signal, parse);
      assert signals == before + [signal];
    }
  }

  /** The lines of the child's output decode to exactly the signals it emitted, in order. */
  lemma EmittedDecodes(signals: seq<Signal>, parse: Text -> Read<Json>)
    requires ParsesJson(parse) && forall i | 0 <= i < |signals| :: ValidSignal(signals[i])
    ensures Collect(Split(Emitted(signals), NEWLINE), LineDecoder(parse)) == Progress(signals, false)
  {
    EmittedLines(signals, parse);
    BlankIgnored(parse, []);
    CollectComplete(Emitted(signals), LineDecoder(parse));
  }

  lemma BlankIgnored(parse: Text -> Read<Json>, t: Text)
    requires ParsesJson(parse) && Blank(t)
    ensures DecodeLine(parse, t).Ignored?
  {
  }

  /** Whatever bytes carry the child's text and however they are cut, the driver collects exactly
      the signals the child emitted, and finds no violation. */
  method ReadPerformanceSignals<S(!new)>(d: TextDecoder<S>, chunks: seq<seq<Byte>>, parse: Text -> Read<Json>,
                                         ghost emitted: seq<Signal>)
    returns (signals: seq<Signal>, failed: bool)
    requires ParsesJson(parse) && forall state :: NEWLINE !in d.flush(state)
    requires forall i | 0 <= i < |emitted| :: ValidSignal(emitted[i])
    requires WholeText(d, Flatten(chunks)) == Emitted(emitted)
    ensures signals == emitted && !failed
  {
    var decode := LineDecoder(parse);
    forall t | Blank(t) ensures decode(t).Ignored? {
      BlankIgnored(parse, t);
    }
    signals, failed := ReadSignals(d, chunks, decode);
    EmittedDecodes(emitted, parse);
  }
}
