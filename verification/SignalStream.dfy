/**
 Reading a child's output: bytes arrive in chunks cut anywhere, a streaming text decoder turns
 them into text, lines are cut off at newlines and decoded one by one.
 */
module SignalStream {
  import opened Text
  import opened Sequences

  type Byte = b: int | 0 <= b < 256

  /** A streaming text decoder: what each byte adds to the text, and what is left at the end. */
  datatype TextDecoder<!S> = TextDecoder(init: S, step: (S, Byte) -> (S, Text), flush: S -> Text)

  function Feed<S>(d: TextDecoder<S>, state: S, bytes: seq<Byte>): (S, Text) {
    if bytes == [] then (state, [])
    else
      var last := |bytes| - 1;
      var (mid, before) := Feed(d, state, bytes[..last]);
      var (end, more) := d.step(mid, bytes[last]);
      (end, before + more)
  }

  lemma {:induction false} FeedAppend<S>(d: TextDecoder<S>, state: S, a: seq<Byte>, b: seq<Byte>)
    ensures Feed(d, state, a + b).0 == Feed(d, Feed(d, state, a).0, b).0
    ensures Feed(d, state, a + b).1 == Feed(d, state, a).1 + Feed(d, Feed(d, state, a).0, b).1
    decreases |b|
  {
    if b == [] {
      assert a + b == a;
    } else {
      var last := |b| - 1;
      FeedAppend(d, state, a, b[..last]);
      assert (a + b)[..|a + b| - 1] == a + b[..last] && (a + b)[|a + b| - 1] == b[last];
    }
  }

  /** The text of a whole output, decoded in one go. */
  function WholeText<S>(d: TextDecoder<S>, bytes: seq<Byte>): Text {
    var (state, text) := Feed(d, d.init, bytes);
    text + d.flush(state)
  }

  // ----- lines -----

  /** What decoding one line gives: a signal, nothing of interest, or a protocol violation. */
  datatype Decoded<Signal> = Decoded(signal: Signal) | Ignored | Invalid

  datatype Progress<Signal> = Progress(signals: seq<Signal>, failed: bool)

  function Take<Signal>(p: Progress<Signal>, line: Text, decode: Text -> Decoded<Signal>): Progress<Signal> {
    if p.failed then p
    else
      match decode(line)
      case Decoded(signal) => Progress(p.signals + [signal], false)
      case Ignored => p
      case Invalid => p.(failed := true)
  }

  /** The reference: decode the lines one after the other, stopping at a violation. */
  function Collect<Signal>(lines: seq<Text>, decode: Text -> Decoded<Signal>): Progress<Signal> {
    if lines == [] then Progress([], false)
    else Take(Collect(lines[..|lines| - 1], decode), lines[|lines| - 1], decode)
  }

  lemma CollectLast<Signal>(lines: seq<Text>, line: Text, decode: Text -> Decoded<Signal>)
    ensures Collect(lines + [line], decode) == Take(Collect(lines, decode), line, decode)
  {
    assert (lines + [line])[..|lines|] == lines;
  }

  lemma {:induction false} CollectFailed<Signal>(lines: seq<Text>, more: seq<Text>, decode: Text -> Decoded<Signal>)
    requires Collect(lines, decode).failed
    ensures Collect(lines + more, decode) == Collect(lines, decode)
    decreases |more|
  {
    if more == [] {
      assert lines + more == lines;
    } else {
      CollectFailed(lines, more[..|more| - 1], decode);
      assert lines + more == (lines + more[..|more| - 1]) + [more[|more| - 1]];
      CollectLast(lines + more[..|more| - 1], more[|more| - 1], decode);
    }
  }

  /** The lines that gave signals, `at`, among the first `stop` lines; the others there are ignored. */
  ghost predicate Gives<Signal>(lines: seq<Text>, decode: Text -> Decoded<Signal>, stop: nat, at: seq<nat>, signals: seq<Signal>) {
    && stop <= |lines| && |at| == |signals|
    && (forall i, j | 0 <= i < j < |at| :: at[i] < at[j])
    && (forall i | 0 <= i < |at| :: at[i] < stop && decode(lines[at[i]]) == Decoded(signals[i]))
    && forall k | 0 <= k < stop && k !in at :: decode(lines[k]).Ignored?
  }

  lemma GivesNext<Signal>(lines: seq<Text>, line: Text, decode: Text -> Decoded<Signal>, at: seq<nat>, signals: seq<Signal>)
    requires Gives(lines, decode, |lines|, at, signals)
    ensures decode(line).Ignored? ==> Gives(lines + [line], decode, |lines| + 1, at, signals)
    ensures decode(line).Decoded? ==> Gives(lines + [line], decode, |lines| + 1, at + [|lines|], signals + [decode(line).signal])
  {
    var all := lines + [line];
    assert forall k | 0 <= k < |lines| :: all[k] == lines[k];
    assert forall k | k in at + [|lines|] :: k in at || k == |lines|;
    assert |lines| in at + [|lines|] && forall k | k in at :: k in at + [|lines|];
  }

  /** Reading stops at the first line that violates the protocol, if there is one; before it every
      line either gives its signal, in order, or is ignored. */
  lemma {:induction false} CollectMeans<Signal>(lines: seq<Text>, decode: Text -> Decoded<Signal>) returns (stop: nat, at: seq<nat>)
    ensures Gives(lines, decode, stop, at, Collect(lines, decode).signals)
    ensures Collect(lines, decode).failed <==> stop < |lines|
    ensures stop < |lines| ==> decode(lines[stop]).Invalid?
  {
    if lines == [] {
      stop, at := 0, [];
    } else {
      var before, line := lines[..|lines| - 1], lines[|lines| - 1];
      assert lines == before + [line];
      stop, at := CollectMeans(before, decode);
      if stop == |before| {
        GivesNext(before, line, decode, at, Collect(before, decode).signals);
        if decode(line).Decoded? {
          at := at + [|before|];
        }
        stop := if decode(line).Invalid? then |before| else |lines|;
      }
    }
  }

  function Complete(t: Text): seq<Text> {
    var parts := Split(t, NEWLINE);
    parts[..|parts| - 1]
  }

  function Rest(t: Text): Text {
    var parts := Split(t, NEWLINE);
    parts[|parts| - 1]
  }

  lemma RestHasNoNewline(t: Text)
    ensures NEWLINE !in t ==> Complete(t) == [] && Rest(t) == t
    ensures Split(t, NEWLINE) == Complete(t) + [Rest(t)]
  {
    IndexOfAbsent(t, NEWLINE);
    var parts := Split(t, NEWLINE);
    assert parts == parts[..|parts| - 1] + [parts[|parts| - 1]];
  }

  /** Cutting off the first line. */
  lemma CutAt(t: Text, n: nat)
    requires n < |t| && t[n] == NEWLINE && NEWLINE !in t[..n]
    ensures Complete(t) == [t[..n]] + Complete(t[n + 1..]) && Rest(t) == Rest(t[n + 1..])
  {
    var a, b := t[..n], t[n + 1..];
    assert t == a + [NEWLINE] + b;
    CompleteHead(a, b);
  }

  lemma CutMore(t: Text, n: nat, more: Text)
    requires n < |t| && t[n] == NEWLINE && NEWLINE !in t[..n]
    ensures Complete(t + more) == [t[..n]] + Complete(t[n + 1..] + more) && Rest(t + more) == Rest(t[n + 1..] + more)
  {
    var all := t + more;
    assert all[..n] == t[..n] && all[n + 1..] == t[n + 1..] + more;
    CutAt(all, n);
  }

  lemma FirstNewline(t: Text) returns (n: nat)
    requires NEWLINE in t
    ensures n == IndexOf(t, NEWLINE) && n < |t| && t[n] == NEWLINE && NEWLINE !in t[..n]
  {
    IndexOfAbsent(t, NEWLINE);
    n := IndexOf(t, NEWLINE);
  }

  /** More text completes the pending line and perhaps others; complete lines stay as they are. */
  lemma {:induction false} SplitMore(t: Text, more: Text)
    ensures Complete(t + more) == Complete(t) + Complete(Rest(t) + more)
    ensures Rest(t + more) == Rest(Rest(t) + more)
    decreases |t|
  {
    RestHasNoNewline(t);
    if NEWLINE in t {
      var n := FirstNewline(t);
      CutAt(t, n);
      SplitMore(t[n + 1..], more);
      CutMore(t, n, more);
      Assoc([t[..n]], Complete(t[n + 1..]), Complete(Rest(t) + more));
    } else {
      assert Complete(t) + Complete(Rest(t) + more) == Complete(t + more);
    }
  }

  lemma CompleteHead(a: Text, b: Text)
    requires NEWLINE !in a
    ensures Complete(a + [NEWLINE] + b) == [a] + Complete(b) && Rest(a + [NEWLINE] + b) == Rest(b)
  {
    SplitHead(a, NEWLINE, b);
    var parts := Split(b, NEWLINE);
    assert ([a] + parts)[..|parts|] == [a] + parts[..|parts| - 1];
  }

  /** Text that ends with a newline has only complete lines to collect. */
  lemma CollectComplete<Signal>(t: Text, decode: Text -> Decoded<Signal>)
    requires Rest(t) == [] && decode([]).Ignored?
    ensures Collect(Split(t, NEWLINE), decode) == Collect(Complete(t), decode)
  {
    RestHasNoNewline(t);
    CollectLast(Complete(t), [], decode);
  }

  predicate Whitespace(u: Unit) {
    9 <= u <= 13 || u == 32 || u == 160 || u == 0x1680 || 0x2000 <= u <= 0x200A
    || u == 0x2028 || u == 0x2029 || u == 0x202F || u == 0x205F || u == 0x3000 || u == 0xFEFF
  }

  /** `trim().length === 0`. */
  predicate Blank(t: Text) { forall i | 0 <= i < |t| :: Whitespace(t[i]) }

  // ----- the reader -----

  class SignalReader<Signal> {
    const decode: Text -> Decoded<Signal>
    var signals: seq<Signal>
    var buffered: Text
    var failed: bool
    ghost var seen: Text

    /** Everything seen so far is either collected, line by line, or still in the buffer. */
    ghost predicate Valid()
      reads this
    {
      && Progress(signals, failed) == Collect(Complete(seen), decode)
      && (!failed ==> buffered == Rest(seen))
    }

    constructor (decode: Text -> Decoded<Signal>)
      ensures Valid() && seen == [] && !failed && this.decode == decode
    {
      this.decode := decode;
      signals, buffered, failed, seen := [], [], false, [];
      new;
      RestHasNoNewline([]);
    }

    method Consume(line: Text)
      requires !failed
      modifies this`signals, this`failed
      ensures Progress(signals, failed) == Take(Progress(old(signals), false), line, decode)
    {
      match decode(line)
      case Decoded(signal) => signals := signals + [signal];
      case Ignored =>
      case Invalid => failed := true;
    }

    /** The lines `done` are collected; the rest of what was seen is in the buffer. */
    ghost predicate Draining(done: seq<Text>)
      reads this
    {
      && done + Complete(buffered) == Complete(seen) && Rest(buffered) == Rest(seen)
      && Progress(signals, failed) == Collect(done, decode)
    }

    method TakeLine(ghost done: seq<Text>) returns (ghost next: seq<Text>)
      requires Draining(done) && !failed && NEWLINE in buffered
      modifies this`signals, this`failed, this`buffered
      ensures Draining(next) && |buffered| < |old(buffered)|
    {
      var newline := IndexOf(buffered, NEWLINE);
      ghost var n := FirstNewline(buffered);
      CutAt(buffered, n);
      var line := buffered[..newline];
      CollectLast(done, line, decode);
      Assoc(done, [line], Complete(buffered[newline + 1..]));
      next := done + [line];
      buffered := buffered[newline + 1..];
      Consume(line);
    }

    /** Decodes every complete line the buffer holds. */
    method Drain(ghost before: Text, ghost more: Text)
      requires !failed && buffered == Rest(before) + more
      requires Progress(signals, false) == Collect(Complete(before), decode)
      modifies this
      ensures seen == before + more && Valid()
    {
      ghost var done := Complete(before);
      seen := before + more;
      SplitMore(before, more);
      while NEWLINE in buffered && !failed
        invariant Draining(done) && seen == before + more
        decreases |buffered|
      {
        done := TakeLine(done);
      }
      if failed {
        CollectFailed(done, Complete(buffered), decode);
      } else {
        RestHasNoNewline(buffered);
        assert done + [] == done;
      }
    }

    /** One chunk of decoded text. */
    method Receive(text: Text)
      requires Valid()
      modifies this
      ensures Valid() && seen == old(seen) + text
    {
      if failed {
        SplitMore(seen, text);
        CollectFailed(Complete(seen), Complete(Rest(seen) + text), decode);
        seen := seen + text;
        return;
      }
      ghost var before := seen;
      buffered := buffered + text;
      Drain(before, text);
    }

    /** End of output: the decoder's last text, then a last line without a newline. */
    method Finish(text: Text)
      requires Valid()
      requires forall t | Blank(t) :: decode(t).Ignored?
      requires NEWLINE !in text
      modifies this
      ensures seen == old(seen) + text
      ensures Progress(signals, failed) == Collect(Split(seen, NEWLINE), decode)
    {
      SplitMore(seen, text);
      ghost var lines := Complete(seen);
      if failed {
        RestHasNoNewline(seen + text);
        CollectFailed(lines, Complete(Rest(seen) + text) + [Rest(seen + text)], decode);
        Assoc(lines, Complete(Rest(seen) + text), [Rest(seen + text)]);
        seen := seen + text;
        return;
      }
      NoNewlineInRest(seen);
      RestHasNoNewline(Rest(seen) + text);
      RestHasNoNewline(seen + text);
      assert lines + [] == lines;
      buffered := buffered + text;
      seen := seen + text;
      CollectLast(lines, buffered, decode);
      if !Blank(buffered) {
        Consume(buffered);
      }
    }
  }

  lemma {:induction false} NoNewlineInRest(t: Text)
    ensures NEWLINE !in Rest(t)
    decreases |t|
  {
    if NEWLINE in t {
      var n := FirstNewline(t);
      CutAt(t, n);
      NoNewlineInRest(t[n + 1..]);
    } else {
      RestHasNoNewline(t);
    }
  }

  /** However the output is cut into chunks, the signals are those of the whole text's lines. */
  method ReadSignals<S(!new), Signal>(d: TextDecoder<S>, chunks: seq<seq<Byte>>, decode: Text -> Decoded<Signal>)
    returns (signals: seq<Signal>, failed: bool)
    requires forall state :: NEWLINE !in d.flush(state)
    requires forall t | Blank(t) :: decode(t).Ignored?
    ensures Progress(signals, failed) == Collect(Split(WholeText(d, Flatten(chunks)), NEWLINE), decode)
  {
    var reader := new SignalReader<Signal>(decode);
    var state := d.init;
    for i := 0 to |chunks|
      invariant fresh(reader) && reader.Valid() && reader.decode == decode
      invariant (state, reader.seen) == Feed(d, d.init, Flatten(chunks[..i]))
    {
      ChunkNext(d, chunks, i);
      var (next, text) := Feed(d, state, chunks[i]);
      reader.Receive(text);
      state := next;
    }
    assert chunks[..|chunks|] == chunks;
    reader.Finish(d.flush(state));
    signals, failed := reader.signals, reader.failed;
  }

  lemma ChunkNext<S>(d: TextDecoder<S>, chunks: seq<seq<Byte>>, i: nat)
    requires i < |chunks|
    ensures var before := Feed(d, d.init, Flatten(chunks[..i]));
            var more := Feed(d, before.0, chunks[i]);
            Feed(d, d.init, Flatten(chunks[..i + 1])) == (more.0, before.1 + more.1)
  {
    assert chunks[..i + 1] == chunks[..i] + [chunks[i]];
    FlattenLast(chunks[..i], chunks[i]);
    FeedAppend(d, d.init, Flatten(chunks[..i]), chunks[i]);
  }
}
