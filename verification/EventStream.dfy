/**
 * The server-sent-event proxy loop of app/handlers/stream.go.
 *
 * The upstream body is copied line by line; the response is flushed after each
 * line that consists of a lone LF. A browser dispatches an event at a blank line
 * that follows a data field, where a line may end in LF, CR or CR LF (WHATWG
 * HTML, sections 9.2.5 and 9.2.6).
 */
module EventStream {
  import opened Prelude

  const LF: Octet := '\n'
  const CR: Octet := '\r'

  const DATA: Bytes := "data"
  const DATA_COLON: Bytes := "data:"

  // ---- What the standard dispatches ----

  // The terminated lines of s, where `line` holds the bytes of the line being read.
  function Lines(s: Bytes, line: Bytes): seq<Bytes> {
    if s == [] then []
    else if s[0] == LF then [line] + Lines(s[1..], [])
    else if s[0] == CR then [line] + Lines(if |s| > 1 && s[1] == LF then s[2..] else s[1..], [])
    else Lines(s[1..], line + [s[0]])
  }

  predicate IsData(line: Bytes) {
    line == DATA || DATA_COLON <= line
  }

  // Some line of the stream makes the browser dispatch an event; `data` says
  // whether the block being read has a data field so far.
  predicate Dispatches(lines: seq<Bytes>, data: bool) {
    lines != [] &&
    if lines[0] == [] then data || Dispatches(lines[1..], false)
    else Dispatches(lines[1..], data || IsData(lines[0]))
  }

  // ---- The same byte by byte ----

  // The line being read, whether the last byte was a CR, and whether the block
  // being read has a data field.
  datatype Parser = Parser(line: Bytes, cr: bool, data: bool)

  const START := Parser([], false, false)

  function Feed(p: Parser, c: Octet): Parser {
    if c == LF && p.cr then p.(cr := false)
    else if c == LF || c == CR then Parser([], c == CR, p.line != [] && (p.data || IsData(p.line)))
    else Parser(p.line + [c], false, p.data)
  }

  function Parsed(s: Bytes): Parser {
    if s == [] then START else Feed(Parsed(s[..|s| - 1]), s[|s| - 1])
  }

  // The byte ends a blank line behind a data field.
  predicate Completes(p: Parser, c: Octet) {
    p.line == [] && p.data && (c == CR || (c == LF && !p.cr))
  }

  predicate CompletesAt(s: Bytes, i: nat)
    requires i < |s|
  {
    Completes(Parsed(s[..i]), s[i])
  }

  ghost predicate HasEvent(s: Bytes) {
    exists i: nat | i < |s| :: CompletesAt(s, i)
  }

  lemma ParsedSnoc(s: Bytes, k: nat)
    requires k < |s|
    ensures Parsed(s[..k + 1]) == Feed(Parsed(s[..k]), s[k])
  {
    assert s[..k + 1][..k] == s[..k];
  }

  // The byte-wise parser completes an event exactly when the lines dispatch one.
  lemma EventIsDispatched(s: Bytes)
    ensures HasEvent(s) <==> Dispatches(Lines(s, []), false)
  {
    assert s[..0] == [] && s[0..] == s;
    EventFrom(s, 0);
  }

  // The same from any position that is not inside a CR LF pair.
  lemma {:induction false} EventFrom(s: Bytes, k: nat)
    requires k <= |s| && (k < |s| && Parsed(s[..k]).cr ==> s[k] != LF)
    ensures Dispatches(Lines(s[k..], Parsed(s[..k]).line), Parsed(s[..k]).data) <==>
            exists i: nat | k <= i < |s| :: CompletesAt(s, i)
    decreases |s| - k
  {
    if k < |s| {
      var pair := s[k] == CR && k + 1 < |s| && s[k + 1] == LF;
      var next := if pair then k + 2 else k + 1;
      assert s[k..][1..] == s[k + 1..];
      assert pair ==> s[k..][2..] == s[k + 2..];
      ParsedSnoc(s, k);
      if pair {
        ParsedSnoc(s, k + 1);
        assert !CompletesAt(s, k + 1);
      }
      EventFrom(s, next);
      LineStep(s, k, next);
    }
  }

  // One line end, or one byte of a line.
  lemma LineStep(s: Bytes, k: nat, next: nat)
    requires k < |s| && (Parsed(s[..k]).cr ==> s[k] != LF)
    requires next == if s[k] == CR && k + 1 < |s| && s[k + 1] == LF then k + 2 else k + 1
    ensures var p, q := Parsed(s[..k]), Parsed(s[..next]);
            Dispatches(Lines(s[k..], p.line), p.data) <==> CompletesAt(s, k) || Dispatches(Lines(s[next..], q.line), q.data)
  {
    ParsedSnoc(s, k);
    assert s[k..][1..] == s[k + 1..];
    if next == k + 2 {
      ParsedSnoc(s, k + 1);
      assert s[k..][2..] == s[k + 2..];
    }
    if s[k] == LF || s[k] == CR {
      var line, rest := Parsed(s[..k]).line, Lines(s[next..], []);
      assert Lines(s[k..], line) == [line] + rest;
      assert ([line] + rest)[1..] == rest;
    }
  }

  // ---- The loop ----

  // The position just after the chunk that ReadBytes('\n') returns from pos.
  function ChunkEnd(input: Bytes, pos: nat): (end: nat)
    requires pos < |input|
    ensures pos < end <= |input|
    ensures forall i | pos <= i < end - 1 :: input[i] != LF
    ensures input[end - 1] == LF || end == |input|
    decreases |input| - pos
  {
    if input[pos] == LF || pos + 1 == |input| then pos + 1 else ChunkEnd(input, pos + 1)
  }

  // What has been written, and how much of it was written at the last flush.
  datatype Progress = Progress(pos: nat, mark: nat)

  function Advance(input: Bytes, p: Progress): Progress
    requires p.pos < |input|
  {
    var end := ChunkEnd(input, p.pos);
    Progress(end, if input[p.pos..end] == [LF] then end else p.mark)
  }

  // The progress after each iteration, for a client that accepts every write.
  function Trace(input: Bytes, p: Progress): seq<Progress>
    decreases |input| - p.pos
  {
    if p.pos < |input| then
      var q := Advance(input, p);
      [q] + Trace(input, q)
    else
      []
  }

  // What a byte leaves behind.
  lemma {:induction false} AfterByte(s: Bytes, k: nat)
    requires 0 < k <= |s|
    ensures var p := Parsed(s[..k]);
            && (p.line == [] <==> s[k - 1] == LF || s[k - 1] == CR)
            && (p.cr <==> s[k - 1] == CR)
  {
    ParsedSnoc(s, k - 1);
    if k > 1 {
      AfterByte(s, k - 1);
    }
  }

  // From a point where a block starts, the parser starts afresh.
  lemma {:induction false} ParsedFrom(s: Bytes, m: nat, k: nat)
    requires m <= k <= |s| && Parsed(s[..m]) == START
    ensures Parsed(s[m..k]) == Parsed(s[..k])
    decreases k
  {
    if m < k {
      ParsedFrom(s, m, k - 1);
      ParsedSnoc(s, k - 1);
      assert s[m..k][..k - 1 - m] == s[m..k - 1];
    } else {
      assert s[m..k] == [];
    }
  }

  // Between iterations: what was written last is a whole line, a block starts at
  // the mark, and no event that a lone LF ends is unflushed.
  ghost predicate Between(input: Bytes, p: Progress) {
    && p.mark <= p.pos <= |input|
    && Parsed(input[..p.mark]) == START
    && (p.pos == 0 || p.pos == |input| || input[p.pos - 1] == LF)
    && forall i: nat | p.mark <= i < p.pos && input[i] == LF :: !CompletesAt(input, i)
  }

  // After a whole line, a lone LF ends the block.
  lemma LoneLfEndsBlock(input: Bytes, pos: nat)
    requires pos < |input| && input[pos] == LF && (pos == 0 || input[pos - 1] == LF)
    ensures Parsed(input[..pos + 1]) == START
  {
    ParsedSnoc(input, pos);
    if pos > 0 {
      AfterByte(input, pos);
    } else {
      assert input[..pos] == [];
    }
  }

  lemma AdvanceKeepsBetween(input: Bytes, p: Progress)
    requires Between(input, p) && p.pos < |input|
    ensures Between(input, Advance(input, p))
  {
    var q := Advance(input, p);
    AdvanceIs(input, p);
    if q.pos == p.pos + 1 && input[p.pos] == LF {
      LoneLfEndsBlock(input, p.pos);
    } else if input[q.pos - 1] == LF {
      AfterByte(input, q.pos - 1);
    }
  }

  // The mark moves behind a chunk that is a lone LF.
  lemma AdvanceIs(input: Bytes, p: Progress)
    requires p.pos < |input|
    ensures var end := ChunkEnd(input, p.pos);
            Advance(input, p) == Progress(end, if end == p.pos + 1 && input[p.pos] == LF then end else p.mark)
  {
    LoneByte(input, p.pos, ChunkEnd(input, p.pos));
  }

  lemma LoneByte(s: Bytes, from: nat, to: nat)
    requires from < to <= |s|
    ensures s[from..to] == [LF] <==> to == from + 1 && s[from] == LF
  {
    assert |s[from..to]| == to - from && s[from..to][0] == s[from];
  }

  // Some event of the stream is ended by a CR.
  ghost predicate CrEndsEvent(input: Bytes) {
    exists i: nat | i < |input| :: input[i] == CR && CompletesAt(input, i)
  }

  // No complete event is left unflushed.
  ghost predicate Prompt(input: Bytes, p: Progress) {
    p.mark <= p.pos <= |input| && !HasEvent(input[p.mark..p.pos])
  }

  // The same after every iteration from p on.
  ghost predicate AlwaysPrompt(input: Bytes, p: Progress) {
    forall q | q in Trace(input, p) :: Prompt(input, q)
  }

  // Unflushed bytes hold an event exactly when the stream completes one there.
  lemma EventInPending(input: Bytes, p: Progress, i: nat)
    requires Between(input, p) && p.mark <= i < p.pos
    ensures CompletesAt(input[p.mark..p.pos], i - p.mark) <==> CompletesAt(input, i)
  {
    ParsedFrom(input, p.mark, i);
    Within(input, p.mark, i, p.pos);
  }

  lemma Within(s: Bytes, from: nat, i: nat, to: nat)
    requires from <= i < to <= |s|
    ensures s[from..to][..i - from] == s[from..i] && s[from..to][i - from] == s[i]
  {
  }

  lemma NoCrMeansPrompt(input: Bytes, p: Progress)
    requires Between(input, p) && !CrEndsEvent(input)
    ensures Prompt(input, p)
  {
    var pending := input[p.mark..p.pos];
    forall i: nat | i < |pending|
      ensures !CompletesAt(pending, i)
    {
      EventInPending(input, p, p.mark + i);
    }
  }

  lemma {:induction false} PromptFrom(input: Bytes, p: Progress)
    requires Between(input, p) && !CrEndsEvent(input)
    ensures AlwaysPrompt(input, p)
    decreases |input| - p.pos
  {
    if p.pos < |input| {
      var q := Advance(input, p);
      AdvanceKeepsBetween(input, p);
      NoCrMeansPrompt(input, q);
      PromptFrom(input, q);
    }
  }

  // An event that a CR ends is complete and unflushed after the iteration that
  // copies the CR.
  lemma {:induction false} CrDelays(input: Bytes, p: Progress, i: nat)
    requires Between(input, p) && p.pos <= i < |input| && input[i] == CR && CompletesAt(input, i)
    ensures !AlwaysPrompt(input, p)
    decreases |input| - p.pos
  {
    var q := Advance(input, p);
    AdvanceKeepsBetween(input, p);
    assert q in Trace(input, p);
    if i < q.pos {
      assert input[p.pos..q.pos][i - p.pos] == CR;
      EventInPending(input, q, i);
    } else {
      CrDelays(input, q, i);
      var r :| r in Trace(input, q) && !Prompt(input, r);
      assert r in Trace(input, p);
    }
  }

  // Events reach the browser without delay, on every stream, exactly when none
  // of them is ended by a CR. LF-terminated streams qualify.
  lemma PromptIffNoCrEndsEvent(input: Bytes)
    ensures AlwaysPrompt(input, Progress(0, 0)) <==> !CrEndsEvent(input)
  {
    assert input[..0] == [];
    if CrEndsEvent(input) {
      var i: nat :| i < |input| && input[i] == CR && CompletesAt(input, i);
      CrDelays(input, Progress(0, 0), i);
    } else {
      PromptFrom(input, Progress(0, 0));
    }
  }

  // One line of text.
  predicate OneLine(line: Bytes) {
    LF !in line && CR !in line
  }

  lemma {:induction false} ParsedText(line: Bytes)
    requires OneLine(line)
    ensures Parsed(line) == Parser(line, false, false)
  {
    if line != [] {
      var k := |line| - 1;
      assert line == line[..k] + [line[k]];
      ParsedText(line[..k]);
    }
  }

  // The frame is the line with its end and a blank line that ends the same way.
  predicate Framed(line: Bytes, frame: Bytes, crlf: bool) {
    var n := |line|;
    && OneLine(line) && line != [] && line <= frame
    && if crlf then |frame| == n + 4 && frame[n] == frame[n + 2] == CR && frame[n + 1] == frame[n + 3] == LF
       else |frame| == n + 2 && frame[n] == frame[n + 1] == LF
  }

  lemma FrameParsed(line: Bytes, frame: Bytes, crlf: bool)
    requires Framed(line, frame, crlf)
    ensures Parsed(frame[..|line|]) == Parser(line, false, false)
    ensures Parsed(frame[..|line| + 1]) == Parser([], crlf, IsData(line))
    ensures crlf ==> Parsed(frame[..|line| + 2]) == Parser([], false, IsData(line)) && Parsed(frame[..|line| + 3]).cr
  {
    assert frame[..|line|] == line;
    ParsedText(line);
    ParsedSnoc(frame, |line|);
    if crlf {
      ParsedSnoc(frame, |line| + 1);
      ParsedSnoc(frame, |line| + 2);
    }
  }

  // Nothing is complete before the blank line.
  lemma FrameCompletes(line: Bytes, frame: Bytes, crlf: bool, i: nat)
    requires Framed(line, frame, crlf) && i < |frame|
    ensures CompletesAt(frame, i) <==> i == |line| + (if crlf then 2 else 1) && IsData(line)
  {
    if i < |line| {
      NothingInLine(line, frame, i);
    } else {
      FrameParsed(line, frame, crlf);
    }
  }

  lemma NothingInLine(line: Bytes, frame: Bytes, i: nat)
    requires OneLine(line) && line <= frame && i < |line|
    ensures !CompletesAt(frame, i)
  {
    assert frame[..i] == line[..i] && frame[i] == line[i];
    ParsedText(line[..i]);
  }

  // A line followed by a blank line is an event exactly when it is a data field.
  lemma FrameIsEvent(line: Bytes, frame: Bytes, crlf: bool)
    requires Framed(line, frame, crlf)
    ensures HasEvent(frame) <==> line == "data" || "data:" <= line
  {
    var k := |line| + if crlf then 2 else 1;
    FrameCompletes(line, frame, crlf, k);
    assert IsData(line) <==> CompletesAt(frame, k);
    if i: nat :| i < |frame| && CompletesAt(frame, i) {
      FrameCompletes(line, frame, crlf, i);
    }
    assert IsData(line) ==> HasEvent(frame);
    DataLines(line);
  }

  lemma DataLines(line: Bytes)
    ensures IsData(line) <==> line == "data" || "data:" <= line
  {
  }

  // The loop has flushed it when it has copied the frame, if the lines end in LF,
  // and never does if they end in CR LF.
  lemma FrameIsFlushedIff(line: Bytes, frame: Bytes, crlf: bool)
    requires Framed(line, frame, crlf)
    ensures var k := |line| + if crlf then 2 else 1;
            Trace(frame, Progress(0, 0)) == [Progress(k, 0), Progress(|frame|, if crlf then 0 else |frame|)]
  {
    assert forall i | 0 <= i < |line| :: frame[i] == line[i];
    TwoChunks(frame, |line| + if crlf then 2 else 1);
  }

  // An event whose lines end in CR LF is copied in full and never flushed.
  lemma CrLfEventIsNotFlushed(line: Bytes, frame: Bytes)
    requires Framed(line, frame, true) && (line == "data" || "data:" <= line)
    ensures HasEvent(frame) && Trace(frame, Progress(0, 0)) == [Progress(|frame| - 2, 0), Progress(|frame|, 0)]
  {
    FrameIsEvent(line, frame, true);
    FrameIsFlushedIff(line, frame, true);
  }

  // Two lines, of which the second starts at k.
  lemma TwoChunks(frame: Bytes, k: nat)
    requires 1 < k < |frame| && frame[k - 1] == LF && frame[|frame| - 1] == LF
    requires forall i | 0 <= i < |frame| - 1 && i != k - 1 :: frame[i] != LF
    ensures Trace(frame, Progress(0, 0)) ==
            [Progress(k, 0), Progress(|frame|, if |frame| == k + 1 then |frame| else 0)]
  {
    var first := Advance(frame, Progress(0, 0));
    AdvanceIs(frame, Progress(0, 0));
    assert first.pos == k;
    var second := Advance(frame, first);
    AdvanceIs(frame, first);
    assert Trace(frame, second) == [];
    assert Trace(frame, first) == [second];
  }

  // The client side of the response: it accepts `room` bytes before breaking,
  // or any number when there is no limit.
  class ResponseWriter {
    const room: Option<nat>
    var written: Bytes
    var flushed: nat

    constructor (room: Option<nat>)
      ensures this.room == room && written == [] && flushed == 0
    {
      this.room := room;
      written := [];
      flushed := 0;
    }

    predicate Accepts(n: nat)
      reads this
    {
      room == None || |written| + n <= room.value
    }

    // A failed write may still have delivered the first bytes of the line.
    method Write(line: Bytes) returns (ok: bool)
      requires Accepts(0)
      modifies this`written
      ensures Accepts(0)
      ensures ok == old(Accepts(|line|))
      ensures ok ==> written == old(written) + line
      ensures !ok ==> |written| == room.value && written <= old(written) + line
    {
      ok := Accepts(|line|);
      written := written + if ok then line else line[..room.value - |written|];
    }

    method Flush()
      modifies this`flushed
      ensures flushed == |written|
    {
      flushed := |written|;
    }

    // One iteration: write the line, and flush it if it is a lone LF.
    method Pass(line: Bytes) returns (ok: bool)
      requires Accepts(0)
      modifies this`written, this`flushed
      ensures Accepts(0) && ok == old(Accepts(|line|))
      ensures ok ==> written == old(written) + line && flushed == if line == [LF] then |written| else old(flushed)
      ensures !ok ==> |written| == room.value && written <= old(written) + line && flushed == old(flushed)
    {
      ok := Write(line);
      if ok && |line| == 1 && line[0] == LF {
        Flush();
      }
    }
  }

  // The progress after each of the first passes, the last of them being p.
  ghost predicate Passes(input: Bytes, done: seq<Progress>, p: Progress) {
    && Between(input, p)
    && done + Trace(input, p) == Trace(input, Progress(0, 0))
    && p == LastOf(done)
  }

  function LastOf(done: seq<Progress>): Progress {
    if done == [] then Progress(0, 0) else done[|done| - 1]
  }

  lemma PassesStart(input: Bytes)
    ensures Passes(input, [], Progress(0, 0))
  {
    assert input[..0] == [];
  }

  lemma PassesPrefix(input: Bytes, done: seq<Progress>, p: Progress)
    requires Passes(input, done, p)
    ensures done <= Trace(input, Progress(0, 0)) && p.mark == LastOf(done).mark
  {
  }

  lemma PassesStep(input: Bytes, done: seq<Progress>, p: Progress)
    requires Passes(input, done, p) && p.pos < |input|
    ensures Passes(input, done + [Advance(input, p)], Advance(input, p))
  {
    AdvanceKeepsBetween(input, p);
    var q := Advance(input, p);
    Associates(done, [q], Trace(input, q));
  }

  lemma Associates(a: seq<Progress>, b: seq<Progress>, c: seq<Progress>)
    ensures (a + b) + c == a + (b + c)
  {
  }

  // One iteration of the loop, from a position where a line starts.
  method CopyLine(input: Bytes, pos: nat, out: ResponseWriter) returns (ok: bool, end: nat)
    requires pos < |input| && out.written == input[..pos] && out.Accepts(0)
    modifies out`written, out`flushed
    ensures end == ChunkEnd(input, pos) && out.Accepts(0)
    ensures ok ==> out.written == input[..end]
    ensures ok ==> out.flushed == if input[pos..end] == [LF] then end else old(out.flushed)
    ensures !ok ==> out.room.Some? && |out.written| == out.room.value < |input| && out.written <= input
    ensures !ok ==> out.flushed == old(out.flushed)
  {
    end := ChunkEnd(input, pos);
    assert input[..pos] + input[pos..end] == input[..end];
    ok := out.Pass(input[pos..end]);
  }

  // EventsStream from the point where the upstream body is open. `passes`
  // records the progress after each completed iteration.
  method CopyEvents(input: Bytes, out: ResponseWriter) returns (ghost passes: seq<Progress>)
    requires out.written == [] && out.flushed == 0
    modifies out`written, out`flushed
    ensures out.written <= input
    ensures out.written == input <==> (out.room == None || |input| <= out.room.value)
    ensures out.written != input ==> |out.written| == out.room.value
    ensures passes <= Trace(input, Progress(0, 0))
    ensures out.flushed == LastOf(passes).mark
    ensures out.written == input ==> Passes(input, passes, Progress(|input|, out.flushed))
  {
    passes := [];
    var pos := 0;
    ghost var here := Progress(0, 0);
    PassesStart(input);
    while pos < |input|
      invariant pos == here.pos && Passes(input, passes, here)
      invariant out.written == input[..pos] && out.flushed == here.mark && out.Accepts(0)
      decreases |input| - pos
    {
      PassesPrefix(input, passes, here);
      PassesStep(input, passes, here);
      var ok, end := CopyLine(input, pos, out);
      if !ok {
        return;
      }
      here := Advance(input, here);
      passes := passes + [here];
      pos := end;
    }
    PassesPrefix(input, passes, here);
  }
}
